/** Texts as names: the characters a name may hold stay, and every other one is
    written as `_`, its code in hexadecimal and `_`. */
module Names {
  import Hex

  // ----- the program -----

  predicate IsSmallLetterOrDigit(c: char) {
    'a' <= c <= 'z' || '0' <= c <= '9'
  }

  /** What a file name keeps. */
  predicate KeptInFile(c: char) {
    IsSmallLetterOrDigit(c) || c == '.' || c == '-'
  }

  /** What an element ID keeps. */
  predicate KeptInId(c: char) {
    IsSmallLetterOrDigit(c) || 'A' <= c <= 'Z'
  }

  function Escaped(c: char): string {
    ['_'] + Hex.Digits(c as int) + ['_']
  }

  function FileSafe(text: string): string {
    if text == [] then []
    else (if KeptInFile(text[0]) then [text[0]] else Escaped(text[0])) + FileSafe(text[1..])
  }

  function IdPart(text: string): string {
    if text == [] then []
    else (if KeptInId(text[0]) then [text[0]] else Escaped(text[0])) + IdPart(text[1..])
  }

  // ----- reading names back -----

  /** The hexadecimal digits that `s` starts with. */
  function LeadingDigits(s: string): (n: nat)
    ensures n <= |s|
    ensures forall i :: 0 <= i < n ==> Hex.IsSmallHexDigit(s[i])
    ensures n < |s| ==> !Hex.IsSmallHexDigit(s[n])
  {
    if s != [] && Hex.IsSmallHexDigit(s[0]) then 1 + LeadingDigits(s[1..]) else 0
  }

  predicate IsScalar(n: int) {
    0 <= n < 0xD800 || 0xE000 <= n < 0x11_0000
  }

  /** The text a name stands for, if it stands for one. */
  datatype Read = NotAName | Text(text: string)

  function ReadName(name: string): Read
    decreases |name|
  {
    if name == [] then Text([])
    else if name[0] != '_' then
      match ReadName(name[1..])
      case Text(rest) => Text([name[0]] + rest)
      case NotAName => NotAName
    else
      var n := LeadingDigits(name[1..]);
      if n + 1 == |name| || name[n + 1] != '_' then NotAName
      else
        var digits := name[1..n + 1];
        assert forall c :: c in digits ==> Hex.IsHexDigit(c);
        var code := Hex.Number(digits);
        match ReadName(name[n + 2..])
        case Text(rest) => if IsScalar(code) then Text([code as char] + rest) else NotAName
        case NotAName => NotAName
  }

  lemma {:induction false} LeadingDigitsOf(digits: string, rest: string)
    requires forall c :: c in digits ==> Hex.IsSmallHexDigit(c)
    requires rest != [] && !Hex.IsSmallHexDigit(rest[0])
    ensures LeadingDigits(digits + rest) == |digits|
  {
    var s := digits + rest;
    assert s[|digits|] == rest[0];
    assert forall i :: 0 <= i < |digits| ==> s[i] in digits;
  }

  lemma {:induction false} ReadEscaped(c: char, rest: string)
    ensures ReadName(Escaped(c) + rest)
      == match ReadName(rest) case Text(text) => Text([c] + text) case NotAName => NotAName
  {
    var digits := Hex.Digits(c as int);
    var name := Escaped(c) + rest;
    Hex.NumberOfDigits(c as int);
    assert name[1..] == digits + (['_'] + rest);
    LeadingDigitsOf(digits, ['_'] + rest);
    assert name[1..|digits| + 1] == digits;
    assert name[|digits| + 1] == '_' && name[|digits| + 2..] == rest;
  }

  lemma {:induction false} FileSafeReadsBack(text: string)
    ensures ReadName(FileSafe(text)) == Text(text)
  {
    if text != [] {
      FileSafeReadsBack(text[1..]);
      if !KeptInFile(text[0]) {
        ReadEscaped(text[0], FileSafe(text[1..]));
      } else {
        assert FileSafe(text)[1..] == FileSafe(text[1..]);
      }
      assert text == [text[0]] + text[1..];
    }
  }

  lemma {:induction false} IdPartReadsBack(text: string)
    ensures ReadName(IdPart(text)) == Text(text)
  {
    if text != [] {
      IdPartReadsBack(text[1..]);
      if !KeptInId(text[0]) {
        ReadEscaped(text[0], IdPart(text[1..]));
      } else {
        assert IdPart(text)[1..] == IdPart(text[1..]);
      }
      assert text == [text[0]] + text[1..];
    }
  }

  /** `s` with the capitals A to Z made small, as file names that ignore case are compared. */
  function Small(s: string): string {
    seq(|s|, i requires 0 <= i < |s| =>
      if 'A' <= s[i] <= 'Z' then (s[i] as int + 32) as char else s[i])
  }

  lemma {:induction false} FileSafeHasOnly(text: string)
    ensures forall c :: c in FileSafe(text) ==> KeptInFile(c) || c == '_'
  {
    if text != [] {
      FileSafeHasOnly(text[1..]);
      Hex.NumberOfDigits(text[0] as int);
    }
  }

  /** Two texts never share a file name, even where capitals do not count, and
      the name holds only small letters, digits, `.`, `-` and `_`. */
  lemma {:induction false} FileNamesDiffer(a: string, b: string)
    ensures Small(FileSafe(a)) == Small(FileSafe(b)) <==> a == b
    ensures forall c :: c in FileSafe(a) ==> KeptInFile(c) || c == '_'
  {
    FileSafeHasOnly(a);
    FileSafeHasOnly(b);
    assert forall i :: 0 <= i < |FileSafe(a)| ==> FileSafe(a)[i] in FileSafe(a);
    assert forall i :: 0 <= i < |FileSafe(b)| ==> FileSafe(b)[i] in FileSafe(b);
    assert Small(FileSafe(a)) == FileSafe(a) && Small(FileSafe(b)) == FileSafe(b);
    FileSafeReadsBack(a);
    FileSafeReadsBack(b);
  }

  lemma {:induction false} IdPartHasOnly(text: string)
    ensures forall c :: c in IdPart(text) ==> KeptInId(c) || c == '_'
  {
    if text != [] {
      IdPartHasOnly(text[1..]);
      Hex.NumberOfDigits(text[0] as int);
    }
  }

  /** Two addresses never give one ID, and an ID holds only letters, digits and `_`. */
  lemma {:induction false} IdsDiffer(a: string, b: string)
    ensures IdPart(a) == IdPart(b) <==> a == b
    ensures forall c :: c in IdPart(a) ==> KeptInId(c) || c == '_'
  {
    IdPartHasOnly(a);
    IdPartReadsBack(a);
    IdPartReadsBack(b);
  }

  /** A text is its own file name exactly when it has nothing but small letters,
      digits, `.` and `-`, and is shorter than its name otherwise. */
  lemma {:induction false} FileSafeStaysExactly(text: string)
    ensures FileSafe(text) == text
      <==> forall c :: c in text ==> 'a' <= c <= 'z' || '0' <= c <= '9' || c == '.' || c == '-'
    ensures |FileSafe(text)| >= |text| && (FileSafe(text) != text ==> |FileSafe(text)| > |text|)
  {
    if text != [] {
      FileSafeStaysExactly(text[1..]);
      assert text == [text[0]] + text[1..];
      assert forall c :: c in text <==> c == text[0] || c in text[1..];
      if KeptInFile(text[0]) {
        assert FileSafe(text)[1..] == FileSafe(text[1..]);
      } else {
        assert text[0] in text && |FileSafe(text)| > |text|;
      }
    }
  }

  /** A text is its own element ID exactly when it has nothing but letters and digits. */
  lemma {:induction false} IdPartStaysExactly(text: string)
    ensures IdPart(text) == text
      <==> forall c :: c in text ==> 'a' <= c <= 'z' || 'A' <= c <= 'Z' || '0' <= c <= '9'
    ensures |IdPart(text)| >= |text| && (IdPart(text) != text ==> |IdPart(text)| > |text|)
  {
    if text != [] {
      IdPartStaysExactly(text[1..]);
      assert text == [text[0]] + text[1..];
      assert forall c :: c in text <==> c == text[0] || c in text[1..];
      if KeptInId(text[0]) {
        assert IdPart(text)[1..] == IdPart(text[1..]);
      } else {
        assert text[0] in text && |IdPart(text)| > |text|;
      }
    }
  }
}
