/** Writing CSS strings, and a tokenizer that reads them. */
module CssString {
  import Hex

  // ----- the program -----

  /** Unicode's control characters. */
  predicate IsControl(c: char) {
    c as int <= 0x1F || 0x7F <= c as int <= 0x9F
  }

  function Quoted1(c: char): string {
    if c == '"' || c == '\\' then ['\\', c]
    else if IsControl(c) then ['\\'] + Hex.Digits(c as int) + [' ']
    else [c]
  }

  function QuotedBody(text: string): string {
    if text == [] then [] else QuotedBody(text[..|text| - 1]) + Quoted1(text[|text| - 1])
  }

  function CssString(text: string): string {
    ['"'] + QuotedBody(text) + ['"']
  }

  method Quote(text: string) returns (quoted: string)
    ensures quoted == CssString(text)
    ensures ReadString(quoted) == Whole(Replaced(text))
    ensures ReadString(quoted) == Whole(text) <==> NUL !in text
  {
    hide ReadString, Replaced, Quoted1;
    quoted := ['"'];
    for i := 0 to |text|
      invariant quoted == ['"'] + QuotedBody(text[..i])
    {
      assert text[..i + 1][..i] == text[..i];
      quoted := Push(quoted, text[i]);
    }
    assert text[..|text|] == text;
    quoted := quoted + ['"'];
    ReadsBack(text);
  }

  method Push(quoted: string, c: char) returns (longer: string)
    ensures longer == quoted + Quoted1(c)
  {
    longer := quoted;
    if c == '"' || c == '\\' {
      longer := longer + ['\\'];
      longer := longer + [c];
    } else if IsControl(c) {
      longer := longer + (['\\'] + Hex.Digits(c as int) + [' ']);
    } else {
      longer := longer + [c];
    }
  }

  // ----- reading a string: CSS Syntax Module Level 3 -----

  const NUL: char := '\U{0000}'
  const REPLACEMENT: char := '\U{FFFD}'

  /** Section 3.3: carriage returns and form feeds become line feeds, and NUL
      becomes U+FFFD, before anything is read. */
  function Preprocessed(s: string): string {
    if s == [] then []
    else if |s| >= 2 && s[0] == '\r' && s[1] == '\n' then ['\n'] + Preprocessed(s[2..])
    else if s[0] == '\r' || s[0] == '\U{000C}' then ['\n'] + Preprocessed(s[1..])
    else if s[0] == NUL then [REPLACEMENT] + Preprocessed(s[1..])
    else [s[0]] + Preprocessed(s[1..])
  }

  predicate IsWhitespace(c: char) {
    c == '\n' || c == '\t' || c == ' '
  }

  /** At most six hexadecimal digits at the start. */
  function EscapeDigits(s: string, most: nat): (n: nat)
    ensures n <= |s| && n <= most
    ensures forall i :: 0 <= i < n ==> Hex.IsHexDigit(s[i])
  {
    if most > 0 && s != [] && Hex.IsHexDigit(s[0]) then 1 + EscapeDigits(s[1..], most - 1) else 0
  }

  /** Section 4.3.7: the code point after a backslash, and how much it takes. */
  function Escape(s: string): (r: (char, nat))
    ensures r.1 <= |s| && (s != [] ==> r.1 > 0)
  {
    if s == [] then (REPLACEMENT, 0)
    else if Hex.IsHexDigit(s[0]) then
      var n := EscapeDigits(s, 6);
      assert n > 0;
      var digits := s[..n];
      var code := Hex.Number(digits);
      var read :=
        if code == 0 || 0xD800 <= code < 0xE000 || code >= 0x11_0000 then REPLACEMENT else code as char;
      (read, if n < |s| && IsWhitespace(s[n]) then n + 1 else n)
    else (s[0], 1)
  }

  /** What reading gives: the string and what is left after it. */
  datatype Token = BadString | String(text: string, rest: string)

  /** Section 4.3.5, from after the opening quote. */
  function ReadBody(s: string): Token
    decreases |s|
  {
    if s == [] then String([], [])
    else if s[0] == '"' then String([], s[1..])
    else if s[0] == '\n' then BadString
    else if s[0] == '\\' then
      if |s| == 1 then String([], [])
      else if s[1] == '\n' then ReadBody(s[2..])
      else
        var (c, n) := Escape(s[1..]);
        Prepended(c, ReadBody(s[1 + n..]))
    else Prepended(s[0], ReadBody(s[1..]))
  }

  function Prepended(c: char, token: Token): Token {
    if token.String? then token.(text := [c] + token.text) else BadString
  }

  /** Reading `s` as one string that takes all of it. */
  datatype Reading = NotOneString | Whole(text: string)

  function ReadString(s: string): Reading {
    var input := Preprocessed(s);
    if input == [] || input[0] != '"' then NotOneString
    else
      var token := ReadBody(input[1..]);
      if token.String? && token.rest == [] then Whole(token.text) else NotOneString
  }

  // ----- it reads back -----

  /** A text as CSS can say it: NUL cannot be written. */
  function Replaced(text: string): string {
    seq(|text|, i requires 0 <= i < |text| => if text[i] == NUL then REPLACEMENT else text[i])
  }

  predicate IsPlain(c: char) {
    c != '\r' && c != '\U{000C}' && c != NUL
  }

  lemma {:induction false} PlainStays(s: string)
    requires forall c :: c in s ==> IsPlain(c)
    ensures Preprocessed(s) == s
  {
    if s != [] {
      assert IsPlain(s[0]) by {
        assert s[0] in s;
      }
      PlainStays(s[1..]);
      assert s == [s[0]] + s[1..];
    }
  }

  lemma Quoted1IsPlain(c: char)
    ensures forall d :: d in Quoted1(c) ==> IsPlain(d)
  {
    Hex.NumberOfDigits(c as int);
  }

  lemma {:induction false} BodyIsPlain(text: string)
    ensures forall d :: d in QuotedBody(text) ==> IsPlain(d)
  {
    if text != [] {
      BodyIsPlain(text[..|text| - 1]);
      Quoted1IsPlain(text[|text| - 1]);
    }
  }

  lemma {:induction false} EscapeDigitsOf(digits: string, rest: string, most: nat)
    requires |digits| <= most && forall c :: c in digits ==> Hex.IsHexDigit(c)
    requires rest != [] && !Hex.IsHexDigit(rest[0])
    ensures EscapeDigits(digits + rest, most) == |digits|
  {
    if digits != [] {
      assert (digits + rest)[1..] == digits[1..] + rest;
      EscapeDigitsOf(digits[1..], rest, most - 1);
    } else {
      assert digits + rest == rest;
    }
  }

  lemma {:induction false} ControlIsShort(n: nat)
    requires n <= 0x9F
    ensures |Hex.Digits(n)| <= 2
  {
  }

  /** One quoted character reads as that character. */
  lemma {:induction false} ReadsOne(c: char, rest: string)
    ensures ReadBody(Quoted1(c) + rest) == Prepended(if c == NUL then REPLACEMENT else c, ReadBody(rest))
  {
    var s := Quoted1(c) + rest;
    if c == '"' || c == '\\' {
      assert s[1..][0] == c && s[2..] == rest;
    } else if IsControl(c) {
      ControlReads(c, rest);
    } else {
      assert s[1..] == rest;
    }
  }

  /** The escape of a control character, with the blank that ends it. */
  lemma {:induction false} EscapeOfControl(c: char, rest: string)
    requires IsControl(c)
    ensures var digits := Hex.Digits(c as int);
      && Escape(digits + ([' '] + rest)) == (if c == NUL then REPLACEMENT else c, |digits| + 1)
      && digits != [] && digits[0] != '\n'
  {
    hide Hex.Digits, Hex.Number;
    var digits := Hex.Digits(c as int);
    var s := digits + ([' '] + rest);
    Hex.NumberOfDigits(c as int);
    ControlIsShort(c as int);
    assert digits[0] in digits && s[0] == digits[0];
    EscapeDigitsOf(digits, [' '] + rest, 6);
    assert s[..|digits|] == digits && s[|digits|] == ' ';
  }

  lemma {:induction false} ControlReads(c: char, rest: string)
    requires IsControl(c)
    ensures ReadBody(Quoted1(c) + rest) == Prepended(if c == NUL then REPLACEMENT else c, ReadBody(rest))
  {
    hide Escape, Hex.Digits, Prepended;
    var s, digits := Quoted1(c) + rest, Hex.Digits(c as int);
    EscapeOfControl(c, rest);
    assert s[0] == '\\' && s[1..] == digits + ([' '] + rest);
    assert s[1] == digits[0] && s[|digits| + 2..] == rest;
  }

  function Before(text: string, after: Token): Token {
    if after.String? then after.(text := text + after.text) else BadString
  }

  lemma BeforeOneMore(text: string, after: Token)
    requires text != []
    ensures var last := text[|text| - 1];
      Before(Replaced(text[..|text| - 1]), Prepended(if last == NUL then REPLACEMENT else last, after))
      == Before(Replaced(text), after)
  {
    var c := if text[|text| - 1] == NUL then REPLACEMENT else text[|text| - 1];
    assert Replaced(text) == Replaced(text[..|text| - 1]) + [c];
    if after.String? {
      assert Replaced(text[..|text| - 1]) + ([c] + after.text) == Replaced(text) + after.text;
    }
  }

  lemma {:induction false} ReadsBody(text: string, rest: string)
    ensures ReadBody(QuotedBody(text) + rest) == Before(Replaced(text), ReadBody(rest))
  {
    hide ReadBody, Quoted1;
    if text == [] {
      assert QuotedBody(text) + rest == rest;
      assert ReadBody(rest).String? ==> [] + ReadBody(rest).text == ReadBody(rest).text;
    } else {
      hide Before, Replaced, Prepended;
      var most, last := text[..|text| - 1], text[|text| - 1];
      assert QuotedBody(text) + rest == QuotedBody(most) + (Quoted1(last) + rest);
      ReadsBody(most, Quoted1(last) + rest);
      ReadsOne(last, rest);
      BeforeOneMore(text, ReadBody(rest));
    }
  }

  /** The quoted text reads back whole, with U+FFFD for each NUL; so it is the
      text itself exactly when it has no NUL. */
  lemma ReadsBack(text: string)
    ensures ReadString(CssString(text)) == Whole(Replaced(text))
    ensures Replaced(text) == text <==> NUL !in text
  {
    var s := CssString(text);
    BodyIsPlain(text);
    assert forall c :: c in s ==> IsPlain(c);
    PlainStays(s);
    assert s[1..] == QuotedBody(text) + ['"'];
    ReadsBody(text, ['"']);
    assert ['"'][1..] == [];
    assert Replaced(text) + [] == Replaced(text);
    if NUL in text {
      var i :| 0 <= i < |text| && text[i] == NUL;
      assert Replaced(text)[i] == REPLACEMENT;
    }
  }

  // ----- what it looks like -----

  /** What a string cannot have as it is: the quote, the backslash, the controls. */
  predicate MustBeEscaped(c: char) {
    c == '"' || c == '\\' || c < ' ' || '\U{007F}' <= c <= '\U{009F}'
  }

  lemma Quoted1Is(c: char)
    ensures MustBeEscaped(c) ==> |Quoted1(c)| >= 2 && Quoted1(c)[0] == '\\'
    ensures !MustBeEscaped(c) ==> Quoted1(c) == [c]
    ensures forall d :: d in Quoted1(c) && d != '"' && d != '\\' ==> !MustBeEscaped(d)
  {
    hide Hex.Digits, Hex.Number;
    Hex.NumberOfDigits(c as int);
    var digits := Hex.Digits(c as int);
    assert forall d :: d in digits ==> !MustBeEscaped(d);
    assert forall d :: d in ['\\'] + digits + [' '] ==> d == '\\' || d in digits || d == ' ';
  }

  /** A text stands between the quotes as it is exactly when nothing in it must be
      escaped, and no control character ever does. */
  lemma {:induction false} TextStaysExactly(text: string)
    ensures CssString(text) == ['"'] + text + ['"'] <==> forall c :: c in text ==> !MustBeEscaped(c)
    ensures forall c :: c in CssString(text) && c != '"' && c != '\\' ==> !MustBeEscaped(c)
  {
    BodyStaysExactly(text);
    assert (['"'] + text + ['"'])[1..|text| + 1] == text;
    assert CssString(text)[1..|QuotedBody(text)| + 1] == QuotedBody(text);
  }

  lemma {:induction false} BodyStaysExactly(text: string)
    ensures QuotedBody(text) == text <==> forall c :: c in text ==> !MustBeEscaped(c)
    ensures |QuotedBody(text)| >= |text| && (QuotedBody(text) != text ==> |QuotedBody(text)| > |text|)
    ensures forall c :: c in QuotedBody(text) && c != '"' && c != '\\' ==> !MustBeEscaped(c)
  {
    hide Quoted1, MustBeEscaped;
    if text != [] {
      var rest, last := text[..|text| - 1], text[|text| - 1];
      BodyStaysExactly(rest);
      Quoted1Is(last);
      assert text == rest + [last];
      assert forall c :: c in text <==> c in rest || c == last;
    }
  }
}
