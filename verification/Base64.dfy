/** Standard base64 with padding, and decoding it. */
module Base64 {
  import opened Text

  type Byte = b: int | 0 <= b < 256

  const CAPITALS: string := "ABCDEFGHIJKLMNOPQRSTUVWXYZ"
  const SMALLS: string := "abcdefghijklmnopqrstuvwxyz"
  const DIGITS_AND_SIGNS: string := "0123456789+/"
  const ALPHABET := CAPITALS + SMALLS + DIGITS_AND_SIGNS

  // ----- the program -----

  function ByteAt(chunk: seq<Byte>, i: nat): int {
    if i < |chunk| then chunk[i] else 0
  }

  /** Up to three bytes as one number of 24 bits. */
  function Triple(chunk: seq<Byte>): int {
    ByteAt(chunk, 0) * 0x1_0000 + ByteAt(chunk, 1) * 0x100 + ByteAt(chunk, 2)
  }

  /** Six bits of the 24, from the left. */
  function Sextet(triple: int, position: nat): (s: int)
    requires position < 4
    ensures 0 <= s < 64
  {
    var unit := if position == 0 then 0x4_0000 else if position == 1 then 0x1000 else if position == 2 then 0x40 else 1;
    triple / unit % 64
  }

  function Letter(chunk: seq<Byte>, position: nat): char
    requires position < 4
  {
    if position <= |chunk| then ALPHABET[Sextet(Triple(chunk), position)] else '='
  }

  function Quad(chunk: seq<Byte>): (quad: string)
    ensures |quad| == 4
  {
    [Letter(chunk, 0), Letter(chunk, 1), Letter(chunk, 2), Letter(chunk, 3)]
  }

  function Chunk(bytes: seq<Byte>): seq<Byte> {
    if |bytes| < 3 then bytes else bytes[..3]
  }

  function Encoded(bytes: seq<Byte>): string {
    if bytes == [] then [] else Quad(Chunk(bytes)) + Encoded(bytes[|Chunk(bytes)|..])
  }

  method Encode(bytes: seq<Byte>) returns (text: string)
    ensures text == Encoded(bytes)
    ensures Decoded(text) == Some(bytes)
  {
    hide Quad, Decoded;
    text := [];
    var at := 0;
    while at < |bytes|
      invariant 0 <= at <= |bytes|
      invariant text + Encoded(bytes[at..]) == Encoded(bytes)
    {
      var chunk := Chunk(bytes[at..]);
      ghost var rest := Encoded(bytes[at + |chunk|..]);
      assert bytes[at..][|chunk|..] == bytes[at + |chunk|..];
      assert text + (Quad(chunk) + rest) == (text + Quad(chunk)) + rest;
      text := PushQuad(text, chunk);
      at := at + |chunk|;
    }
    assert text + [] == text;
    DecodesBack(bytes);
  }

  method PushQuad(text: string, chunk: seq<Byte>) returns (longer: string)
    ensures longer == text + Quad(chunk)
  {
    hide Letter;
    longer := text;
    for position := 0 to 4
      invariant longer == text + Quad(chunk)[..position]
    {
      longer := longer + [Letter(chunk, position)];
    }
  }

  /** The room a save reserves for a file. `isText` stands for the test whether
      the bytes are UTF-8; only other bytes are sent in base64. */
  function SentSize(bytes: seq<Byte>, isText: bool): nat {
    if isText then |bytes| else SentLength(|bytes|)
  }

  /** Four for every three, rounded up. */
  function SentLength(bytes: nat): nat {
    (bytes + 2) / 3 * 4
  }

  // ----- decoding: section 4 of RFC 4648 -----

  predicate IsLetter(c: char) {
    'A' <= c <= 'Z' || 'a' <= c <= 'z' || '0' <= c <= '9' || c == '+' || c == '/'
  }

  function Value(c: char): (v: int)
    requires IsLetter(c)
    ensures 0 <= v < 64
  {
    if 'A' <= c <= 'Z' then c as int - 'A' as int
    else if 'a' <= c <= 'z' then c as int - 'a' as int + 26
    else if '0' <= c <= '9' then c as int - '0' as int + 52
    else if c == '+' then 62 else 63
  }

  /** The bytes of one group of four, whose unused bits must be zero. */
  function QuadDecoded(a: char, b: char, c: char, d: char): Option<seq<Byte>> {
    if !IsLetter(a) || !IsLetter(b) then None
    else if c == '=' then
      if d == '=' && Value(b) % 16 == 0 then Some([Value(a) * 4 + Value(b) / 16]) else None
    else if !IsLetter(c) then None
    else if d == '=' then
      if Value(c) % 4 == 0
      then Some([Value(a) * 4 + Value(b) / 16, Value(b) % 16 * 16 + Value(c) / 4]) else None
    else if !IsLetter(d) then None
    else Some([Value(a) * 4 + Value(b) / 16, Value(b) % 16 * 16 + Value(c) / 4, Value(c) % 4 * 64 + Value(d)])
  }

  /** Groups of four, only the last of which may be padded. */
  function Decoded(text: string): Option<seq<Byte>> {
    if text == [] then Some([])
    else if |text| < 4 then None
    else
      var first := QuadDecoded(text[0], text[1], text[2], text[3]);
      if first.None? || (|first.value| < 3 && |text| > 4) then None
      else
        var rest := Decoded(text[4..]);
        if rest.None? then None else Some(first.value + rest.value)
  }

  // ----- they agree -----

  lemma LetterSpans(v: int)
    ensures 0 <= v < 26 ==> CAPITALS[v] as int == 'A' as int + v && SMALLS[v] as int == 'a' as int + v
    ensures 0 <= v < 10 ==> DIGITS_AND_SIGNS[v] as int == '0' as int + v
  {
    if 0 <= v < 26 {
      assert v < 13 ==> v in {0, 1, 2, 3, 4, 5, 6, 7, 8, 9, 10, 11, 12};
      assert v >= 13 ==> v in {13, 14, 15, 16, 17, 18, 19, 20, 21, 22, 23, 24, 25};
    }
  }

  lemma AlphabetValues(v: int)
    requires 0 <= v < 64
    ensures IsLetter(ALPHABET[v]) && Value(ALPHABET[v]) == v && ALPHABET[v] != '='
  {
    LetterSpans(v);
    LetterSpans(v - 26);
    LetterSpans(v - 52);
    if v < 26 {
      assert ALPHABET[v] == CAPITALS[v];
    } else if v < 52 {
      assert ALPHABET[v] == SMALLS[v - 26];
    } else {
      assert ALPHABET[v] == DIGITS_AND_SIGNS[v - 52];
      assert v < 62 || v == 62 || v == 63;
    }
  }

  lemma LettersAreAlphabet(c: char)
    requires IsLetter(c)
    ensures ALPHABET[Value(c)] == c
  {
    AlphabetValues(Value(c));
  }

  /** The four sextets are cut from the bytes. */
  lemma SextetsOf(chunk: seq<Byte>)
    ensures var t, a, b, c := Triple(chunk), ByteAt(chunk, 0), ByteAt(chunk, 1), ByteAt(chunk, 2);
      && Sextet(t, 0) == a / 4 && Sextet(t, 1) == a % 4 * 16 + b / 16
      && Sextet(t, 2) == b % 16 * 4 + c / 64 && Sextet(t, 3) == c % 64
  {
    var t, a, b, c := Triple(chunk), ByteAt(chunk, 0), ByteAt(chunk, 1), ByteAt(chunk, 2);
    hide ByteAt;
    Quotients(t, a / 4, a % 4 * 0x1_0000 + b * 0x100 + c, a * 16 + b / 16, b % 16 * 0x100 + c,
              a * 1024 + b * 4 + c / 64, c % 64);
    Remainder(a * 16 + b / 16, a / 4, a % 4 * 16 + b / 16);
    Remainder(a * 1024 + b * 4 + c / 64, a * 16 + b / 16, b % 16 * 4 + c / 64);
    Remainder(t, a * 1024 + b * 4 + c / 64, c % 64);
    Remainder(a / 4, 0, a / 4);
  }

  lemma Quotients(t: int, q0: int, r0: int, q1: int, r1: int, q2: int, r2: int)
    requires 0 <= r0 < 0x4_0000 && 0 <= r1 < 0x1000 && 0 <= r2 < 0x40
    requires t == 0x4_0000 * q0 + r0 && t == 0x1000 * q1 + r1 && t == 0x40 * q2 + r2
    ensures t / 0x4_0000 == q0 && t / 0x1000 == q1 && t / 0x40 == q2
  {
  }

  lemma Remainder(x: int, q: int, r: int)
    requires 0 <= r < 64 && x == 64 * q + r
    ensures x % 64 == r
  {
  }

  /** Three bytes from their sextets. */
  lemma BytesBack(a: Byte, b: Byte, c: Byte)
    ensures a / 4 * 4 + (a % 4 * 16 + b / 16) / 16 == a
    ensures (a % 4 * 16 + b / 16) % 16 * 16 + (b % 16 * 4 + c / 64) / 4 == b
    ensures (b % 16 * 4 + c / 64) % 4 * 64 + c % 64 == c
    ensures b == 0 ==> (a % 4 * 16 + b / 16) % 16 == 0
    ensures c == 0 ==> (b % 16 * 4 + c / 64) % 4 == 0
  {
    assert (a % 4 * 16 + b / 16) / 16 == a % 4 && (a % 4 * 16 + b / 16) % 16 == b / 16;
    assert (b % 16 * 4 + c / 64) / 4 == b % 16 && (b % 16 * 4 + c / 64) % 4 == c / 64;
  }

  lemma QuadDecodesBack(chunk: seq<Byte>)
    requires 1 <= |chunk| <= 3
    ensures QuadDecoded(Letter(chunk, 0), Letter(chunk, 1), Letter(chunk, 2), Letter(chunk, 3)) == Some(chunk)
  {
    hide Letter, Sextet, Triple, IsLetter, Value;
    SextetsOf(chunk);
    BytesBack(ByteAt(chunk, 0), ByteAt(chunk, 1), ByteAt(chunk, 2));
    LetterValue(chunk, 0);
    LetterValue(chunk, 1);
    LetterValue(chunk, 2);
    LetterValue(chunk, 3);
    var a, b, c := ByteAt(chunk, 0), ByteAt(chunk, 1), ByteAt(chunk, 2);
    assert chunk == if |chunk| == 1 then [a] else if |chunk| == 2 then [a, b] else [a, b, c];
  }

  lemma LetterValue(chunk: seq<Byte>, i: nat)
    requires i < 4
    ensures i <= |chunk| ==> IsLetter(Letter(chunk, i)) && Value(Letter(chunk, i)) == Sextet(Triple(chunk), i)
    ensures Letter(chunk, i) == '=' <==> i > |chunk|
  {
    hide Sextet, Triple, IsLetter, Value, ALPHABET;
    AlphabetValues(Sextet(Triple(chunk), i));
  }

  lemma {:induction false} DecodesBack(bytes: seq<Byte>)
    ensures Decoded(Encoded(bytes)) == Some(bytes)
  {
    if bytes != [] {
      hide QuadDecoded, Letter, Encoded;
      var chunk := Chunk(bytes);
      var rest := bytes[|chunk|..];
      QuadDecodesBack(chunk);
      DecodesBack(rest);
      ChunkFirst(chunk, rest);
      EncodedLength(rest);
      assert chunk + rest == bytes;
      assert Encoded(bytes)[4..] == Encoded(rest);
    } else {
      assert Encoded(bytes) == [];
    }
  }

  /** One group of four letters is what its own bytes encode to. */
  lemma QuadEncodesBack(a: char, b: char, c: char, d: char)
    requires QuadDecoded(a, b, c, d).Some?
    ensures 1 <= |QuadDecoded(a, b, c, d).value| <= 3
    ensures Quad(QuadDecoded(a, b, c, d).value) == [a, b, c, d]
  {
    hide Sextet, Triple, IsLetter, Value, ALPHABET;
    var chunk := QuadDecoded(a, b, c, d).value;
    var p, q := Value(a), Value(b);
    var r := if |chunk| >= 2 then Value(c) else 0;
    var s := if |chunk| == 3 then Value(d) else 0;
    SextetsBack(p, q, r, s);
    SextetsOf(chunk);
    LettersAreAlphabet(a);
    LettersAreAlphabet(b);
    if |chunk| >= 2 {
      LettersAreAlphabet(c);
    }
    if |chunk| == 3 {
      LettersAreAlphabet(d);
    }
  }

  /** Four sextets from their bytes. */
  lemma SextetsBack(p: int, q: int, r: int, s: int)
    requires 0 <= p < 64 && 0 <= q < 64 && 0 <= r < 64 && 0 <= s < 64
    ensures var a, b, c := p * 4 + q / 16, q % 16 * 16 + r / 4, r % 4 * 64 + s;
      && a / 4 == p && a % 4 * 16 + b / 16 == q && b % 16 * 4 + c / 64 == r && c % 64 == s
      && (q % 16 == 0 ==> a % 4 * 16 == q) && (r % 4 == 0 ==> b % 16 * 4 == r)
  {
    assert (p * 4 + q / 16) / 4 == p && (p * 4 + q / 16) % 4 == q / 16;
    assert (q % 16 * 16 + r / 4) / 16 == q % 16 && (q % 16 * 16 + r / 4) % 16 == r / 4;
    assert (r % 4 * 64 + s) / 64 == r % 4 && (r % 4 * 64 + s) % 64 == s;
  }

  /** Only base64 decodes: any text that decodes is the one its bytes encode to. */
  lemma {:induction false} EncodesBack(text: string)
    requires Decoded(text).Some?
    ensures Encoded(Decoded(text).value) == text
    decreases |text|
  {
    if text == [] {
      assert Decoded(text) == Some([]);
    } else {
      hide QuadDecoded, Quad, Encoded, Decoded;
      DecodedStep(text);
      var chunk := QuadDecoded(text[0], text[1], text[2], text[3]).value;
      QuadEncodesBack(text[0], text[1], text[2], text[3]);
      EncodesBack(text[4..]);
      assert text == [text[0], text[1], text[2], text[3]] + text[4..];
      ChunkFirst(chunk, Decoded(text[4..]).value);
    }
  }

  lemma {:induction false} DecodedStep(text: string)
    requires text != [] && Decoded(text).Some?
    ensures |text| >= 4 && Decoded(text[4..]).Some?
    ensures var first := QuadDecoded(text[0], text[1], text[2], text[3]);
      && first.Some? && Decoded(text).value == first.value + Decoded(text[4..]).value
      && (|first.value| < 3 ==> Decoded(text[4..]).value == [])
  {
    hide QuadDecoded;
    if |text| == 4 {
      assert text[4..] == [];
    }
  }

  lemma {:induction false} ChunkFirst(chunk: seq<Byte>, rest: seq<Byte>)
    requires 1 <= |chunk| <= 3 && (|chunk| < 3 ==> rest == [])
    ensures Encoded(chunk + rest) == Quad(chunk) + Encoded(rest)
  {
    hide Quad;
    assert Chunk(chunk + rest) == chunk && (chunk + rest)[|chunk|..] == rest;
  }

  predicate IsPad(length: nat, bytes: nat, i: int) {
    (i == length - 1 && bytes % 3 != 0) || (i == length - 2 && bytes % 3 == 1)
  }

  lemma {:induction false} EncodedLength(bytes: seq<Byte>)
    ensures |Encoded(bytes)| == SentLength(|bytes|)
  {
    if bytes != [] {
      hide Encoded, Quad, SentLength;
      var chunk := Chunk(bytes);
      var rest := bytes[|chunk|..];
      assert chunk + rest == bytes && |rest| == if |bytes| < 3 then 0 else |bytes| - 3;
      EncodedLength(rest);
      ChunkFirst(chunk, rest);
      SentLengthGrows(|bytes|);
    }
  }

  lemma SentLengthGrows(bytes: nat)
    requires 0 < bytes
    ensures SentLength(bytes) == 4 + SentLength(if bytes < 3 then 0 else bytes - 3)
  {
  }

  /** Three bytes take four letters, and only the end is padded: by one `=`
      after two bytes left over, by two after one. */
  lemma {:induction false} LengthAndPadding(bytes: seq<Byte>)
    ensures |Encoded(bytes)| == SentLength(|bytes|) == SentSize(bytes, false)
    ensures forall i :: 0 <= i < |Encoded(bytes)| ==>
      (Encoded(bytes)[i] == '=' <==> IsPad(|Encoded(bytes)|, |bytes|, i))
  {
    EncodedLength(bytes);
    if bytes != [] {
      hide IsPad, Encoded, Quad, SentLength;
      SentLengthGrows(|bytes|);
      var chunk := Chunk(bytes);
      var rest := bytes[|chunk|..];
      LengthAndPadding(rest);
      ChunkFirst(chunk, rest);
      assert chunk + rest == bytes;
      PaddingJoins(chunk, Encoded(rest), |bytes|);
    }
  }

  lemma PaddingJoins(chunk: seq<Byte>, rest: string, bytes: nat)
    requires 1 <= |chunk| <= 3 && |chunk| <= bytes && (|chunk| < 3 ==> |chunk| == bytes)
    requires |rest| == SentLength(bytes - |chunk|)
    requires forall i :: 0 <= i < |rest| ==> (rest[i] == '=' <==> IsPad(|rest|, bytes - |chunk|, i))
    ensures forall i :: 0 <= i < |rest| + 4 ==>
      ((Quad(chunk) + rest)[i] == '=' <==> IsPad(|rest| + 4, bytes, i))
  {
    hide Letter, IsPad;
    forall i: nat | i < |rest| + 4 ensures (Quad(chunk) + rest)[i] == '=' <==> IsPad(|rest| + 4, bytes, i) {
      PadMoves(bytes, |rest|, i);
      if i < 4 {
        LetterValue(chunk, i);
        assert (Quad(chunk) + rest)[i] == Letter(chunk, i);
      }
    }
  }

  lemma PadMoves(bytes: nat, rest: nat, i: int)
    requires 0 < bytes && rest == SentLength(if bytes < 3 then 0 else bytes - 3)
    ensures 0 <= i < 4 ==> (IsPad(rest + 4, bytes, i) <==> i > (if bytes < 3 then bytes else 3))
    ensures 4 <= i < rest + 4 ==> (IsPad(rest + 4, bytes, i) <==> IsPad(rest, bytes - 3, i - 4))
  {
  }
}
