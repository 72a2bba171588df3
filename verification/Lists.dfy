/** Choices in one text, separated by `;`: writing, reading and what reads back. */
module Lists {
  import opened Text

  /** The pieces of `s` between `;`s: one piece for a text without any. */
  function Split(s: string): (pieces: seq<string>)
    ensures pieces != []
    ensures forall p :: p in pieces ==> ';' !in p
  {
    if s == [] then [[]]
    else if s[0] == ';' then [[]] + Split(s[1..])
    else
      var rest := Split(s[1..]);
      [[s[0]] + rest[0]] + rest[1..]
  }

  function Join(items: seq<string>): string {
    if items == [] then []
    else if |items| == 1 then items[0]
    else items[0] + ";" + Join(items[1..])
  }

  /** The pieces trimmed, without the blank ones. */
  function Kept(pieces: seq<string>): (kept: seq<string>)
    ensures forall k :: k in kept ==> k != [] && IsTrimmed(k) && exists p :: p in pieces && k == Trim(p)
  {
    if pieces == [] then []
    else (if Trim(pieces[0]) != [] then [Trim(pieces[0])] else []) + Kept(pieces[1..])
  }

  /** The choices a field lists. */
  function Choices(value: string): seq<string> {
    Kept(Split(value))
  }

  lemma {:induction false} SplitFirst(a: string, rest: string)
    requires ';' !in a
    ensures Split(a + ";" + rest) == [a] + Split(rest)
    ensures Split(a) == [a]
  {
    if a == [] {
      assert a + ";" + rest == ";" + rest;
      assert (";" + rest)[1..] == rest;
    } else {
      SplitFirst(a[1..], rest);
      assert (a + ";" + rest)[1..] == a[1..] + ";" + rest;
      assert a == [a[0]] + a[1..];
      assert ([a[1..]] + Split(rest))[1..] == Split(rest);
    }
  }

  lemma {:induction false} SplitJoined(items: seq<string>)
    requires forall i :: i in items ==> ';' !in i
    ensures items != [] ==> Split(Join(items)) == items
  {
    if |items| == 1 {
      SplitFirst(items[0], []);
      assert items == [items[0]];
    } else if |items| > 1 {
      SplitFirst(items[0], Join(items[1..]));
      SplitJoined(items[1..]);
      assert items == [items[0]] + items[1..];
    }
  }

  function Trimmed(items: seq<string>): (t: seq<string>)
    ensures |t| == |items| && forall i :: 0 <= i < |t| ==> t[i] == Trim(items[i])
  {
    if items == [] then [] else [Trim(items[0])] + Trimmed(items[1..])
  }

  lemma {:induction false} KeptIsTrimmed(items: seq<string>)
    requires forall i :: i in items ==> Trim(i) != []
    ensures Kept(items) == Trimmed(items)
  {
    if items != [] {
      KeptIsTrimmed(items[1..]);
    }
  }

  lemma {:induction false} TrimKeepsSemicolon(s: string)
    ensures ';' in Trim(s) <==> ';' in s
  {
    StartKeepsSemicolon(s);
    EndKeepsSemicolon(TrimStart(s));
  }

  lemma {:induction false} StartKeepsSemicolon(s: string)
    ensures ';' in TrimStart(s) <==> ';' in s
  {
    if s != [] && IsSpace(s[0]) {
      StartKeepsSemicolon(s[1..]);
      assert s == [s[0]] + s[1..];
    }
  }

  lemma {:induction false} EndKeepsSemicolon(s: string)
    ensures ';' in TrimEnd(s) <==> ';' in s
  {
    if s != [] && IsSpace(s[|s| - 1]) {
      EndKeepsSemicolon(s[..|s| - 1]);
      assert s == s[..|s| - 1] + [s[|s| - 1]];
    }
  }

  /** Items read back, trimmed and in order, exactly when none is blank and none
      holds a `;`. */
  lemma {:induction false} ReadsBackExactly(items: seq<string>)
    ensures Choices(Join(items)) == Trimmed(items) <==> forall i :: i in items ==> Trim(i) != [] && ';' !in i
  {
    var read := Choices(Join(items));
    if forall i :: i in items ==> Trim(i) != [] && ';' !in i {
      SplitJoined(items);
      KeptIsTrimmed(items);
      if items == [] {
        assert Split([]) == [[]];
        assert Trim([]) == [];
      }
    }
    if read == Trimmed(items) {
      forall i | i in items ensures Trim(i) != [] && ';' !in i {
        var k :| 0 <= k < |items| && items[k] == i;
        assert read[k] == Trim(i) && read[k] in read;
        var p :| p in Split(Join(items)) && read[k] == Trim(p);
        TrimKeepsSemicolon(p);
        TrimKeepsSemicolon(i);
      }
    }
  }
}
