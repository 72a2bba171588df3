/** Finding addresses in a text: the split at the leftmost and longest ones. */
module SplitOut {
  import opened Text

  datatype Part = Part(text: string, isAddress: bool)

  // ----- the program -----

  predicate MatchesAt(text: string, i: nat, address: string) {
    i + |address| <= |text| && text[i..i + |address|] == address
  }

  /** Where `address` is first found in `rest`, from place `i` on. */
  function FindFrom(rest: string, address: string, i: nat): (at: Option<nat>)
    requires i <= |rest|
    ensures at.Some? ==> i <= at.value && MatchesAt(rest, at.value, address)
    ensures at.Some? ==> forall k: nat :: i <= k < at.value ==> !MatchesAt(rest, k, address)
    ensures at.None? ==> forall k: nat :: i <= k ==> !MatchesAt(rest, k, address)
    decreases |rest| - i
  {
    if MatchesAt(rest, i, address) then Some(i)
    else if i == |rest| then None
    else FindFrom(rest, address, i + 1)
  }

  /** An address found, and where. */
  datatype Found = Found(at: nat, address: string)

  /** `a` comes before `b`: it starts earlier, or is longer at the same place. */
  predicate Earlier(a: Found, b: Found) {
    a.at < b.at || (a.at == b.at && |a.address| > |b.address|)
  }

  /** The earliest find, and the longest of those at its place. */
  method Next(rest: string, addresses: seq<string>) returns (next: Option<Found>)
    ensures IsNext(rest, addresses, next)
    ensures next.Some? ==> next.value.address != [] && next.value.at + |next.value.address| <= |rest|
  {
    next := None;
    for k := 0 to |addresses|
      invariant IsNext(rest, addresses[..k], next)
    {
      var before := next;
      var address := addresses[k];
      if address != [] {
        var at := FindFrom(rest, address, 0);
        if at.Some? && (next.None? || Earlier(Found(at.value, address), next.value)) {
          next := Some(Found(at.value, address));
        }
      }
      OneMoreAddress(rest, addresses[..k], address, before, next);
      assert addresses[..k] + [address] == addresses[..k + 1];
    }
    assert addresses[..|addresses|] == addresses;
  }

  /** No address starts in `rest` before `next`, and none at its place is longer. */
  ghost predicate IsNext(rest: string, addresses: seq<string>, next: Option<Found>) {
    match next
    case None => forall a, k: nat :: a in addresses && a != [] ==> !MatchesAt(rest, k, a)
    case Some(found) =>
      && found.address in addresses && found.address != [] && MatchesAt(rest, found.at, found.address)
      && forall a, k: nat :: a in addresses && a != [] && MatchesAt(rest, k, a) ==>
           found.at < k || (found.at == k && |a| <= |found.address|)
  }

  lemma {:induction false} OneMoreAddress(rest: string, some: seq<string>, address: string, before: Option<Found>,
                                          next: Option<Found>)
    requires IsNext(rest, some, before)
    requires var at := FindFrom(rest, address, 0);
      next == if address != [] && at.Some? && (before.None? || Earlier(Found(at.value, address), before.value))
              then Some(Found(at.value, address)) else before
    ensures IsNext(rest, some + [address], next)
  {
    forall a, k: nat | a in some + [address] && a != [] && MatchesAt(rest, k, a)
      ensures next.Some? && (next.value.at < k || (next.value.at == k && |a| <= |next.value.address|))
    {
      if a in some {
        assert before.Some?;
      } else {
        assert a == address;
      }
    }
  }

  method Split(text: string, addresses: seq<string>) returns (parts: seq<Part>)
    ensures IsSplit(text, addresses, parts)
    ensures Joined(parts) == text
  {
    hide IsSplit, IsNext, Cut;
    parts := [];
    var rest := text;
    assert forall tail: seq<Part> :: parts + tail == tail;
    while true
      invariant forall tail :: IsSplit(rest, addresses, tail) ==> IsSplit(text, addresses, parts + tail)
      decreases |rest|
    {
      var next := Next(rest, addresses);
      if next.None? {
        break;
      }
      var at, address := next.value.at, next.value.address;
      ghost var was, before := rest, parts;
      if at > 0 {
        parts := parts + [Part(rest[..at], false)];
      }
      parts := parts + [Part(address, true)];
      rest := rest[at + |address|..];
      ghost var cut := Cut(was, next.value);
      PushesCut(before, was, next.value, parts);
      forall tail | IsSplit(rest, addresses, tail) ensures IsSplit(text, addresses, parts + tail) {
        CutIsSplit(was, addresses, next.value, tail);
        assert before + (cut + tail) == parts + tail;
      }
    }
    ghost var last := if rest != [] then [Part(rest, false)] else [];
    RestIsSplit(rest, addresses);
    assert IsSplit(text, addresses, parts + last);
    if rest != [] {
      parts := parts + [Part(rest, false)];
    } else {
      assert parts + [] == parts;
    }
    SplitJoins(text, addresses, parts);
  }

  // ----- what a split is -----

  /** An address is found at a place exactly when it stands there, between the text
      before and the text after. */
  lemma MatchesAtExactly(text: string, at: nat, address: string)
    ensures MatchesAt(text, at, address)
      <==> exists before, after :: Stands(text, before, address, after) && |before| == at
  {
    if MatchesAt(text, at, address) {
      var before, after := text[..at], text[at + |address|..];
      assert text == before + address + after;
      assert Stands(text, before, address, after);
    }
    if before, after :| Stands(text, before, address, after) && |before| == at {
      assert text[at..at + |address|] == address;
    }
  }

  ghost predicate Stands(text: string, before: string, address: string, after: string) {
    text == before + address + after
  }

  /** At place 0 of `text`, no address is longer than `address`. */
  ghost predicate LongestAtStart(text: string, addresses: seq<string>, address: string) {
    && address in addresses && address != [] && MatchesAt(text, 0, address)
    && forall a :: a in addresses && MatchesAt(text, 0, a) ==> |a| <= |address|
  }

  /** No address starts in the first `n` characters of `text`. */
  ghost predicate NoneStarts(text: string, addresses: seq<string>, n: nat) {
    forall a, k: nat :: a in addresses && a != [] && k < n ==> !MatchesAt(text, k, a)
  }

  /** The parts are the text in order; each address is the longest at its place,
      no address starts inside any other part, and two such parts never meet. */
  ghost predicate IsSplit(text: string, addresses: seq<string>, parts: seq<Part>)
    decreases |parts|
  {
    if parts == [] then text == []
    else
      var p := parts[0];
      && p.text != [] && p.text <= text
      && (if p.isAddress then LongestAtStart(text, addresses, p.text)
          else NoneStarts(text, addresses, |p.text|) && (|parts| > 1 ==> parts[1].isAddress))
      && IsSplit(text[|p.text|..], addresses, parts[1..])
  }

  function Joined(parts: seq<Part>): string {
    if parts == [] then [] else parts[0].text + Joined(parts[1..])
  }

  lemma MatchesLater(text: string, at: nat, k: nat, address: string)
    requires at <= |text|
    ensures MatchesAt(text[at..], k, address) <==> MatchesAt(text, at + k, address)
  {
    if at + k + |address| <= |text| {
      assert text[at..][k..k + |address|] == text[at + k..at + k + |address|];
    }
  }

  lemma {:induction false} AddressIsSplit(text: string, addresses: seq<string>, address: string, tail: seq<Part>)
    requires LongestAtStart(text, addresses, address)
    requires IsSplit(text[|address|..], addresses, tail)
    ensures IsSplit(text, addresses, [Part(address, true)] + tail)
  {
    assert ([Part(address, true)] + tail)[1..] == tail;
  }

  /** The parts up to the end of `next`. */
  ghost function Cut(rest: string, next: Found): seq<Part>
    requires next.at <= |rest|
  {
    (if next.at > 0 then [Part(rest[..next.at], false)] else []) + [Part(next.address, true)]
  }

  lemma PushesCut(before: seq<Part>, rest: string, next: Found, parts: seq<Part>)
    requires next.at <= |rest|
    requires parts
      == (if next.at > 0 then before + [Part(rest[..next.at], false)] else before) + [Part(next.address, true)]
    ensures parts == before + Cut(rest, next)
  {
  }

  lemma {:induction false} CutIsSplit(rest: string, addresses: seq<string>, next: Found, tail: seq<Part>)
    requires IsNext(rest, addresses, Some(next)) && next.at + |next.address| <= |rest|
    requires IsSplit(rest[next.at + |next.address|..], addresses, tail)
    ensures IsSplit(rest, addresses, Cut(rest, next) + tail)
  {
    var at, address := next.at, next.address;
    var after := rest[at..];
    forall a | a in addresses && MatchesAt(after, 0, a) ensures |a| <= |address| {
      MatchesLater(rest, at, 0, a);
    }
    MatchesLater(rest, at, 0, address);
    assert after[|address|..] == rest[at + |address|..];
    AddressIsSplit(after, addresses, address, tail);
    var addressed := [Part(address, true)] + tail;
    if at > 0 {
      var parts := [Part(rest[..at], false)] + addressed;
      assert parts[1..] == addressed && parts[1].isAddress;
      assert parts == Cut(rest, next) + tail;
    } else {
      assert after == rest;
      assert Cut(rest, next) + tail == addressed;
    }
  }

  lemma {:induction false} RestIsSplit(rest: string, addresses: seq<string>)
    requires IsNext(rest, addresses, None)
    ensures IsSplit(rest, addresses, if rest != [] then [Part(rest, false)] else [])
  {
    if rest != [] {
      assert [Part(rest, false)][1..] == [];
      assert rest[|rest|..] == [];
    }
  }

  lemma {:induction false} SplitJoins(text: string, addresses: seq<string>, parts: seq<Part>)
    requires IsSplit(text, addresses, parts)
    ensures Joined(parts) == text
    decreases |parts|
  {
    if parts != [] {
      SplitJoins(text[|parts[0].text|..], addresses, parts[1..]);
      assert text == parts[0].text + text[|parts[0].text|..];
    }
  }

  /** Part by part: which are addresses, what the others hold, and which meet. */
  lemma {:induction false} PartsAre(text: string, addresses: seq<string>, parts: seq<Part>, i: nat)
    requires IsSplit(text, addresses, parts) && i < |parts|
    ensures parts[i].isAddress ==> parts[i].text in addresses
    ensures !parts[i].isAddress ==> forall a, k: nat :: a in addresses && a != [] ==> !MatchesAt(parts[i].text, k, a)
    ensures i + 1 < |parts| ==> parts[i].isAddress || parts[i + 1].isAddress
    decreases |parts|
  {
    var p := parts[0];
    if i > 0 {
      PartsAre(text[|p.text|..], addresses, parts[1..], i - 1);
    } else if !p.isAddress {
      forall a, k: nat | a in addresses && a != [] ensures !MatchesAt(p.text, k, a) {
        if MatchesAt(p.text, k, a) {
          assert text[k..k + |a|] == p.text[k..k + |a|];
          assert MatchesAt(text, k, a);
        }
      }
    }
  }

  /** There is only one such split. */
  lemma {:induction false} SplitIsUnique(text: string, addresses: seq<string>, one: seq<Part>, other: seq<Part>)
    requires IsSplit(text, addresses, one) && IsSplit(text, addresses, other)
    ensures one == other
    decreases |one|
  {
    if one != [] && other != [] {
      SameFirst(text, addresses, one, other);
      SameFirst(text, addresses, other, one);
      assert one[0].text == other[0].text;
      SplitIsUnique(text[|one[0].text|..], addresses, one[1..], other[1..]);
      assert one == [one[0]] + one[1..] && other == [other[0]] + other[1..];
    }
  }

  lemma {:induction false} SameFirst(text: string, addresses: seq<string>, one: seq<Part>, other: seq<Part>)
    requires IsSplit(text, addresses, one) && IsSplit(text, addresses, other) && one != [] && other != []
    ensures one[0].isAddress == other[0].isAddress && |one[0].text| >= |other[0].text|
  {
    var p, q := one[0], other[0];
    assert p.isAddress == q.isAddress by {
      assert p.isAddress ==> MatchesAt(text, 0, p.text);
      assert q.isAddress ==> MatchesAt(text, 0, q.text);
    }
    if p.isAddress {
      assert MatchesAt(text, 0, q.text);
    } else if |p.text| < |q.text| {
      var rest := text[|p.text|..];
      assert |one| > 1;
      assert LongestAtStart(rest, addresses, one[1].text);
      MatchesLater(text, |p.text|, 0, one[1].text);
    }
  }
}
