/** The rows one section of the part list shows. */
module PartRows {
  import opened Text

  /** A part's team and IPN, which name it. */
  datatype PartKey = PartKey(team: string, ipn: string)

  datatype PartSummary = PartSummary(team: string, ipn: string, mpn: string, description: string) {
    function Key(): PartKey { PartKey(team, ipn) }
  }

  datatype Load<+T> = Loading | Ready(value: T) | Failed(error: string)

  /** What follows the last row. */
  datatype SectionEnd =
    | Nothing
    | ShowAll(total: nat)
    | StillLoading
    | CouldNotLoad(error: string)
    | Capped(shown: nat, total: nat)

  /** Row `i` is the first of its key. */
  predicate IsFirst(rows: seq<PartSummary>, i: nat)
    requires i < |rows|
  {
    forall j :: 0 <= j < i ==> rows[j].Key() != rows[i].Key()
  }

  /** The rows that are the first of their key, in order. */
  function FirstOfEach(rows: seq<PartSummary>): seq<PartSummary> {
    if rows == [] then []
    else
      var n := |rows| - 1;
      FirstOfEach(rows[..n]) + if IsFirst(rows, n) then [rows[n]] else []
  }

  /** The loaded rows a section starts from, and how it ends if that says so. */
  function StartOfSection(searching: bool, loaded: Option<Load<seq<PartSummary>>>, reloading: bool)
    : (seq<PartSummary>, Option<SectionEnd>)
  {
    match loaded
    case Some(Ready(rows)) => if reloading then (rows, Some(Nothing)) else (rows, None)
    case Some(Failed(error)) => ([], Some(CouldNotLoad(error)))
    case Some(Loading) => ([], Some(StillLoading))
    case None => if searching then ([], None) else ([], Some(StillLoading))
  }

  /** Keeps a row when its key was not seen before. */
  method KeepFirsts(all: seq<PartSummary>) returns (rows: seq<PartSummary>)
    ensures rows == FirstOfEach(all)
    ensures OneRowPerPart(all, rows)
  {
    hide OneRowPerPart;
    var seen: set<PartKey> := {};
    rows := [];
    for i := 0 to |all|
      invariant rows == FirstOfEach(all[..i])
      invariant forall k :: k in seen <==> exists j :: 0 <= j < i && all[j].Key() == k
    {
      assert all[..i + 1][..i] == all[..i];
      FirstIsUnseen(all, i, seen);
      if all[i].Key() !in seen {
        rows := rows + [all[i]];
      }
      seen := seen + {all[i].Key()};
    }
    assert all[..|all|] == all;
    FirstOfEachKeepsFirsts(all);
  }

  lemma FirstIsUnseen(all: seq<PartSummary>, i: nat, seen: set<PartKey>)
    requires i < |all|
    requires forall k :: k in seen <==> exists j :: 0 <= j < i && all[j].Key() == k
    ensures IsFirst(all[..i + 1], i) <==> all[i].Key() !in seen
  {
    if all[i].Key() !in seen {
      forall j | 0 <= j < i ensures all[j].Key() != all[i].Key() {
      }
    } else {
      var j :| 0 <= j < i && all[j].Key() == all[i].Key();
      assert all[..i + 1][j].Key() == all[..i + 1][i].Key();
    }
  }

  /** The rows and the end of a section. Of the loaded parts followed by the first
      matches, the first row of each part is kept. */
  method SectionRows(searching: bool, loaded: Option<Load<seq<PartSummary>>>, reloading: bool,
                     hits: seq<PartSummary>, total: nat)
    returns (rows: seq<PartSummary>, end: SectionEnd)
    ensures rows == FirstOfEach(StartOfSection(searching, loaded, reloading).0 + hits)
    ensures OneRowPerPart((if loaded.Some? && loaded.value.Ready? then loaded.value.value else []) + hits, rows)
    ensures end == EndOfSection(searching, loaded, reloading, |rows|, total)
    ensures end.ShowAll? <==> loaded.None? && searching && |rows| < total
    ensures end.Capped? <==> loaded.Some? && loaded.value.Ready? && !reloading && |rows| < total
    ensures end.StillLoading? <==> if loaded.Some? then loaded.value.Loading? else !searching
    ensures end.CouldNotLoad? <==> loaded.Some? && loaded.value.Failed?
    ensures end.ShowAll? || end.Capped? ==> end.total == total
    ensures end.Capped? ==> end.shown == |rows|
    ensures end.CouldNotLoad? ==> end.error == loaded.value.error
  {
    hide OneRowPerPart, FirstOfEach;
    var (start, said) := StartOfSection(searching, loaded, reloading);
    var loadedAll := loaded.Some? && loaded.value.Ready?;
    rows := KeepFirsts(start + hits);
    if said.Some? {
      end := said.value;
    } else if total <= |rows| {
      end := Nothing;
    } else if loadedAll {
      end := Capped(|rows|, total);
    } else {
      end := ShowAll(total);
    }
  }

  /** What each end promises: all loaded rows that are current and fall short
      say so, Show all is only offered while nothing is loaded, and a section
      loading for the first time says it is loading. */
  function EndOfSection(searching: bool, loaded: Option<Load<seq<PartSummary>>>, reloading: bool,
                        shown: nat, total: nat): SectionEnd
  {
    match loaded
    case Some(Ready(_)) =>
      if reloading || total <= shown then Nothing else Capped(shown, total)
    case Some(Failed(error)) => CouldNotLoad(error)
    case Some(Loading) => StillLoading
    case None =>
      if !searching then StillLoading else if total <= shown then Nothing else ShowAll(total)
  }

  /** `kept` has no two rows of one part, has the first row of each part of
      `rows` and nothing else, in the order of `rows`. */
  ghost predicate OneRowPerPart(rows: seq<PartSummary>, kept: seq<PartSummary>) {
    && (forall i, j :: 0 <= i < j < |kept| ==> kept[i].Key() != kept[j].Key())
    && exists places: seq<nat> ::
         && |places| == |kept|
         && (forall i, j :: 0 <= i < j < |places| ==> places[i] < places[j])
         && (forall i :: 0 <= i < |places| ==> places[i] < |rows| && rows[places[i]] == kept[i])
         && (forall k: nat :: k < |rows| ==> (k in places <==> IsFirst(rows, k)))
  }

  /** Where the first row of each key is. */
  ghost function FirstPlaces(rows: seq<PartSummary>): seq<nat> {
    if rows == [] then []
    else
      var n := |rows| - 1;
      FirstPlaces(rows[..n]) + if IsFirst(rows, n) then [n] else []
  }

  lemma {:induction false} FirstPlacesAre(rows: seq<PartSummary>)
    ensures var places, kept := FirstPlaces(rows), FirstOfEach(rows);
      && |places| == |kept|
      && (forall i, j :: 0 <= i < j < |places| ==> places[i] < places[j])
      && (forall i :: 0 <= i < |places| ==> places[i] < |rows| && rows[places[i]] == kept[i])
      && (forall k: nat :: k < |rows| ==> (k in places <==> IsFirst(rows, k)))
  {
    if rows != [] {
      var n := |rows| - 1;
      FirstPlacesAre(rows[..n]);
      var before, places := FirstPlaces(rows[..n]), FirstPlaces(rows);
      forall k: nat | k < |rows| ensures k in places <==> IsFirst(rows, k) {
        if k < n {
          assert IsFirst(rows[..n], k) <==> IsFirst(rows, k);
        }
      }
    }
  }

  lemma {:induction false} FirstOfEachKeepsFirsts(rows: seq<PartSummary>)
    ensures OneRowPerPart(rows, FirstOfEach(rows))
  {
    FirstPlacesAre(rows);
    var places, kept := FirstPlaces(rows), FirstOfEach(rows);
    forall i, j | 0 <= i < j < |kept| ensures kept[i].Key() != kept[j].Key() {
      assert places[j] in places && IsFirst(rows, places[j]);
    }
  }
}
