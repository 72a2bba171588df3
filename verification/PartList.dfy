/** The part list's own state: open sections, the part waiting to be revealed
    and loaded parts. Each is a value with its rules, and a class whose methods
    update the value in place. */
module PartList {
  import opened Text
  import opened PartRows

  // ----- searches and answers -----

  datatype GroupBy = Category | Team {
    function Name(): string { if Category? then "Category" else "Team" }
  }

  datatype SearchRequest = SearchRequest(query: string, limit: nat, selected: Option<PartKey>,
                                         section: Option<string>, uses: Option<string>,
                                         team: Option<string>, groupBy: GroupBy)

  datatype SearchSection = SearchSection(key: string, name: string, total: nat, hits: seq<PartSummary>)

  datatype SearchResponse = SearchResponse(query: string, uses: Option<string>, total: nat,
                                           sections: seq<SearchSection>, selected: Option<string>)

  /** An answer together with its request and the version it was asked at. */
  datatype Searched = Searched(response: SearchResponse, request: SearchRequest, version: Option<nat>)

  predicate Searching(query: string) {
    Trim(query) != []
  }

  const SEPARATOR: string := "\U{001f}"

  function SearchKey(response: SearchResponse): string {
    match response.uses
    case Some(reference) => Trim(response.query) + SEPARATOR + "uses " + reference
    case None => Trim(response.query)
  }

  /** A list limited to a reference counts as a search. */
  lemma LimitedListIsASearch(response: SearchResponse)
    ensures Searching(SearchKey(response)) <==> response.uses.Some? || Searching(response.query)
  {
    match response.uses
    case Some(reference) =>
      var key := SearchKey(response);
      assert key[|Trim(response.query)| + 1] == 'u';
      NotAllSpace(key, |Trim(response.query)| + 1);
    case None =>
      TrimOfTrimmed(Trim(response.query));
  }

  lemma NotAllSpace(s: string, i: nat)
    requires i < |s| && !IsSpace(s[i])
    ensures Trim(s) != []
  {
    StartKeeps(s, i);
    EndKeeps(TrimStart(s), 0);
  }

  lemma {:induction false} StartKeeps(s: string, i: nat)
    requires i < |s| && !IsSpace(s[i])
    ensures TrimStart(s) != []
  {
    if IsSpace(s[0]) {
      StartKeeps(s[1..], i - 1);
    }
  }

  lemma {:induction false} EndKeeps(s: string, i: nat)
    requires i < |s| && !IsSpace(s[i])
    ensures TrimEnd(s) != []
  {
    if IsSpace(s[|s| - 1]) {
      EndKeeps(s[..|s| - 1], i);
    }
  }

  function LoadedKey(searched: Searched): string {
    SearchKey(searched.response) + SEPARATOR
      + TeamOf(searched) + SEPARATOR
      + searched.request.groupBy.Name()
  }

  /** The search and the teams' position that loaded parts are kept for. */
  type Key = (string, Option<nat>)

  function KeyOf(searched: Searched): Key {
    (LoadedKey(searched), searched.version)
  }

  // ----- what the keys tell apart -----

  /** The same search, as a person would say: the same words, reference, team and
      grouping, with the teams' catalogs at the same position. */
  predicate SameSearch(a: Searched, b: Searched) {
    && Trim(a.response.query) == Trim(b.response.query) && a.response.uses == b.response.uses
    && (if a.request.team.Some? then a.request.team.value else "")
       == (if b.request.team.Some? then b.request.team.value else "")
    && a.request.groupBy == b.request.groupBy && a.version == b.version
  }

  /** The team the list is limited to; blank for all of them. */
  function TeamOf(searched: Searched): string {
    match searched.request.team case Some(team) => team case None => ""
  }

  /** Neither what is searched for nor the team holds the separator. */
  predicate IsPlainSearch(searched: Searched) {
    SEPARATOR[0] !in searched.response.query && SEPARATOR[0] !in TeamOf(searched)
  }

  /** Parts are kept for a search exactly as long as the search is the same, when
      no separator is typed. */
  lemma KeysTellSearchesApart(a: Searched, b: Searched)
    ensures SameSearch(a, b) ==> KeyOf(a) == KeyOf(b)
    ensures IsPlainSearch(a) && IsPlainSearch(b) ==> (KeyOf(a) == KeyOf(b) <==> SameSearch(a, b))
  {
    if IsPlainSearch(a) && IsPlainSearch(b) && KeyOf(a) == KeyOf(b) {
      LastPiece(SearchKey(a.response) + SEPARATOR + TeamOf(a), SearchKey(b.response) + SEPARATOR + TeamOf(b),
                a.request.groupBy.Name(), b.request.groupBy.Name());
      LastPiece(SearchKey(a.response), SearchKey(b.response), TeamOf(a), TeamOf(b));
      SearchKeysDiffer(a.response, b.response);
    }
  }

  /** Two lists have one search key exactly when words and reference are the same. */
  lemma SearchKeysDiffer(a: SearchResponse, b: SearchResponse)
    requires SEPARATOR[0] !in a.query && SEPARATOR[0] !in b.query
    ensures SearchKey(a) == SearchKey(b) <==> Trim(a.query) == Trim(b.query) && a.uses == b.uses
  {
    var q, q' := Trim(a.query), Trim(b.query);
    TrimTakesAway(a.query);
    TrimTakesAway(b.query);
    hide Trim;
    var marked, marked' := SearchKey(a), SearchKey(b);
    if a.uses.Some? && b.uses.Some? && marked == marked' {
      assert marked == q + SEPARATOR + ("uses " + a.uses.value) && marked' == q' + SEPARATOR + ("uses " + b.uses.value);
      FirstPiece(q, q', "uses " + a.uses.value, "uses " + b.uses.value);
      assert ("uses " + a.uses.value)[5..] == a.uses.value && ("uses " + b.uses.value)[5..] == b.uses.value;
    } else if a.uses.Some? {
      assert marked[|q|] == SEPARATOR[0];
    } else if b.uses.Some? {
      assert marked'[|q'|] == SEPARATOR[0];
    }
  }

  lemma TrimTakesAway(s: string)
    ensures forall c :: c in Trim(s) ==> c in s
  {
    StartTakesAway(s);
  }

  lemma {:induction false} StartTakesAway(s: string)
    ensures forall c :: c in TrimStart(s) ==> c in s
  {
    if s != [] && IsSpace(s[0]) {
      StartTakesAway(s[1..]);
    }
  }

  lemma LastPiece(a: string, b: string, x: string, y: string)
    requires SEPARATOR[0] !in x && SEPARATOR[0] !in y && a + SEPARATOR + x == b + SEPARATOR + y
    ensures a == b && x == y
  {
    var s, t := a + SEPARATOR + x, b + SEPARATOR + y;
    assert s[|a|] == SEPARATOR[0] && t[|b|] == SEPARATOR[0];
    assert forall j :: |a| < j < |s| ==> s[j] == x[j - |a| - 1];
    assert forall j :: |b| < j < |t| ==> t[j] == y[j - |b| - 1];
    assert |a| == |b|;
    assert s[..|a|] == a && t[..|b|] == b && s[|a| + 1..] == x && t[|b| + 1..] == y;
  }

  lemma FirstPiece(a: string, b: string, x: string, y: string)
    requires SEPARATOR[0] !in a && SEPARATOR[0] !in b && a + SEPARATOR + x == b + SEPARATOR + y
    ensures a == b && x == y
  {
    var s, t := a + SEPARATOR + x, b + SEPARATOR + y;
    assert s[|a|] == SEPARATOR[0] && t[|b|] == SEPARATOR[0];
    assert forall j :: 0 <= j < |a| ==> s[j] == a[j];
    assert forall j :: 0 <= j < |b| ==> t[j] == b[j];
    assert |a| == |b|;
    assert s[..|a|] == a && t[..|b|] == b && s[|a| + 1..] == x && t[|b| + 1..] == y;
  }

  /** With the separator typed, a search can pass for a list limited to a reference. */
  lemma SeparatorMixesUp(reference: string)
    requires Trim("uses " + reference) == "uses " + reference
    ensures var typed := SearchResponse(SEPARATOR + "uses " + reference, None, 0, [], None);
      var limited := SearchResponse("", Some(reference), 0, [], None);
      SearchKey(typed) == SearchKey(limited)
  {
    var typed := SEPARATOR + "uses " + reference;
    TrimOfTrimmed("uses " + reference);
    assert typed[0] == SEPARATOR[0] && typed[|typed| - 1] == ("uses " + reference)[|("uses " + reference)| - 1];
    TrimOfTrimmed(typed);
    TrimOfTrimmed("");
  }

  // ----- open sections -----

  datatype OpenState = OpenState(openedKeys: set<string>, during: Option<(string, map<string, bool>)>) {
    predicate IsOpen(section: string, query: string) {
      var q := Trim(query);
      if q == [] then section in openedKeys
      else if during.Some? && during.value.0 == q && section in during.value.1 then during.value.1[section]
      else true
    }

    function Set(section: string, query: string, open: bool): OpenState {
      var q := Trim(query);
      if q == [] then this.(openedKeys := if open then openedKeys + {section} else openedKeys - {section})
      else
        var chosen := if during.Some? && during.value.0 == q then during.value.1 else map[];
        this.(during := Some((q, chosen[section := open])))
    }

    function Toggle(section: string, query: string): OpenState {
      Set(section, query, !IsOpen(section, query))
    }

    function Reveal(section: string, query: string): OpenState {
      var shown := this.(openedKeys := openedKeys + {section});
      if Searching(query) then shown.Set(section, query, true) else shown
    }
  }

  class OpenSections {
    var openedKeys: set<string>
    var during: Option<(string, map<string, bool>)>

    constructor ()
      ensures State() == OpenState({}, None)
    {
      openedKeys, during := {}, None;
    }

    function State(): OpenState
      reads this
    {
      OpenState(openedKeys, during)
    }

    method Set(section: string, query: string, open: bool)
      modifies this
      ensures State() == old(State()).Set(section, query, open)
      ensures State().IsOpen(section, query) == open
    {
      var q := Trim(query);
      if q == [] {
        openedKeys := if open then openedKeys + {section} else openedKeys - {section};
        return;
      }
      if during.None? || during.value.0 != q {
        during := Some((q, map[]));
      }
      during := Some((q, during.value.1[section := open]));
    }

    method Toggle(section: string, query: string)
      modifies this
      ensures State() == old(State()).Toggle(section, query)
      ensures State().IsOpen(section, query) != old(State().IsOpen(section, query))
    {
      Set(section, query, !State().IsOpen(section, query));
    }

    method Reveal(section: string, query: string)
      modifies this
      ensures State() == old(State()).Reveal(section, query)
      ensures State().IsOpen(section, query) && State().IsOpen(section, "")
    {
      openedKeys := openedKeys + {section};
      if Searching(query) {
        Set(section, query, true);
      }
    }
  }

  /** Opening or closing one section by hand changes only it: in the same
      search the others stay as they are, and any other search, now or later,
      starts with its sections open. */
  lemma SetChangesOne(state: OpenState, section: string, query: string, open: bool, other: string, query': string)
    ensures var next := state.Set(section, query, open);
      && next.IsOpen(section, query) == open
      && (other != section ==> next.IsOpen(other, query) == state.IsOpen(other, query))
      && (Searching(query) && Trim(query') != Trim(query) ==>
            next.IsOpen(other, query') == (Searching(query') || state.IsOpen(other, query')))
      && (!Searching(query) && Searching(query') ==> next.IsOpen(other, query') == state.IsOpen(other, query'))
  {
  }

  /** What a person opens, closes or has revealed in the list. */
  datatype Handling = Toggled(section: string, query: string) | Revealed(section: string, query: string)

  function Handled(state: OpenState, doings: seq<Handling>): OpenState
    decreases |doings|
  {
    if doings == [] then state
    else
      var before := Handled(state, doings[..|doings| - 1]);
      match doings[|doings| - 1]
      case Toggled(section, query) => before.Toggle(section, query)
      case Revealed(section, query) => before.Reveal(section, query)
  }

  /** Whatever was opened and closed during searches, clearing the search goes
      back to what the person had open, and the sections of revealed parts. */
  lemma {:induction false} ClearingGoesBack(state: OpenState, doings: seq<Handling>, section: string)
    requires forall d :: d in doings ==> Searching(d.query)
    ensures Handled(state, doings).IsOpen(section, "")
      <==> state.IsOpen(section, "") || exists d :: d in doings && d.Revealed? && d.section == section
  {
    if doings != [] {
      var rest, last := doings[..|doings| - 1], doings[|doings| - 1];
      assert doings == rest + [last];
      ClearingGoesBack(state, rest, section);
    }
  }

  // ----- revealing the selected part -----

  datatype RevealState = RevealState(pending: Option<(PartKey, string)>, revealed: Option<(PartKey, string)>) {
    function Select(part: Option<PartKey>, shown: string): RevealState {
      this.(pending := if part.Some? then Some((part.value, Trim(shown))) else None)
    }

    /** The state after results of `query`, and the section to open, if any. */
    function Results(selected: Option<PartKey>, section: Option<string>, query: string)
      : (RevealState, Option<string>)
    {
      var q := Trim(query);
      if selected.None? then (this, None)
      else if pending.Some? && pending.value.0 == selected.value then
        if q != [] && pending.value.1 != q then (this.(pending := None), None)
        else if section.None? then (this, None)
        else (RevealState(None, Some((selected.value, section.value))), section)
      else if revealed.Some? && section.Some? && revealed.value.0 == selected.value
              && revealed.value.1 != section.value
      then (this.(revealed := Some((selected.value, section.value))), section)
      else (this, None)
    }
  }

  /** A part just selected waits for results that hold it, through results of
      the search shown then and of no search; results of another search forget
      it. Then the first results that hold it open its section. */
  lemma {:induction false} SelectedPartIsOpened(state: RevealState, part: PartKey, shown: string, held: seq<Held>,
                                                n: nat)
    requires n < |held|
    requires forall i :: 0 <= i <= n ==> Trim(held[i].query) == [] || Trim(held[i].query) == Trim(shown)
    requires forall i :: 0 <= i < n ==> held[i].section.None?
    ensures AfterResults(state.Select(Some(part), shown), part, held, n) == state.Select(Some(part), shown)
    ensures OpensAt(state.Select(Some(part), shown), part, held, n) == held[n].section
  {
    if n > 0 {
      SelectedPartIsOpened(state, part, shown, held, n - 1);
    }
  }

  /** Results `k` of another search, come before any held the part, forget it:
      however many results come, its section is never opened, unless it was
      revealed before and moved. */
  lemma {:induction false} AnotherSearchForgets(state: RevealState, part: PartKey, shown: string, held: seq<Held>,
                                                k: nat, n: nat)
    requires k < |held| && n < |held| && (state.revealed.None? || state.revealed.value.0 != part)
    requires Trim(held[k].query) != [] && Trim(held[k].query) != Trim(shown)
    requires forall i :: 0 <= i < k ==> held[i].section.None?
    requires forall i :: 0 <= i < k ==> Trim(held[i].query) == [] || Trim(held[i].query) == Trim(shown)
    ensures OpensAt(state.Select(Some(part), shown), part, held, n).None?
    ensures AfterResults(state.Select(Some(part), shown), part, held, n)
      == if n <= k then state.Select(Some(part), shown) else state.(pending := None)
  {
    hide Trim;
    if n > 0 {
      AnotherSearchForgets(state, part, shown, held, k, n - 1);
    }
  }

  class Reveals {
    var pending: Option<(PartKey, string)>
    var revealed: Option<(PartKey, string)>

    constructor ()
      ensures State() == RevealState(None, None)
    {
      pending, revealed := None, None;
    }

    function State(): RevealState
      reads this
    {
      RevealState(pending, revealed)
    }

    method Select(part: Option<PartKey>, shown: string)
      modifies this
      ensures State() == old(State()).Select(part, shown)
    {
      pending := if part.Some? then Some((part.value, Trim(shown))) else None;
    }

    method Results(selected: Option<PartKey>, section: Option<string>, query: string)
      returns (open: Option<string>)
      modifies this
      ensures (State(), open) == old(State()).Results(selected, section, query)
    {
      var q := Trim(query);
      if selected.None? {
        return None;
      }
      if pending.Some? && pending.value.0 == selected.value {
        if q != [] && pending.value.1 != q {
          pending := None;
          return None;
        }
        if section.None? {
          return None;
        }
        revealed := Some((selected.value, section.value));
        pending := None;
        return section;
      }
      if revealed.Some? && section.Some? && revealed.value.0 == selected.value && revealed.value.1 != section.value {
        revealed := Some((selected.value, section.value));
        return section;
      }
      open := None;
    }
  }

  /** One set of results: the section that holds the selected part, and the search. */
  datatype Held = Held(section: Option<string>, query: string)

  /** The state once the first `n` results came. */
  function AfterResults(state: RevealState, selected: PartKey, held: seq<Held>, n: nat): RevealState
    requires n <= |held|
  {
    if n == 0 then state
    else
      AfterResults(state, selected, held, n - 1).Results(Some(selected), held[n - 1].section, held[n - 1].query).0
  }

  /** The section the results number `i` open, if any. */
  function OpensAt(state: RevealState, selected: PartKey, held: seq<Held>, i: nat): Option<string>
    requires i < |held|
  {
    AfterResults(state, selected, held, i).Results(Some(selected), held[i].section, held[i].query).1
  }

  /** While one part stays selected, its section is opened once, and again only
      when results say the part is in another section. */
  lemma OpensOnlyWhenMoved(state: RevealState, selected: PartKey, held: seq<Held>, i: nat, k: nat)
    requires i < k < |held| && OpensAt(state, selected, held, i).Some? && OpensAt(state, selected, held, k).Some?
    ensures exists j: nat :: i <= j < k && OpensAt(state, selected, held, j).Some?
                             && OpensAt(state, selected, held, j) != OpensAt(state, selected, held, k)
  {
    var j := LastOpened(state, selected, held, i, k);
  }

  lemma ResultsRemember(state: RevealState, selected: PartKey, section: Option<string>, query: string)
    ensures var (next, open) := state.Results(Some(selected), section, query);
      && (open.Some? && next.pending.Some? ==> next.pending.value.0 != selected)
      && (open.Some? ==> next.revealed == Some((selected, open.value)))
      && (open.None? && (state.pending.None? || state.pending.value.0 != selected) ==> next == state)
  {
  }

  /** What is remembered as revealed is the section opened last. */
  lemma {:induction false} LastOpened(state: RevealState, selected: PartKey, held: seq<Held>, i: nat, k: nat)
    returns (j: nat)
    requires i < k <= |held| && OpensAt(state, selected, held, i).Some?
    ensures i <= j < k && OpensAt(state, selected, held, j).Some?
    ensures AfterResults(state, selected, held, k).revealed
      == Some((selected, OpensAt(state, selected, held, j).value))
    ensures var pending := AfterResults(state, selected, held, k).pending;
      pending.Some? ==> pending.value.0 != selected
    decreases k
  {
    hide RevealState.Results;
    ResultsRemember(AfterResults(state, selected, held, k - 1), selected, held[k - 1].section, held[k - 1].query);
    if k == i + 1 {
      j := i;
    } else {
      j := LastOpened(state, selected, held, i, k - 1);
      if OpensAt(state, selected, held, k - 1).Some? {
        j := k - 1;
      }
    }
  }

  // ----- loaded parts -----

  type Rows = Load<seq<PartSummary>>

  datatype LoadedState = LoadedState(key: Key, sections: map<string, Rows>, shownAll: set<string>,
                                     reloading: set<string>) {
    /** The sections a new answer under `key` loads again. */
    function Next(key: Key, open: OpenState, query: string, selected: Option<PartKey>, selectedIn: Option<string>)
      : (LoadedState, set<string>)
    {
      if this.key.0 != key.0 then (LoadedState(key, map[], {}, {}), {})
      else
        var kept := set c | c in sections && sections[c].Ready? && open.IsOpen(c, query);
        var next := map c | c in kept :: Ready(
          if selected.Some? && selectedIn != Some(c) then Without(sections[c].value, selected.value)
          else sections[c].value);
        (LoadedState(key, next, shownAll, kept), kept + shownAll)
    }

    function StartLoad(section: string): LoadedState {
      if section in sections && sections[section].Ready? then this.(reloading := reloading + {section})
      else this.(sections := sections[section := Loading])
    }

    function FinishLoad(section: string, rows: Rows): LoadedState {
      this.(reloading := reloading - {section}, sections := sections[section := rows])
    }
  }

  function Without(rows: seq<PartSummary>, part: PartKey): seq<PartSummary> {
    if rows == [] then []
    else if rows[0].Key() == part then Without(rows[1..], part)
    else [rows[0]] + Without(rows[1..], part)
  }

  lemma {:induction false} WithoutLeavesOthers(rows: seq<PartSummary>, part: PartKey)
    ensures forall row :: row in Without(rows, part) <==> row in rows && row.Key() != part
    ensures part !in Keys(rows) ==> Without(rows, part) == rows
  {
    if rows != [] {
      WithoutLeavesOthers(rows[1..], part);
      assert forall row :: row in rows <==> row == rows[0] || row in rows[1..];
      assert Keys(rows[1..]) <= Keys(rows);
    }
  }

  function Keys(rows: seq<PartSummary>): set<PartKey> {
    set row | row in rows :: row.Key()
  }

  const NEW_LOADED := LoadedState(("", None), map[], {}, {})

  class Loaded {
    var key: Key
    var sections: map<string, Rows>
    var shownAll: set<string>
    var reloading: set<string>

    constructor ()
      ensures State() == NEW_LOADED
    {
      key, sections, shownAll, reloading := ("", None), map[], {}, {};
    }

    function State(): LoadedState
      reads this
    {
      LoadedState(key, sections, shownAll, reloading)
    }

    /** A request for `section` goes out; loaded parts are kept as reloading. */
    method StartLoad(section: string)
      modifies this
      ensures State() == old(State()).StartLoad(section)
      ensures section in sections && (sections[section].Loading? || section in reloading)
      ensures forall c :: c in old(sections) && old(sections)[c].Ready? ==>
        c in sections && sections[c] == old(sections)[c]
    {
      if section in sections && sections[section].Ready? {
        reloading := reloading + {section};
      } else {
        sections := sections[section := Loading];
      }
    }

    method FinishLoad(section: string, rows: Rows)
      modifies this
      ensures State() == old(State()).FinishLoad(section, rows)
      ensures section !in reloading && section in sections && sections[section] == rows
    {
      reloading := reloading - {section};
      sections := sections[section := rows];
    }
  }

  /** A new answer for the same search keeps the parts of open sections while
      they load again, except that the selected part stays only in the section
      that holds it now; another search keeps nothing. */
  lemma NextKeepsWhatIsShown(loaded: LoadedState, key: Key, open: OpenState, query: string,
                             selected: Option<PartKey>, selectedIn: Option<string>)
    ensures var (next, reload) := loaded.Next(key, open, query, selected, selectedIn);
      && next.key == key
      && (loaded.key.0 != key.0 ==> next.sections == map[] && next.shownAll == {} && reload == {})
      && (loaded.key.0 == key.0 ==> next.shownAll == loaded.shownAll && reload == next.sections.Keys + loaded.shownAll)
      && next.reloading == next.sections.Keys
      && (forall c :: c in next.sections <==>
            loaded.key.0 == key.0 && c in loaded.sections && loaded.sections[c].Ready? && open.IsOpen(c, query))
      && (forall c :: c in next.sections ==> next.sections[c].Ready?)
      && (forall c, row :: c in next.sections ==>
            (row in next.sections[c].value <==>
               row in loaded.sections[c].value && (selected == Some(row.Key()) ==> selectedIn == Some(c))))
  {
    var (next, reload) := loaded.Next(key, open, query, selected, selectedIn);
    forall c | c in next.sections
      ensures forall row :: row in next.sections[c].value <==>
        row in loaded.sections[c].value && (selected == Some(row.Key()) ==> selectedIn == Some(c))
    {
      if selected.Some? && selectedIn != Some(c) {
        WithoutLeavesOthers(loaded.sections[c].value, selected.value);
      }
    }
  }
}
