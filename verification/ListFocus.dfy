/** The focused item the part list remembers, and where it moves when what the
    list draws changes. */
module ListFocus {
  import opened Text
  import opened PartRows

  // ----- the program -----

  datatype Focused =
    | Row(section: string, part: PartKey)
    | ShowAllOf(section: string)
    | Section(section: string)

  /** The items of one section that can take focus, besides its header. */
  datatype DrawnSection = DrawnSection(name: string, rows: seq<PartKey>, showAll: bool)

  const NOTHING_DRAWN := DrawnSection("", [], false)

  datatype Restore = To(target: Focused) | SearchBox

  /** The first place of `item`. */
  function Position<T(==)>(list: seq<T>, item: T): (at: Option<nat>)
    ensures at.Some? ==> at.value < |list| && list[at.value] == item
    ensures at.None? <==> item !in list
  {
    if list == [] then None
    else if list[0] == item then Some(0)
    else
      var rest := Position(list[1..], item);
      if rest.Some? then Some(rest.value + 1) else None
  }

  /** The first of `items` that is listed in `now`. */
  function FirstListed<T(==)>(items: seq<T>, now: seq<T>): Option<T> {
    if items == [] then None
    else if items[0] in now then Some(items[0])
    else FirstListed(items[1..], now)
  }

  /** The last of `items` that is listed in `now`. */
  function LastListed<T(==)>(items: seq<T>, now: seq<T>): Option<T> {
    if items == [] then None
    else if items[|items| - 1] in now then Some(items[|items| - 1])
    else LastListed(items[..|items| - 1], now)
  }

  function WhereFocusGoes<T(==)>(before: seq<T>, now: seq<T>, focused: T): Option<T> {
    if focused in now then Some(focused)
    else
      var at := Position(before, focused);
      var neighbour :=
        if at.None? then None
        else
          var after := FirstListed(before[at.value + 1..], now);
          if after.Some? then after else LastListed(before[..at.value], now);
      if neighbour.Some? then neighbour else if now != [] then Some(now[0]) else None
  }

  function RestoreTarget(sectionsBefore: seq<string>, sectionsNow: seq<string>,
                         drawnBefore: DrawnSection, drawnNow: DrawnSection, focused: Focused): Restore
  {
    var section := focused.section;
    if section !in sectionsNow then
      var next := WhereFocusGoes(sectionsBefore, sectionsNow, section);
      if next.Some? then To(Section(next.value)) else SearchBox
    else
      match focused
      case Section(_) => To(Section(section))
      case Row(_, part) =>
        var next := WhereFocusGoes(drawnBefore.rows, drawnNow.rows, part);
        if next.Some? then To(Row(section, next.value))
        else if drawnNow.showAll then To(ShowAllOf(section))
        else To(Section(section))
      case ShowAllOf(_) =>
        if drawnNow.showAll then To(focused)
        else if drawnNow.rows != [] then To(Row(section, drawnNow.rows[|drawnNow.rows| - 1]))
        else To(Section(section))
  }

  datatype FocusState = FocusState(focused: Option<Focused>, sections: seq<string>,
                                   drawn: map<string, DrawnSection>) {
    function DrawnOf(section: string): DrawnSection {
      if section in drawn then drawn[section] else NOTHING_DRAWN
    }

    function Took(item: Focused): FocusState {
      this.(focused := Some(item))
    }

    /** Where focus is once the list changed from `sectionsBefore`, and
        `section` from drawing `before`. */
    function Checked(sectionsBefore: seq<string>, section: Option<string>, before: DrawnSection): FocusState {
      if focused.None? then this
      else
        var drawnNow := DrawnOf(focused.value.section);
        var drawnBefore := if section == Some(focused.value.section) then before else drawnNow;
        var target := RestoreTarget(sectionsBefore, sections, drawnBefore, drawnNow, focused.value);
        this.(focused := if target.To? then Some(target.target) else None)
    }

    function SectionsShown(now: seq<string>): FocusState {
      this.(sections := now).Checked(sections, None, NOTHING_DRAWN)
    }

    function SectionDrawn(section: string, now: DrawnSection): FocusState {
      this.(drawn := drawn[section := now]).Checked(sections, Some(section), DrawnOf(section))
    }
  }

  class Focus {
    var focused: Option<Focused>
    var sections: seq<string>
    var drawn: map<string, DrawnSection>

    constructor ()
      ensures State() == FocusState(None, [], map[])
    {
      focused, sections, drawn := None, [], map[];
    }

    function State(): FocusState
      reads this
    {
      FocusState(focused, sections, drawn)
    }

    method Took(item: Focused)
      modifies this
      ensures State() == old(State()).Took(item)
    {
      focused := Some(item);
    }

    /** Focus or the mouse went outside the list. */
    method Forget()
      modifies this
      ensures State() == old(State()).(focused := None)
    {
      focused := None;
    }

    method SectionsShown(now: seq<string>)
      modifies this
      ensures State() == old(State()).SectionsShown(now)
      ensures old(FocusIsDrawn(State())) ==> FocusIsDrawn(State())
    {
      FocusStaysDrawn(State(), SectionsShownNow(now));
      var before := sections;
      sections := now;
      Check(before, None, NOTHING_DRAWN);
    }

    method SectionDrawn(section: string, now: DrawnSection)
      modifies this
      ensures State() == old(State()).SectionDrawn(section, now)
      ensures old(FocusIsDrawn(State())) ==> FocusIsDrawn(State())
    {
      FocusStaysDrawn(State(), SectionDrawnNow(section, now));
      var before := State().DrawnOf(section);
      drawn := drawn[section := now];
      Check(sections, Some(section), before);
    }

    method Check(sectionsBefore: seq<string>, changed: Option<string>, before: DrawnSection)
      modifies this`focused
      ensures State() == old(State()).Checked(sectionsBefore, changed, before)
    {
      if focused.None? {
        return;
      }
      var item := focused.value;
      var drawnNow := if item.section in drawn then drawn[item.section] else NOTHING_DRAWN;
      var drawnBefore := if changed == Some(item.section) then before else drawnNow;
      var target := RestoreTarget(sectionsBefore, sections, drawnBefore, drawnNow, item);
      focused := if target.To? then Some(target.target) else None;
    }
  }

  // ----- where focus goes -----

  /** Item `j` of `before` is the first listed one after `at`. */
  ghost predicate IsSuccessor<T>(before: seq<T>, now: seq<T>, at: nat, j: nat) {
    at < j < |before| && before[j] in now && forall k :: at < k < j ==> before[k] !in now
  }

  ghost predicate NoneAfter<T>(before: seq<T>, now: seq<T>, at: nat) {
    forall k :: at < k < |before| ==> before[k] !in now
  }

  /** Item `j` of `before` is the last listed one before `at`, and none after `at` is. */
  ghost predicate IsPredecessor<T>(before: seq<T>, now: seq<T>, at: nat, j: nat) {
    && j < at < |before| && before[j] in now && (forall k :: j < k < at ==> before[k] !in now)
    && NoneAfter(before, now, at)
  }

  ghost predicate NoneListed<T>(before: seq<T>, now: seq<T>) {
    forall k :: 0 <= k < |before| ==> before[k] !in now
  }

  lemma {:induction false} FirstListedIs<T>(before: seq<T>, now: seq<T>, at: nat)
    requires at < |before|
    ensures var r := FirstListed(before[at + 1..], now);
      if r.None? then NoneAfter(before, now, at)
      else exists j: nat :: IsSuccessor(before, now, at, j) && before[j] == r.value
    decreases |before| - at
  {
    var items := before[at + 1..];
    if items != [] {
      assert items[0] == before[at + 1];
      if before[at + 1] in now {
        assert IsSuccessor(before, now, at, at + 1);
      } else {
        FirstListedIs(before, now, at + 1);
        assert items[1..] == before[at + 1 + 1..];
        if FirstListed(items[1..], now).Some? {
          var j: nat :| IsSuccessor(before, now, at + 1, j) && before[j] == FirstListed(items[1..], now).value;
          assert IsSuccessor(before, now, at, j);
        }
      }
    }
  }

  lemma {:induction false} LastListedIs<T>(before: seq<T>, now: seq<T>, at: nat)
    requires at <= |before|
    ensures var r := LastListed(before[..at], now);
      if r.None? then forall k :: 0 <= k < at ==> before[k] !in now
      else exists j: nat :: j < at && before[j] == r.value && r.value in now && NoneBetween(before, now, j, at)
  {
    if at > 0 {
      var items := before[..at];
      assert items[|items| - 1] == before[at - 1] && items[..|items| - 1] == before[..at - 1];
      if before[at - 1] in now {
        assert NoneBetween(before, now, at - 1, at);
      } else {
        LastListedIs(before, now, at - 1);
        if LastListed(before[..at - 1], now).Some? {
          var r := LastListed(before[..at - 1], now).value;
          var j: nat :| j < at - 1 && before[j] == r && r in now && NoneBetween(before, now, j, at - 1);
          assert NoneBetween(before, now, j, at);
        }
      }
    }
  }

  ghost predicate NoneBetween<T>(before: seq<T>, now: seq<T>, j: nat, at: nat) {
    at <= |before| && forall k :: j < k < at ==> before[k] !in now
  }

  /** Focus stays on an item still listed. One that left, and was number `at`,
      gives it to the nearest one after it that is still listed, else to the
      nearest before it, else to the first of the list; nowhere when it is empty. */
  lemma {:induction false} FocusGoesToNeighbour<T>(before: seq<T>, now: seq<T>, focused: T)
    ensures var r := WhereFocusGoes(before, now, focused);
      && (r.None? <==> now == [])
      && (r.Some? ==> r.value in now)
      && (focused in now ==> r == Some(focused))
    ensures focused !in now && focused in before ==>
      var r, at := WhereFocusGoes(before, now, focused), Position(before, focused).value;
      && (forall j: nat :: IsSuccessor(before, now, at, j) ==> r == Some(before[j]))
      && (forall j: nat :: IsPredecessor(before, now, at, j) ==> r == Some(before[j]))
      && (NoneListed(before, now) && now != [] ==> r == Some(now[0]))
  {
    hide FirstListed, LastListed, Position;
    if focused !in now && focused in before {
      var at := Position(before, focused).value;
      FirstListedIs(before, now, at);
      LastListedIs(before, now, at);
    }
  }

  // ----- every run -----

  /** The list draws `item` now. */
  ghost predicate IsDrawn(s: FocusState, item: Focused) {
    item.section in s.sections &&
    match item
    case Row(section, part) => part in s.DrawnOf(section).rows
    case ShowAllOf(section) => s.DrawnOf(section).showAll
    case Section(_) => true
  }

  ghost predicate FocusIsDrawn(s: FocusState) {
    s.focused.Some? ==> IsDrawn(s, s.focused.value)
  }

  datatype Event =
    | TookFocus(item: Focused)
    | Forgot
    | SectionsShownNow(now: seq<string>)
    | SectionDrawnNow(section: string, drawn: DrawnSection)

  function Apply(s: FocusState, event: Event): FocusState {
    match event
    case TookFocus(item) => s.Took(item)
    case Forgot => s.(focused := None)
    case SectionsShownNow(now) => s.SectionsShown(now)
    case SectionDrawnNow(section, drawn) => s.SectionDrawn(section, drawn)
  }

  /** A change leaves focus on something drawn, and where it was while that is drawn. */
  lemma FocusStaysDrawn(s: FocusState, event: Event)
    ensures FocusIsDrawn(s) && (event.TookFocus? ==> IsDrawn(s, event.item)) ==> FocusIsDrawn(Apply(s, event))
    ensures (event.SectionsShownNow? || event.SectionDrawnNow?) && s.focused.Some? && FocusIsDrawn(s) ==>
      (IsDrawn(Apply(s, event), s.focused.value) ==> Apply(s, event).focused == s.focused)
  {
    if s.focused.Some? && FocusIsDrawn(s) {
      match event
      case SectionsShownNow(now) =>
        FocusGoesToNeighbour(s.sections, now, s.focused.value.section);
      case SectionDrawnNow(section, drawn) =>
        if s.focused.value.Row? && s.focused.value.section == section {
          FocusGoesToNeighbour(s.DrawnOf(section).rows, drawn.rows, s.focused.value.part);
        }
      case _ =>
    }
  }

  ghost predicate IsRun(states: seq<FocusState>, events: seq<Event>) {
    && |states| == |events| + 1 && states[0] == FocusState(None, [], map[])
    && forall i: nat :: i < |events| ==>
         && states[i + 1] == Apply(states[i], events[i])
         && (events[i].TookFocus? ==> IsDrawn(states[i], events[i].item))
  }

  /** When only drawn items take focus, what is remembered is always drawn. */
  lemma {:induction false} RememberedIsDrawn(states: seq<FocusState>, events: seq<Event>, n: nat)
    requires IsRun(states, events) && n <= |events|
    ensures FocusIsDrawn(states[n])
  {
    if n > 0 {
      hide Apply;
      RememberedIsDrawn(states, events, n - 1);
      assert states[n - 1 + 1] == Apply(states[n - 1], events[n - 1]);
      FocusStaysDrawn(states[n - 1], events[n - 1]);
    }
  }

  /** An item that took focus keeps it for as long as it is drawn. */
  lemma {:induction false} TakenStays(states: seq<FocusState>, events: seq<Event>, k: nat, n: nat, item: Focused)
    requires IsRun(states, events) && k < n <= |events| && events[k] == TookFocus(item)
    requires forall i :: k < i < n ==> !events[i].TookFocus? && !events[i].Forgot?
    requires forall i :: k < i <= n ==> IsDrawn(states[i], item)
    ensures states[n].focused == Some(item)
  {
    assert states[n - 1 + 1] == Apply(states[n - 1], events[n - 1]);
    if k < n - 1 {
      TakenStays(states, events, k, n - 1, item);
      FocusStaysDrawn(states[n - 1], events[n - 1]);
    }
  }

  /** After focus went elsewhere the list does not take it back. */
  lemma {:induction false} ForgottenStays(states: seq<FocusState>, events: seq<Event>, k: nat, n: nat)
    requires IsRun(states, events) && k < n <= |events| && events[k] == Forgot
    requires forall i :: k < i < n ==> !events[i].TookFocus?
    ensures states[n].focused == None
  {
    assert states[n - 1 + 1] == Apply(states[n - 1], events[n - 1]);
    if k < n - 1 {
      ForgottenStays(states, events, k, n - 1);
    }
  }

  /** A focused row that its section no longer draws gives focus to its neighbour
      there, or with no row left to Show all, or else to the section's header. */
  lemma RowGivesWay(s: FocusState, drawn: DrawnSection)
    requires s.focused.Some? && s.focused.value.Row? && FocusIsDrawn(s)
    requires s.focused.value.part !in drawn.rows
    ensures var section := s.focused.value.section;
      var rows, at := s.DrawnOf(section).rows, Position(s.DrawnOf(section).rows, s.focused.value.part);
      var next := s.SectionDrawn(section, drawn).focused;
      && at.Some?
      && (drawn.rows == [] ==> next == Some(if drawn.showAll then ShowAllOf(section) else Section(section)))
      && (forall j: nat :: IsSuccessor(rows, drawn.rows, at.value, j) ==> next == Some(Row(section, rows[j])))
      && (forall j: nat :: IsPredecessor(rows, drawn.rows, at.value, j) ==> next == Some(Row(section, rows[j])))
      && (drawn.rows != [] && NoneListed(rows, drawn.rows) ==> next == Some(Row(section, drawn.rows[0])))
  {
    var section := s.focused.value.section;
    FocusGoesToNeighbour(s.DrawnOf(section).rows, drawn.rows, s.focused.value.part);
  }

  /** A focused item whose section left gives focus to the header of the
      section's neighbour; to the search box when no section is left. */
  lemma SectionGivesWay(s: FocusState, now: seq<string>)
    requires s.focused.Some? && FocusIsDrawn(s) && s.focused.value.section !in now
    ensures var section, next := s.focused.value.section, s.SectionsShown(now).focused;
      var at := Position(s.sections, section);
      && at.Some?
      && (next.None? <==> now == [])
      && (forall j: nat :: IsSuccessor(s.sections, now, at.value, j) ==> next == Some(Section(s.sections[j])))
      && (forall j: nat :: IsPredecessor(s.sections, now, at.value, j) ==> next == Some(Section(s.sections[j])))
      && (now != [] && NoneListed(s.sections, now) ==> next == Some(Section(now[0])))
  {
    FocusGoesToNeighbour(s.sections, now, s.focused.value.section);
  }

  /** Show all gone from its section gives focus to the section's last row, or to
      its header. When it showed more rows after those there were, that is a row
      newly shown. */
  lemma ShowAllGivesWay(s: FocusState, section: string, drawn: DrawnSection)
    requires s.focused == Some(ShowAllOf(section)) && FocusIsDrawn(s)
    ensures var next := s.SectionDrawn(section, drawn).focused;
      && (drawn.showAll ==> next == s.focused)
      && (!drawn.showAll && drawn.rows != [] ==> next == Some(Row(section, drawn.rows[|drawn.rows| - 1])))
      && (!drawn.showAll && drawn.rows == [] ==> next == Some(Section(section)))
      && (!drawn.showAll && s.DrawnOf(section).rows < drawn.rows && NoRepeats(drawn.rows) ==>
            next.Some? && next.value.Row? && next.value.part !in s.DrawnOf(section).rows)
  {
    var before, last := s.DrawnOf(section).rows, |drawn.rows| - 1;
    if before < drawn.rows && NoRepeats(drawn.rows) {
      forall i | 0 <= i < |before| ensures before[i] != drawn.rows[last] {
        assert before[i] == drawn.rows[i];
      }
    }
  }

  ghost predicate NoRepeats<T>(list: seq<T>) {
    forall i, j :: 0 <= i < j < |list| ==> list[i] != list[j]
  }

  /** What another section draws does not move focus. */
  lemma OthersDoNotMoveFocus(s: FocusState, section: string, drawn: DrawnSection)
    requires s.focused.Some? && FocusIsDrawn(s) && s.focused.value.section != section
    ensures s.SectionDrawn(section, drawn).focused == s.focused
  {
    FocusStaysDrawn(s, SectionDrawnNow(section, drawn));
  }
}
