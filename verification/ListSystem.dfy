/** The numbered, debounced search and the part list behind it as one system of
    steps. Timers fire and answers come back in any order. */
module ListSystem {
  import opened Text
  import opened PartRows
  import opened PartList
  import opened Search

  /** Most parts a section shows. */
  const SECTION_ROWS := 200

  /** A request for one section's parts: the key they are for, and the answer
      whose search it asks again. */
  datatype LoadRequest = LoadRequest(section: string, key: Key, searched: Searched, request: SearchRequest)

  /** Parts that came for a request and were kept. */
  datatype TakenIn = TakenIn(load: LoadRequest, rows: seq<PartSummary>)

  datatype App = App(
    search: SearchState,
    loaded: LoadedState,
    open: OpenState,
    revealing: RevealState,
    selected: Option<PartKey>,
    shownQuery: Option<string>,
    loads: multiset<LoadRequest>,  // the section requests not answered
    taken: set<TakenIn>            // every section answer that was kept
  )

  const START := App(NO_SEARCH, NEW_LOADED, OpenState({}, None), RevealState(None, None),
                     None, None, multiset{}, {})

  // ----- the list's rules -----

  function DrawnSections(results: Load<Searched>): seq<string> {
    if results.Ready? then
      var sections := results.value.response.sections;
      seq(|sections|, i requires 0 <= i < |sections| => sections[i].key)
    else []
  }

  function SectionRequest(searched: Searched, selected: Option<PartKey>, section: string): SearchRequest {
    searched.request.(limit := SECTION_ROWS, selected := selected, section := Some(section))
  }

  function LoadSection(app: App, section: string): App {
    if !app.search.results.Ready? then app
    else
      var searched := app.search.results.value;
      var load := LoadRequest(section, app.loaded.key, searched, SectionRequest(searched, app.selected, section));
      app.(loaded := app.loaded.StartLoad(section), loads := app.loads + multiset{load})
  }

  function LoadSections(app: App, sections: seq<string>): App
    decreases |sections|
  {
    if sections == [] then app
    else LoadSection(LoadSections(app, sections[..|sections| - 1]), sections[|sections| - 1])
  }

  /** Without a search, an open section drawn with nothing loaded asks for its parts. */
  predicate Due(app: App, section: string) {
    app.search.results.Ready?
    && var query := SearchKey(app.search.results.value.response);
    app.open.IsOpen(section, query) && !Searching(query) && section !in app.loaded.sections
  }

  function LoadDue(app: App, drawn: seq<string>): App
    decreases |drawn|
  {
    if drawn == [] then app
    else
      var before := LoadDue(app, drawn[..|drawn| - 1]);
      var section := drawn[|drawn| - 1];
      if Due(before, section) then LoadSection(before, section) else before
  }

  /** What every drawn section does after a change. */
  function SectionsReact(app: App): App {
    LoadDue(app, DrawnSections(app.search.results))
  }

  /** The sections a new answer loads again. */
  function Reload(app: App, searched: Searched): set<string> {
    if app.loaded.key == KeyOf(searched) then {}
    else
      app.loaded.Next(KeyOf(searched), app.open, SearchKey(searched.response),
                      searched.request.selected, searched.response.selected).1
  }

  /** The list takes in a new answer, loading `order` again. */
  function TakeAnswer(app: App, searched: Searched, order: seq<string>): App {
    var query := SearchKey(searched.response);
    var kept :=
      if app.loaded.key == KeyOf(searched) then app
      else
        var next := app.loaded.Next(KeyOf(searched), app.open, query,
                                    searched.request.selected, searched.response.selected).0;
        LoadSections(app.(loaded := next), order);
    var (revealing, toOpen) :=
      if searched.request.selected == app.selected
      then kept.revealing.Results(searched.request.selected, searched.response.selected, query)
      else (kept.revealing, None);
    kept.(revealing := revealing, shownQuery := Some(query),
          open := if toOpen.Some? then kept.open.Reveal(toOpen.value, query) else kept.open)
  }

  /** The first drawn section with `part` among its first matches. */
  function SectionWith(sections: seq<SearchSection>, part: PartKey): Option<string> {
    if sections == [] then None
    else if part in Keys(sections[0].hits) then Some(sections[0].key)
    else SectionWith(sections[1..], part)
  }

  function Select(app: App, part: Option<PartKey>): App {
    if part == app.selected then app
    else
      var shown := if app.shownQuery.Some? then app.shownQuery.value else "";
      var now := app.(selected := part, revealing := app.revealing.Select(part, shown));
      if part.None? || !app.search.results.Ready? then now
      else
        var found := SectionWith(app.search.results.value.response.sections, part.value);
        var query := SearchKey(app.search.results.value.response);
        if found.None? then now
        else
          var (revealing, toOpen) := now.revealing.Results(part, found, query);
          now.(revealing := revealing,
               open := if toOpen.Some? then now.open.Reveal(toOpen.value, query) else now.open)
  }

  // ----- the steps -----

  datatype Step =
    | Asks(ask: Ask)
    | Fires(number: nat)
    | Answers(number: nat, answer: Answer<SearchResponse>, order: seq<string>)
    | LoadAnswers(load: LoadRequest, rows: Answer<seq<PartSummary>>)
    | Toggles(section: string)
    | ShowsAll(section: string)
    | Selects(part: Option<PartKey>)

  ghost predicate Orders(order: seq<string>, sections: set<string>) {
    && (forall s :: s in sections <==> s in order)
    && (forall i, j :: 0 <= i < j < |order| ==> order[i] != order[j])
  }

  ghost predicate Enabled(app: App, step: Step) {
    match step
    case Asks(_) => true
    case Fires(number) => number in app.search.timers
    case Answers(number, answer, order) =>
      number in app.search.inFlight && 1 <= number <= |app.search.asks| &&
      (answer.Came? ==> Orders(order, Reload(app, app.search.SearchedFor(number, answer.value))))
    case LoadAnswers(load, _) => load in app.loads
    case Toggles(section) => section in DrawnSections(app.search.results)
    case ShowsAll(section) => section in DrawnSections(app.search.results)
    case Selects(_) => true
  }

  /** A search answered: kept only when it is still the newest. */
  function SearchAnswered(app: App, number: nat, answer: Answer<SearchResponse>, order: seq<string>): App
    requires 1 <= number <= |app.search.asks|
  {
    var told := app.(search := app.search.Answered(number, answer));
    if number == |app.search.asks| && answer.Came?
    then TakeAnswer(told, app.search.SearchedFor(number, answer.value), order)
    else told
  }

  /** A section's parts came: kept only when the search and the teams' position
      are still the same. */
  function LoadAnswered(app: App, load: LoadRequest, rows: Answer<seq<PartSummary>>): App {
    var got := app.(loads := app.loads - multiset{load});
    if app.loaded.key != load.key then got
    else
      match rows
      case Error(message) => got.(loaded := got.loaded.FinishLoad(load.section, Failed(message)))
      case Came(parts) =>
        got.(loaded := got.loaded.FinishLoad(load.section, Ready(parts)), taken := got.taken + {TakenIn(load, parts)})
  }

  /** One step, before the drawn sections react to it. */
  function Act(app: App, step: Step): App
    requires step.Answers? ==> 1 <= step.number <= |app.search.asks|
  {
    match step
    case Asks(ask) => app.(search := app.search.Asked(ask))
    case Fires(number) => app.(search := app.search.Fired(number))
    case Answers(number, answer, order) => SearchAnswered(app, number, answer, order)
    case LoadAnswers(load, rows) => LoadAnswered(app, load, rows)
    case Toggles(section) =>
      if app.search.results.Ready?
      then app.(open := app.open.Toggle(section, SearchKey(app.search.results.value.response))) else app
    case ShowsAll(section) =>
      LoadSection(app.(loaded := app.loaded.(shownAll := app.loaded.shownAll + {section})), section)
    case Selects(part) => Select(app, part)
  }

  function Apply(app: App, step: Step): App
    requires step.Answers? ==> 1 <= step.number <= |app.search.asks|
  {
    SectionsReact(Act(app, step))
  }

  // ----- what every state keeps -----

  /** The request asks the search it is kept for, for its section alone. */
  ghost predicate AsksItsSearch(load: LoadRequest) {
    && KeyOf(load.searched) == load.key
    && load.request.section == Some(load.section) && load.request.limit == SECTION_ROWS
    && load.request.(section := None, limit := 0, selected := None)
       == load.searched.request.(section := None, limit := 0, selected := None)
  }

  predicate IsWaiting(loaded: LoadedState, section: string) {
    section in loaded.reloading || (section in loaded.sections && loaded.sections[section].Loading?)
  }

  ghost predicate IsAskedFor(key: Key, loads: multiset<LoadRequest>, section: string) {
    exists load :: load in loads && load.section == section && load.key == key
  }

  predicate IsSettled(loaded: LoadedState, section: string) {
    section in loaded.sections && loaded.sections[section].Ready? && section !in loaded.reloading
  }

  /** The section's parts came for its search, at the teams' position now. */
  ghost predicate IsCurrent(loaded: LoadedState, taken: set<TakenIn>, section: string) {
    exists t :: t in taken && t.load.section == section && t.load.key == loaded.key
      && section in loaded.sections && loaded.sections[section] == Ready(t.rows)
  }

  /** What is kept of the loaded parts, but for the `pending` sections, which may
      be waiting without a request. */
  ghost predicate LoadedHolds(loaded: LoadedState, loads: multiset<LoadRequest>, taken: set<TakenIn>,
                              pending: set<string>) {
    && (forall s :: s in loaded.reloading ==> s in loaded.sections && loaded.sections[s].Ready?)
    && (forall s :: IsWaiting(loaded, s) ==> s in pending || IsAskedFor(loaded.key, loads, s))
    && (forall s :: IsSettled(loaded, s) ==> IsCurrent(loaded, taken, s))
  }

  ghost predicate AllAskTheirs(loads: multiset<LoadRequest>, taken: set<TakenIn>) {
    && (forall load :: load in loads ==> AsksItsSearch(load))
    && (forall t :: t in taken ==> AsksItsSearch(t.load))
  }

  ghost predicate KeyAgrees(app: App) {
    app.search.results.Ready? ==> app.loaded.key == KeyOf(app.search.results.value)
  }

  ghost predicate ListHoldsBut(app: App, pending: set<string>) {
    KeyAgrees(app) && AllAskTheirs(app.loads, app.taken) && LoadedHolds(app.loaded, app.loads, app.taken, pending)
  }

  ghost predicate ListHolds(app: App) {
    ListHoldsBut(app, {})
  }

  ghost predicate NothingDue(app: App) {
    forall s :: s in DrawnSections(app.search.results) ==> !Due(app, s)
  }

  ghost predicate Sound(app: App) {
    SearchesHold(app.search) && ListHolds(app) && NothingDue(app)
  }

  /** What loading sections leaves alone. */
  ghost predicate SameButLoads(app: App, next: App) {
    next == app.(loaded := next.loaded, loads := next.loads) && next.loaded.key == app.loaded.key
  }

  lemma StartLoadHolds(loaded: LoadedState, loads: multiset<LoadRequest>, taken: set<TakenIn>,
                       pending: set<string>, load: LoadRequest)
    requires LoadedHolds(loaded, loads, taken, pending) && load.key == loaded.key
    ensures LoadedHolds(loaded.StartLoad(load.section), loads + multiset{load}, taken, pending - {load.section})
  {
    var next, more := loaded.StartLoad(load.section), loads + multiset{load};
    assert load in more;
    forall s | IsWaiting(next, s) && s !in pending - {load.section} ensures IsAskedFor(next.key, more, s) {
      if s != load.section {
        assert IsWaiting(loaded, s);
        MoreAreAsked(loaded.key, loads, load, s);
      }
    }
    forall s | IsSettled(next, s) ensures IsCurrent(next, taken, s) {
      assert IsSettled(loaded, s);
    }
  }

  lemma MoreAreAsked(key: Key, loads: multiset<LoadRequest>, load: LoadRequest, section: string)
    requires IsAskedFor(key, loads, section)
    ensures IsAskedFor(key, loads + multiset{load}, section)
  {
    var l :| l in loads && l.section == section && l.key == key;
    assert l in loads + multiset{load};
  }

  lemma FinishLoadHolds(loaded: LoadedState, loads: multiset<LoadRequest>, taken: set<TakenIn>,
                        load: LoadRequest, rows: Rows)
    requires LoadedHolds(loaded, loads, taken, {}) && load.key == loaded.key && !rows.Loading?
    ensures var more := if rows.Ready? then taken + {TakenIn(load, rows.value)} else taken;
      LoadedHolds(loaded.FinishLoad(load.section, rows), loads - multiset{load}, more, {})
  {
    var more := if rows.Ready? then taken + {TakenIn(load, rows.value)} else taken;
    var next, fewer := loaded.FinishLoad(load.section, rows), loads - multiset{load};
    forall s | IsWaiting(next, s) ensures IsAskedFor(next.key, fewer, s) {
      assert IsWaiting(loaded, s);
      OthersStayAsked(loaded.key, loads, load, s);
    }
    forall s | IsSettled(next, s) ensures IsCurrent(next, more, s) {
      if s == load.section {
        assert TakenIn(load, rows.value) in more;
      } else {
        assert IsSettled(loaded, s);
      }
    }
  }

  lemma OthersStayAsked(key: Key, loads: multiset<LoadRequest>, load: LoadRequest, section: string)
    requires IsAskedFor(key, loads, section) && (load.section != section || load.key != key)
    ensures IsAskedFor(key, loads - multiset{load}, section)
  {
    var l :| l in loads && l.section == section && l.key == key;
    assert l in loads - multiset{load};
  }

  /** An answer for another search or team position leaves the sections alone. */
  lemma DroppedAnswerHolds(loaded: LoadedState, loads: multiset<LoadRequest>, taken: set<TakenIn>, load: LoadRequest)
    requires LoadedHolds(loaded, loads, taken, {}) && load.key != loaded.key
    ensures LoadedHolds(loaded, loads - multiset{load}, taken, {})
  {
    forall s | IsWaiting(loaded, s) ensures IsAskedFor(loaded.key, loads - multiset{load}, s) {
      OthersStayAsked(loaded.key, loads, load, s);
    }
  }

  lemma LoadSectionHolds(app: App, section: string, pending: set<string>)
    requires ListHoldsBut(app, pending) && (app.search.results.Ready? || pending == {})
    ensures ListHoldsBut(LoadSection(app, section), pending - {section})
    ensures SameButLoads(app, LoadSection(app, section))
    ensures app.loaded.sections.Keys <= LoadSection(app, section).loaded.sections.Keys
    ensures app.search.results.Ready? ==> section in LoadSection(app, section).loaded.sections
  {
    hide LoadedHolds, SectionRequest;
    if app.search.results.Ready? {
      var searched := app.search.results.value;
      var load := LoadRequest(section, app.loaded.key, searched, SectionRequest(searched, app.selected, section));
      RequestAsksItsSearch(load, app.selected);
      StartLoadHolds(app.loaded, app.loads, app.taken, pending, load);
    } else {
      assert pending - {section} == {};
    }
  }

  lemma RequestAsksItsSearch(load: LoadRequest, selected: Option<PartKey>)
    requires KeyOf(load.searched) == load.key
    requires load.request == SectionRequest(load.searched, selected, load.section)
    ensures AsksItsSearch(load)
  {
  }

  lemma {:induction false} LoadDueHolds(app: App, drawn: seq<string>)
    requires ListHolds(app)
    ensures ListHolds(LoadDue(app, drawn)) && SameButLoads(app, LoadDue(app, drawn))
    ensures app.loaded.sections.Keys <= LoadDue(app, drawn).loaded.sections.Keys
    ensures forall s :: s in drawn ==> !Due(LoadDue(app, drawn), s)
    decreases |drawn|
  {
    hide ListHoldsBut;
    if drawn != [] {
      var rest, section := drawn[..|drawn| - 1], drawn[|drawn| - 1];
      LoadDueHolds(app, rest);
      LoadSectionHolds(LoadDue(app, rest), section, {});
      assert {} - {section} == {};
      assert forall s :: s in drawn <==> s in rest || s == section;
    }
  }

  lemma SectionsReactHolds(app: App)
    requires SearchesHold(app.search) && ListHolds(app)
    ensures Sound(SectionsReact(app)) && SameButLoads(app, SectionsReact(app))
  {
    hide ListHolds;
    LoadDueHolds(app, DrawnSections(app.search.results));
  }

  lemma {:induction false} LoadSectionsHolds(app: App, sections: seq<string>, order: set<string>)
    requires app.search.results.Ready? && ListHoldsBut(app, order)
    ensures ListHoldsBut(LoadSections(app, sections), order - (set s | s in sections))
    ensures SameButLoads(app, LoadSections(app, sections))
    decreases |sections|
  {
    hide ListHoldsBut;
    if sections != [] {
      var rest, section := sections[..|sections| - 1], sections[|sections| - 1];
      LoadSectionsHolds(app, rest, order);
      LoadSectionHolds(LoadSections(app, rest), section, order - (set s | s in rest));
      assert order - (set s | s in rest) - {section} == order - (set s | s in sections);
    } else {
      assert order - (set s | s in sections) == order;
    }
  }

  /** Right after a new key, exactly the sections to load again are waiting. */
  lemma NextHolds(loaded: LoadedState, loads: multiset<LoadRequest>, taken: set<TakenIn>, key: Key,
                  open: OpenState, query: string, selected: Option<PartKey>, selectedIn: Option<string>)
    ensures var (next, reload) := loaded.Next(key, open, query, selected, selectedIn);
      LoadedHolds(next, loads, taken, reload) && next.key == key
  {
    NextKeepsWhatIsShown(loaded, key, open, query, selected, selectedIn);
    hide LoadedState.Next;
    var (next, reload) := loaded.Next(key, open, query, selected, selectedIn);
  }

  lemma TakeAnswerHolds(app: App, searched: Searched, order: seq<string>)
    requires app.search.results == Ready(searched) && Orders(order, Reload(app, searched))
    requires AllAskTheirs(app.loads, app.taken) && LoadedHolds(app.loaded, app.loads, app.taken, {})
    ensures ListHolds(TakeAnswer(app, searched, order)) && TakeAnswer(app, searched, order).search == app.search
    ensures TakeAnswer(app, searched, order).taken == app.taken
  {
    hide RevealState.Results, OpenState.Reveal, LoadedHolds, AllAskTheirs, LoadedState.Next, LoadSections;
    if app.loaded.key != KeyOf(searched) {
      var query := SearchKey(searched.response);
      var (next, toLoad) := app.loaded.Next(KeyOf(searched), app.open, query,
                                            searched.request.selected, searched.response.selected);
      var renewed := app.(loaded := next);
      NextHolds(app.loaded, app.loads, app.taken, KeyOf(searched), app.open, query,
                searched.request.selected, searched.response.selected);
      LoadSectionsHolds(renewed, order, toLoad);
      assert toLoad - (set s | s in order) == {};
    }
  }

  lemma LoadAnsweredHolds(app: App, load: LoadRequest, rows: Answer<seq<PartSummary>>)
    requires ListHolds(app) && load in app.loads
    ensures ListHolds(LoadAnswered(app, load, rows))
  {
    hide LoadedHolds, AsksItsSearch;
    if app.loaded.key != load.key {
      DroppedAnswerHolds(app.loaded, app.loads, app.taken, load);
    } else {
      var answer := if rows.Came? then Ready(rows.value) else Failed(rows.message);
      FinishLoadHolds(app.loaded, app.loads, app.taken, load, answer);
    }
  }

  lemma SearchAnsweredHolds(app: App, number: nat, answer: Answer<SearchResponse>, order: seq<string>)
    requires Sound(app) && Enabled(app, Answers(number, answer, order))
    ensures SearchesHold(SearchAnswered(app, number, answer, order).search)
    ensures ListHolds(SearchAnswered(app, number, answer, order))
    ensures app.search.shown <= SearchAnswered(app, number, answer, order).search.shown
  {
    SearchStepsHold(app.search, Ask("", None, None, None, None, Category), number, answer);
    hide LoadedHolds, AllAskTheirs, TakeAnswer, NothingDue, SearchesHold;
    if number == |app.search.asks| && answer.Came? {
      var searched := app.search.SearchedFor(number, answer.value);
      var told := app.(search := app.search.Answered(number, answer));
      assert Reload(told, searched) == Reload(app, searched);
      TakeAnswerHolds(told, searched, order);
    }
  }

  lemma ActHolds(app: App, step: Step)
    requires Sound(app) && Enabled(app, step)
    ensures SearchesHold(Act(app, step).search) && ListHolds(Act(app, step))
    ensures app.search.shown <= Act(app, step).search.shown
  {
    hide LoadedHolds, AllAskTheirs, NothingDue, SearchesHold;
    match step
    case Answers(number, answer, order) => SearchAnsweredHolds(app, number, answer, order);
    case LoadAnswers(load, rows) => LoadAnsweredHolds(app, load, rows);
    case ShowsAll(section) => ShowsAllHolds(app, section);
    case Asks(ask) => SearchStepsHold(app.search, ask, 0, Error(""));
    case Fires(number) => SearchStepsHold(app.search, Ask("", None, None, None, None, Category), number, Error(""));
    case Toggles(_) =>
    case Selects(part) => SelectKeepsTheRest(app, part);
  }

  lemma SelectKeepsTheRest(app: App, part: Option<PartKey>)
    ensures var next := Select(app, part);
      next == app.(selected := next.selected, revealing := next.revealing, open := next.open)
  {
    hide RevealState.Results, RevealState.Select, OpenState.Reveal, SearchKey, SectionWith;
  }

  lemma ShowsAllHolds(app: App, section: string)
    requires ListHolds(app)
    ensures ListHolds(Act(app, ShowsAll(section))) && Act(app, ShowsAll(section)).search == app.search
  {
    var marked := app.(loaded := app.loaded.(shownAll := app.loaded.shownAll + {section}));
    hide LoadedHolds, AllAskTheirs, LoadSection;
    MarkedHolds(app.loaded, app.loads, app.taken, section);
    LoadSectionHolds(marked, section, {});
    assert {} - {section} == {};
  }

  lemma MarkedHolds(loaded: LoadedState, loads: multiset<LoadRequest>, taken: set<TakenIn>, section: string)
    requires LoadedHolds(loaded, loads, taken, {})
    ensures LoadedHolds(loaded.(shownAll := loaded.shownAll + {section}), loads, taken, {})
  {
    var next := loaded.(shownAll := loaded.shownAll + {section});
    assert forall s :: IsWaiting(next, s) == IsWaiting(loaded, s) && IsSettled(next, s) == IsSettled(loaded, s);
    forall s | IsSettled(next, s) ensures IsCurrent(next, taken, s) {
      assert IsCurrent(loaded, taken, s);
    }
  }

  lemma StepHolds(app: App, step: Step)
    requires Sound(app) && Enabled(app, step)
    ensures Sound(Apply(app, step)) && app.search.shown <= Apply(app, step).search.shown
  {
    hide Act, SectionsReact;
    ActHolds(app, step);
    SectionsReactHolds(Act(app, step));
  }

  // ----- every run -----

  ghost predicate IsRun(states: seq<App>, steps: seq<Step>) {
    && |states| == |steps| + 1 && states[0] == START
    && forall i: nat :: i < |steps| ==> Enabled(states[i], steps[i]) && states[i + 1] == Apply(states[i], steps[i])
  }

  /** In every state of every run: a loaded section not marked reloading holds
      parts asked for under the search and team position now shown, and every
      section loading or reloading has a request out for them. */
  lemma {:induction false} EveryRunIsSound(states: seq<App>, steps: seq<Step>, n: nat)
    requires IsRun(states, steps) && n <= |steps|
    ensures Sound(states[n])
    ensures forall i: nat :: i <= n ==> states[i].search.shown <= states[n].search.shown
    decreases n
  {
    hide Sound, Apply;
    if n == 0 {
      StartIsSound();
    } else {
      EveryRunIsSound(states, steps, n - 1);
      assert states[n - 1 + 1] == Apply(states[n - 1], steps[n - 1]);
      StepHolds(states[n - 1], steps[n - 1]);
    }
  }

  lemma StartIsSound()
    ensures Sound(START)
  {
  }

  /** What is shown never goes back to an older search. */
  lemma ShownNeverGoesBack(states: seq<App>, steps: seq<Step>, i: nat, j: nat)
    requires IsRun(states, steps) && i <= j <= |steps|
    ensures states[i].search.shown <= states[j].search.shown
  {
    EveryRunIsSound(states, steps, j);
  }

  /** No timer runs and every answer came. */
  ghost predicate Quiet(app: App) {
    app.search.timers == {} && app.search.inFlight == {} && app.loads == multiset{}
  }

  /** Once everything came, the newest search is shown, nothing is loading or
      reloading, every loaded section has current parts, and without a search
      every open section has its parts or says why not. */
  lemma QuietShowsTheNewest(states: seq<App>, steps: seq<Step>, n: nat)
    requires IsRun(states, steps) && n <= |steps| && Quiet(states[n])
    ensures var app := states[n];
      && app.search.shown == |app.search.asks|
      && ShowsAsked(app.search.asks, app.search.results, app.search.shown) && KeyAgrees(app)
      && app.loaded.reloading == {}
      && (forall s :: s in app.loaded.sections ==> !app.loaded.sections[s].Loading?)
      && (forall s :: IsSettled(app.loaded, s) ==> IsCurrent(app.loaded, app.taken, s))
      && NothingDue(app)
  {
    EveryRunIsSound(states, steps, n);
    NothingWaits(states[n]);
  }

  lemma NothingWaits(app: App)
    requires Sound(app) && Quiet(app)
    ensures app.loaded.reloading == {}
    ensures forall s :: s in app.loaded.sections ==> !app.loaded.sections[s].Loading?
  {
    forall s ensures !IsWaiting(app.loaded, s) {
      assert !IsAskedFor(app.loaded.key, app.loads, s);
    }
    if app.loaded.reloading != {} {
      var s :| s in app.loaded.reloading;
      assert IsWaiting(app.loaded, s);
    }
    forall s | s in app.loaded.sections ensures !app.loaded.sections[s].Loading? {
      assert !IsWaiting(app.loaded, s);
    }
  }
}
