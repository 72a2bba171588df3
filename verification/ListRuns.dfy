/** What a person sees in a run of the part list, in terms of the answers that came
    and of what was typed and chosen, without the keys the list keeps. */
module ListRuns {
  import opened Text
  import opened PartRows
  import opened PartList
  import opened Search
  import opened ListSystem

  // ----- what came in a run -----

  predicate AnswerCame(step: Step, number: nat, response: SearchResponse) {
    step.Answers? && step.number == number && step.answer == Came(response)
  }

  predicate SearchFailed(step: Step, number: nat, message: string) {
    step.Answers? && step.number == number && step.answer == Error(message)
  }

  predicate PartsCame(step: Step, load: LoadRequest, rows: seq<PartSummary>) {
    step.LoadAnswers? && step.load == load && step.rows == Came(rows)
  }

  /** What is shown and kept came in one of the first `n` steps. */
  ghost predicate CameBefore(steps: seq<Step>, n: nat, app: App)
    requires n <= |steps|
  {
    && (app.search.results.Ready? ==>
          exists i: nat :: i < n && AnswerCame(steps[i], app.search.shown, app.search.results.value.response))
    && (app.search.results.Failed? ==>
          exists i: nat :: i < n && SearchFailed(steps[i], app.search.shown, app.search.results.error))
    && (forall t :: t in app.taken ==> exists i: nat :: i < n && PartsCame(steps[i], t.load, t.rows))
    && (app.search.results.Ready? ==> app.shownQuery == Some(SearchKey(app.search.results.value.response)))
  }

  /** What a step shows and keeps was so before, or comes with the step. */
  ghost predicate ComesFrom(app: App, step: Step, next: App) {
    && (next.search.results.Ready? ==>
          || AnswerCame(step, next.search.shown, next.search.results.value.response)
          || (next.search.results == app.search.results && next.search.shown == app.search.shown))
    && (next.search.results.Failed? ==>
          || SearchFailed(step, next.search.shown, next.search.results.error)
          || (next.search.results == app.search.results && next.search.shown == app.search.shown))
    && (forall t :: t in next.taken ==> t in app.taken || PartsCame(step, t.load, t.rows))
    && (next.search.results.Ready? ==>
          || next.shownQuery == Some(SearchKey(next.search.results.value.response))
          || (next.shownQuery == app.shownQuery && next.search.results == app.search.results))
  }

  lemma StepComesFrom(app: App, step: Step)
    requires Sound(app) && Enabled(app, step)
    ensures ComesFrom(app, step, Apply(app, step))
  {
    var acted := Act(app, step);
    ActComesFrom(app, step);
    hide Act, LoadDue, SearchKey, AnswerCame, SearchFailed, PartsCame, DrawnSections, Sound, Enabled;
    DueKeepsLoaded(acted, DrawnSections(acted.search.results));
  }

  lemma ActComesFrom(app: App, step: Step)
    requires Sound(app) && Enabled(app, step)
    ensures ComesFrom(app, step, Act(app, step))
  {
    hide LoadedHolds, AllAskTheirs, NothingDue, SearchesHold, RevealState.Results, SearchKey;
    match step
    case Answers(number, answer, order) => AnswerComesFrom(app, number, answer, order);
    case ShowsAll(section) => ShowsAllKeeps(app, section);
    case Selects(part) => SelectKeepsTheRest(app, part);
    case _ =>
  }

  lemma AnswerComesFrom(app: App, number: nat, answer: Answer<SearchResponse>, order: seq<string>)
    requires Sound(app) && Enabled(app, Answers(number, answer, order))
    ensures ComesFrom(app, Answers(number, answer, order), Act(app, Answers(number, answer, order)))
  {
    hide LoadedHolds, AllAskTheirs, NothingDue, SearchesHold, RevealState.Results, SearchKey;
    if number == |app.search.asks| && answer.Came? {
      var searched := app.search.SearchedFor(number, answer.value);
      var told := app.(search := app.search.Answered(number, answer));
      assert Reload(told, searched) == Reload(app, searched);
      TakeAnswerHolds(told, searched, order);
      hide Reload, Orders, ListHolds, LoadSections, LoadedState.Next;
    }
  }

  lemma ShowsAllKeeps(app: App, section: string)
    ensures var next := Act(app, ShowsAll(section));
      next.search == app.search && next.taken == app.taken && next.shownQuery == app.shownQuery
  {
  }

  lemma {:induction false} EverythingCame(states: seq<App>, steps: seq<Step>, n: nat)
    requires IsRun(states, steps) && n <= |steps|
    ensures CameBefore(steps, n, states[n])
    decreases n
  {
    hide Sound, Apply, AnswerCame, PartsCame, SearchFailed;
    if n == 0 {
      assert states[0] == START;
    } else {
      EverythingCame(states, steps, n - 1);
      EveryRunIsSound(states, steps, n - 1);
      assert states[n - 1 + 1] == Apply(states[n - 1], steps[n - 1]);
      StepComesFrom(states[n - 1], steps[n - 1]);
      CameStays(steps, n, states[n - 1], states[n]);
    }
  }

  lemma CameStays(steps: seq<Step>, n: nat, app: App, next: App)
    requires 0 < n <= |steps| && CameBefore(steps, n - 1, app) && ComesFrom(app, steps[n - 1], next)
    ensures CameBefore(steps, n, next)
  {
    hide AnswerCame, PartsCame, SearchFailed, SearchKey;
    forall t | t in next.taken ensures exists i: nat :: i < n && PartsCame(steps[i], t.load, t.rows) {
      if t in app.taken {
        var i: nat :| i < n - 1 && PartsCame(steps[i], t.load, t.rows);
      }
    }
  }

  // ----- what is shown -----

  /** The request asks again what its answer's request asked, for one section. */
  predicate AsksForSection(load: LoadRequest) {
    var was := load.searched.request;
    && load.request.query == was.query && load.request.uses == was.uses && load.request.team == was.team
    && load.request.groupBy == was.groupBy && load.request.section == Some(load.section) && load.request.limit == 200
  }

  /** The request is for the same search as the answer shown. */
  ghost predicate IsForShown(load: LoadRequest, app: App) {
    && AsksForSection(load)
    && (app.search.results.Ready? && IsPlainSearch(load.searched) && IsPlainSearch(app.search.results.value) ==>
          SameSearch(load.searched, app.search.results.value))
  }

  ghost predicate PartsCameFor(steps: seq<Step>, n: nat, app: App, section: string, load: LoadRequest,
                               rows: seq<PartSummary>)
    requires n <= |steps|
  {
    && section in app.loaded.sections && app.loaded.sections[section] == Ready(rows)
    && load.section == section && IsForShown(load, app)
    && exists i: nat :: i < n && PartsCame(steps[i], load, rows)
  }

  /** In every state of every run, what is shown is an answer that came, to what
      was typed and chosen then. The parts of a section not marked reloading came
      for that section and the same search. A section loading or reloading has a
      request out for the same search. A section open without a search has its
      parts, or is loading them, or says why not. */
  lemma ShownIsWhatCame(states: seq<App>, steps: seq<Step>, n: nat)
    requires IsRun(states, steps) && n <= |steps|
    ensures var app := states[n];
      && (app.search.results.Ready? ==>
            && 1 <= app.search.shown <= |app.search.asks|
            && AsksFor(app.search.results.value.request, app.search.asks[app.search.shown - 1])
            && app.search.results.value.version == app.search.asks[app.search.shown - 1].version
            && exists i: nat :: i < n && AnswerCame(steps[i], app.search.shown, app.search.results.value.response))
      && (forall s :: s in app.loaded.sections && app.loaded.sections[s].Ready? && s !in app.loaded.reloading ==>
            exists load, rows :: PartsCameFor(steps, n, app, s, load, rows))
      && (forall s :: s in app.loaded.reloading || (s in app.loaded.sections && app.loaded.sections[s].Loading?) ==>
            exists load :: load in app.loads && load.section == s && IsForShown(load, app))
  {
    EveryRunIsSound(states, steps, n);
    EverythingCame(states, steps, n);
    var app := states[n];
    assert SearchesHold(app.search) && ListHolds(app);
    hide AnswerCame, PartsCame, SearchFailed, IsRun, Sound, NothingDue, SearchKey, AsksFor;
    forall s | s in app.loaded.sections && app.loaded.sections[s].Ready? && s !in app.loaded.reloading
      ensures exists load, rows :: PartsCameFor(steps, n, app, s, load, rows)
    {
      SettledPartsCame(steps, n, app, s);
    }
    forall s | s in app.loaded.reloading || (s in app.loaded.sections && app.loaded.sections[s].Loading?)
      ensures exists load :: load in app.loads && load.section == s && IsForShown(load, app)
    {
      assert IsWaiting(app.loaded, s);
      var load :| load in app.loads && load.section == s && load.key == app.loaded.key;
      LoadIsForShown(app, load);
    }
  }

  lemma SettledPartsCame(steps: seq<Step>, n: nat, app: App, section: string)
    requires n <= |steps| && CameBefore(steps, n, app) && ListHolds(app) && IsSettled(app.loaded, section)
    ensures exists load, rows :: PartsCameFor(steps, n, app, section, load, rows)
  {
    hide AnswerCame, PartsCame, SearchFailed, SearchKey, IsForShown;
    var t :| t in app.taken && t.load.section == section && t.load.key == app.loaded.key
      && app.loaded.sections[section] == Ready(t.rows);
    LoadIsForShown(app, t.load);
    assert PartsCameFor(steps, n, app, section, t.load, t.rows);
  }

  lemma LoadIsForShown(app: App, load: LoadRequest)
    requires KeyAgrees(app) && AsksItsSearch(load) && load.key == app.loaded.key
    ensures IsForShown(load, app)
  {
    if app.search.results.Ready? {
      KeysTellSearchesApart(load.searched, app.search.results.value);
    }
    hide KeyOf, SameSearch, IsPlainSearch;
  }

  /** Without a search, every section drawn that the person has open has loaded
      parts, or is loading them, or says why it has none. */
  lemma OpenSectionsAreLoaded(states: seq<App>, steps: seq<Step>, n: nat, section: SearchSection)
    requires IsRun(states, steps) && n <= |steps| && states[n].search.results.Ready?
    requires section in states[n].search.results.value.response.sections
    requires section.key in states[n].open.openedKeys
    requires Trim(states[n].search.results.value.response.query) == []
    requires states[n].search.results.value.response.uses.None?
    ensures section.key in states[n].loaded.sections
  {
    EveryRunIsSound(states, steps, n);
    var app := states[n];
    var sections := app.search.results.value.response.sections;
    var k :| 0 <= k < |sections| && sections[k] == section;
    assert DrawnSections(app.search.results)[k] == section.key;
    LimitedListIsASearch(app.search.results.value.response);
    assert !Due(app, section.key);
  }

  // ----- what is asked for -----

  /** Every request that was not out before is for the answer shown, with the part
      selected now, so that the part is among the rows its section gets. */
  ghost predicate AsksForShown(before: multiset<LoadRequest>, app: App) {
    forall load :: load in app.loads ==>
      load in before
      || (AsksForSection(load) && load.request.selected == app.selected
          && app.search.results == Load.Ready(load.searched))
  }

  lemma LoadSectionAsks(before: multiset<LoadRequest>, app: App, section: string)
    requires AsksForShown(before, app)
    ensures AsksForShown(before, LoadSection(app, section))
  {
    hide LoadedState.StartLoad;
  }

  lemma {:induction false} LoadSectionsAsk(before: multiset<LoadRequest>, app: App, sections: seq<string>)
    requires AsksForShown(before, app)
    ensures AsksForShown(before, LoadSections(app, sections))
    decreases |sections|
  {
    hide AsksForShown, LoadSection;
    if sections != [] {
      LoadSectionsAsk(before, app, sections[..|sections| - 1]);
      LoadSectionAsks(before, LoadSections(app, sections[..|sections| - 1]), sections[|sections| - 1]);
    }
  }

  lemma {:induction false} LoadDueAsks(before: multiset<LoadRequest>, app: App, drawn: seq<string>)
    requires AsksForShown(before, app)
    ensures AsksForShown(before, LoadDue(app, drawn))
    decreases |drawn|
  {
    hide AsksForShown, LoadSection, Due;
    if drawn != [] {
      LoadDueAsks(before, app, drawn[..|drawn| - 1]);
      LoadSectionAsks(before, LoadDue(app, drawn[..|drawn| - 1]), drawn[|drawn| - 1]);
    }
  }

  /** Every step asks for parts so. */
  lemma StepAsksForShown(app: App, step: Step)
    requires Enabled(app, step)
    ensures AsksForShown(app.loads, Apply(app, step))
  {
    ActAsksForShown(app, step);
    hide Act, LoadDue, AsksForShown, DrawnSections;
    var acted := Act(app, step);
    LoadDueAsks(app.loads, acted, DrawnSections(acted.search.results));
  }

  lemma ActAsksForShown(app: App, step: Step)
    requires Enabled(app, step)
    ensures AsksForShown(app.loads, Act(app, step))
  {
    hide SearchKey, KeyOf, LoadedState.Next, RevealState.Results, Reload, Orders, LoadSection, LoadSections;
    match step
    case Answers(number, answer, order) =>
      if number == |app.search.asks| && answer.Came? {
        var told := app.(search := app.search.Answered(number, answer));
        TakeAnswerAsks(told, app.search.SearchedFor(number, answer.value), order);
      }
    case ShowsAll(section) =>
      LoadSectionAsks(app.loads, app.(loaded := app.loaded.(shownAll := app.loaded.shownAll + {section})), section);
    case Selects(part) => SelectKeepsTheRest(app, part);
    case _ =>
  }

  lemma TakeAnswerAsks(app: App, searched: Searched, order: seq<string>)
    ensures AsksForShown(app.loads, TakeAnswer(app, searched, order))
  {
    hide SearchKey, KeyOf, LoadedState.Next, RevealState.Results, LoadSections;
    var next := app.loaded.Next(KeyOf(searched), app.open, SearchKey(searched.response),
                                searched.request.selected, searched.response.selected).0;
    LoadSectionsKeeps(app.(loaded := next), order);
    LoadSectionsAsk(app.loads, app.(loaded := next), order);
  }

  /** A list of a search, which has its first matches, asks for more parts only when
      Show all is chosen, or when a new answer loads sections again that had parts. */
  lemma SearchAsksForNoMore(app: App, step: Step)
    requires Enabled(app, step)
    ensures var next := Apply(app, step);
      next.search.results.Ready?
      && (next.search.results.value.response.uses.Some? || Searching(next.search.results.value.response.query)) ==>
        forall load :: load in next.loads && load !in app.loads ==>
          || step == ShowsAll(load.section)
          || (step.Answers? && (load.section in app.loaded.sections || load.section in app.loaded.shownAll))
  {
    var acted := Act(app, step);
    ActAsks(app, step);
    hide Act, Searching, LoadDue, SearchKey, Enabled;
    DueKeepsLoaded(acted, DrawnSections(acted.search.results));
    if acted.search.results.Ready? {
      LimitedListIsASearch(acted.search.results.value.response);
      if Searching(SearchKey(acted.search.results.value.response)) {
        NothingIsDue(acted, DrawnSections(acted.search.results));
      }
    }
    hide DrawnSections;
  }

  lemma ActAsks(app: App, step: Step)
    requires Enabled(app, step)
    ensures forall load :: load in Act(app, step).loads && load !in app.loads ==>
      || step == ShowsAll(load.section)
      || (step.Answers? && (load.section in app.loaded.sections || load.section in app.loaded.shownAll))
  {
    hide SearchKey, LoadSection, SearchAnswered, OpenState.Toggle;
    match step
    case Answers(number, answer, order) => AnswerAsks(app, number, answer, order);
    case ShowsAll(section) => ShowsAllAsks(app, section);
    case Selects(part) => SelectKeepsTheRest(app, part);
    case _ =>
  }

  lemma {:induction false} NothingIsDue(app: App, drawn: seq<string>)
    requires app.search.results.Ready? && Searching(SearchKey(app.search.results.value.response))
    ensures LoadDue(app, drawn) == app
    decreases |drawn|
  {
    hide SearchKey, LoadSection;
    if drawn != [] {
      NothingIsDue(app, drawn[..|drawn| - 1]);
    }
  }

  lemma ShowsAllAsks(app: App, section: string)
    ensures forall load :: load in Act(app, ShowsAll(section)).loads && load !in app.loads ==> load.section == section
  {
  }

  lemma {:induction false} LoadSectionsAskFor(app: App, sections: seq<string>)
    ensures forall load :: load in LoadSections(app, sections).loads && load !in app.loads ==> load.section in sections
    decreases |sections|
  {
    if sections != [] {
      LoadSectionsAskFor(app, sections[..|sections| - 1]);
    }
  }

  lemma AnswerAsks(app: App, number: nat, answer: Answer<SearchResponse>, order: seq<string>)
    requires Enabled(app, Answers(number, answer, order))
    ensures forall load :: load in SearchAnswered(app, number, answer, order).loads && load !in app.loads ==>
      load.section in app.loaded.sections || load.section in app.loaded.shownAll
  {
    if number == |app.search.asks| && answer.Came? {
      var searched := app.search.SearchedFor(number, answer.value);
      var told := app.(search := app.search.Answered(number, answer));
      var (next, reload) := app.loaded.Next(KeyOf(searched), app.open, SearchKey(searched.response),
                                            searched.request.selected, searched.response.selected);
      NextKeepsWhatIsShown(app.loaded, KeyOf(searched), app.open, SearchKey(searched.response),
                           searched.request.selected, searched.response.selected);
      LoadSectionsAskFor(told.(loaded := next), order);
      hide LoadedState.Next, SearchKey, KeyOf, RevealState.Results, LoadSections;
    }
  }

  // ----- single steps -----

  lemma {:induction false} DueKeepsLoaded(app: App, drawn: seq<string>)
    ensures var next := LoadDue(app, drawn);
      && next == app.(loaded := next.loaded, loads := next.loads) && app.loads <= next.loads
      && next.loaded.reloading == app.loaded.reloading && next.loaded.shownAll == app.loaded.shownAll
      && forall s :: s in app.loaded.sections ==>
           s in next.loaded.sections && next.loaded.sections[s] == app.loaded.sections[s]
    decreases |drawn|
  {
    if drawn != [] {
      DueKeepsLoaded(app, drawn[..|drawn| - 1]);
    }
  }

  /** Parts that come for the list as it is are shown in their section, or why they
      did not come; no other section changes. Parts that come late are dropped. */
  lemma PartsComeIn(app: App, load: LoadRequest, rows: Answer<seq<PartSummary>>)
    ensures var next := Apply(app, LoadAnswers(load, rows));
      && (app.loaded.key == load.key ==>
            && load.section in next.loaded.sections && load.section !in next.loaded.reloading
            && next.loaded.sections[load.section]
               == (match rows case Came(parts) => Ready(parts) case Error(message) => Failed(message)))
      && (forall s :: s in app.loaded.sections && (s != load.section || app.loaded.key != load.key) ==>
            s in next.loaded.sections && next.loaded.sections[s] == app.loaded.sections[s])
  {
    DueKeepsLoaded(LoadAnswered(app, load, rows), DrawnSections(app.search.results));
    hide LoadDue;
  }

  /** A part chosen in the list, among the first matches of a section, has its
      section opened at once. */
  lemma ChosenPartIsOpened(app: App, part: PartKey, section: SearchSection)
    requires app.search.results.Ready? && Some(part) != app.selected
    requires app.shownQuery == Some(SearchKey(app.search.results.value.response))
    requires section in app.search.results.value.response.sections && part in Keys(section.hits)
    ensures var next, response := Apply(app, Selects(Some(part))), app.search.results.value.response;
      && next.selected == Some(part)
      && exists s :: s in response.sections && part in Keys(s.hits) && next.open.IsOpen(s.key, SearchKey(response))
  {
    SelectOpens(app, part, section);
    hide Select, SearchKey, Keys, OpenState.IsOpen, OpenState.Toggle, LoadDue, LoadSection, DrawnSections;
    hide SearchAnswered;
    var next := Select(app, Some(part));
    assert Act(app, Selects(Some(part))) == next;
    hide Act;
    DueKeepsLoaded(next, DrawnSections(next.search.results));
  }

  lemma SelectOpens(app: App, part: PartKey, section: SearchSection)
    requires app.search.results.Ready? && Some(part) != app.selected
    requires app.shownQuery == Some(SearchKey(app.search.results.value.response))
    requires section in app.search.results.value.response.sections && part in Keys(section.hits)
    ensures var next, response := Select(app, Some(part)), app.search.results.value.response;
      && next.selected == Some(part)
      && exists s :: s in response.sections && part in Keys(s.hits) && next.open.IsOpen(s.key, SearchKey(response))
  {
    var response := app.search.results.value.response;
    SectionWithIs(response.sections, part, section);
    RevealOpens(app.open, SectionWith(response.sections, part).value, SearchKey(response));
    hide SearchKey, Keys, OpenState.IsOpen, OpenState.Reveal, SectionWith, Trim;
  }

  lemma RevealOpens(open: OpenState, section: string, query: string)
    ensures open.Reveal(section, query).IsOpen(section, query)
    ensures open.Reveal(section, query).IsOpen(section, "")
  {
  }

  lemma {:induction false} SectionWithIs(sections: seq<SearchSection>, part: PartKey, section: SearchSection)
    requires section in sections && part in Keys(section.hits)
    ensures var found := SectionWith(sections, part);
      found.Some? && exists s :: s in sections && part in Keys(s.hits) && s.key == found.value
  {
    hide Keys;
    if part !in Keys(sections[0].hits) {
      SectionWithIs(sections[1..], part, section);
    } else {
      assert sections[0] in sections;
    }
  }

  /** An answer asked for with the part selected now opens the section it says the
      part is in, when the part still waits and the search is the one it was
      selected in, or none. */
  lemma AnsweredPartIsOpened(app: App, response: SearchResponse, order: seq<string>, part: PartKey, section: string,
                             shown: string)
    requires 0 < |app.search.asks| && Enabled(app, Answers(|app.search.asks|, Came(response), order))
    requires app.selected == Some(part) && app.search.asks[|app.search.asks| - 1].selected == Some(part)
    requires response.selected == Some(section) && app.revealing.pending == Some((part, shown))
    requires Trim(SearchKey(response)) == [] || Trim(SearchKey(response)) == shown
    ensures Apply(app, Answers(|app.search.asks|, Came(response), order)).open.IsOpen(section, SearchKey(response))
  {
    hide Reload, SearchKey, OpenState.IsOpen, OpenState.Reveal, Trim, LoadDue, Enabled, LoadSections;
    var number, query := |app.search.asks|, SearchKey(response);
    var searched := app.search.SearchedFor(number, response);
    var told := app.(search := app.search.Answered(number, Came(response)));
    TakesAnswer(told, searched, order);
    RevealOpens(app.open, section, query);
    hide TakeAnswer;
    var next := Act(app, Answers(number, Came(response), order));
    assert next == TakeAnswer(told, searched, order);
    DueKeepsLoaded(next, DrawnSections(next.search.results));
  }

  lemma {:induction false} LoadSectionsKeeps(app: App, sections: seq<string>)
    ensures var next := LoadSections(app, sections); next == app.(loaded := next.loaded, loads := next.loads)
    decreases |sections|
  {
    if sections != [] {
      LoadSectionsKeeps(app, sections[..|sections| - 1]);
    }
  }

  lemma TakesAnswer(app: App, searched: Searched, order: seq<string>)
    ensures var (_, toOpen) := app.revealing.Results(searched.request.selected, searched.response.selected,
                                                     SearchKey(searched.response));
      searched.request.selected == app.selected && toOpen.Some? ==>
        TakeAnswer(app, searched, order).open == app.open.Reveal(toOpen.value, SearchKey(searched.response))
  {
    hide LoadedState.Next, SearchKey, RevealState.Results, OpenState.Reveal, LoadSections, KeyOf;
    var next := app.loaded.Next(KeyOf(searched), app.open, SearchKey(searched.response),
                                searched.request.selected, searched.response.selected).0;
    LoadSectionsKeeps(app.(loaded := next), order);
  }

  /** Clicking the header of a section drawn opens it when it is closed and closes
      it when it is open; other sections stay as they are. */
  lemma ToggledSectionFlips(app: App, section: string, other: string)
    requires app.search.results.Ready?
    ensures var next, query := Apply(app, Toggles(section)), SearchKey(app.search.results.value.response);
      && next.open.IsOpen(section, query) == !app.open.IsOpen(section, query)
      && (other != section ==> next.open.IsOpen(other, query) == app.open.IsOpen(other, query))
      && next.search == app.search && next.selected == app.selected
  {
    var query := SearchKey(app.search.results.value.response);
    SetChangesOne(app.open, section, query, !app.open.IsOpen(section, query), other, query);
    hide SearchKey, OpenState.IsOpen, OpenState.Set, LoadDue;
    DueKeepsLoaded(Act(app, Toggles(section)), DrawnSections(app.search.results));
  }

  /** Show all has all the section's parts asked for, and kept for as long as the
      search is the same. */
  lemma ShownAllIsAskedFor(app: App, section: string)
    requires app.search.results.Ready?
    ensures var next := Apply(app, ShowsAll(section));
      && section in next.loaded.shownAll && section in next.loaded.sections && next.open == app.open
      && (if section in app.loaded.sections && app.loaded.sections[section].Ready?
          then next.loaded.sections[section] == app.loaded.sections[section] && section in next.loaded.reloading
          else next.loaded.sections[section].Loading?)
      && exists load :: load in next.loads && load.section == section && AsksForSection(load)
           && next.search.results == Load.Ready(load.searched)
  {
    var acted := Act(app, ShowsAll(section));
    var load := LoadRequest(section, app.loaded.key, app.search.results.value,
                            SectionRequest(app.search.results.value, app.selected, section));
    assert load in acted.loads;
    DueKeepsLoaded(acted, DrawnSections(acted.search.results));
    hide LoadDue;
  }
}
