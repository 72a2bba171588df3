/** The numbered, debounced search behind the part list. */
module Search {
  import opened Text
  import opened PartRows
  import opened PartList

  /** The limit a search asks for; without a search only counts are asked for. */
  const SEARCH_ROWS := 25

  /** What one search reads when it is asked for. */
  datatype Ask = Ask(query: string, uses: Option<string>, version: Option<nat>, selected: Option<PartKey>,
                     team: Option<string>, groupBy: GroupBy)

  function RequestOf(ask: Ask): (request: SearchRequest)
    ensures AsksFor(request, ask)
  {
    var limit := if Trim(ask.query) == [] && ask.uses.None? then 0 else SEARCH_ROWS;
    SearchRequest(ask.query, limit, ask.selected, None, ask.uses, ask.team, ask.groupBy)
  }

  /** The request asks what was typed and chosen, for every section; only without a
      search it asks for no parts. */
  predicate AsksFor(request: SearchRequest, ask: Ask) {
    && request.query == ask.query && request.uses == ask.uses && request.selected == ask.selected
    && request.team == ask.team && request.groupBy == ask.groupBy && request.section == None
    && request.limit == if Searching(ask.query) || ask.uses.Some? then 25 else 0
  }

  datatype Answer<T> = Came(value: T) | Error(message: string)

  datatype SearchState = SearchState(
    asks: seq<Ask>,           // every search asked for; number n is asks[n - 1]
    timers: set<nat>,         // the searches still waiting for the debounce
    inFlight: set<nat>,       // the searches sent and not answered
    results: Load<Searched>,  // the answer shown
    shown: nat)               // the number of the search it answers; 0 for none yet
  {
    function Asked(ask: Ask): SearchState {
      this.(asks := asks + [ask], timers := timers + {|asks| + 1})
    }

    /** The debounce of search `number` is over: it is sent if it is still the newest. */
    function Fired(number: nat): SearchState {
      this.(timers := timers - {number}, inFlight := if number == |asks| then inFlight + {number} else inFlight)
    }

    function SearchedFor(number: nat, response: SearchResponse): Searched
      requires 1 <= number <= |asks|
    {
      Searched(response, RequestOf(asks[number - 1]), asks[number - 1].version)
    }

    /** An answer came: it is shown if its search is still the newest. */
    function Answered(number: nat, answer: Answer<SearchResponse>): SearchState
      requires 1 <= number <= |asks|
    {
      var rest := this.(inFlight := inFlight - {number});
      if number != |asks| then rest
      else
        rest.(shown := number,
              results := if answer.Came? then Ready(SearchedFor(number, answer.value)) else Failed(answer.message))
    }
  }

  const NO_SEARCH := SearchState([], {}, {}, Loading, 0)

  /** The effect's own state: the number of the newest search, and what it
      remembers of each search still waiting or sent. */
  class SearchEffect {
    var searchSeq: nat
    var results: Load<Searched>
    var waiting: map<nat, Ask>
    var sent: map<nat, Ask>
    ghost var log: SearchState

    /** The effect remembers no more than its log says. */
    ghost predicate Valid()
      reads this
    {
      && searchSeq == |log.asks| && results == log.results
      && waiting.Keys == log.timers && sent.Keys == log.inFlight
      && (forall n :: n in waiting ==> 1 <= n <= searchSeq && waiting[n] == log.asks[n - 1])
      && (forall n :: n in sent ==> 1 <= n <= searchSeq && sent[n] == log.asks[n - 1])
    }

    constructor ()
      ensures Valid() && log == NO_SEARCH
    {
      searchSeq, results, waiting, sent, log := 0, Loading, map[], map[], NO_SEARCH;
    }

    method Ask(ask: Ask)
      requires Valid()
      modifies this
      ensures Valid() && log == old(log).Asked(ask)
      ensures searchSeq == old(searchSeq) + 1 && waiting == old(waiting)[searchSeq := ask]
    {
      searchSeq := searchSeq + 1;
      waiting := waiting[searchSeq := ask];
      log := log.Asked(ask);
    }

    method TimerFires(number: nat)
      requires Valid() && number in waiting
      modifies this
      ensures Valid() && log == old(log).Fired(number)
      ensures number !in waiting
      ensures sent == if number == old(searchSeq) then old(sent)[number := old(waiting)[number]] else old(sent)
    {
      var ask := waiting[number];
      waiting := waiting - {number};
      log := log.Fired(number);
      if searchSeq != number {
        return;
      }
      sent := sent[number := ask];
    }

    method AnswerComes(number: nat, answer: Answer<SearchResponse>)
      requires Valid() && number in sent
      modifies this
      ensures Valid() && log == old(log).Answered(number, answer)
      ensures number !in sent && (number != old(searchSeq) ==> results == old(results))
      ensures number == old(searchSeq) && answer.Error? ==> results == Failed(answer.message)
      ensures number == old(searchSeq) && answer.Came? ==>
        && results.Ready? && results.value.response == answer.value
        && AsksFor(results.value.request, old(sent)[number]) && results.value.version == old(sent)[number].version
    {
      var ask := sent[number];
      sent := sent - {number};
      log := log.Answered(number, answer);
      if searchSeq == number {
        results := match answer
          case Came(response) => Ready(Searched(response, RequestOf(ask), ask.version))
          case Error(message) => Failed(message);
      }
    }
  }

  // ----- what the search keeps -----

  /** The answer shown is for the search numbered `shown`. */
  ghost predicate ShowsAsked(asks: seq<Ask>, results: Load<Searched>, shown: nat) {
    results.Ready? ==>
      && 1 <= shown <= |asks|
      && results.value.request == RequestOf(asks[shown - 1]) && AsksFor(results.value.request, asks[shown - 1])
      && results.value.version == asks[shown - 1].version
  }

  /** Whichever search is newest is waiting, sent or shown. */
  ghost predicate NewestIsOnItsWay(newest: nat, timers: set<nat>, inFlight: set<nat>, shown: nat) {
    && (forall n :: n in timers || n in inFlight ==> 1 <= n <= newest)
    && shown <= newest
    && (newest > 0 ==> newest in timers || newest in inFlight || shown == newest)
  }

  ghost predicate SearchesHold(s: SearchState) {
    && ShowsAsked(s.asks, s.results, s.shown)
    && NewestIsOnItsWay(|s.asks|, s.timers, s.inFlight, s.shown)
  }

  lemma SearchStepsHold(s: SearchState, ask: Ask, number: nat, answer: Answer<SearchResponse>)
    requires SearchesHold(s)
    ensures SearchesHold(s.Asked(ask)) && s.Asked(ask).shown == s.shown
    ensures number in s.timers ==> SearchesHold(s.Fired(number)) && s.Fired(number).shown == s.shown
    ensures number in s.inFlight ==>
      SearchesHold(s.Answered(number, answer)) && s.shown <= s.Answered(number, answer).shown
  {
    hide RequestOf;
    if s.results.Ready? {
      assert (s.asks + [ask])[s.shown - 1] == s.asks[s.shown - 1];
    }
  }
}
