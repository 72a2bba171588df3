/** The correlation IDs of saves: a save sent again keeps its ID, so a server
    that keeps one effect per ID never saves twice. New IDs are given, as they
    come from the clock and from chance. */
module RetrySlot {
  import opened Text

  type Id = nat

  /** What a save sends; the correlation ID is filled in just before. */
  datatype Request<T> = Request(reason: string, content: T, correlationId: Option<Id>) {
    function Plain(): Request<T> {
      this.(correlationId := None)
    }
  }

  // ----- the slot -----

  datatype SlotState<T(==)> = SlotState(last: Option<(Request<T>, Id)>, openedId: Id) {
    function Opened(newId: Id): SlotState<T> {
      SlotState(None, newId)
    }

    function IdFor(request: Request<T>, newId: Id): Id {
      if last.Some? && last.value.0 == request then last.value.1
      else if last.None? then openedId else newId
    }

    /** A save: its ID is asked for with the request's own ID left out. */
    function Saved(request: Request<T>, newId: Id): SlotState<T> {
      this.(last := Some((request.Plain(), IdFor(request.Plain(), newId))))
    }
  }

  class Slot<T(==)> {
    var last: Option<(Request<T>, Id)>
    var openedId: Id

    constructor (newId: Id)
      ensures State() == SlotState(None, newId)
    {
      last, openedId := None, newId;
    }

    function State(): SlotState<T>
      reads this
    {
      SlotState(last, openedId)
    }

    /** The form opens: nothing was sent from it. */
    method Open(newId: Id)
      modifies this
      ensures State() == old(State()).Opened(newId)
    {
      last, openedId := None, newId;
    }

    /** The last ID when `request` is what was sent last, else the form's or a new one. */
    method IdFor(request: Request<T>, newId: Id) returns (id: Id)
      modifies this
      ensures id == old(State()).IdFor(request, newId)
      ensures State() == old(State()).(last := Some((request, id)))
    {
      if last.Some? && last.value.0 == request {
        return last.value.1;
      }
      id := if last.None? then openedId else newId;
      last := Some((request, id));
    }
  }

  /** Save in the edit form: nothing is sent while a library is unchosen or the
      reason is blank; else the request goes out with its ID. */
  method SaveEdit<T(==)>(slot: Slot<T>, unchosen: Option<string>, request: Request<T>, newId: Id)
    returns (sent: Option<Request<T>>)
    modifies slot
    ensures unchosen.Some? || Trim(request.reason) == [] ==> sent == None && slot.State() == old(slot.State())
    ensures unchosen.None? && Trim(request.reason) != [] ==>
      && slot.State() == old(slot.State()).Saved(request, newId)
      && sent == Some(request.(correlationId := Some(old(slot.State()).IdFor(request.Plain(), newId))))
  {
    if unchosen.Some? || Trim(request.reason) == [] {
      return None;
    }
    var plain := request.(correlationId := None);
    var id := slot.IdFor(plain, newId);
    sent := Some(plain.(correlationId := Some(id)));
  }

  /** Save in the archive form, with its own slot. */
  method SaveArchive<T(==)>(slot: Slot<T>, request: Request<T>, newId: Id) returns (sent: Option<Request<T>>)
    modifies slot
    ensures Trim(request.reason) == [] ==> sent == None && slot.State() == old(slot.State())
    ensures Trim(request.reason) != [] ==>
      && slot.State() == old(slot.State()).Saved(request, newId)
      && sent == Some(request.(correlationId := Some(old(slot.State()).IdFor(request.Plain(), newId))))
  {
    sent := SaveEdit(slot, None, request, newId);
  }

  // ----- every run -----

  /** A form opening or a save, in one of the slots, with the new ID that could be
      used then. Edits, archives and new parts each have a slot. */
  datatype Event<T> =
    | Open(slot: nat, newId: Id)
    | Save(slot: nat, newId: Id, request: Request<T>)

  /** The slots made with `first`, one ID each, and the events in any order. */
  datatype Run<T> = Run(first: seq<Id>, events: seq<Event<T>>) {
    ghost predicate Valid() { forall e :: e in events ==> e.slot < |first| }

    ghost predicate AllFresh() {
      && (forall s, t :: 0 <= s < t < |first| ==> first[s] != first[t])
      && (forall s, j :: 0 <= s < |first| && 0 <= j < |events| ==> first[s] != events[j].newId)
      && (forall i, j :: 0 <= i < j < |events| ==> events[i].newId != events[j].newId)
    }

    predicate IsSave(i: nat) { i < |events| && events[i].Save? }
  }

  /** Slot `slot` after `n` events. */
  function After<T(==)>(run: Run<T>, n: nat, slot: nat): SlotState<T>
    requires n <= |run.events| && slot < |run.first|
  {
    if n == 0 then SlotState(None, run.first[slot])
    else
      var before := After(run, n - 1, slot);
      if run.events[n - 1].slot != slot then before
      else
        match run.events[n - 1]
        case Open(_, newId) => before.Opened(newId)
        case Save(_, newId, request) => before.Saved(request, newId)
  }

  /** The ID that save number `i` is sent with. */
  ghost function IdOf<T>(run: Run<T>, i: nat): Id
    requires run.Valid() && run.IsSave(i)
  {
    var e := run.events[i];
    assert e in run.events;
    After(run, i, e.slot).IdFor(e.request.Plain(), e.newId)
  }

  /** One of the IDs that slot `slot` was given in the first `n` events. */
  ghost predicate MadeBy<T>(run: Run<T>, n: nat, slot: nat, id: Id)
    requires n <= |run.events| && slot < |run.first|
  {
    id == run.first[slot] || exists j: nat :: j < n && MadeAt(run, j, slot, id)
  }

  predicate MadeAt<T>(run: Run<T>, j: nat, slot: nat, id: Id)
    requires j < |run.events|
  {
    run.events[j].slot == slot && run.events[j].newId == id
  }

  /** From save `i` to save `k` the slot saves the same thing, and its form does not open. */
  ghost predicate Resends<T>(run: Run<T>, i: nat, k: nat)
    requires i <= k && run.IsSave(i) && run.IsSave(k)
  {
    run.events[i].slot == run.events[k].slot
    && forall j: nat :: i <= j <= k && run.events[j].slot == run.events[i].slot ==>
         run.events[j].Save? && run.events[j].request.Plain() == run.events[i].request.Plain()
  }

  lemma {:induction false} SlotHoldsMade<T>(run: Run<T>, n: nat, slot: nat)
    requires n <= |run.events| && slot < |run.first|
    ensures var s := After(run, n, slot);
      && MadeBy(run, n, slot, s.openedId)
      && (s.last.Some? ==> MadeBy(run, n, slot, s.last.value.1))
  {
    if n > 0 {
      SlotHoldsMade(run, n - 1, slot);
      var s, e := After(run, n - 1, slot), run.events[n - 1];
      MadeLonger(run, n - 1, slot, s.openedId);
      if s.last.Some? {
        MadeLonger(run, n - 1, slot, s.last.value.1);
      }
      if e.slot == slot {
        assert MadeAt(run, n - 1, slot, e.newId);
      }
    }
  }

  lemma MadeLonger<T>(run: Run<T>, n: nat, slot: nat, id: Id)
    requires n < |run.events| && slot < |run.first| && MadeBy(run, n, slot, id)
    ensures MadeBy(run, n + 1, slot, id)
  {
    if id != run.first[slot] {
      var j: nat :| j < n && MadeAt(run, j, slot, id);
      assert MadeAt(run, j, slot, id);
    }
  }

  /** The ID of save `i` is one that its slot was given up to it. */
  lemma IdIsMade<T>(run: Run<T>, i: nat)
    requires run.Valid() && run.IsSave(i)
    ensures run.events[i].slot < |run.first| && MadeBy(run, i + 1, run.events[i].slot, IdOf(run, i))
  {
    assert run.events[i] in run.events;
    SlotHoldsMade(run, i + 1, run.events[i].slot);
  }

  lemma MadeEarlier<T>(run: Run<T>, n: nat, k: nat, slot: nat, id: Id)
    requires run.AllFresh() && n <= k < |run.events| && slot < |run.first| && MadeBy(run, n, slot, id)
    ensures id != run.events[k].newId
  {
    if id != run.first[slot] {
      var j: nat :| j < n && MadeAt(run, j, slot, id);
    }
  }

  /** Two slots are never given one ID. */
  lemma SlotsDiffer<T>(run: Run<T>, n: nat, s: nat, t: nat, id: Id)
    requires run.AllFresh() && n <= |run.events| && s < |run.first| && t < |run.first| && s != t
    requires MadeBy(run, n, s, id)
    ensures !MadeBy(run, n, t, id)
  {
    if id != run.first[s] {
      var j: nat :| j < n && MadeAt(run, j, s, id);
      assert forall k: nat :: k < n && MadeAt(run, k, t, id) ==> k < j || j < k;
    }
  }

  lemma {:induction false} SlotStays<T>(run: Run<T>, n: nat, k: nat, slot: nat)
    requires n <= k <= |run.events| && slot < |run.first|
    requires forall j :: n <= j < k ==> run.events[j].slot != slot
    ensures After(run, k, slot) == After(run, n, slot)
  {
    if n < k {
      SlotStays(run, n, k - 1, slot);
    }
  }

  /** The slot's event before event `k`. */
  lemma EventBefore<T>(run: Run<T>, i: nat, k: nat, slot: nat) returns (p: nat)
    requires i < k <= |run.events| && run.events[i].slot == slot
    ensures i <= p < k && run.events[p].slot == slot && forall j :: p < j < k ==> run.events[j].slot != slot
  {
    p := k - 1;
    while run.events[p].slot != slot
      invariant i <= p < k && forall j :: p < j < k ==> run.events[j].slot != slot
      decreases p
    {
      p := p - 1;
    }
  }

  /** Two saves are sent with one ID exactly when the later is the earlier sent
      again: they are of one slot, everything it saved between them is the same
      and its form did not open. */
  lemma {:induction false} SameIdExactlyForResends<T>(run: Run<T>, i: nat, k: nat)
    requires run.Valid() && run.AllFresh() && i < k && run.IsSave(i) && run.IsSave(k)
    ensures IdOf(run, i) == IdOf(run, k) <==> Resends(run, i, k)
    decreases k
  {
    var slot := run.events[k].slot;
    IdIsMade(run, i);
    IdIsMade(run, k);
    if run.events[i].slot != slot {
      LongerMade(run, i + 1, k + 1, run.events[i].slot, IdOf(run, i));
      SlotsDiffer(run, k + 1, run.events[i].slot, slot, IdOf(run, i));
    } else {
      var p := EventBefore(run, i, k, slot);
      SlotStays(run, p + 1, k, slot);
      SameAfter(run, i, p, k);
    }
  }

  lemma {:induction false} LongerMade<T>(run: Run<T>, n: nat, k: nat, slot: nat, id: Id)
    requires n <= k <= |run.events| && slot < |run.first| && MadeBy(run, n, slot, id)
    ensures MadeBy(run, k, slot, id)
    decreases k - n
  {
    if n < k {
      MadeLonger(run, n, slot, id);
      LongerMade(run, n + 1, k, slot, id);
    }
  }

  /** The step to save `k` from the slot's event `p` before it. */
  lemma {:induction false} SameAfter<T>(run: Run<T>, i: nat, p: nat, k: nat)
    requires run.Valid() && run.AllFresh() && i <= p < k && run.IsSave(i) && run.IsSave(k)
    requires run.events[i].slot == run.events[p].slot == run.events[k].slot < |run.first|
    requires After(run, k, run.events[k].slot) == After(run, p + 1, run.events[k].slot)
    requires forall j :: p < j < k ==> run.events[j].slot != run.events[k].slot
    requires MadeBy(run, i + 1, run.events[i].slot, IdOf(run, i))
    ensures IdOf(run, i) == IdOf(run, k) <==> Resends(run, i, k)
    decreases k, 0
  {
    var slot := run.events[k].slot;
    match run.events[p]
    case Open(_, newId) =>
      MadeEarlier(run, i + 1, p, slot, IdOf(run, i));
    case Save(_, newId, request) =>
      if request.Plain() == run.events[k].request.Plain() {
        assert IdOf(run, p) == IdOf(run, k);
        if i < p {
          SameIdExactlyForResends(run, i, p);
        }
        assert Resends(run, i, k) <==> Resends(run, i, p);
      } else {
        MadeEarlier(run, i + 1, k, slot, IdOf(run, i));
      }
  }

  // ----- with a server that keeps one effect per ID -----

  /** What the server did, in order: the ID and the request it did it for. */
  type Effects<T> = seq<(Id, Request<T>)>

  ghost predicate Did<T>(effects: Effects<T>, id: Id) {
    exists e :: e in effects && e.0 == id
  }

  ghost predicate AllSaves<T>(run: Run<T>, arrived: seq<nat>) {
    run.Valid() && forall k: nat :: k < |arrived| ==> run.IsSave(arrived[k])
  }

  /** The server after the saves `arrived` (numbers of events) reached it: some
      never do, some arrive late, some more than once. */
  ghost function Server<T>(run: Run<T>, arrived: seq<nat>): Effects<T>
    requires AllSaves(run, arrived)
    decreases |arrived|
  {
    if arrived == [] then []
    else
      var i := arrived[|arrived| - 1];
      var effects := Server(run, arrived[..|arrived| - 1]);
      var id := IdOf(run, i);
      if Did(effects, id) then effects else effects + [(id, run.events[i].request.Plain())]
  }

  /** An effect for one of the saves that arrived, with its ID and its request. */
  ghost predicate IsEffectOf<T>(run: Run<T>, i: nat, e: (Id, Request<T>))
    requires run.Valid()
  {
    run.IsSave(i) && e == (IdOf(run, i), run.events[i].request.Plain())
  }

  /** Each ID has one effect, for what was saved with it; so a save that arrives
      gets the answer for its own request, and one sent again takes no effect twice. */
  lemma {:induction false} EffectsAreOwn<T>(run: Run<T>, arrived: seq<nat>)
    requires run.AllFresh() && AllSaves(run, arrived)
    ensures var effects := Server(run, arrived);
      && (forall a, b :: 0 <= a < b < |effects| ==> effects[a].0 != effects[b].0)
      && (forall i :: i in arrived ==> run.IsSave(i) && Did(effects, IdOf(run, i)))
      && (forall e :: e in effects ==> exists i :: i in arrived && IsEffectOf(run, i, e))
    decreases |arrived|
  {
    hide IdOf, Run<T>.AllFresh;
    if arrived != [] {
      var rest, i := arrived[..|arrived| - 1], arrived[|arrived| - 1];
      assert arrived == rest + [i];
      EffectsAreOwn(run, rest);
      var before, effects := Server(run, rest), Server(run, arrived);
      forall k | k in arrived ensures run.IsSave(k) && Did(effects, IdOf(run, k)) {
        if k in rest && Did(before, IdOf(run, k)) {
          var e :| e in before && e.0 == IdOf(run, k);
          assert e in effects;
        } else {
          assert effects[|effects| - 1] in effects;
        }
      }
      forall e | e in effects ensures exists j :: j in arrived && IsEffectOf(run, j, e) {
        if e !in before {
          assert IsEffectOf(run, i, e);
        }
      }
    }
  }

  /** The answer the server has for a save that arrived is for the same request,
      from the same slot. */
  lemma {:induction false} AnswerIsOwn<T>(run: Run<T>, arrived: seq<nat>, i: nat, e: (Id, Request<T>))
    requires run.AllFresh() && AllSaves(run, arrived) && i in arrived && run.IsSave(i)
    requires e in Server(run, arrived) && e.0 == IdOf(run, i)
    ensures e.1 == run.events[i].request.Plain()
    ensures exists k :: k in arrived && IsEffectOf(run, k, e) && run.events[k].slot == run.events[i].slot
  {
    hide IdOf, Server, Resends, Did, Run<T>.AllFresh;
    EffectsAreOwn(run, arrived);
    var k :| k in arrived && IsEffectOf(run, k, e);
    if k < i {
      SameIdExactlyForResends(run, k, i);
      ResendsSame(run, k, i);
    } else if i < k {
      SameIdExactlyForResends(run, i, k);
      ResendsSame(run, i, k);
    }
  }

  lemma ResendsSame<T>(run: Run<T>, i: nat, k: nat)
    requires i <= k && run.IsSave(i) && run.IsSave(k) && Resends(run, i, k)
    ensures run.events[i].slot == run.events[k].slot
    ensures run.events[i].request.Plain() == run.events[k].request.Plain()
  {
  }
}
