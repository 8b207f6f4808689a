/** Request/response ownership of the control API (`pkg/controlapi/session.go` and the handler in
    `pkg/controlapi/destination.go`): whoever removes the pending entry owns the outcome. */
module ResponseOwnership {
  import opened Wrappers

  type Id = string
  type Data = seq<int>

  // ---------------------------------------------------------------- the interleaved system

  datatype Handler =
    | Waiting                        // in the select
    | TimedOut                       // timer case taken, about to forget
    | Receiving                      // did not own the entry: blocked on the channel
    | Returned(response: Option<Data>)

  /** A `deliverResponse` call between taking the entry and its channel send. */
  datatype Deliverer = Deliverer(id: Id, data: Data)

  datatype Success = Success(id: Id, data: Data)

  datatype State = State(
    pending: set<Id>,
    buffer: map<Id, Data>,           // the one-slot channels that hold a value
    handlers: map<Id, Handler>,
    deliverers: map<nat, Deliverer>,
    succeeded: seq<Success>)         // deliverResponse calls that returned true

  datatype Event =
    | Register(id: Id)               // a fresh request id
    | TimerFires(id: Id)
    | Forget(id: Id)
    | Receive(id: Id)
    | Take(d: nat, id: Id, data: Data)
    | Put(d: nat)

  const INIT := State({}, map[], map[], map[], [])

  function Apply(s: State, e: Event): State {
    match e
    case Register(id) =>
      if id in s.handlers then s
      else s.(handlers := s.handlers[id := Waiting], pending := s.pending + {id})
    case TimerFires(id) =>
      if id in s.handlers && s.handlers[id] == Waiting then s.(handlers := s.handlers[id := TimedOut]) else s
    case Forget(id) =>
      if id !in s.handlers || s.handlers[id] != TimedOut then s
      else if id in s.pending
      then s.(pending := s.pending - {id}, handlers := s.handlers[id := Returned(None)])
      else s.(handlers := s.handlers[id := Receiving])
    case Receive(id) =>
      if id in s.handlers && (s.handlers[id] == Waiting || s.handlers[id] == Receiving) && id in s.buffer
      then s.(handlers := s.handlers[id := Returned(Some(s.buffer[id]))], buffer := s.buffer - {id}) else s
    case Take(d, id, data) =>
      if d in s.deliverers || id !in s.pending then s
      else s.(pending := s.pending - {id}, deliverers := s.deliverers[d := Deliverer(id, data)])
    case Put(d) =>
      // the send blocks while the slot is full
      if d !in s.deliverers || s.deliverers[d].id in s.buffer then s
      else
        var v := s.deliverers[d];
        s.(buffer := s.buffer[v.id := v.data], deliverers := s.deliverers - {d},
           succeeded := s.succeeded + [Success(v.id, v.data)])
  }

  function Run(s: State, events: seq<Event>): State {
    if events == [] then s
    else Apply(Run(s, events[..|events| - 1]), events[|events| - 1])
  }

  // ---------------------------------------------------------------- who owns a request

  predicate Done(s: State, id: Id) { id in s.handlers && s.handlers[id].Returned? }

  ghost predicate Taken(s: State, id: Id) {
    exists d :: d in s.deliverers && s.deliverers[d].id == id
  }

  predicate Succeeded(s: State, id: Id) {
    exists i :: 0 <= i < |s.succeeded| && s.succeeded[i].id == id
  }

  ghost predicate DelivererOk(s: State, d: nat)
    requires d in s.deliverers
  {
    var id := s.deliverers[d].id;
    && id in s.handlers && !Done(s, id) && id !in s.pending && id !in s.buffer && !Succeeded(s, id)
    && forall d' :: d' in s.deliverers && s.deliverers[d'].id == id ==> d' == d
  }

  ghost predicate PendingOk(s: State, id: Id) {
    && id in s.handlers && (s.handlers[id] == Waiting || s.handlers[id] == TimedOut)
    && id !in s.buffer && !Succeeded(s, id)
  }

  /** A handler that no longer has a pending entry has something to receive, or has returned. */
  ghost predicate HandlerOk(s: State, id: Id)
    requires id in s.handlers
  {
    && (!Done(s, id) && id !in s.pending ==> Taken(s, id) || id in s.buffer)
    && (s.handlers[id] == Receiving ==> id !in s.pending)
    && (s.handlers[id] == Returned(None) ==> !Succeeded(s, id))
    && (Done(s, id) ==> id !in s.pending && id !in s.buffer)
  }

  ghost predicate SuccessOk(s: State, i: nat)
    requires i < |s.succeeded|
  {
    var v := s.succeeded[i];
    && v.id in s.handlers && v.id !in s.pending
    && ((v.id in s.buffer && s.buffer[v.id] == v.data) || s.handlers[v.id] == Returned(Some(v.data)))
  }

  predicate ReturnedSome(s: State, id: Id) { Done(s, id) && s.handlers[id].response.Some? }

  ghost predicate AllDeliverers(s: State) { forall d :: d in s.deliverers ==> DelivererOk(s, d) }
  ghost predicate AllPending(s: State) { forall id :: id in s.pending ==> PendingOk(s, id) }
  ghost predicate AllHandlers(s: State) { forall id :: id in s.handlers ==> HandlerOk(s, id) }
  ghost predicate AllBuffers(s: State) { forall id :: id in s.buffer ==> id in s.handlers && Succeeded(s, id) }
  ghost predicate AllReturned(s: State) { forall id :: ReturnedSome(s, id) ==> Succeeded(s, id) }
  ghost predicate AllSuccesses(s: State) { forall i :: 0 <= i < |s.succeeded| ==> SuccessOk(s, i) }
  ghost predicate UniqueSuccesses(s: State) {
    forall i, j :: 0 <= i < j < |s.succeeded| ==> s.succeeded[i].id != s.succeeded[j].id
  }

  ghost predicate Inv(s: State) {
    && AllDeliverers(s) && AllPending(s) && AllHandlers(s) && AllBuffers(s) && AllReturned(s)
    && AllSuccesses(s) && UniqueSuccesses(s)
  }

  lemma SucceededSnoc(s: State, s': State, v: Success)
    requires s'.succeeded == s.succeeded + [v]
    ensures forall id :: Succeeded(s', id) <==> Succeeded(s, id) || id == v.id
  {
    assert s'.succeeded[|s.succeeded|] == v;
    forall id | Succeeded(s, id)
      ensures Succeeded(s', id)
    {
      var i :| 0 <= i < |s.succeeded| && s.succeeded[i].id == id;
      assert s'.succeeded[i].id == id;
    }
  }

  lemma PutHandler(s: State, d: nat, id: Id)
    requires Inv(s) && d in s.deliverers && id in s.handlers
    ensures HandlerOk(Apply(s, Put(d)), id)
  {
    var s', v := Apply(s, Put(d)), s.deliverers[d];
    assert DelivererOk(s, d) && HandlerOk(s, id);
    SucceededSnoc(s, s', Success(v.id, v.data));
    if id != v.id && Taken(s, id) {
      var d' :| d' in s.deliverers && s.deliverers[d'].id == id;
      assert d' in s'.deliverers && s'.deliverers[d'].id == id;
    }
  }

  lemma PutSuccess(s: State, d: nat, i: nat)
    requires Inv(s) && d in s.deliverers && i < |Apply(s, Put(d)).succeeded|
    ensures SuccessOk(Apply(s, Put(d)), i)
  {
    var s', v := Apply(s, Put(d)), s.deliverers[d];
    assert DelivererOk(s, d);
    if i < |s.succeeded| {
      assert SuccessOk(s, i) && s'.succeeded[i] == s.succeeded[i];
      assert Succeeded(s, s.succeeded[i].id);
    }
  }

  lemma PutDeliverer(s: State, d: nat, d': nat)
    requires Inv(s) && d in s.deliverers && d' in Apply(s, Put(d)).deliverers
    ensures DelivererOk(Apply(s, Put(d)), d')
  {
    assert DelivererOk(s, d) && DelivererOk(s, d');
    SucceededSnoc(s, Apply(s, Put(d)), Success(s.deliverers[d].id, s.deliverers[d].data));
  }

  lemma PutRest(s: State, d: nat)
    requires Inv(s) && d in s.deliverers
    ensures var s' := Apply(s, Put(d));
            AllPending(s') && AllBuffers(s') && AllReturned(s') && UniqueSuccesses(s')
  {
    var s', v := Apply(s, Put(d)), s.deliverers[d];
    assert DelivererOk(s, d);
    SucceededSnoc(s, s', Success(v.id, v.data));
    forall i, j | 0 <= i < j < |s'.succeeded|
      ensures s'.succeeded[i].id != s'.succeeded[j].id
    {
      assert Succeeded(s, s.succeeded[i].id);
    }
  }

  lemma PutKeepsInv(s: State, d: nat)
    requires Inv(s) && d in s.deliverers
    ensures Inv(Apply(s, Put(d)))
  {
    var s' := Apply(s, Put(d));
    assert AllHandlers(s') by { forall id | id in s'.handlers ensures HandlerOk(s', id) { PutHandler(s, d, id); } }
    assert AllDeliverers(s') by {
      forall d' | d' in s'.deliverers ensures DelivererOk(s', d') { PutDeliverer(s, d, d'); }
    }
    assert AllSuccesses(s') by {
      forall i | 0 <= i < |s'.succeeded| ensures SuccessOk(s', i) { PutSuccess(s, d, i); }
    }
    PutRest(s, d);
  }

  lemma TakenKept(s: State, s': State, id: Id)
    requires Taken(s, id) && forall d :: d in s.deliverers ==> d in s'.deliverers && s'.deliverers[d] == s.deliverers[d]
    ensures Taken(s', id)
  {
    var d :| d in s.deliverers && s.deliverers[d].id == id;
    assert d in s'.deliverers;
  }

  lemma SucceededMeans(s: State, id: Id)
    requires Inv(s) && Succeeded(s, id)
    ensures id in s.handlers && id !in s.pending && (id in s.buffer || ReturnedSome(s, id))
  {
    var i :| 0 <= i < |s.succeeded| && s.succeeded[i].id == id;
    assert SuccessOk(s, i);
  }

  lemma TakenStep(s: State, e: Event, id: Id)
    requires !e.Put?
    ensures Taken(s, id) ==> Taken(Apply(s, e), id)
    ensures e.Take? && e.id == id && Apply(s, e) != s ==> Taken(Apply(s, e), id)
  {
    var s' := Apply(s, e);
    if Taken(s, id) { TakenKept(s, s', id); }
    if e.Take? && e.id == id && s' != s {
      assert e.d in s'.deliverers && s'.deliverers[e.d].id == id;
    }
  }

  /** What the invariant says about one request. */
  ghost predicate RequestOk(s: State, id: Id) {
    && (id in s.handlers ==> HandlerOk(s, id))
    && (id in s.pending ==> PendingOk(s, id))
    && (id in s.buffer ==> id in s.handlers && Succeeded(s, id))
    && (Succeeded(s, id) ==> id in s.handlers && id !in s.pending && (id in s.buffer || ReturnedSome(s, id)))
  }

  lemma RequestsOk(s: State, id: Id)
    requires Inv(s)
    ensures RequestOk(s, id)
  {
    if Succeeded(s, id) { SucceededMeans(s, id); }
  }

  lemma RequestStep(s: State, e: Event, id: Id)
    requires RequestOk(s, id) && !e.Put? && id in Apply(s, e).handlers
    ensures HandlerOk(Apply(s, e), id)
  {
    assert Succeeded(Apply(s, e), id) == Succeeded(s, id);
    TakenStep(s, e, id);
  }

  lemma HandlerStep(s: State, e: Event, id: Id)
    requires Inv(s) && !e.Put? && id in Apply(s, e).handlers
    ensures HandlerOk(Apply(s, e), id)
  {
    RequestsOk(s, id);
    RequestStep(s, e, id);
  }

  lemma NotTakenWhilePending(s: State, id: Id)
    requires Inv(s) && id in s.pending
    ensures forall d :: d in s.deliverers ==> s.deliverers[d].id != id
  {
    forall d | d in s.deliverers
      ensures s.deliverers[d].id != id
    {
      assert DelivererOk(s, d);
    }
  }

  lemma TakeDeliverer(s: State, e: Event, d: nat)
    requires Inv(s) && e.Take? && d in Apply(s, e).deliverers
    ensures DelivererOk(Apply(s, e), d)
  {
    var s' := Apply(s, e);
    assert Succeeded(s', s'.deliverers[d].id) == Succeeded(s, s'.deliverers[d].id);
    if e.id in s.pending {
      assert PendingOk(s, e.id);
      NotTakenWhilePending(s, e.id);
    }
    if d in s.deliverers { assert DelivererOk(s, d); }
  }

  lemma OtherDeliverer(s: State, e: Event, d: nat)
    requires d in s.deliverers && DelivererOk(s, d) && RequestOk(s, s.deliverers[d].id) && !e.Put? && !e.Take?
    ensures d in Apply(s, e).deliverers && DelivererOk(Apply(s, e), d)
  {
    var s' := Apply(s, e);
    assert s'.deliverers == s.deliverers;
    assert Succeeded(s', s.deliverers[d].id) == Succeeded(s, s.deliverers[d].id);
  }

  lemma DelivererStep(s: State, e: Event, d: nat)
    requires Inv(s) && !e.Put? && d in Apply(s, e).deliverers
    ensures DelivererOk(Apply(s, e), d)
  {
    if e.Take? {
      TakeDeliverer(s, e, d);
    } else {
      RequestsOk(s, s.deliverers[d].id);
      OtherDeliverer(s, e, d);
    }
  }

  lemma PendingStep(s: State, e: Event, id: Id)
    requires Inv(s) && !e.Put? && id in Apply(s, e).pending
    ensures PendingOk(Apply(s, e), id)
  {
    assert Succeeded(Apply(s, e), id) == Succeeded(s, id);
    if Succeeded(s, id) { SucceededMeans(s, id); }
    if id in s.pending { assert PendingOk(s, id); }
  }

  lemma SuccessStep(s: State, e: Event, i: nat)
    requires Inv(s) && !e.Put? && i < |s.succeeded|
    ensures Apply(s, e).succeeded == s.succeeded && SuccessOk(Apply(s, e), i)
  {
    assert SuccessOk(s, i);
  }

  lemma ReturnedStep(s: State, e: Event, id: Id)
    requires Inv(s) && !e.Put?
    ensures id in Apply(s, e).buffer ==> id in Apply(s, e).handlers && Succeeded(Apply(s, e), id)
    ensures ReturnedSome(Apply(s, e), id) ==> Succeeded(Apply(s, e), id)
  {
    assert Succeeded(Apply(s, e), id) == Succeeded(s, id);
  }

  lemma OtherKeepsInv(s: State, e: Event)
    requires Inv(s) && !e.Put?
    ensures Inv(Apply(s, e))
  {
    var s' := Apply(s, e);
    assert AllHandlers(s') by { forall id | id in s'.handlers ensures HandlerOk(s', id) { HandlerStep(s, e, id); } }
    assert AllDeliverers(s') by { forall d | d in s'.deliverers ensures DelivererOk(s', d) { DelivererStep(s, e, d); } }
    assert AllPending(s') by { forall id | id in s'.pending ensures PendingOk(s', id) { PendingStep(s, e, id); } }
    assert AllSuccesses(s') by {
      forall i | 0 <= i < |s'.succeeded| ensures SuccessOk(s', i) { SuccessStep(s, e, i); }
    }
    assert AllBuffers(s') && AllReturned(s') by { forall id { ReturnedStep(s, e, id); } }
  }

  lemma ApplyKeepsInv(s: State, e: Event)
    requires Inv(s)
    ensures Inv(Apply(s, e))
  {
    if e.Put? {
      if e.d in s.deliverers { PutKeepsInv(s, e.d); }
    } else {
      OtherKeepsInv(s, e);
    }
  }

  lemma {:induction false} RunKeepsInv(events: seq<Event>)
    ensures Inv(Run(INIT, events))
  {
    if events != [] {
      RunKeepsInv(events[..|events| - 1]);
      ApplyKeepsInv(Run(INIT, events[..|events| - 1]), events[|events| - 1]);
    }
  }

  // ---------------------------------------------------------------- guarantees

  /** At most one `deliverResponse` per request returns true, in every interleaving. */
  lemma AtMostOneSuccess(events: seq<Event>, i: nat, j: nat)
    requires i < j < |Run(INIT, events).succeeded|
    ensures Run(INIT, events).succeeded[i].id != Run(INIT, events).succeeded[j].id
  {
    RunKeepsInv(events);
  }

  /** Once the handler has returned, it returned a payload exactly when a `deliverResponse` with
      that payload returned true, and nil exactly when none did or ever will. */
  lemma ReturnedIffDelivered(events: seq<Event>, id: Id)
    requires Done(Run(INIT, events), id)
    ensures var s := Run(INIT, events);
            && (forall data :: s.handlers[id] == Returned(Some(data)) <==> Success(id, data) in s.succeeded)
            && (s.handlers[id] == Returned(None) <==> !Succeeded(s, id))
            && id !in s.pending && !Taken(s, id)
  {
    RunKeepsInv(events);
    var s := Run(INIT, events);
    assert HandlerOk(s, id);
    forall d | d in s.deliverers
      ensures s.deliverers[d].id != id
    {
      assert DelivererOk(s, d);
    }
    forall data
      ensures s.handlers[id] == Returned(Some(data)) <==> Success(id, data) in s.succeeded
    {
      if Success(id, data) in s.succeeded {
        var i :| 0 <= i < |s.succeeded| && s.succeeded[i] == Success(id, data);
        assert SuccessOk(s, i);
      }
      if s.handlers[id] == Returned(Some(data)) {
        var i :| 0 <= i < |s.succeeded| && s.succeeded[i].id == id;
        assert SuccessOk(s, i);
        assert s.succeeded[i] == Success(id, data);
      }
    }
  }

  /** No one blocks forever: the channel send never blocks, and a handler that lost the entry has
      its value in the channel or is one unblocked send away from it. */
  lemma NoOneBlocks(events: seq<Event>, id: Id)
    ensures var s := Run(INIT, events);
            && (forall d :: d in s.deliverers ==> s.deliverers[d].id !in s.buffer)
            && (id in s.handlers && s.handlers[id] == Receiving && id in s.buffer ==>
                  Apply(s, Receive(id)).handlers[id] == Returned(Some(s.buffer[id])))
            && (id in s.handlers && s.handlers[id] == Receiving && id !in s.buffer ==>
                  exists d :: d in s.deliverers && s.deliverers[d].id == id &&
                              Apply(Apply(s, Put(d)), Receive(id)).handlers[id] == Returned(Some(s.deliverers[d].data)))
  {
    RunKeepsInv(events);
    var s := Run(INIT, events);
    forall d | d in s.deliverers
      ensures s.deliverers[d].id !in s.buffer
    {
      assert DelivererOk(s, d);
    }
    if id in s.handlers && s.handlers[id] == Receiving && id !in s.buffer {
      assert HandlerOk(s, id);
      var d :| d in s.deliverers && s.deliverers[d].id == id;
      assert Apply(Apply(s, Put(d)), Receive(id)).handlers[id] == Returned(Some(s.deliverers[d].data));
    }
  }

  /** How far a request whose timer has fired is from returning. */
  ghost function Rank(s: State, id: Id): nat {
    if id !in s.handlers || s.handlers[id] == Waiting then 4
    else if s.handlers[id] == TimedOut then 3
    else if s.handlers[id] == Receiving then (if id in s.buffer then 1 else 2)
    else 0
  }

  /** No event of anyone moves a request further from returning. */
  lemma RankNeverGrows(events: seq<Event>, e: Event, id: Id)
    ensures Rank(Apply(Run(INIT, events), e), id) <= Rank(Run(INIT, events), id)
  {
    RunKeepsInv(events);
    RequestsOk(Run(INIT, events), id);
    RankStep(Run(INIT, events), e, id);
  }

  /** Progress: in every run, a request whose timer has fired and whose handler has not returned has
      an enabled event that brings it strictly closer to returning.  As nothing moves it back, it is
      at most three such events from returning. */
  lemma Progress(events: seq<Event>, id: Id)
    ensures var s := Run(INIT, events);
            1 <= Rank(s, id) <= 3 ==> exists e :: Rank(Apply(s, e), id) < Rank(s, id)
  {
    RunKeepsInv(events);
    RequestsOk(Run(INIT, events), id);
    var s := Run(INIT, events);
    if id in s.handlers && s.handlers[id] == TimedOut {
      ForgetLowers(s, id);
    } else if id in s.handlers && s.handlers[id] == Receiving {
      if id in s.buffer { ReceiveLowers(s, id); } else { PutLowers(s, id); }
    }
  }

  lemma ForgetLowers(s: State, id: Id)
    requires id in s.handlers && s.handlers[id] == TimedOut
    ensures Rank(Apply(s, Forget(id)), id) < Rank(s, id)
  {
  }

  lemma ReceiveLowers(s: State, id: Id)
    requires id in s.handlers && s.handlers[id] == Receiving && id in s.buffer
    ensures Rank(Apply(s, Receive(id)), id) < Rank(s, id)
  {
  }

  lemma PutLowers(s: State, id: Id)
    requires id in s.handlers && s.handlers[id] == Receiving && id !in s.buffer && Taken(s, id)
    ensures exists d :: Rank(Apply(s, Put(d)), id) < Rank(s, id)
  {
    var d :| d in s.deliverers && s.deliverers[d].id == id;
    assert Rank(Apply(s, Put(d)), id) < Rank(s, id);
  }

  lemma RankStep(s: State, e: Event, id: Id)
    requires RequestOk(s, id)
    ensures Rank(Apply(s, e), id) <= Rank(s, id)
  {
  }

  /** A response to a request that is still waiting reaches it: taken, sent and received, it is what
      the handler returns. */
  lemma WaitingGetsResponse(s: State, id: Id, d: nat, data: Data)
    requires Inv(s) && id in s.pending && d !in s.deliverers
    ensures id in s.handlers
    ensures s.handlers[id] == Waiting ==>
              var u := Apply(Apply(Apply(s, Take(d, id, data)), Put(d)), Receive(id));
              && u.handlers[id] == Returned(Some(data)) && u.succeeded == s.succeeded + [Success(id, data)]
              && u.handlers == s.handlers[id := Returned(Some(data))] && u.pending == s.pending - {id}
  {
    assert PendingOk(s, id);
  }

  /** A request that is still waiting when its timer fires, and that no one answers before it forgets
      it, returns nil. */
  lemma WaitingTimesOut(s: State, id: Id)
    requires Inv(s) && id in s.pending && s.handlers[id] == Waiting
    ensures var u := Apply(Apply(s, TimerFires(id)), Forget(id));
            u.handlers == s.handlers[id := Returned(None)] && u.pending == s.pending - {id}
  {
  }

  /** A fresh request waits. */
  lemma RegisteredWaits(s: State, id: Id)
    requires id !in s.handlers
    ensures var u := Apply(s, Register(id));
            id in u.pending && u.handlers == s.handlers[id := Waiting] && u.pending == s.pending + {id}
  {
  }

  // ---------------------------------------------------------------- the session object

  /** A channel with room for one value. */
  class Slot {
    var value: Option<Data>

    constructor ()
      ensures value == None
    {
      value := None;
    }
  }

  /** The session's table of waiters.  Each method is one uninterrupted section; its contract says
      which step of the interleaved system it takes, in any state `s` that the object shows. */
  class Session {
    var pending: map<Id, Slot>
    ghost var channels: map<Id, Slot>   // every channel handed out, pending or not

    ghost predicate Shows(s: State)
      reads this, channels.Values
    {
      && pending.Keys == s.pending && channels.Keys == s.handlers.Keys && s.buffer.Keys <= channels.Keys
      && (forall id :: id in pending ==> id in channels && channels[id] == pending[id])
      && (forall i, j :: i in channels && j in channels && channels[i] == channels[j] ==> i == j)
      && forall id :: id in channels ==> channels[id].value == if id in s.buffer then Some(s.buffer[id]) else None
    }

    constructor ()
      ensures Shows(INIT)
    {
      pending, channels := map[], map[];
    }

    /** Registers a waiter for a request id that is not in use. */
    method AwaitResponse(id: Id, ghost s: State) returns (ch: Slot)
      requires Shows(s) && id !in s.handlers
      modifies this
      ensures fresh(ch) && channels == old(channels)[id := ch]
      ensures Shows(Apply(s, Register(id)))
    {
      ch := new Slot();
      pending := pending[id := ch];
      channels := channels[id := ch];
    }

    /** The locked part of `deliverResponse`: owning the entry is being the deliverer of the
        request. */
    method TakeForDelivery(id: Id, ghost data: Data, ghost s: State, ghost d: nat) returns (ch: Option<Slot>)
      requires Shows(s) && d !in s.deliverers
      modifies this`pending
      ensures Shows(Apply(s, Take(d, id, data)))
      ensures ch.Some? <==> id in old(pending)
      ensures ch.Some? <==> d in Apply(s, Take(d, id, data)).deliverers
      ensures ch.Some? ==> id in channels && ch.value == channels[id]
    {
      if id !in pending {
        return None;
      }
      ch := Some(pending[id]);
      pending := pending - {id};
    }

    /** The channel send of `deliverResponse`.  In a reachable state it finds the channel empty, so
        it does not block. */
    method SendResponse(ch: Slot, data: Data, ghost s: State, ghost d: nat)
      requires Shows(s) && Inv(s) && d in s.deliverers && s.deliverers[d].data == data
      requires s.deliverers[d].id in channels && ch == channels[s.deliverers[d].id]
      modifies ch
      ensures old(ch.value) == None
      ensures Shows(Apply(s, Put(d)))
    {
      assert DelivererOk(s, d);
      ch.value := Some(data);
    }

    /** A `deliverResponse` call that nothing interrupts. */
    method DeliverResponse(id: Id, data: Data, ghost s: State, ghost d: nat) returns (ok: bool)
      requires Shows(s) && Inv(s) && d !in s.deliverers
      modifies this`pending, channels.Values
      ensures channels == old(channels)
      ensures ok <==> id in old(pending)
      ensures Shows(Apply(Apply(s, Take(d, id, data)), Put(d)))
      ensures Apply(Apply(s, Take(d, id, data)), Put(d)).succeeded
              == if ok then s.succeeded + [Success(id, data)] else s.succeeded
    {
      ghost var taken := Apply(s, Take(d, id, data));
      ApplyKeepsInv(s, Take(d, id, data));
      var ch := TakeForDelivery(id, data, s, d);
      if ch == None {
        return false;
      }
      assert DelivererOk(taken, d);
      SendResponse(ch.value, data, taken, d);
      ok := true;
    }

    /** The handler's timer has fired: it returns nil exactly when this call removes the entry. */
    method ForgetResponse(id: Id, ghost s: State) returns (owned: bool)
      requires Shows(s) && id in s.handlers && s.handlers[id] == TimedOut
      modifies this`pending
      ensures owned <==> id in old(pending)
      ensures Shows(Apply(s, Forget(id)))
      ensures Apply(s, Forget(id)).handlers[id] == if owned then Returned(None) else Receiving
    {
      owned := id in pending;
      if owned {
        pending := pending - {id};
      }
    }

    /** The handler takes the value from its channel and returns it. */
    method ReceiveResponse(ch: Slot, ghost id: Id, ghost s: State) returns (data: Data)
      requires Shows(s) && id in s.buffer && ch == channels[id]
      requires s.handlers[id] == Waiting || s.handlers[id] == Receiving
      modifies ch
      ensures Shows(Apply(s, Receive(id)))
      ensures Apply(s, Receive(id)).handlers[id] == Returned(Some(data))
    {
      data := ch.value.value;
      ch.value := None;
    }
  }
}
