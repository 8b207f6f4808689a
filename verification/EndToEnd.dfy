/** A channel end to end: the sender, a network that loses, duplicates and reorders, and the
    receiver, interleaved arbitrarily (`pkg/channel/channel.go`). */
module EndToEnd {
  import opened ReceiveRing
  import opened Envelope
  import Sender
  import Receiver

  datatype State = State(tx: Sender.State, rx: Receiver.State)

  /** The network delivers any transmission at any time, any number of times, or never. */
  datatype Event =
    | Sending(txEvent: Sender.Event)
    | Receiving(rxEvent: Receiver.Event)
    | Network(packet: nat, worker: nat, unpacks: bool)

  function Init(rtt: real): State { State(Sender.Init(rtt), Receiver.INIT) }

  function Apply(s: State, e: Event): State {
    match e
    case Sending(t) => s.(tx := Sender.Apply(s.tx, t))
    case Receiving(r) => if r.Arrive? then s else s.(rx := Receiver.Apply(s.rx, r))
    case Network(p, w, unpacks) =>
      if p < |s.tx.wire|
      then s.(rx := Receiver.Apply(s.rx, Receiver.Arrive(w, s.tx.wire[p].raw, unpacks))) else s
  }

  function Run(s: State, events: seq<Event>): State {
    if events == [] then s
    else Apply(Run(s, events[..|events| - 1]), events[|events| - 1])
  }

  // ---------------------------------------------------------------- what arrives was sent

  ghost predicate SentAs(sends: seq<Message>, env: Receiver.Env, h: nat) {
    h < |sends| && env.sequence == h % SEQ_MODULUS && env.message == sends[h]
  }

  ghost predicate WasSent(sends: seq<Message>, env: Receiver.Env) {
    exists h :: SentAs(sends, env, h)
  }

  ghost predicate Inv(s: State) {
    && Sender.Inv(s.tx) && Receiver.Inv(s.rx)
    && forall env :: env in s.rx.arrived ==> WasSent(s.tx.sends, env)
  }

  lemma SendsGrow(t: Sender.State, e: Sender.Event)
    ensures t.sends <= Sender.Apply(t, e).sends
  {
  }

  lemma StillSent(a: seq<Message>, b: seq<Message>, env: Receiver.Env)
    requires WasSent(a, env) && a <= b
    ensures WasSent(b, env)
  {
    var h :| SentAs(a, env, h);
    assert SentAs(b, env, h);
  }

  lemma NetworkKeepsInv(s: State, p: nat, w: nat, unpacks: bool)
    requires Inv(s) && p < |s.tx.wire|
    ensures Inv(Apply(s, Network(p, w, unpacks)))
  {
    Receiver.ApplyKeepsInv(s.rx, Receiver.Arrive(w, s.tx.wire[p].raw, unpacks));
    var h := s.tx.wire[p].handle;
    var m := s.tx.sends[h];
    ParsePack(h % SEQ_MODULUS, m, []);
    assert s.tx.wire[p].raw + [] == s.tx.wire[p].raw;
    assert SentAs(s.tx.sends, Parse(s.tx.wire[p].raw).env, h);
  }

  lemma ApplyKeepsInv(s: State, e: Event)
    requires Inv(s)
    ensures Inv(Apply(s, e))
  {
    match e
    case Sending(t) =>
      Sender.ApplyKeepsInv(s.tx, t);
      SendsGrow(s.tx, t);
      forall env | env in s.rx.arrived
        ensures WasSent(Sender.Apply(s.tx, t).sends, env)
      {
        StillSent(s.tx.sends, Sender.Apply(s.tx, t).sends, env);
      }
    case Receiving(r) => if !r.Arrive? { Receiver.ApplyKeepsInv(s.rx, r); }
    case Network(p, w, unpacks) => if p < |s.tx.wire| { NetworkKeepsInv(s, p, w, unpacks); }
  }

  lemma InitInv(rtt: real)
    ensures Inv(Init(rtt))
  {
    Sender.InitInv(rtt);
    Receiver.InitInv();
  }

  lemma {:induction false} RunKeepsInv(rtt: real, events: seq<Event>)
    ensures Inv(Run(Init(rtt), events))
  {
    if events == [] {
      InitInv(rtt);
    } else {
      RunKeepsInv(rtt, events[..|events| - 1]);
      ApplyKeepsInv(Run(Init(rtt), events[..|events| - 1]), events[|events| - 1]);
    }
  }

  // ---------------------------------------------------------------- the delivered list

  function Messages(envs: seq<Receiver.Env>): seq<Message> {
    seq(|envs|, i requires 0 <= i < |envs| => envs[i].message)
  }

  lemma DispatchedWasSent(s: State, k: nat)
    requires Inv(s) && k < |s.rx.drained|
    ensures exists h: nat :: SentAs(s.tx.sends, s.rx.drained[k], h) && h % SEQ_MODULUS == k % SEQ_MODULUS
  {
    assert s.rx.drained[k] in s.rx.arrived;
    var h :| SentAs(s.tx.sends, s.rx.drained[k], h);
    assert s.rx.drained[k].sequence == Advance(0, k);
  }

  /** In every run whatever, the k-th message handed to the handlers is a message that was sent
      as number h with h = k modulo 65536. */
  lemma DeliveredModulo(rtt: real, events: seq<Event>, k: nat)
    requires k < |Run(Init(rtt), events).rx.dispatched|
    ensures var s := Run(Init(rtt), events);
            exists h: nat :: h % SEQ_MODULUS == k % SEQ_MODULUS && SentAs(s.tx.sends, s.rx.dispatched[k], h)
  {
    RunKeepsInv(rtt, events);
    var s := Run(Init(rtt), events);
    assert s.rx.dispatched[k] == (s.rx.dispatched + Receiver.Undispatched(s.rx))[k];
    DispatchedWasSent(s, k);
  }

  lemma SentAsItself(s: State, k: nat)
    requires Inv(s) && k < |s.rx.drained| && k < SEQ_MODULUS && |s.tx.sends| < SEQ_MODULUS
    ensures k < |s.tx.sends| && s.rx.drained[k].message == s.tx.sends[k]
  {
    DispatchedWasSent(s, k);
    var h: nat :| SentAs(s.tx.sends, s.rx.drained[k], h) && h % SEQ_MODULUS == k % SEQ_MODULUS;
    assert h == k;
  }

  lemma DrainedIsPrefix(s: State)
    requires Inv(s) && |s.tx.sends| < SEQ_MODULUS
    ensures |s.rx.drained| <= |s.tx.sends|
    ensures forall k :: 0 <= k < |s.rx.drained| ==> s.rx.drained[k].message == s.tx.sends[k]
  {
    if |s.rx.drained| > |s.tx.sends| {
      SentAsItself(s, |s.tx.sends|);
    }
    forall k | 0 <= k < |s.rx.drained|
      ensures s.rx.drained[k].message == s.tx.sends[k]
    {
      SentAsItself(s, k);
    }
  }

  lemma DispatchedIsPrefix(s: State)
    requires Inv(s) && |s.tx.sends| < SEQ_MODULUS
    ensures Messages(s.rx.dispatched) <= s.tx.sends
  {
    DrainedIsPrefix(s);
    forall k | 0 <= k < |s.rx.dispatched|
      ensures s.rx.dispatched[k].message == s.tx.sends[k]
    {
      assert s.rx.dispatched[k] == (s.rx.dispatched + Receiver.Undispatched(s.rx))[k];
    }
    assert |s.rx.dispatched| <= |s.rx.drained|;
  }

  /** For every interleaving of sends, failed sends, resends, loss, duplication, reordering and
      parallel dispatch: what the handlers have seen is a prefix of what was sent, as long as no
      more than 65535 messages have been sent. */
  lemma DeliveredPrefix(rtt: real, events: seq<Event>)
    requires |Run(Init(rtt), events).tx.sends| < SEQ_MODULUS
    ensures var s := Run(Init(rtt), events); Messages(s.rx.dispatched) <= s.tx.sends
  {
    RunKeepsInv(rtt, events);
    DispatchedIsPrefix(Run(Init(rtt), events));
  }
}
