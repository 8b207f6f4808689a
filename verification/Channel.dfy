/** `Channel` of `pkg/channel/channel.go` as an object: the sections that run under its mutex,
    each proved to be the step that the interleaved models take. */
module Channel {
  import opened ReceiveRing
  import opened Envelope
  import AdaptiveWindow
  import Sender

  datatype SendResult = LinkNotReady | BodyRefused | TooBig | Sent(handle: nat)

  class Channel {
    var txRing: seq<Sender.Pending>
    var rxRing: seq<Rx<Message>>
    var window: int
    var windowMax: int
    var windowMin: int
    var windowFlexibility: int
    var fastRateRounds: nat
    var mediumRateRounds: nat
    var nextSequence: Seq16
    var nextRxSequence: Seq16
    var generation: nat  // how many readyCh channels have been closed

    ghost function Win(): AdaptiveWindow.Window
      reads this
    {
      AdaptiveWindow.Window(window, windowMax, windowMin, windowFlexibility, fastRateRounds, mediumRateRounds)
    }

    ghost function Tx(): Sender.Core
      reads this
    {
      Sender.Core(Win(), txRing, nextSequence, generation)
    }

    constructor (rtt: real)
      ensures Tx() == Sender.Init(rtt).core && rxRing == [] && nextRxSequence == 0
    {
      txRing, rxRing, nextSequence, nextRxSequence, generation := [], [], 0, 0, 0;
      windowMax := AdaptiveWindow.WINDOW_MAX_SLOW;
      windowMin := AdaptiveWindow.WINDOW_MIN_SLOW;
      window := AdaptiveWindow.WINDOW_INITIAL;
      windowFlexibility := AdaptiveWindow.WINDOW_FLEXIBILITY;
      fastRateRounds, mediumRateRounds := 0, 0;
      if rtt > AdaptiveWindow.RTT_SLOW {
        window, windowMax, windowMin, windowFlexibility := 1, 1, 1, 1;
      }
    }

    method AdjustWindowOnDelivered(rtt: real)
      modifies this`window, this`windowMax, this`windowMin, this`fastRateRounds, this`mediumRateRounds
      ensures Win() == AdaptiveWindow.OnDelivered(old(Win()), rtt)
    {
      if window < windowMax {
        window := window + 1;
      }
      if rtt == 0.0 {
        return;
      }
      if rtt > AdaptiveWindow.RTT_FAST {
        fastRateRounds := 0;
        if rtt > AdaptiveWindow.RTT_MEDIUM {
          mediumRateRounds := 0;
          return;
        }
        mediumRateRounds := mediumRateRounds + 1;
        if windowMax < AdaptiveWindow.WINDOW_MAX_MEDIUM && mediumRateRounds == AdaptiveWindow.FAST_RATE_THRESHOLD {
          windowMax, windowMin := AdaptiveWindow.WINDOW_MAX_MEDIUM, AdaptiveWindow.WINDOW_MIN_MEDIUM;
        }
        return;
      }
      fastRateRounds := fastRateRounds + 1;
      if windowMax < AdaptiveWindow.WINDOW_MAX_FAST && fastRateRounds == AdaptiveWindow.FAST_RATE_THRESHOLD {
        windowMax, windowMin := AdaptiveWindow.WINDOW_MAX_FAST, AdaptiveWindow.WINDOW_MIN_FAST;
      }
    }

    method ShrinkWindowOnTimeout()
      modifies this`window, this`windowMax
      ensures Win() == AdaptiveWindow.OnTimeout(old(Win()))
    {
      if window > windowMin {
        window := window - 1;
      }
      if windowMax > windowMin + windowFlexibility {
        windowMax := windowMax - 1;
      }
    }

    /** A whole `Send` call whose outlet call ends with `accepted`, in any state `s` of the sender
        model that shows this object between two calls.  It takes the steps of the model; a failure
        leaves every field as it was, so no ghost envelope and no hole in the sequence remain. */
    method Send(m: Message, up: bool, mdu: int, accepted: bool, handle: nat, ghost s: Sender.State)
      returns (r: SendResult)
      requires s.core == Tx() && s.pc == Sender.Idle && handle == |s.sends|
      modifies this`nextSequence, this`txRing
      ensures var s' := Sender.SendCall(s, m, up, mdu, accepted);
              && Tx() == s'.core && s'.pc == Sender.Idle
              && s'.sends == if r.Sent? then s.sends + [m] else s.sends
      ensures !r.Sent? ==> Tx() == old(Tx())
      ensures r.Sent? ==> Tx() == old(Tx()).(
                ring := old(txRing) + [Sender.Pending(old(nextSequence), handle, m, 1)],
                nextSequence := Next(old(nextSequence))) && r.handle == handle
      ensures var ready, packs, fits :=
                up && |old(txRing)| < old(window), |m.body| <= 65535, HEADER_SIZE + |m.body| <= mdu;
              && (r.BodyRefused? <==> ready && !packs)
              && (r.TooBig? <==> ready && packs && !fits)
              && (r.LinkNotReady? <==> !ready || (packs && fits && !accepted))
              && (r.Sent? <==> ready && packs && fits && accepted)
    {
      if !up || |txRing| >= window {
        return LinkNotReady;
      }
      var reserved := nextSequence;
      var packed := Pack(reserved, m);
      if packed == BodyTooLarge {
        return BodyRefused;
      }
      if |packed.raw| > mdu {
        return TooBig;
      }
      nextSequence := Next(reserved);
      if !accepted {
        nextSequence := reserved;
        return LinkNotReady;
      }
      txRing := txRing + [Sender.Pending(reserved, handle, m, 1)];
      r := Sent(handle);
    }

    method HandleTimeout(packet: nat, resendOk: bool)
      modifies this`txRing, this`window, this`windowMax, this`generation
      ensures Tx() == Sender.HandleTimeout(old(Tx()), packet, resendOk)
    {
      var i := 0;
      while i < |txRing|
        invariant 0 <= i <= |txRing|
        invariant forall k :: 0 <= k < i ==> txRing[k].handle != packet
        invariant Tx() == old(Tx())
      {
        if txRing[i].handle != packet {
          i := i + 1;
          continue;
        }
        FoundAt(txRing, packet, i);
        ShrinkWindowOnTimeout();
        var env := txRing[i];
        if env.tries >= Sender.MAX_TRIES {
          txRing := txRing[..i] + txRing[i + 1..];
          generation := generation + 1;
          return;
        }
        txRing := txRing[i := env.(tries := env.tries + 1)];
        if !resendOk {
          txRing := txRing[..i] + txRing[i + 1..];
          generation := generation + 1;
          return;
        }
        return;
      }
      FoundAt(txRing, packet, i);
    }

    method HandleDelivered(packet: nat, rtt: real)
      modifies this`txRing, this`generation
      modifies this`window, this`windowMax, this`windowMin, this`fastRateRounds, this`mediumRateRounds
      ensures Tx() == Sender.HandleDelivered(old(Tx()), packet, rtt)
    {
      var i := 0;
      while i < |txRing|
        invariant 0 <= i <= |txRing|
        invariant forall k :: 0 <= k < i ==> txRing[k].handle != packet
        invariant Tx() == old(Tx())
      {
        if txRing[i].handle == packet {
          FoundAt(txRing, packet, i);
          txRing := txRing[..i] + txRing[i + 1..];
          AdjustWindowOnDelivered(rtt);
          generation := generation + 1;
          return;
        }
        i := i + 1;
      }
      FoundAt(txRing, packet, i);
    }

    method EmplaceRX(env: Rx<Message>) returns (inserted: bool)
      modifies this`rxRing
      ensures rxRing == Emplace(old(rxRing), nextRxSequence, env)
      ensures inserted == FindSlot(old(rxRing), nextRxSequence, env.sequence, 0).At?
      ensures !inserted ==> rxRing == old(rxRing)
      ensures inserted ==>
                exists i :: 0 <= i < |rxRing| && rxRing[i] == env && rxRing[..i] + rxRing[i + 1..] == old(rxRing)
    {
      EmplaceInserts(rxRing, nextRxSequence, env);
      var i := 0;
      while i < |rxRing|
        invariant 0 <= i <= |rxRing| && rxRing == old(rxRing)
        invariant FindSlot(rxRing, nextRxSequence, env.sequence, 0) == FindSlot(rxRing, nextRxSequence, env.sequence, i)
      {
        if env.sequence == rxRing[i].sequence {
          return false;
        }
        var dist := nextRxSequence - env.sequence;
        if env.sequence < rxRing[i].sequence && dist <= SEQ_MAX / 2 {
          rxRing := rxRing[..i] + [env] + rxRing[i..];
          return true;
        }
        i := i + 1;
      }
      assert rxRing[..|rxRing|] + [env] + rxRing[|rxRing|..] == rxRing + [env];
      rxRing := rxRing + [env];
      inserted := true;
    }

    method FindRX(s: Seq16) returns (i: nat)
      ensures i == IndexOf(rxRing, s)
    {
      i := 0;
      while i < |rxRing|
        invariant 0 <= i <= |rxRing|
        invariant forall k :: 0 <= k < i ==> rxRing[k].sequence != s
      {
        if rxRing[i].sequence == s {
          break;
        }
        i := i + 1;
      }
      RxFoundAt(rxRing, s, i);
    }

    method DrainRX() returns (out: seq<Rx<Message>>)
      modifies this`rxRing, this`nextRxSequence
      ensures Drained(rxRing, nextRxSequence, out) == Drain(old(rxRing), old(nextRxSequence))
    {
      out := [];
      ghost var target := Drain(rxRing, nextRxSequence);
      while true
        invariant target == Prepend(out, Drain(rxRing, nextRxSequence))
        decreases |rxRing|
      {
        var found := FindRX(nextRxSequence);
        PrependStep(out, rxRing, nextRxSequence);
        if found == |rxRing| {
          return;
        }
        var env := rxRing[found];
        rxRing := rxRing[..found] + rxRing[found + 1..];
        out := out + [env];
        nextRxSequence := Next(nextRxSequence);
      }
    }

    /** The part of `HandleInbound` under the mutex: what it returns is dispatched. */
    method Receive(env: Rx<Message>) returns (out: seq<Rx<Message>>)
      modifies this`rxRing, this`nextRxSequence
      ensures if Accepted(env.sequence, old(nextRxSequence))
                 && FindSlot(old(rxRing), old(nextRxSequence), env.sequence, 0).At?
              then Drained(rxRing, nextRxSequence, out)
                   == Drain(Emplace(old(rxRing), old(nextRxSequence), env), old(nextRxSequence))
              else out == [] && rxRing == old(rxRing) && nextRxSequence == old(nextRxSequence)
    {
      if Stale(env.sequence, nextRxSequence) || FarAhead(env.sequence, nextRxSequence) {
        return [];
      }
      var inserted := EmplaceRX(env);
      if !inserted {
        return [];
      }
      out := DrainRX();
    }

    method Close()
      modifies this`txRing, this`rxRing, this`generation
      ensures Tx() == Sender.Signal(old(Tx()).(ring := [])) && rxRing == []
    {
      txRing, rxRing := [], [];
      generation := generation + 1;
    }
  }

  lemma {:induction false} FoundAt(ring: seq<Sender.Pending>, packet: nat, i: nat)
    requires i <= |ring| && forall k :: 0 <= k < i ==> ring[k].handle != packet
    requires i < |ring| ==> ring[i].handle == packet
    ensures Sender.Find(ring, packet) == i
  {
  }

  ghost function Prepend(out: seq<Rx<Message>>, d: Drained<Message>): Drained<Message> {
    d.(out := out + d.out)
  }

  lemma PrependStep(out: seq<Rx<Message>>, ring: seq<Rx<Message>>, next: Seq16)
    ensures var i := IndexOf(ring, next);
            Prepend(out, Drain(ring, next))
            == if i == |ring| then Drained(ring, next, out)
               else Prepend(out + [ring[i]], Drain(Without(ring, i), Next(next)))
  {
    var i := IndexOf(ring, next);
    if i < |ring| {
      var d := Drain(Without(ring, i), Next(next));
      assert out + ([ring[i]] + d.out) == (out + [ring[i]]) + d.out;
    }
  }

  lemma RxFoundAt(ring: seq<Rx<Message>>, s: Seq16, i: nat)
    requires i <= |ring| && forall k :: 0 <= k < i ==> ring[k].sequence != s
    requires i < |ring| ==> ring[i].sequence == s
    ensures IndexOf(ring, s) == i
  {
  }
}
