/** The adaptive send window of `pkg/channel/channel.go`: it grows on delivery proofs according to
    the round-trip time and shrinks on timeouts. */
module AdaptiveWindow {

  const WINDOW_INITIAL := 2
  const WINDOW_MIN_SLOW := 2
  const WINDOW_MIN_MEDIUM := 5
  const WINDOW_MIN_FAST := 16
  const WINDOW_MAX_SLOW := 5
  const WINDOW_MAX_MEDIUM := 12
  const WINDOW_MAX_FAST := 48
  const WINDOW_FLEXIBILITY := 4
  const FAST_RATE_THRESHOLD := 10
  const RTT_FAST := 0.18
  const RTT_MEDIUM := 0.75
  const RTT_SLOW := 1.45

  datatype Window = Window(size: int, max: int, min: int, flexibility: int, fastRounds: nat, mediumRounds: nat)

  function Initial(rtt: real): Window {
    if rtt > RTT_SLOW then Window(1, 1, 1, 1, 0, 0)
    else Window(WINDOW_INITIAL, WINDOW_MAX_SLOW, WINDOW_MIN_SLOW, WINDOW_FLEXIBILITY, 0, 0)
  }

  function OnDelivered(w: Window, rtt: real): Window {
    var v := if w.size < w.max then w.(size := w.size + 1) else w;
    if rtt == 0.0 then v
    else if rtt > RTT_FAST then
      if rtt > RTT_MEDIUM then v.(fastRounds := 0, mediumRounds := 0)
      else
        var u := v.(fastRounds := 0, mediumRounds := v.mediumRounds + 1);
        if u.max < WINDOW_MAX_MEDIUM && u.mediumRounds == FAST_RATE_THRESHOLD
        then u.(max := WINDOW_MAX_MEDIUM, min := WINDOW_MIN_MEDIUM) else u
    else
      var u := v.(fastRounds := v.fastRounds + 1);
      if u.max < WINDOW_MAX_FAST && u.fastRounds == FAST_RATE_THRESHOLD
      then u.(max := WINDOW_MAX_FAST, min := WINDOW_MIN_FAST) else u
  }

  function OnTimeout(w: Window): Window {
    w.(size := if w.size > w.min then w.size - 1 else w.size,
       max := if w.max > w.min + w.flexibility then w.max - 1 else w.max)
  }

  ghost predicate Inv(w: Window) {
    && 1 <= w.size <= w.max <= WINDOW_MAX_FAST
    && 1 <= w.min <= w.max
    && 1 <= w.flexibility
    && (w.min <= WINDOW_MIN_MEDIUM || (w.min == WINDOW_MIN_FAST && w.max >= WINDOW_MAX_MEDIUM))
  }

  datatype Event = Delivered(rtt: real) | Timeout

  function Apply(w: Window, e: Event): Window {
    match e
    case Delivered(rtt) => OnDelivered(w, rtt)
    case Timeout => OnTimeout(w)
  }

  function Run(w: Window, events: seq<Event>): Window {
    if events == [] then w
    else Apply(Run(w, events[..|events| - 1]), events[|events| - 1])
  }

  lemma ApplyKeepsInv(w: Window, e: Event)
    requires Inv(w)
    ensures Inv(Apply(w, e)) && w.min <= Apply(w, e).min
  {
  }

  /** For any sequence of deliveries at any round-trip times and of timeouts, from either initial
      setting, the window stays in 1..max, max in min..48, and min never decreases. */
  lemma {:induction false} WindowBounds(rtt: real, before: seq<Event>, after: seq<Event>)
    ensures var w, v := Run(Initial(rtt), before), Run(Initial(rtt), before + after);
            Inv(w) && Inv(v) && w.min <= v.min
    decreases |before| + |after|
  {
    if after != [] {
      var init := after[..|after| - 1];
      WindowBounds(rtt, before, init);
      assert (before + after)[..|before + after| - 1] == before + init;
      ApplyKeepsInv(Run(Initial(rtt), before + init), after[|after| - 1]);
    } else {
      assert before + after == before;
      if before != [] {
        WindowBounds(rtt, before[..|before| - 1], []);
        assert before[..|before| - 1] + [] == before[..|before| - 1];
        ApplyKeepsInv(Run(Initial(rtt), before[..|before| - 1]), before[|before| - 1]);
      }
    }
  }

  // ---------------------------------------------------------------- how it moves

  /** The two initial settings. */
  lemma InitialIs(rtt: real)
    ensures Initial(rtt) == if rtt > 1.45 then Window(1, 1, 1, 1, 0, 0) else Window(2, 5, 2, 4, 0, 0)
  {
  }

  predicate Fast(e: Event) { e.Delivered? && e.rtt != 0.0 && e.rtt <= 0.18 }
  predicate Medium(e: Event) { e.Delivered? && 0.18 < e.rtt <= 0.75 }
  predicate Slow(e: Event) { e.Delivered? && e.rtt > 0.75 }

  /** A delivery opens the window by one as far as its limit, and moves the limits exactly at the
      tenth round of its kind: to 48 and 16, or to 12 and 5. */
  lemma DeliveryLaw(w: Window, e: Event)
    requires e.Delivered?
    ensures var v := Apply(w, e);
            var toFast := Fast(e) && w.max < 48 && w.fastRounds == 9;
            var toMedium := Medium(e) && w.max < 12 && w.mediumRounds == 9;
            && v.size == (if w.size < w.max then w.size + 1 else w.size)
            && v.max == (if toFast then 48 else if toMedium then 12 else w.max)
            && v.min == (if toFast then 16 else if toMedium then 5 else w.min)
            && v.flexibility == w.flexibility
  {
  }

  function Count(p: Event -> bool, events: seq<Event>): nat {
    if events == [] then 0
    else Count(p, events[..|events| - 1]) + if p(events[|events| - 1]) then 1 else 0
  }

  lemma SnocCount(p: Event -> bool, events: seq<Event>, i: nat)
    requires i < |events|
    ensures Count(p, events[i..]) == Count(p, events[i..|events| - 1]) + if p(events[|events| - 1]) then 1 else 0
  {
    var tail := events[i..];
    assert tail[..|tail| - 1] == events[i..|events| - 1] && tail[|tail| - 1] == events[|events| - 1];
  }

  /** The fast rounds are the fast deliveries since the last slower one, in every run. */
  lemma {:induction false} FastRoundsAre(rtt: real, events: seq<Event>, i: nat)
    requires i <= |events| && (i > 0 ==> Medium(events[i - 1]) || Slow(events[i - 1]))
    requires forall k :: i <= k < |events| ==> !Medium(events[k]) && !Slow(events[k])
    ensures Run(Initial(rtt), events).fastRounds == Count(Fast, events[i..])
    decreases |events|
  {
    if i == |events| {
      assert events[i..] == [];
    } else {
      var init := events[..|events| - 1];
      FastRoundsAre(rtt, init, i);
      SnocCount(Fast, events, i);
      assert init[i..] == events[i..|events| - 1];
    }
  }

  /** The medium rounds are the medium deliveries since the last slow one; fast ones between do not
      reset them. */
  lemma {:induction false} MediumRoundsAre(rtt: real, events: seq<Event>, i: nat)
    requires i <= |events| && (i > 0 ==> Slow(events[i - 1]))
    requires forall k :: i <= k < |events| ==> !Slow(events[k])
    ensures Run(Initial(rtt), events).mediumRounds == Count(Medium, events[i..])
    decreases |events|
  {
    if i == |events| {
      assert events[i..] == [];
    } else {
      var init := events[..|events| - 1];
      MediumRoundsAre(rtt, init, i);
      SnocCount(Medium, events, i);
      assert init[i..] == events[i..|events| - 1];
    }
  }

  /** A fast link: the window fills its first limit, waits for the tenth round, and then opens to
      48. */
  lemma {:induction false} FastLink(rtt: real, events: seq<Event>)
    requires rtt <= 1.45 && forall i :: 0 <= i < |events| ==> Fast(events[i])
    ensures var w, k := Run(Initial(rtt), events), |events|;
            && w.fastRounds == k
            && w.size == (if k <= 3 then 2 + k else if k <= 10 then 5 else if k <= 53 then k - 5 else 48)
            && w.max == (if k < 10 then 5 else 48) && w.min == (if k < 10 then 2 else 16)
  {
    if events != [] {
      FastLink(rtt, events[..|events| - 1]);
      assert Fast(events[|events| - 1]);
    }
  }

  function Larger(a: int, b: int): int { if a > b then a else b }

  /** Timeouts close the window down to its minimum, one by one, and its limit down to the minimum
      plus the flexibility. */
  lemma {:induction false} TimeoutLaw(w: Window, events: seq<Event>)
    requires forall i :: 0 <= i < |events| ==> events[i] == Timeout
    ensures var v, n := Run(w, events), |events|;
            && v.size == (if w.size <= w.min then w.size else Larger(w.min, w.size - n))
            && v.max == (if w.max <= w.min + w.flexibility then w.max else Larger(w.min + w.flexibility, w.max - n))
            && v == w.(size := v.size, max := v.max)
  {
    if events != [] {
      TimeoutLaw(w, events[..|events| - 1]);
      assert events[|events| - 1] == Timeout;
    }
  }
}
