/** The windowed event counter of `pkg/health/window.go`: a ring of sixty 5-second buckets that
    must agree with the plain log of events. */
module WindowedCounter {

  const BUCKET_SPAN_SEC := 5
  const BUCKETS_SHORT := 12
  const BUCKET_COUNT := 60
  const TWO64 := 0x1_0000_0000_0000_0000

  type uint64 = n: int | 0 <= n < TWO64

  function Wrap(n: nat): uint64 { n % TWO64 }

  /** Signed 64-bit division truncates toward zero. */
  function BucketIndex(unixSec: int): int {
    if unixSec >= 0 then unixSec / BUCKET_SPAN_SEC else -((-unixSec) / BUCKET_SPAN_SEC)
  }

  /** The remainder takes the sign of the dividend and is then corrected. */
  function BucketSlot(idx: int): (s: int)
    ensures s == idx % BUCKET_COUNT
  {
    var m := if idx >= 0 then idx % BUCKET_COUNT else -((-idx) % BUCKET_COUNT);
    if m < 0 then m + BUCKET_COUNT else m
  }

  /** Bucket b holds the five seconds from 5b on; before the epoch division truncates, so that bucket
      0 holds nine seconds and bucket -b the five seconds up to -5b. */
  lemma BucketSpan(t: int, b: int)
    ensures BucketIndex(t) == b <==> if b > 0 then 5 * b <= t < 5 * b + 5
                                     else if b == 0 then -5 < t < 5
                                     else 5 * b - 5 < t <= 5 * b
  {
  }

  lemma BucketMonotone(a: int, b: int)
    requires a <= b
    ensures BucketIndex(a) <= BucketIndex(b)
  {
  }

  // ---------------------------------------------------------------- counter as a value

  datatype Counter = Counter(total: uint64, last: int, started: bool, buckets: seq<uint64>)

  function Zeros(): (z: seq<uint64>)
    ensures |z| == BUCKET_COUNT && forall i :: 0 <= i < BUCKET_COUNT ==> z[i] == 0
  {
    seq(BUCKET_COUNT, i => 0)
  }

  function Empty(): Counter { Counter(0, 0, false, Zeros()) }

  function ClearRange(buckets: seq<uint64>, lo: int, hi: int): (r: seq<uint64>)
    requires |buckets| == BUCKET_COUNT
    ensures |r| == BUCKET_COUNT
    decreases hi - lo
  {
    if lo >= hi then buckets
    else ClearRange(buckets, lo, hi - 1)[BucketSlot(hi) := 0]
  }

  function Advance(c: Counter, cur: int): (r: Counter)
    requires |c.buckets| == BUCKET_COUNT
    ensures |r.buckets| == BUCKET_COUNT && r.started && r.total == c.total
  {
    if !c.started then c.(last := cur, started := true)
    else if cur <= c.last then c
    else if cur - c.last >= BUCKET_COUNT then c.(buckets := Zeros(), last := cur)
    else c.(buckets := ClearRange(c.buckets, c.last, cur), last := cur)
  }

  function AddStep(c: Counter, n: uint64, unixSec: int): (r: Counter)
    requires |c.buckets| == BUCKET_COUNT
    ensures |r.buckets| == BUCKET_COUNT
  {
    var a := Advance(c, BucketIndex(unixSec));
    var slot := BucketSlot(BucketIndex(unixSec));
    a.(buckets := a.buckets[slot := Wrap(a.buckets[slot] + n)], total := Wrap(c.total + n))
  }

  function SumBuckets(buckets: seq<uint64>, cur: int, n: nat): uint64
    requires |buckets| == BUCKET_COUNT
  {
    if n == 0 then 0
    else Wrap(SumBuckets(buckets, cur, n - 1) + buckets[BucketSlot(cur - (n - 1))])
  }

  // ---------------------------------------------------------------- the plain log

  /** One add: what, when, and the bucket number whose slot it was counted in. */
  datatype Entry = Entry(amount: uint64, unixSec: int, landed: int)

  /** Sum of the entries that satisfy `p`. */
  ghost function Sum(log: seq<Entry>, p: Entry -> bool): nat {
    if log == [] then 0
    else
      var e := log[|log| - 1];
      Sum(log[..|log| - 1], p) + if p(e) then e.amount else 0
  }

  ghost function Everything(): Entry -> bool { (e: Entry) => true }

  /** Entries counted in bucket `b`. */
  ghost function LandedIn(b: int): Entry -> bool { (e: Entry) => e.landed == b }

  /** Entries still in the ring when its newest bucket is `last`. */
  ghost function Live(last: int): Entry -> bool { (e: Entry) => last - BUCKET_COUNT < e.landed }

  /** What a figure over `n` buckets at bucket `cur` should cover: adds made in cur-n+1 .. cur. */
  ghost function Wanted(cur: int, n: nat): Entry -> bool {
    (e: Entry) => cur - n < BucketIndex(e.unixSec) <= cur
  }

  /** What it does cover: live entries whose slot is among those of cur-n+1 .. cur. */
  ghost function Counted(last: int, cur: int, n: nat): Entry -> bool {
    (e: Entry) => last - BUCKET_COUNT < e.landed && (cur - e.landed) % BUCKET_COUNT < n
  }

  ghost function Minus(p: Entry -> bool, q: Entry -> bool): Entry -> bool { (e: Entry) => p(e) && !q(e) }

  lemma SumSnoc(log: seq<Entry>, e: Entry, p: Entry -> bool)
    ensures Sum(log + [e], p) == Sum(log, p) + if p(e) then e.amount else 0
  {
    assert (log + [e])[..|log + [e]| - 1] == log;
  }

  /** If `r` is the disjoint union of `p` and `q` on the log, its sum is theirs. */
  lemma {:induction false} SumUnion(log: seq<Entry>, p: Entry -> bool, q: Entry -> bool, r: Entry -> bool)
    requires forall i :: 0 <= i < |log| ==> (r(log[i]) <==> p(log[i]) || q(log[i])) && !(p(log[i]) && q(log[i]))
    ensures Sum(log, r) == Sum(log, p) + Sum(log, q)
  {
    if log != [] {
      var init := log[..|log| - 1];
      forall i | 0 <= i < |init|
        ensures (r(init[i]) <==> p(init[i]) || q(init[i])) && !(p(init[i]) && q(init[i]))
      {
        assert init[i] == log[i];
      }
      SumUnion(init, p, q, r);
    }
  }

  lemma {:induction false} SumSame(log: seq<Entry>, p: Entry -> bool, q: Entry -> bool)
    requires forall i :: 0 <= i < |log| ==> (p(log[i]) <==> q(log[i]))
    ensures Sum(log, p) == Sum(log, q)
  {
    if log != [] {
      var init := log[..|log| - 1];
      forall i | 0 <= i < |init|
        ensures p(init[i]) <==> q(init[i])
      {
        assert init[i] == log[i];
      }
      SumSame(init, p, q);
    }
  }

  lemma {:induction false} SumLess(log: seq<Entry>, p: Entry -> bool, q: Entry -> bool)
    requires forall i :: 0 <= i < |log| ==> p(log[i]) ==> q(log[i])
    ensures Sum(log, p) <= Sum(log, q)
  {
    if log != [] {
      var init := log[..|log| - 1];
      forall i | 0 <= i < |init|
        ensures p(init[i]) ==> q(init[i])
      {
        assert init[i] == log[i];
      }
      SumLess(init, p, q);
    }
  }

  lemma {:induction false} SumNone(log: seq<Entry>, p: Entry -> bool)
    requires forall i :: 0 <= i < |log| ==> !p(log[i])
    ensures Sum(log, p) == 0
  {
    if log != [] {
      var init := log[..|log| - 1];
      forall i | 0 <= i < |init|
        ensures !p(init[i])
      {
        assert init[i] == log[i];
      }
      SumNone(init, p);
    }
  }

  /** Two sums differ by what only one of them covers. */
  lemma SumDifference(log: seq<Entry>, p: Entry -> bool, q: Entry -> bool)
    ensures Sum(log, p) + Sum(log, Minus(q, p)) == Sum(log, q) + Sum(log, Minus(p, q))
  {
    var both: Entry -> bool := e => p(e) && q(e);
    SumUnion(log, both, Minus(p, q), p);
    SumUnion(log, both, Minus(q, p), q);
  }

  // ---------------------------------------------------------------- arithmetic of slots

  lemma SlotsDiffer(a: int, b: int)
    requires a < b < a + BUCKET_COUNT
    ensures BucketSlot(a) != BucketSlot(b)
  {
  }

  /** The live bucket that shares a slot with `cur`. */
  function Alias(last: int, cur: int): int {
    cur + (last - cur) / BUCKET_COUNT * BUCKET_COUNT
  }

  lemma SameSlot(cur: int, q: int)
    ensures BucketSlot(cur + q * BUCKET_COUNT) == BucketSlot(cur)
  {
    var idx := cur + q * BUCKET_COUNT;
    assert idx % BUCKET_COUNT == cur % BUCKET_COUNT;
  }

  lemma AliasIsLive(last: int, cur: int)
    ensures last - BUCKET_COUNT < Alias(last, cur) <= last && BucketSlot(Alias(last, cur)) == BucketSlot(cur)
    ensures Alias(last, cur) == cur <==> last - BUCKET_COUNT < cur <= last
  {
    SameSlot(cur, (last - cur) / BUCKET_COUNT);
  }

  /** `b` is the live alias of `cur - k` exactly when it is live and k slots behind `cur`. */
  lemma AliasIff(last: int, cur: int, k: nat, b: int)
    requires k < BUCKET_COUNT && b <= last
    ensures b == Alias(last, cur - k) <==> last - BUCKET_COUNT < b && (cur - b) % BUCKET_COUNT == k
  {
    var a := Alias(last, cur - k);
    AliasIsLive(last, cur - k);
    var q := (last - (cur - k)) / BUCKET_COUNT;
    assert cur - a == k - q * BUCKET_COUNT;
    assert (cur - a) % BUCKET_COUNT == k;
    if last - BUCKET_COUNT < b && (cur - b) % BUCKET_COUNT == k {
      assert (a - b) % BUCKET_COUNT == 0;
    }
  }

  lemma WrapAdd(a: nat, n: nat)
    ensures Wrap(Wrap(a) + n) == Wrap(a + n)
  {
  }

  lemma WrapBoth(a: nat, b: nat)
    ensures Wrap(Wrap(a) + Wrap(b)) == Wrap(a + b)
  {
    WrapAdd(a, Wrap(b));
    WrapAdd(b, a);
  }

  lemma WrapChanges(a: nat, n: uint64)
    requires n != 0
    ensures Wrap(a + n) != Wrap(a)
  {
    WrapAdd(a, n);
  }

  lemma WrapSmall(n: nat)
    requires n < TWO64
    ensures Wrap(n) == n
  {
  }

  /** Equal sums a + y and b + x: a and b agree modulo 2^64 exactly when x and y do. */
  lemma WrapCancel(a: nat, y: nat, b: nat, x: nat)
    requires a + y == b + x
    ensures Wrap(a) == Wrap(b) <==> Wrap(x) == Wrap(y)
  {
    var d := a - b;
    assert x == y + d;
    assert Wrap(a) == Wrap(b) <==> d % TWO64 == 0;
    assert Wrap(x) == Wrap(y) <==> d % TWO64 == 0;
  }

  // ---------------------------------------------------------------- representation

  ghost predicate NoneAbove(log: seq<Entry>, b: int) {
    forall i :: 0 <= i < |log| ==> log[i].landed <= b
  }

  ghost predicate LiveBuckets(c: Counter, log: seq<Entry>)
    requires |c.buckets| == BUCKET_COUNT
  {
    forall b :: c.last - BUCKET_COUNT < b <= c.last ==> c.buckets[BucketSlot(b)] == Wrap(Sum(log, LandedIn(b)))
  }

  /** The ring agrees with the log on the total and on the sixty newest buckets. */
  ghost predicate Represents(c: Counter, log: seq<Entry>) {
    && |c.buckets| == BUCKET_COUNT
    && c.total == Wrap(Sum(log, Everything()))
    && if c.started then NoneAbove(log, c.last) && LiveBuckets(c, log)
       else log == [] && c.buckets == Zeros()
  }

  lemma {:induction false} ClearRangeAt(buckets: seq<uint64>, lo: int, hi: int, b: int)
    requires |buckets| == BUCKET_COUNT && lo <= hi < lo + BUCKET_COUNT && hi - BUCKET_COUNT < b <= hi
    ensures ClearRange(buckets, lo, hi)[BucketSlot(b)] == if b > lo then 0 else buckets[BucketSlot(b)]
    decreases hi - lo
  {
    if lo < hi && b != hi {
      SlotsDiffer(b, hi);
      ClearRangeAt(buckets, lo, hi - 1, b);
    }
  }

  /** Moving the window forward forgets only buckets that fall out of it. */
  lemma AdvanceRepresents(c: Counter, log: seq<Entry>, cur: int)
    requires Represents(c, log)
    ensures Represents(Advance(c, cur), log)
  {
    var a := Advance(c, cur);
    forall b | a.last - BUCKET_COUNT < b <= a.last
      ensures a.buckets[BucketSlot(b)] == Wrap(Sum(log, LandedIn(b)))
    {
      if c.started && cur > c.last {
        if b > c.last { SumNone(log, LandedIn(b)); }
        if cur - c.last < BUCKET_COUNT { ClearRangeAt(c.buckets, c.last, cur, b); }
      }
    }
  }

  /** Where an add at `unixSec` is counted. */
  function Landing(c: Counter, unixSec: int): int
    requires |c.buckets| == BUCKET_COUNT
  {
    Alias(Advance(c, BucketIndex(unixSec)).last, BucketIndex(unixSec))
  }

  /** An add is counted in its own bucket exactly when the clock has not fallen back by the whole
      ring; otherwise in a bucket of newer events. */
  lemma LandsInOwnBucketIff(c: Counter, unixSec: int)
    requires |c.buckets| == BUCKET_COUNT
    ensures Landing(c, unixSec) == BucketIndex(unixSec)
            <==> !c.started || BucketIndex(unixSec) > c.last - BUCKET_COUNT
    ensures Landing(c, unixSec) >= BucketIndex(unixSec)
  {
    AliasIsLive(Advance(c, BucketIndex(unixSec)).last, BucketIndex(unixSec));
  }

  lemma AddedBucket(log: seq<Entry>, e: Entry, b: int, was: uint64)
    requires was == Wrap(Sum(log, LandedIn(b)))
    ensures Wrap(Sum(log + [e], LandedIn(b))) == if e.landed == b then Wrap(was + e.amount) else was
  {
    SumSnoc(log, e, LandedIn(b));
    WrapAdd(Sum(log, LandedIn(b)), e.amount);
  }

  /** Any add at any time keeps ring and log in agreement, as counted where it landed. */
  lemma AddRepresents(c: Counter, log: seq<Entry>, n: uint64, t: int)
    requires Represents(c, log)
    ensures Represents(AddStep(c, n, t), log + [Entry(n, t, Landing(c, t))])
  {
    var cur := BucketIndex(t);
    AdvanceRepresents(c, log, cur);
    var a, r, e := Advance(c, cur), AddStep(c, n, t), Entry(n, t, Landing(c, t));
    AliasIsLive(a.last, cur);
    SumSnoc(log, e, Everything());
    WrapAdd(Sum(log, Everything()), n);
    forall b | a.last - BUCKET_COUNT < b <= a.last
      ensures r.buckets[BucketSlot(b)] == Wrap(Sum(log + [e], LandedIn(b)))
    {
      AddedBucket(log, e, b, a.buckets[BucketSlot(b)]);
      if b < e.landed { SlotsDiffer(b, e.landed); }
      if e.landed < b { SlotsDiffer(e.landed, b); }
    }
  }

  /** Ring and log agree on an add as made in its own bucket exactly when the clock has not fallen
      back by the whole ring. */
  lemma AddRepresentsIff(c: Counter, log: seq<Entry>, n: uint64, t: int)
    requires Represents(c, log) && n != 0
    ensures Represents(AddStep(c, n, t), log + [Entry(n, t, BucketIndex(t))])
            <==> !c.started || BucketIndex(t) > c.last - BUCKET_COUNT
  {
    LandsInOwnBucketIff(c, t);
    AddRepresents(c, log, n, t);
    if c.started && BucketIndex(t) <= c.last - BUCKET_COUNT {
      var b, e := Landing(c, t), Entry(n, t, BucketIndex(t));
      AliasIsLive(c.last, BucketIndex(t));
      AddedBucket(log, e, b, c.buckets[BucketSlot(b)]);
      WrapChanges(c.buckets[BucketSlot(b)], n);
      WrapSmall(c.buckets[BucketSlot(b)]);
      assert AddStep(c, n, t).buckets[BucketSlot(b)] == Wrap(c.buckets[BucketSlot(b)] + n);
    }
  }

  // ---------------------------------------------------------------- figures

  /** One more bucket of a figure adds the entries of its live alias. */
  lemma OneMoreBucket(log: seq<Entry>, last: int, cur: int, n: nat)
    requires NoneAbove(log, last) && 1 <= n <= BUCKET_COUNT
    ensures Sum(log, Counted(last, cur, n))
            == Sum(log, Counted(last, cur, n - 1)) + Sum(log, LandedIn(Alias(last, cur - (n - 1))))
  {
    var p, q, r := Counted(last, cur, n - 1), LandedIn(Alias(last, cur - (n - 1))), Counted(last, cur, n);
    forall i | 0 <= i < |log|
      ensures (r(log[i]) <==> p(log[i]) || q(log[i])) && !(p(log[i]) && q(log[i]))
    {
      AliasIff(last, cur, n - 1, log[i].landed);
    }
    SumUnion(log, p, q, r);
  }

  /** A figure over `n` buckets is the sum of what is live in their slots, at any `cur`. */
  lemma {:induction false} FigureIsCounted(c: Counter, log: seq<Entry>, cur: int, n: nat)
    requires Represents(c, log) && c.started && n <= BUCKET_COUNT
    ensures SumBuckets(c.buckets, cur, n) == Wrap(Sum(log, Counted(c.last, cur, n)))
  {
    if n == 0 {
      SumNone(log, Counted(c.last, cur, 0));
    } else {
      FigureIsCounted(c, log, cur, n - 1);
      OneMoreBucket(log, c.last, cur, n);
      var b := Alias(c.last, cur - (n - 1));
      AliasIsLive(c.last, cur - (n - 1));
      WrapBoth(Sum(log, Counted(c.last, cur, n - 1)), Sum(log, LandedIn(b)));
    }
  }

  // ---------------------------------------------------------------- runs

  datatype Event = Add(amount: uint64, unixSec: int) | Snapshot(unixSec: int)

  function Apply(c: Counter, e: Event): (r: Counter)
    requires |c.buckets| == BUCKET_COUNT
    ensures |r.buckets| == BUCKET_COUNT
  {
    match e
    case Add(n, t) => AddStep(c, n, t)
    case Snapshot(t) => Advance(c, BucketIndex(t))
  }

  function Run(events: seq<Event>): (r: Counter)
    ensures |r.buckets| == BUCKET_COUNT
  {
    if events == [] then Empty()
    else Apply(Run(events[..|events| - 1]), events[|events| - 1])
  }

  function LogOf(events: seq<Event>): seq<Entry> {
    if events == [] then []
    else
      var init, e := events[..|events| - 1], events[|events| - 1];
      LogOf(init) + if e.Add? then [Entry(e.amount, e.unixSec, Landing(Run(init), e.unixSec))] else []
  }

  /** Ring and log agree after every list of adds and snapshots, at whatever times. */
  lemma {:induction false} RunRepresents(events: seq<Event>)
    ensures Represents(Run(events), LogOf(events))
  {
    if events != [] {
      var init, e := events[..|events| - 1], events[|events| - 1];
      RunRepresents(init);
      if e.Add? {
        AddRepresents(Run(init), LogOf(init), e.amount, e.unixSec);
      } else {
        AdvanceRepresents(Run(init), LogOf(init), BucketIndex(e.unixSec));
        assert LogOf(init) + [] == LogOf(init);
      }
    }
  }

  /** The counter that a snapshot at `t` after `events` sums up. */
  function AtSnapshot(events: seq<Event>, t: int): (c: Counter)
    ensures |c.buckets| == BUCKET_COUNT && c.started
  {
    Advance(Run(events), BucketIndex(t))
  }

  /** The figure over `n` buckets that it returns: n is 12 for rate60 and 60 for rate300. */
  function Figure(events: seq<Event>, t: int, n: nat): uint64 {
    SumBuckets(AtSnapshot(events, t).buckets, BucketIndex(t), n)
  }

  /** After any events at any times, a snapshot at any time returns the sum of all adds, and as a
      figure over n buckets the sum of what is live in the slots of those buckets. */
  lemma SnapshotCounts(events: seq<Event>, t: int, n: nat)
    requires n <= BUCKET_COUNT
    ensures AtSnapshot(events, t).total == Wrap(Sum(LogOf(events), Everything()))
    ensures Figure(events, t, n) == Wrap(Sum(LogOf(events), Counted(AtSnapshot(events, t).last, BucketIndex(t), n)))
  {
    RunRepresents(events);
    AdvanceRepresents(Run(events), LogOf(events), BucketIndex(t));
    FigureIsCounted(AtSnapshot(events, t), LogOf(events), BucketIndex(t), n);
  }

  /** rate300 sums the whole ring, whatever the snapshot's clock says. */
  lemma LongFigureIsRing(events: seq<Event>, t: int)
    ensures Figure(events, t, BUCKET_COUNT) == Wrap(Sum(LogOf(events), Live(AtSnapshot(events, t).last)))
  {
    SnapshotCounts(events, t, BUCKET_COUNT);
    var last := AtSnapshot(events, t).last;
    SumSame(LogOf(events), Counted(last, BucketIndex(t), BUCKET_COUNT), Live(last));
  }

  /** A figure is the sum of the adds of its n buckets, modulo 2^64, exactly when the adds that it
      counts although they are not of those buckets weigh as much as the adds of those buckets that
      it misses. */
  lemma FigureExactIff(events: seq<Event>, t: int, n: nat)
    requires n <= BUCKET_COUNT
    ensures var log, cur := LogOf(events), BucketIndex(t);
            var counted, wanted := Counted(AtSnapshot(events, t).last, cur, n), Wanted(cur, n);
            Figure(events, t, n) == Wrap(Sum(log, wanted))
            <==> Wrap(Sum(log, Minus(counted, wanted))) == Wrap(Sum(log, Minus(wanted, counted)))
  {
    var log, cur := LogOf(events), BucketIndex(t);
    var counted, wanted := Counted(AtSnapshot(events, t).last, cur, n), Wanted(cur, n);
    SnapshotCounts(events, t, n);
    SumDifference(log, counted, wanted);
    WrapCancel(Sum(log, counted), Sum(log, Minus(wanted, counted)), Sum(log, wanted), Sum(log, Minus(counted, wanted)));
  }

  // ---------------------------------------------------------------- when the figures are right

  /** No add fell back by the whole ring. */
  ghost predicate Punctual(log: seq<Entry>) {
    forall i :: 0 <= i < |log| ==> log[i].landed == BucketIndex(log[i].unixSec)
  }

  ghost predicate FigureExact(events: seq<Event>, t: int, n: nat) {
    Figure(events, t, n) == Wrap(Sum(LogOf(events), Wanted(BucketIndex(t), n)))
  }

  /** The window of the figure reaches no further back than the ring does. */
  lemma WithinRing(events: seq<Event>, t: int, n: nat)
    requires 1 <= n <= BUCKET_COUNT && Punctual(LogOf(events))
    requires BucketIndex(t) - n >= AtSnapshot(events, t).last - BUCKET_COUNT
    ensures FigureExact(events, t, n)
  {
    var log, cur, last := LogOf(events), BucketIndex(t), AtSnapshot(events, t).last;
    SnapshotCounts(events, t, n);
    RunRepresents(events);
    forall i | 0 <= i < |log|
      ensures Counted(last, cur, n)(log[i]) <==> Wanted(cur, n)(log[i])
    {
      var b := log[i].landed;
      assert b <= last;
      if b > cur { assert (cur - b) % BUCKET_COUNT == cur - b + BUCKET_COUNT; }
      else if b > last - BUCKET_COUNT { assert (cur - b) % BUCKET_COUNT == cur - b; }
    }
    SumSame(log, Counted(last, cur, n), Wanted(cur, n));
  }

  /** Every history without late adds whose newest bucket is `last` gets this figure right. */
  ghost predicate Guaranteed(last: int, t: int, n: nat) {
    forall events :: Punctual(LogOf(events)) && Run(events).started && Run(events).last == last
                     ==> FigureExact(events, t, n)
  }

  function StartOf(b: int): (t: int)
    ensures BucketIndex(t) == b
  {
    b * BUCKET_SPAN_SEC
  }

  /** One event in bucket a, then the counter read at bucket last. */
  function OneEvent(a: int, last: int): seq<Event> {
    [Add(1, StartOf(a)), Snapshot(StartOf(last))]
  }

  lemma OneEventRun(a: int, last: int)
    requires last - BUCKET_COUNT < a <= last
    ensures LogOf(OneEvent(a, last)) == [Entry(1, StartOf(a), a)]
    ensures Run(OneEvent(a, last)).started && Run(OneEvent(a, last)).last == last
  {
    var events := OneEvent(a, last);
    var one := events[..1];
    assert one == [Add(1, StartOf(a))] && one[..0] == [];
    LandsInOwnBucketIff(Empty(), StartOf(a));
    assert Run(one) == AddStep(Empty(), 1, StartOf(a));
    assert LogOf(one) == [] + [Entry(1, StartOf(a), a)];
    assert LogOf(events) == LogOf(one) + [];
  }

  lemma SumOfOne(e: Entry, p: Entry -> bool)
    ensures Sum([e], p) == if p(e) then e.amount else 0
  {
    SumSnoc([], e, p);
    assert [] + [e] == [e];
  }

  /** An event that is counted in the window although it is newer. */
  lemma BeyondRing(last: int, t: int, n: nat)
    requires 1 <= n <= BUCKET_COUNT && BucketIndex(t) - n < last - BUCKET_COUNT
    ensures !Guaranteed(last, t, n)
  {
    var cur := BucketIndex(t);
    var a := Alias(last, cur - (n - 1));
    AliasIsLive(last, cur - (n - 1));
    AliasIff(last, cur, n - 1, a);
    var events, e := OneEvent(a, last), Entry(1, StartOf(a), a);
    OneEventRun(a, last);
    SnapshotCounts(events, t, n);
    assert AtSnapshot(events, t).last == last;
    SumOfOne(e, Counted(last, cur, n));
    SumOfOne(e, Wanted(cur, n));
    assert a > cur;
    assert !FigureExact(events, t, n);
  }

  /** The figure over n buckets is guaranteed exactly when those buckets lie in the ring: rate300 if
      the snapshot's clock is not behind the newest bucket, rate60 if it is at most 48 buckets
      behind. */
  lemma GuaranteedIff(last: int, t: int, n: nat)
    requires 1 <= n <= BUCKET_COUNT
    ensures Guaranteed(last, t, n) <==> BucketIndex(t) - n >= last - BUCKET_COUNT
  {
    if BucketIndex(t) - n >= last - BUCKET_COUNT {
      forall events | Punctual(LogOf(events)) && Run(events).started && Run(events).last == last
        ensures FigureExact(events, t, n)
      {
        WithinRing(events, t, n);
      }
    } else {
      BeyondRing(last, t, n);
    }
  }

  /** One event in bucket b and one 59 buckets later: for b = 0, at 0 and 295 seconds. */
  function TwoEvents(b: int): seq<Event> { [Add(1, StartOf(b)), Add(1, StartOf(b + 59))] }

  lemma TwoEventsRun(b: int)
    ensures LogOf(TwoEvents(b)) == [Entry(1, StartOf(b), b)] + [Entry(1, StartOf(b + 59), b + 59)]
    ensures Run(TwoEvents(b)).started && Run(TwoEvents(b)).last == b + 59
  {
    var one, e := [Add(1, StartOf(b))], Entry(1, StartOf(b), b);
    assert TwoEvents(b)[..1] == one && one[..0] == [];
    LandsInOwnBucketIff(Empty(), StartOf(b));
    assert Run(one) == AddStep(Empty(), 1, StartOf(b)) && LogOf(one) == [] + [e];
    LandsInOwnBucketIff(Run(one), StartOf(b + 59));
  }

  lemma SumOfTwo(e: Entry, f: Entry, p: Entry -> bool)
    ensures Sum([e] + [f], p) == (if p(e) then e.amount else 0) + if p(f) then f.amount else 0
  {
    SumOfOne(e, p);
    SumSnoc([e], f, p);
  }

  /** A reader whose clock was read one bucket before a newer add: rate300 counts that add, and the
      bucket that holds it is not one of the sixty it stands for.  No add was late. */
  lemma ReaderBehind(b: int)
    ensures var events, t := TwoEvents(b), StartOf(b + 58);
            && Punctual(LogOf(events))
            && Figure(events, t, BUCKET_COUNT) == 2
            && Sum(LogOf(events), Wanted(BucketIndex(t), BUCKET_COUNT)) == 1
  {
    var e, f := Entry(1, StartOf(b), b), Entry(1, StartOf(b + 59), b + 59);
    TwoEventsRun(b);
    SnapshotCounts(TwoEvents(b), StartOf(b + 58), BUCKET_COUNT);
    SumOfTwo(e, f, Counted(b + 59, b + 58, BUCKET_COUNT));
    SumOfTwo(e, f, Wanted(b + 58, BUCKET_COUNT));
  }

  ghost predicate NonDecreasing(events: seq<Event>) {
    forall i, j :: 0 <= i < j < |events| ==> events[i].unixSec <= events[j].unixSec
  }

  lemma {:induction false} InOrder(events: seq<Event>)
    requires NonDecreasing(events)
    ensures Punctual(LogOf(events))
    ensures events != [] ==> Run(events).started && Run(events).last == BucketIndex(events[|events| - 1].unixSec)
    ensures events == [] ==> !Run(events).started
  {
    if events != [] {
      var init, e := events[..|events| - 1], events[|events| - 1];
      InOrder(init);
      if init != [] { BucketMonotone(init[|init| - 1].unixSec, e.unixSec); }
      LandsInOwnBucketIff(Run(init), e.unixSec);
    }
  }

  /** For every sequence of adds and snapshots at non-decreasing times, a snapshot returns exactly
      (modulo 2^64) the sums of the logged adds: all of them, those of the last 12 buckets, and
      those of the last 60. */
  lemma SnapshotExact(events: seq<Event>, t: int)
    requires NonDecreasing(events + [Snapshot(t)])
    ensures AtSnapshot(events, t).total == Wrap(Sum(LogOf(events), Everything()))
    ensures FigureExact(events, t, 12) && FigureExact(events, t, 60)
  {
    var all := events + [Snapshot(t)];
    assert all[..|all| - 1] == events;
    assert forall i :: 0 <= i < |events| ==> all[i] == events[i];
    InOrder(events);
    InOrder(all);
    SnapshotCounts(events, t, BUCKET_COUNT);
    WithinRing(events, t, BUCKETS_SHORT);
    WithinRing(events, t, BUCKET_COUNT);
  }

  /** rate60 <= rate300 <= total after any events at any times, as long as the true total fits 64
      bits. */
  lemma SnapshotOrdered(events: seq<Event>, t: int)
    requires Sum(LogOf(events), Everything()) < TWO64
    ensures Figure(events, t, BUCKETS_SHORT) <= Figure(events, t, BUCKET_COUNT) <= AtSnapshot(events, t).total
  {
    var log, last, cur := LogOf(events), AtSnapshot(events, t).last, BucketIndex(t);
    SnapshotCounts(events, t, BUCKETS_SHORT);
    SnapshotCounts(events, t, BUCKET_COUNT);
    SumLess(log, Counted(last, cur, BUCKETS_SHORT), Counted(last, cur, BUCKET_COUNT));
    SumLess(log, Counted(last, cur, BUCKET_COUNT), Everything());
    WrapSmall(Sum(log, Counted(last, cur, BUCKETS_SHORT)));
    WrapSmall(Sum(log, Counted(last, cur, BUCKET_COUNT)));
    WrapSmall(Sum(log, Everything()));
  }

  // ---------------------------------------------------------------- the object

  class WindowedCounter {
    var total: uint64
    var lastBucket: int
    var started: bool
    const buckets: array<uint64>

    ghost predicate Valid()
      reads this
    {
      buckets.Length == BUCKET_COUNT
    }

    ghost function State(): (c: Counter)
      reads this, buckets
      requires Valid()
      ensures |c.buckets| == BUCKET_COUNT
    {
      Counter(total, lastBucket, started, buckets[..])
    }

    constructor ()
      ensures Valid() && fresh(buckets) && State() == Empty()
    {
      total, lastBucket, started := 0, 0, false;
      buckets := new uint64[BUCKET_COUNT](i => 0);
      new;
      assert buckets[..] == Zeros();
    }

    method AddEvents(n: uint64, unixSec: int)
      requires Valid()
      modifies this, buckets
      ensures Valid() && State() == AddStep(old(State()), n, unixSec)
    {
      var cur := BucketIndex(unixSec);
      AdvanceLocked(cur);
      var slot := BucketSlot(cur);
      buckets[slot] := Wrap(buckets[slot] + n);
      total := Wrap(total + n);
    }

    method Snapshot(unixSec: int) returns (sum: uint64, rate60: uint64, rate300: uint64)
      requires Valid()
      modifies this, buckets
      ensures Valid() && State() == Advance(old(State()), BucketIndex(unixSec))
      ensures sum == State().total
      ensures rate60 == SumBuckets(State().buckets, BucketIndex(unixSec), 12)
      ensures rate300 == SumBuckets(State().buckets, BucketIndex(unixSec), 60)
    {
      var cur := BucketIndex(unixSec);
      AdvanceLocked(cur);
      sum := total;
      rate60 := SumLocked(cur, BUCKETS_SHORT);
      rate300 := SumLocked(cur, BUCKET_COUNT);
    }

    method AdvanceLocked(cur: int)
      requires Valid()
      modifies this, buckets
      ensures Valid() && State() == Advance(old(State()), cur)
    {
      if !started {
        lastBucket, started := cur, true;
        return;
      }
      if cur <= lastBucket {
        return;
      }
      var gap := cur - lastBucket;
      if gap >= BUCKET_COUNT {
        for i := 0 to BUCKET_COUNT
          modifies buckets
          invariant forall k :: 0 <= k < i ==> buckets[k] == 0
        {
          buckets[i] := 0;
        }
        assert buckets[..] == Zeros();
        lastBucket := cur;
        return;
      }
      var b := lastBucket + 1;
      while b <= cur
        modifies buckets
        invariant lastBucket + 1 <= b <= cur + 1
        invariant buckets[..] == ClearRange(old(buckets[..]), lastBucket, b - 1)
      {
        buckets[BucketSlot(b)] := 0;
        b := b + 1;
      }
      lastBucket := cur;
    }

    method SumLocked(cur: int, nBuckets: nat) returns (sum: uint64)
      requires Valid()
      ensures sum == SumBuckets(buckets[..], cur, if nBuckets > BUCKET_COUNT then BUCKET_COUNT else nBuckets)
    {
      var n := if nBuckets > BUCKET_COUNT then BUCKET_COUNT else nBuckets;
      sum := 0;
      for i := 0 to n
        invariant sum == SumBuckets(buckets[..], cur, i)
      {
        sum := Wrap(sum + buckets[BucketSlot(cur - i)]);
      }
    }
  }
}
