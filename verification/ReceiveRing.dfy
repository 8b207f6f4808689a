/** The receive side of `pkg/channel/channel.go`: which 16-bit sequences are accepted, the
    reorder ring, and the drain that hands messages on in sequence order. */
module ReceiveRing {

  const WINDOW_MAX := 48
  const SEQ_MODULUS := 65536
  const SEQ_MAX := 65535

  type Seq16 = s: int | 0 <= s < SEQ_MODULUS

  /** `(s + 1) % SEQ_MODULUS`, see `AdvanceStep`. */
  function Next(s: Seq16): Seq16 { if s == SEQ_MAX then 0 else s + 1 }

  /** Messages are opaque to the ring; `Rx` is a numbered message. */
  datatype Rx<T> = Rx(sequence: Seq16, message: T)

  // ---------------------------------------------------------------- acceptance

  predicate Stale(s: Seq16, next: Seq16) {
    s < next && (var overflow := (next + WINDOW_MAX) % SEQ_MODULUS; overflow < next ==> s > overflow)
  }

  predicate FarAhead(s: Seq16, next: Seq16) {
    s > next + WINDOW_MAX
  }

  predicate Accepted(s: Seq16, next: Seq16) {
    !Stale(s, next) && !FarAhead(s, next)
  }

  /** The two non-modular tests together are one modular window test, at the wrap too. */
  lemma AcceptedIffInWindow(s: Seq16, next: Seq16)
    ensures Accepted(s, next) <==> (s - next) % 65536 <= 48
  {
    if s >= next {
      assert (s - next) % SEQ_MODULUS == s - next;
    } else {
      assert (s - next) % SEQ_MODULUS == s - next + SEQ_MODULUS;
    }
  }

  // ---------------------------------------------------------------- emplace

  /** A new entry goes before the first larger one, unless the entry is far behind the cursor
      (that is, wrapped): then it goes last. */
  predicate InsertsBefore(s: Seq16, existing: Seq16, next: Seq16) {
    s < existing && next - s <= SEQ_MAX / 2
  }

  datatype Slot = Duplicate | At(index: nat)

  function FindSlot<T>(ring: seq<Rx<T>>, next: Seq16, s: Seq16, i: nat): (r: Slot)
    requires i <= |ring|
    ensures r.At? ==> i <= r.index <= |ring|
    ensures r.At? ==> forall k :: i <= k < r.index ==>
                        ring[k].sequence != s && !InsertsBefore(s, ring[k].sequence, next)
    ensures r.At? && r.index < |ring| ==> InsertsBefore(s, ring[r.index].sequence, next)
    ensures r == Duplicate ==> exists k :: i <= k < |ring| && ring[k].sequence == s
    decreases |ring| - i
  {
    if i == |ring| then At(i)
    else if ring[i].sequence == s then Duplicate
    else if InsertsBefore(s, ring[i].sequence, next) then At(i)
    else FindSlot(ring, next, s, i + 1)
  }

  function Emplace<T>(ring: seq<Rx<T>>, next: Seq16, env: Rx<T>): (r: seq<Rx<T>>)
    ensures |ring| <= |r| <= |ring| + 1
  {
    match FindSlot(ring, next, env.sequence, 0)
    case Duplicate => ring
    case At(i) =>
      ring[..i] + [env] + ring[i..]
  }

  /** Inserting puts the new entry in one place and keeps every other entry where it was; a duplicate
      changes nothing. */
  lemma EmplaceInserts<T>(ring: seq<Rx<T>>, next: Seq16, env: Rx<T>)
    ensures var r, slot := Emplace(ring, next, env), FindSlot(ring, next, env.sequence, 0);
            && (slot == Duplicate ==> r == ring)
            && (slot.At? ==> slot.index < |r| && r[slot.index] == env
                             && r[..slot.index] + r[slot.index + 1..] == ring)
  {
  }

  lemma EmplaceConserves<T>(ring: seq<Rx<T>>, next: Seq16, env: Rx<T>)
    requires FindSlot(ring, next, env.sequence, 0).At?
    ensures multiset(Emplace(ring, next, env)) == multiset(ring) + multiset{env}
  {
    var i := FindSlot(ring, next, env.sequence, 0).index;
    assert ring == ring[..i] + ring[i..];
  }

  predicate Holds<T>(ring: seq<Rx<T>>, s: Seq16) {
    exists i :: 0 <= i < |ring| && ring[i].sequence == s
  }

  predicate Distinct<T>(ring: seq<Rx<T>>) {
    forall i, j :: 0 <= i < j < |ring| ==> ring[i].sequence != ring[j].sequence
  }

  /** A twin of `s` hides behind an entry that `s` would be inserted before. */
  predicate HiddenTwin<T>(ring: seq<Rx<T>>, next: Seq16, s: Seq16) {
    exists i, j :: 0 <= i < j < |ring| && ring[j].sequence == s && InsertsBefore(s, ring[i].sequence, next)
  }

  lemma InsertDistinct<T>(ring: seq<Rx<T>>, i: nat, env: Rx<T>)
    requires Distinct(ring) && i <= |ring| && !Holds(ring, env.sequence)
    ensures Distinct(ring[..i] + [env] + ring[i..])
  {
    var r := ring[..i] + [env] + ring[i..];
    assert forall k :: 0 <= k < i ==> r[k] == ring[k];
    assert forall k :: i < k < |r| ==> r[k] == ring[k - 1];
  }

  lemma InsertTwice<T>(ring: seq<Rx<T>>, i: nat, j: nat, env: Rx<T>)
    requires i <= j < |ring| && ring[j].sequence == env.sequence
    ensures !Distinct(ring[..i] + [env] + ring[i..])
  {
    var r := ring[..i] + [env] + ring[i..];
    assert r[i] == env && r[j + 1] == ring[j];
  }

  /** Emplacing keeps a duplicate-free ring duplicate-free exactly when the ring holds no hidden
      twin of the arriving sequence. */
  lemma EmplaceDistinctIff<T>(ring: seq<Rx<T>>, next: Seq16, env: Rx<T>)
    requires Distinct(ring)
    ensures Distinct(Emplace(ring, next, env)) <==> !HiddenTwin(ring, next, env.sequence)
  {
    var s := env.sequence;
    var slot := FindSlot(ring, next, s, 0);
    if slot == Duplicate {
      DuplicateMeansVisible(ring, next, s, 0);
    } else if HiddenTwin(ring, next, s) {
      var k, j :| 0 <= k < j < |ring| && ring[j].sequence == s && InsertsBefore(s, ring[k].sequence, next);
      assert slot.index <= k;
      InsertTwice(ring, slot.index, j, env);
    } else {
      assert forall k :: slot.index < k < |ring| ==> ring[k].sequence != s;
      InsertDistinct(ring, slot.index, env);
    }
  }

  lemma {:induction false} DuplicateMeansVisible<T>(ring: seq<Rx<T>>, next: Seq16, s: Seq16, i: nat)
    requires Distinct(ring) && i <= |ring| && FindSlot(ring, next, s, i) == Duplicate
    ensures forall a, j :: i <= a < j < |ring| && ring[j].sequence == s ==> !InsertsBefore(s, ring[a].sequence, next)
    decreases |ring| - i
  {
    if ring[i].sequence != s {
      DuplicateMeansVisible(ring, next, s, i + 1);
    }
  }

  // ---------------------------------------------------------------- drain

  function IndexOf<T>(ring: seq<Rx<T>>, s: Seq16): (r: nat)
    ensures r <= |ring|
    ensures r < |ring| ==> ring[r].sequence == s
    ensures forall k :: 0 <= k < r ==> ring[k].sequence != s
  {
    if ring == [] then 0
    else if ring[0].sequence == s then 0
    else 1 + IndexOf(ring[1..], s)
  }

  datatype Drained<T> = Drained(ring: seq<Rx<T>>, next: Seq16, out: seq<Rx<T>>)

  /** The cursor after `n` deliveries. */
  function Advance(next: Seq16, n: nat): Seq16 {
    (next + n) % SEQ_MODULUS
  }

  lemma AdvanceStep(next: Seq16, n: nat)
    ensures Advance(Next(next), n) == Advance(next, n + 1) && Next(next) == (next + 1) % SEQ_MODULUS
  {
    if next == SEQ_MAX {
      assert (SEQ_MODULUS + n) % SEQ_MODULUS == n % SEQ_MODULUS;
    }
  }

  lemma AdvanceFrom(n: nat, k: nat)
    ensures Advance(n % SEQ_MODULUS, k) == (n + k) % SEQ_MODULUS
  {
    assert (n % SEQ_MODULUS + k) % SEQ_MODULUS == (n + k) % SEQ_MODULUS;
  }

  function Without<T>(ring: seq<Rx<T>>, i: nat): (r: seq<Rx<T>>)
    requires i < |ring|
    ensures |r| == |ring| - 1
  {
    ring[..i] + ring[i + 1..]
  }

  function Drain<T>(ring: seq<Rx<T>>, next: Seq16): (r: Drained<T>)
    ensures !Holds(r.ring, r.next)
    decreases |ring|
  {
    var i := IndexOf(ring, next);
    if i == |ring| then Drained(ring, next, [])
    else
      var d := Drain(Without(ring, i), Next(next));
      Drained(d.ring, d.next, [ring[i]] + d.out)
  }

  lemma WithoutConserves<T>(ring: seq<Rx<T>>, i: nat)
    requires i < |ring|
    ensures multiset(ring) == multiset(Without(ring, i)) + multiset{ring[i]}
  {
    assert ring == ring[..i] + [ring[i]] + ring[i + 1..];
  }

  /** Draining moves entries from the ring to the output and loses or copies none. */
  lemma {:induction false} DrainConserves<T>(ring: seq<Rx<T>>, next: Seq16)
    ensures multiset(ring) == multiset(Drain(ring, next).ring) + multiset(Drain(ring, next).out)
    decreases |ring|
  {
    var i := IndexOf(ring, next);
    if i < |ring| {
      var d := Drain(Without(ring, i), Next(next));
      calc {
        multiset(ring);
        { WithoutConserves(ring, i); }
        multiset(Without(ring, i)) + multiset{ring[i]};
        { DrainConserves(Without(ring, i), Next(next)); }
        multiset(d.ring) + multiset(d.out) + multiset{ring[i]};
        multiset(d.ring) + multiset([ring[i]] + d.out);
      }
    }
  }

  /** The expected entry comes out at once, first. */
  lemma ExpectedIsDrained<T>(ring: seq<Rx<T>>, next: Seq16, env: Rx<T>)
    requires !Holds(ring, next) && env.sequence == next
    ensures FindSlot(ring, next, next, 0).At?
    ensures var d := Drain(Emplace(ring, next, env), next); d.out != [] && d.out[0] == env
  {
    var slot := FindSlot(ring, next, next, 0);
    if slot.At? {
      var r, i := Emplace(ring, next, env), slot.index;
      EmplaceInserts(ring, next, env);
      assert forall k :: 0 <= k < i ==> r[k] == ring[k];
      assert IndexOf(r, next) == i;
    }
  }

  lemma ConsecutiveCons<T>(x: Rx<T>, out: seq<Rx<T>>, next: Seq16)
    requires x.sequence == next
    requires forall k :: 0 <= k < |out| ==> out[k].sequence == Advance(Next(next), k)
    ensures forall k :: 0 <= k < |[x] + out| ==> ([x] + out)[k].sequence == Advance(next, k)
  {
    forall k | 0 <= k < |[x] + out|
      ensures ([x] + out)[k].sequence == Advance(next, k)
    {
      if k > 0 { AdvanceStep(next, k - 1); }
    }
  }

  /** The drained run carries consecutive sequences from the cursor on, across the wrap too, and
      the cursor moves past exactly that run. */
  lemma {:induction false} DrainConsecutive<T>(ring: seq<Rx<T>>, next: Seq16)
    ensures var d := Drain(ring, next);
            && d.next == Advance(next, |d.out|)
            && forall k :: 0 <= k < |d.out| ==> d.out[k].sequence == Advance(next, k)
    decreases |ring|
  {
    var i := IndexOf(ring, next);
    if i < |ring| {
      DrainConsecutive(Without(ring, i), Next(next));
      var d := Drain(Without(ring, i), Next(next));
      AdvanceStep(next, |d.out|);
      ConsecutiveCons(ring[i], d.out, next);
    }
  }

  // ---------------------------------------------------------------- before the wrap

  /** The cursor is far enough from the top that no accepted sequence wraps. */
  predicate BeforeWrap(next: Seq16) {
    next + WINDOW_MAX < SEQ_MODULUS
  }

  predicate Sorted<T>(ring: seq<Rx<T>>) {
    forall i, j :: 0 <= i < j < |ring| ==> ring[i].sequence < ring[j].sequence
  }

  predicate Within<T>(ring: seq<Rx<T>>, lo: int, hi: int) {
    forall i :: 0 <= i < |ring| ==> lo <= ring[i].sequence <= hi
  }

  /** The shape of the ring between two inbound packets. */
  predicate Tidy<T>(ring: seq<Rx<T>>, next: Seq16) {
    Sorted(ring) && Within(ring, next + 1, next + WINDOW_MAX)
  }

  lemma InsertSorted<T>(ring: seq<Rx<T>>, i: nat, env: Rx<T>, lo: int, hi: int)
    requires Sorted(ring) && Within(ring, lo, hi) && i <= |ring| && lo <= env.sequence <= hi
    requires i < |ring| ==> env.sequence < ring[i].sequence
    requires forall k :: 0 <= k < i ==> ring[k].sequence < env.sequence
    ensures Sorted(ring[..i] + [env] + ring[i..]) && Within(ring[..i] + [env] + ring[i..], lo, hi)
  {
    var r := ring[..i] + [env] + ring[i..];
    assert forall k :: 0 <= k < i ==> r[k] == ring[k];
    assert forall k :: i < k < |r| ==> r[k] == ring[k - 1];
    assert forall k :: i < k < |ring| ==> ring[i].sequence < ring[k].sequence;
  }

  lemma EmplaceSorted<T>(ring: seq<Rx<T>>, next: Seq16, env: Rx<T>)
    requires BeforeWrap(next) && Sorted(ring) && Within(ring, next, next + WINDOW_MAX)
    requires next <= env.sequence <= next + WINDOW_MAX
    ensures Sorted(Emplace(ring, next, env)) && Within(Emplace(ring, next, env), next, next + WINDOW_MAX)
    ensures Holds(ring, env.sequence) <==> Emplace(ring, next, env) == ring
  {
    var slot := FindSlot(ring, next, env.sequence, 0);
    if slot.At? {
      InsertSorted(ring, slot.index, env, next, next + WINDOW_MAX);
      assert |Emplace(ring, next, env)| == |ring| + 1;
    }
  }

  lemma SortedTail<T>(ring: seq<Rx<T>>, lo: int, hi: int)
    requires ring != [] && Sorted(ring) && Within(ring, lo, hi)
    ensures Without(ring, 0) == ring[1..] && Sorted(ring[1..]) && Within(ring[1..], ring[0].sequence + 1, hi)
    ensures ring[0].sequence == hi ==> ring[1..] == []
  {
    var tail := ring[1..];
    assert forall k :: 0 <= k < |tail| ==> tail[k] == ring[k + 1];
    assert forall k :: 0 < k < |ring| ==> ring[0].sequence < ring[k].sequence;
    assert |ring| > 1 ==> ring[1].sequence <= hi;
  }

  lemma DrainHead<T>(ring: seq<Rx<T>>, next: Seq16)
    requires Sorted(ring) && Within(ring, next, SEQ_MAX) && Holds(ring, next)
    ensures ring[0].sequence == next
    ensures var d := Drain(ring[1..], Next(next)); Drain(ring, next) == Drained(d.ring, d.next, [ring[0]] + d.out)
  {
    var i := IndexOf(ring, next);
    assert ring[0].sequence <= ring[i].sequence;
    SortedTail(ring, next, SEQ_MAX);
  }

  predicate Ahead<T>(ring: seq<Rx<T>>, cursor: Seq16, next: Seq16, hi: int) {
    if cursor < next then ring == [] && cursor == 0
    else Sorted(ring) && Within(ring, cursor + 1, hi)
  }

  lemma AheadStep<T>(ring: seq<Rx<T>>, cursor: Seq16, next: Seq16, hi: int)
    requires next < SEQ_MAX && Ahead(ring, cursor, next + 1, hi)
    ensures Ahead(ring, cursor, next, hi)
  {
  }

  /** Draining keeps the ring sorted and strictly ahead of the cursor.  Only a run that reaches
      the very top of the sequence space wraps the cursor, and that run empties the ring. */
  lemma {:induction false} DrainSorted<T>(ring: seq<Rx<T>>, next: Seq16, hi: Seq16)
    requires Sorted(ring) && Within(ring, next, hi)
    ensures Ahead(Drain(ring, next).ring, Drain(ring, next).next, next, hi)
    decreases |ring|
  {
    if !Holds(ring, next) {
      assert Within(ring, next + 1, hi);
    } else {
      DrainHead(ring, next);
      SortedTail(ring, next, hi);
      if next < SEQ_MAX {
        DrainSorted(ring[1..], Next(next), hi);
        AheadStep(Drain(ring[1..], Next(next)).ring, Drain(ring[1..], Next(next)).next, next, hi);
      } else {
        assert Drain(ring[1..], Next(next)) == Drained([], 0, []);
      }
    }
  }

  lemma AdvanceSmall(next: Seq16, n: nat)
    requires next + n < SEQ_MODULUS
    ensures Advance(next, n) == next + n
  {
  }

  /** One inbound packet before the wrap keeps the ring tidy for as long as that is still
      meaningful. */
  lemma InboundTidy<T>(ring: seq<Rx<T>>, next: Seq16, env: Rx<T>)
    requires BeforeWrap(next) && Tidy(ring, next) && Accepted(env.sequence, next)
    ensures var d := Drain(Emplace(ring, next, env), next);
            next + |d.out| + WINDOW_MAX < SEQ_MODULUS ==> d.next == next + |d.out| && Tidy(d.ring, d.next)
  {
    var r := Emplace(ring, next, env);
    AcceptedIffInWindow(env.sequence, next);
    EmplaceSorted(ring, next, env);
    DrainSorted(r, next, next + WINDOW_MAX);
    DrainConsecutive(r, next);
    if next + |Drain(r, next).out| + WINDOW_MAX < SEQ_MODULUS { AdvanceSmall(next, |Drain(r, next).out|); }
  }

  lemma {:induction false} SortedBound<T>(ring: seq<Rx<T>>, lo: int, hi: int)
    requires Sorted(ring) && Within(ring, lo, hi) && lo <= hi + 1
    ensures |ring| <= hi - lo + 1
    decreases |ring|
  {
    if ring != [] {
      var init := ring[..|ring| - 1];
      SortedBound(init, lo, ring[|ring| - 1].sequence - 1);
    }
  }

  /** A tidy ring holds at most 48 entries. */
  lemma TidyBound<T>(ring: seq<Rx<T>>, next: Seq16)
    requires Tidy(ring, next)
    ensures |ring| <= WINDOW_MAX && Distinct(ring)
  {
    SortedBound(ring, next + 1, next + WINDOW_MAX);
  }

  // ---------------------------------------------------------------- until the wrap

  /** The entries that have not wrapped are sorted among themselves. */
  predicate SortedFrom<T>(ring: seq<Rx<T>>, next: Seq16) {
    forall i, j :: 0 <= i < j < |ring| && next <= ring[i].sequence && next <= ring[j].sequence
                   ==> ring[i].sequence < ring[j].sequence
  }

  /** The shape that keeps duplicates out even while wrapped entries wait behind the cursor. */
  predicate Unrepeated<T>(ring: seq<Rx<T>>, next: Seq16) {
    Distinct(ring) && SortedFrom(ring, next)
  }

  /** A wrapped sequence is inserted before nothing, and an unwrapped one finds its twin before it
      finds anything larger. */
  lemma NoHiddenTwin<T>(ring: seq<Rx<T>>, next: Seq16, s: Seq16)
    requires SortedFrom(ring, next) && Accepted(s, next)
    ensures !HiddenTwin(ring, next, s)
  {
    AcceptedIffInWindow(s, next);
    if s < next { assert next - s > SEQ_MAX / 2; }
  }

  lemma InsertSortedFrom<T>(ring: seq<Rx<T>>, next: Seq16, i: nat, env: Rx<T>)
    requires SortedFrom(ring, next) && i <= |ring| && next <= env.sequence
    requires i < |ring| ==> env.sequence < ring[i].sequence
    requires forall k :: 0 <= k < i ==> ring[k].sequence < env.sequence
    ensures SortedFrom(ring[..i] + [env] + ring[i..], next)
  {
    var r := ring[..i] + [env] + ring[i..];
    assert forall k :: 0 <= k < i ==> r[k] == ring[k];
    assert forall k :: i < k < |r| ==> r[k] == ring[k - 1];
    assert forall k :: i < k < |ring| && next <= ring[k].sequence ==> ring[i].sequence < ring[k].sequence;
  }

  lemma InsertWrapped<T>(ring: seq<Rx<T>>, next: Seq16, env: Rx<T>)
    requires SortedFrom(ring, next) && env.sequence < next
    ensures SortedFrom(ring + [env], next)
  {
  }

  lemma EmplaceUnrepeated<T>(ring: seq<Rx<T>>, next: Seq16, env: Rx<T>)
    requires Unrepeated(ring, next) && Accepted(env.sequence, next)
    ensures Unrepeated(Emplace(ring, next, env), next)
  {
    NoHiddenTwin(ring, next, env.sequence);
    EmplaceDistinctIff(ring, next, env);
    AcceptedIffInWindow(env.sequence, next);
    var slot := FindSlot(ring, next, env.sequence, 0);
    if slot.At? {
      if env.sequence < next {
        assert slot.index == |ring| && ring[..|ring|] == ring && ring[|ring|..] == [];
        InsertWrapped(ring, next, env);
      } else {
        InsertSortedFrom(ring, next, slot.index, env);
      }
    }
  }

  lemma WithoutUnrepeated<T>(ring: seq<Rx<T>>, next: Seq16, i: nat)
    requires Unrepeated(ring, next) && i < |ring|
    ensures Unrepeated(Without(ring, i), next)
  {
    var r := Without(ring, i);
    assert forall k :: 0 <= k < i ==> r[k] == ring[k];
    assert forall k :: i <= k < |r| ==> r[k] == ring[k + 1];
  }

  /** Draining keeps that shape as long as the cursor does not wrap. */
  lemma {:induction false} DrainUnrepeated<T>(ring: seq<Rx<T>>, next: Seq16)
    requires Unrepeated(ring, next) && next + |Drain(ring, next).out| < SEQ_MODULUS
    ensures Unrepeated(Drain(ring, next).ring, Drain(ring, next).next)
    decreases |ring|
  {
    var i := IndexOf(ring, next);
    if i < |ring| {
      WithoutUnrepeated(ring, next, i);
      DrainUnrepeated(Without(ring, i), Next(next));
    }
  }
}
