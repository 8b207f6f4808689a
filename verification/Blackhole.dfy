/** The blackhole table of `pkg/blackhole/blackhole.go`: entries with expiry times, and a cached set
    of active identities that is rebuilt only when a generation counter has moved. */
module Blackhole {
  import opened Wrappers

  const HASH_LEN := 16

  type Hash = seq<int>

  /** `until` is a Unix time in seconds; zero means the entry never expires. */
  datatype Entry = Entry(source: Hash, until: real, reason: string)

  /** An entry as received from another transport; its source may be missing. */
  datatype Remote = Remote(source: Option<Hash>, until: real, reason: string)

  datatype Table = Table(
    entries: map<Hash, Entry>,
    activeSet: Option<set<Hash>>,
    activeSetGen: nat,
    entriesGen: nat)

  const EMPTY := Table(map[], None, 0, 0)

  // ---------------------------------------------------------------- operations on values

  predicate Active(e: Entry, now: int) {
    e.until == 0.0 || now as real < e.until
  }

  /** The identities that `Has` reports at time `now`. */
  function HasSet(entries: map<Hash, Entry>, now: int): set<Hash> {
    set k | k in entries && Active(entries[k], now)
  }

  function Mutated(t: Table, entries: map<Hash, Entry>): Table {
    t.(entries := entries, entriesGen := t.entriesGen + 1)
  }

  predicate Expired(e: Entry, now: int) {
    e.until != 0.0 && now as real > e.until
  }

  function Swept(entries: map<Hash, Entry>, now: int): map<Hash, Entry> {
    map k | k in entries && !Expired(entries[k], now) :: entries[k]
  }

  function Filled(r: Remote, sourceHash: Hash): Entry {
    Entry(if r.source.Some? then r.source.value else sourceHash, r.until, r.reason)
  }

  /** A remote entry is taken unless it is malformed, expired, or would replace a local one. */
  predicate Takes(entries: map<Hash, Entry>, local: Hash, now: int, k: Hash, r: Remote) {
    && |k| == HASH_LEN
    && !(k in entries && entries[k].source == local)
    && (r.until == 0.0 || now as real < r.until)
  }

  predicate AnyTaken(entries: map<Hash, Entry>, local: Hash, now: int, decoded: map<Hash, Remote>) {
    exists k :: k in decoded && Takes(entries, local, now, k, decoded[k])
  }

  function Merged(entries: map<Hash, Entry>, local: Hash, now: int, sourceHash: Hash,
                  decoded: map<Hash, Remote>): map<Hash, Entry> {
    entries + map k | k in decoded && Takes(entries, local, now, k, decoded[k]) :: Filled(decoded[k], sourceHash)
  }

  function MergedOne(entries: map<Hash, Entry>, local: Hash, now: int, sourceHash: Hash,
                     k: Hash, r: Remote): map<Hash, Entry> {
    if Takes(entries, local, now, k, r) then entries[k := Filled(r, sourceHash)] else entries
  }

  function AddSpec(t: Table, k: Hash, e: Entry): Table {
    if k in t.entries then t else Mutated(t, t.entries[k := e])
  }

  function RemoveSpec(t: Table, k: Hash): Table {
    if k in t.entries then Mutated(t, t.entries - {k}) else t
  }

  function SweepSpec(t: Table, now: int): Table {
    var e := Swept(t.entries, now);
    if e.Keys == t.entries.Keys then t else Mutated(t, e)
  }

  function MergeSpec(t: Table, local: Hash, now: int, sourceHash: Hash, decoded: map<Hash, Remote>): Table {
    if AnyTaken(t.entries, local, now, decoded)
    then Mutated(t, Merged(t.entries, local, now, sourceHash, decoded)) else t
  }

  predicate CacheFresh(t: Table) {
    t.activeSet.Some? && t.activeSetGen == t.entriesGen
  }

  function QuerySpec(t: Table, now: int): Table {
    if CacheFresh(t) then t
    else t.(activeSet := Some(HasSet(t.entries, now)), activeSetGen := t.entriesGen)
  }

  // ---------------------------------------------------------------- the object

  class BlackholeTable {
    var entries: map<Hash, Entry>
    var activeSet: Option<set<Hash>>
    var activeSetGen: nat
    var entriesGen: nat

    ghost function State(): Table
      reads this
    {
      Table(entries, activeSet, activeSetGen, entriesGen)
    }

    constructor ()
      ensures State() == EMPTY
    {
      entries, activeSet, activeSetGen, entriesGen := map[], None, 0, 0;
    }

    method Has(k: Hash, now: int) returns (r: bool)
      ensures r == (|k| == HASH_LEN && k in HasSet(entries, now))
      ensures r <==> |k| == 16 && k in entries && (entries[k].until == 0.0 || now as real < entries[k].until)
    {
      if |k| != HASH_LEN || k !in entries {
        return false;
      }
      if entries[k].until == 0.0 {
        return true;
      }
      r := now as real < entries[k].until;
    }

    method Add(k: Hash, local: Hash, until: real, reason: string) returns (ok: bool, inserted: bool)
      modifies this`entries, this`entriesGen
      ensures ok <==> |k| == HASH_LEN && |local| == HASH_LEN
      ensures State() == if ok then AddSpec(old(State()), k, Entry(local, until, reason)) else old(State())
      ensures inserted == (ok && k !in old(entries))
      ensures entries == if inserted then old(entries)[k := Entry(local, until, reason)] else old(entries)
    {
      if |k| != HASH_LEN || |local| != HASH_LEN {
        return false, false;
      }
      if k in entries {
        return true, false;
      }
      entries := entries[k := Entry(local, until, reason)];
      entriesGen := entriesGen + 1;
      return true, true;
    }

    method Remove(k: Hash) returns (removed: bool)
      modifies this`entries, this`entriesGen
      ensures State() == if |k| == HASH_LEN then RemoveSpec(old(State()), k) else old(State())
      ensures removed == (|k| == HASH_LEN && k in old(entries))
      ensures |k| == 16 ==> k !in entries
      ensures forall j :: j != k || |k| != 16 ==> (j in entries <==> j in old(entries))
      ensures forall j :: j in entries ==> entries[j] == old(entries)[j]
    {
      if |k| != HASH_LEN {
        return false;
      }
      removed := k in entries;
      if removed {
        entries := entries - {k};
        entriesGen := entriesGen + 1;
      }
    }

    method SweepExpired(now: int) returns (removed: nat)
      modifies this`entries, this`entriesGen
      ensures State() == SweepSpec(old(State()), now)
      ensures removed == |old(entries)| - |entries|
      ensures forall k :: k in entries <==>
                k in old(entries) && (old(entries)[k].until == 0.0 || now as real <= old(entries)[k].until)
      ensures forall k :: k in entries ==> entries[k] == old(entries)[k]
    {
      removed := 0;
      var todo := entries.Keys;
      while todo != {}
        modifies this`entries
        invariant entries.Keys <= old(entries).Keys && todo <= entries.Keys
        invariant forall k :: k in old(entries) && (k in todo || !Expired(old(entries)[k], now)) ==> k in entries
        invariant forall k :: k in entries ==> entries[k] == old(entries)[k] && (k in todo || !Expired(entries[k], now))
        invariant removed == |old(entries)| - |entries| && removed >= 0
        decreases |todo|
      {
        var k :| k in todo;
        todo := todo - {k};
        if entries[k].until != 0.0 && now as real > entries[k].until {
          assert (entries - {k}).Keys == entries.Keys - {k};
          entries := entries - {k};
          removed := removed + 1;
        }
      }
      assert entries == Swept(old(entries), now);
      if removed > 0 {
        entriesGen := entriesGen + 1;
      } else {
        SameSize(entries.Keys, old(entries).Keys);
        assert entries == old(entries);
      }
    }

    method ActiveIdentitySet(now: int) returns (out: set<Hash>)
      modifies this`activeSet, this`activeSetGen
      ensures State() == QuerySpec(old(State()), now) && activeSet == Some(out)
    {
      if activeSet.Some? && activeSetGen == entriesGen {
        return activeSet.value;
      }
      out := {};
      var todo := entries.Keys;
      while todo != {}
        invariant todo <= entries.Keys
        invariant forall k :: k in out <==> k in entries && k !in todo && Active(entries[k], now)
        decreases |todo|
      {
        var k :| k in todo;
        todo := todo - {k};
        if entries[k].until != 0.0 && now as real >= entries[k].until {
          continue;
        }
        out := out + {k};
      }
      assert out == HasSet(entries, now);
      activeSet, activeSetGen := Some(out), entriesGen;
    }

    method MergeEntry(sourceHash: Hash, local: Hash, now: int, k: Hash, r: Remote) returns (changed: bool)
      modifies this`entries
      ensures entries == MergedOne(old(entries), local, now, sourceHash, k, r)
      ensures changed <==> |k| == 16 && !(k in old(entries) && old(entries)[k].source == local)
                           && (r.until == 0.0 || now as real < r.until)
      ensures changed ==> entries == old(entries)[k := Entry(if r.source == None then sourceHash else r.source.value,
                                                             r.until, r.reason)]
      ensures !changed ==> entries == old(entries)
      ensures changed == Takes(old(entries), local, now, k, r)
    {
      if |k| != HASH_LEN {
        return false;
      }
      if k in entries && entries[k].source == local {
        return false;
      }
      if r.until != 0.0 && now as real >= r.until {
        return false;
      }
      entries := entries[k := Entry(if r.source.Some? then r.source.value else sourceHash, r.until, r.reason)];
      changed := true;
    }

    /** The received map is visited in an unspecified order; the result does not depend on it. */
    method MergeAll(sourceHash: Hash, local: Hash, now: int, decoded: map<Hash, Remote>) returns (changed: bool)
      modifies this`entries
      ensures entries == Merged(old(entries), local, now, sourceHash, decoded)
      ensures changed == AnyTaken(old(entries), local, now, decoded)
    {
      ghost var before := entries;
      changed := false;
      var todo := decoded.Keys;
      assert decoded - todo == map[];
      while todo != {}
        invariant todo <= decoded.Keys
        invariant entries == Merged(before, local, now, sourceHash, decoded - todo)
        invariant changed == AnyTaken(before, local, now, decoded - todo)
        decreases |todo|
      {
        var k :| k in todo;
        MergeTurn(before, local, now, sourceHash, decoded, todo, k);
        todo := todo - {k};
        var taken := MergeEntry(sourceHash, local, now, k, decoded[k]);
        changed := changed || taken;
      }
      assert decoded - todo == decoded;
    }

    method MergeRemote(sourceHash: Hash, local: Hash, now: int, decoded: map<Hash, Remote>) returns (ok: bool)
      modifies this`entries, this`entriesGen
      ensures ok <==> |sourceHash| == HASH_LEN
      ensures State() == if ok then MergeSpec(old(State()), local, now, sourceHash, decoded) else old(State())
    {
      if |sourceHash| != HASH_LEN {
        return false;
      }
      var changed := MergeAll(sourceHash, local, now, decoded);
      if changed {
        entriesGen := entriesGen + 1;
      } else {
        assert entries == old(entries);
      }
      ok := true;
    }
  }

  lemma AnyTakenStep(entries: map<Hash, Entry>, local: Hash, now: int, done: map<Hash, Remote>, k: Hash, r: Remote)
    requires k !in done
    ensures AnyTaken(entries, local, now, done[k := r])
            <==> AnyTaken(entries, local, now, done) || Takes(entries, local, now, k, r)
  {
    var all := done[k := r];
    if AnyTaken(entries, local, now, done) {
      var j :| j in done && Takes(entries, local, now, j, done[j]);
      assert j in all && all[j] == done[j];
    }
    if Takes(entries, local, now, k, r) {
      assert k in all && all[k] == r;
    }
  }

  lemma MergedAt(entries: map<Hash, Entry>, local: Hash, now: int, sourceHash: Hash, done: map<Hash, Remote>, j: Hash)
    ensures var m := Merged(entries, local, now, sourceHash, done);
            var taken := j in done && Takes(entries, local, now, j, done[j]);
            && (j in m <==> j in entries || taken)
            && (j in m ==> m[j] == if taken then Filled(done[j], sourceHash) else entries[j])
  {
  }

  /** What one received entry adds to the merge of those visited before it. */
  lemma MergeStep(entries: map<Hash, Entry>, local: Hash, now: int, sourceHash: Hash,
                  done: map<Hash, Remote>, k: Hash, r: Remote)
    requires k !in done
    ensures var m := Merged(entries, local, now, sourceHash, done);
            && (Takes(entries, local, now, k, r) <==> Takes(m, local, now, k, r))
            && Merged(entries, local, now, sourceHash, done[k := r])
               == MergedOne(m, local, now, sourceHash, k, r)
  {
    var m, all := Merged(entries, local, now, sourceHash, done), done[k := r];
    var n := Merged(entries, local, now, sourceHash, all);
    MergedAt(entries, local, now, sourceHash, done, k);
    var one := MergedOne(m, local, now, sourceHash, k, r);
    forall j
      ensures (j in n <==> j in one) && (j in n ==> n[j] == one[j])
    {
      MergedAt(entries, local, now, sourceHash, done, j);
      MergedAt(entries, local, now, sourceHash, all, j);
    }
    assert n == one;
  }

  lemma MergeTurn(entries: map<Hash, Entry>, local: Hash, now: int, sourceHash: Hash, decoded: map<Hash, Remote>,
                  todo: set<Hash>, k: Hash)
    requires k in todo && todo <= decoded.Keys
    ensures var m := Merged(entries, local, now, sourceHash, decoded - todo);
            && Merged(entries, local, now, sourceHash, decoded - (todo - {k}))
               == MergedOne(m, local, now, sourceHash, k, decoded[k])
            && AnyTaken(entries, local, now, decoded - (todo - {k}))
               == (AnyTaken(entries, local, now, decoded - todo) || Takes(m, local, now, k, decoded[k]))
  {
    assert decoded - (todo - {k}) == (decoded - todo)[k := decoded[k]];
    MergeStep(entries, local, now, sourceHash, decoded - todo, k, decoded[k]);
    AnyTakenStep(entries, local, now, decoded - todo, k, decoded[k]);
  }

  lemma SameSize(a: set<Hash>, b: set<Hash>)
    requires a <= b && |a| == |b|
    ensures a == b
  {
    assert b == a + (b - a);
    assert |b - a| == 0;
  }

  // ---------------------------------------------------------------- facts about the operations

  /** What a merge does to each identity: a received entry with a 16-byte hash that has not expired is
      put in, over any entry that is not local, with the sender as its source if it names none;
      everything else stays. */
  lemma MergeLaw(t: Table, local: Hash, now: int, sourceHash: Hash, decoded: map<Hash, Remote>, k: Hash)
    ensures var m := ApplyTo(t, Merge(sourceHash, local, decoded), now).entries;
            if |sourceHash| == 16 && |k| == 16 && k in decoded && !(k in t.entries && t.entries[k].source == local)
               && (decoded[k].until == 0.0 || now as real < decoded[k].until)
            then k in m && m[k] == Entry(if decoded[k].source == None then sourceHash else decoded[k].source.value,
                                         decoded[k].until, decoded[k].reason)
            else (k in m <==> k in t.entries) && (k in m ==> m[k] == t.entries[k])
  {
    MergedAt(t.entries, local, now, sourceHash, decoded, k);
  }

  /** A merge never changes or removes a locally sourced entry, and never removes any entry. */
  lemma MergeKeepsLocal(t: Table, local: Hash, now: int, sourceHash: Hash, decoded: map<Hash, Remote>, k: Hash)
    requires k in t.entries
    ensures var m := MergeSpec(t, local, now, sourceHash, decoded).entries;
            k in m && (t.entries[k].source == local ==> m[k] == t.entries[k])
  {
  }

  /** Some entry expires after `lo` and no later than `hi`. */
  ghost predicate ExpiresIn(entries: map<Hash, Entry>, lo: int, hi: int) {
    exists k :: k in entries && entries[k].until != 0.0 && lo as real < entries[k].until <= hi as real
  }

  /** A sweep at `now` is invisible to `Has` at `at` exactly when no entry expires strictly between
      `at` and `now`, so always from the sweep on. */
  lemma SweepInvisibleIff(t: Table, now: int, at: int)
    ensures HasSet(SweepSpec(t, now).entries, at) == HasSet(t.entries, at)
            <==> !exists k :: k in t.entries && t.entries[k].until != 0.0
                              && at as real < t.entries[k].until < now as real
    ensures now <= at ==> HasSet(SweepSpec(t, now).entries, at) == HasSet(t.entries, at)
  {
    var e := Swept(t.entries, now);
    if e.Keys == t.entries.Keys { assert e == t.entries; }
    assert HasSet(SweepSpec(t, now).entries, at) == HasSet(e, at);
    forall k | k in t.entries
      ensures k in HasSet(e, at) <==> k in HasSet(t.entries, at) && !Expired(t.entries[k], now)
    {
    }
    if k :| k in t.entries && t.entries[k].until != 0.0 && at as real < t.entries[k].until < now as real {
      assert k in HasSet(t.entries, at) && k !in HasSet(e, at);
    } else {
      assert HasSet(e, at) == HasSet(t.entries, at);
    }
    if now <= at { assert now as real <= at as real; }
  }

  // ---------------------------------------------------------------- runs

  datatype Event =
    | Add(k: Hash, local: Hash, until: real, reason: string)
    | Remove(k: Hash)
    | Sweep
    | Merge(source: Hash, local: Hash, decoded: map<Hash, Remote>)
    | Query

  /** The table, and the clock reading at which the cached set was last built. */
  datatype State = State(table: Table, builtAt: int)

  function ApplyTo(t: Table, e: Event, now: int): Table {
    match e
    case Add(k, local, until, reason) =>
      if |k| == HASH_LEN && |local| == HASH_LEN then AddSpec(t, k, Entry(local, until, reason)) else t
    case Remove(k) => if |k| == HASH_LEN then RemoveSpec(t, k) else t
    case Sweep => SweepSpec(t, now)
    case Merge(source, local, decoded) =>
      if |source| == HASH_LEN then MergeSpec(t, local, now, source, decoded) else t
    case Query => QuerySpec(t, now)
  }

  /** An operation and the clock reading it takes.  Readings need not be ordered: a clock can be set
      back, and a merge reads it before it takes the lock. */
  datatype Timed = Timed(event: Event, now: int)

  function Apply(s: State, e: Timed): State {
    State(ApplyTo(s.table, e.event, e.now), if e.event == Query && !CacheFresh(s.table) then e.now else s.builtAt)
  }

  function Run(events: seq<Timed>): State {
    if events == [] then State(EMPTY, 0)
    else Apply(Run(events[..|events| - 1]), events[|events| - 1])
  }

  /** A cache that will be used is the `Has` set of the current entries at the reading of its
      rebuild. */
  ghost predicate CacheOk(s: State) {
    && s.table.activeSetGen <= s.table.entriesGen
    && (CacheFresh(s.table) ==> s.table.activeSet.value == HasSet(s.table.entries, s.builtAt))
  }

  lemma {:induction false} RunCacheOk(events: seq<Timed>)
    ensures CacheOk(Run(events))
  {
    if events != [] {
      RunCacheOk(events[..|events| - 1]);
    }
  }

  /** What `ActiveIdentitySet` returns at `now` after `events`. */
  function Returned(events: seq<Timed>, now: int): set<Hash> {
    QuerySpec(Run(events).table, now).activeSet.value
  }

  /** The returned set is the `Has` set of the present entries at the reading of the last rebuild,
      which is this one unless the cache is used. */
  lemma ReturnedIs(events: seq<Timed>, now: int)
    ensures var s := Run(events);
            Returned(events, now) == HasSet(s.table.entries, if CacheFresh(s.table) then s.builtAt else now)
  {
    RunCacheOk(events);
  }

  lemma CoversIff(entries: map<Hash, Entry>, builtAt: int, now: int)
    ensures HasSet(entries, now) <= HasSet(entries, builtAt) <==> !ExpiresIn(entries, now, builtAt)
  {
    if k :| k in entries && entries[k].until != 0.0 && now as real < entries[k].until <= builtAt as real {
      assert k in HasSet(entries, now) && k !in HasSet(entries, builtAt);
    }
  }

  /** In every run, at every reading: the returned set covers what `Has` reports exactly when it was
      just rebuilt or no entry expires after `now` and by the reading at which it was built; and it
      holds present entries only. */
  lemma ReturnedCoversIff(events: seq<Timed>, now: int)
    ensures var s := Run(events);
            HasSet(s.table.entries, now) <= Returned(events, now)
            <==> !CacheFresh(s.table) || !ExpiresIn(s.table.entries, now, s.builtAt)
    ensures Returned(events, now) <= Run(events).table.entries.Keys
  {
    ReturnedIs(events, now);
    CoversIff(Run(events).table.entries, Run(events).builtAt, now);
  }

  /** It is exactly what `Has` reports when, besides, no entry has expired since it was built. */
  lemma ReturnedExactIff(events: seq<Timed>, now: int)
    ensures var s := Run(events);
            Returned(events, now) == HasSet(s.table.entries, now)
            <==> || !CacheFresh(s.table)
                 || (!ExpiresIn(s.table.entries, now, s.builtAt) && !ExpiresIn(s.table.entries, s.builtAt, now))
  {
    ReturnedIs(events, now);
    CoversIff(Run(events).table.entries, Run(events).builtAt, now);
    CoversIff(Run(events).table.entries, now, Run(events).builtAt);
  }

  const IDENTITY: Hash := [0, 1, 2, 3, 4, 5, 6, 7, 8, 9, 10, 11, 12, 13, 14, 15]

  /** An entry until 10, a query at 10, and the clock set back to 5: `Has` reports the identity, the
      returned set does not. */
  lemma ClockBackMisses()
    ensures var events := [Timed(Add(IDENTITY, IDENTITY, 10.0, ""), 0), Timed(Query, 10)];
            IDENTITY in HasSet(Run(events).table.entries, 5) && IDENTITY !in Returned(events, 5)
  {
    var add := Timed(Add(IDENTITY, IDENTITY, 10.0, ""), 0);
    var events := [add, Timed(Query, 10)];
    assert events[..1] == [add] && [add][..0] == [];
    var e := Entry(IDENTITY, 10.0, "");
    assert Run([add]) == Apply(Run([]), add) == State(Table(map[IDENTITY := e], None, 0, 1), 0);
    assert Run(events) == Apply(Run([add]), Timed(Query, 10)) && Run(events).builtAt == 10;
    ReturnedIs(events, 5);
  }

  lemma {:induction false} BuiltNoLater(events: seq<Timed>, now: int)
    requires forall i :: 0 <= i < |events| ==> events[i].now <= now
    ensures CacheFresh(Run(events).table) ==> Run(events).builtAt <= now
  {
    if events != [] {
      BuiltNoLater(events[..|events| - 1], now);
      RunCacheOk(events[..|events| - 1]);
    }
  }

  /** At a reading that is not behind any earlier one, after any operations: whatever `Has` reports
      is in the returned set, whatever is in that set is a present entry, and a freshly rebuilt set
      is exactly the `Has` set. */
  lemma CacheSound(events: seq<Timed>, now: int)
    requires forall i :: 0 <= i < |events| ==> events[i].now <= now
    ensures var s := Run(events);
            && HasSet(s.table.entries, now) <= Returned(events, now) <= s.table.entries.Keys
            && (!CacheFresh(s.table) ==> Returned(events, now) == HasSet(s.table.entries, now))
  {
    BuiltNoLater(events, now);
    ReturnedCoversIff(events, now);
    ReturnedExactIff(events, now);
    if CacheFresh(Run(events).table) { assert Run(events).builtAt as real <= now as real; }
  }

  // ---------------------------------------------------------------- adding and removing over runs

  /** The event may put `k` into the table. */
  predicate MayAdd(e: Event, k: Hash) {
    (e.Add? && e.k == k) || (e.Merge? && k in e.decoded)
  }

  lemma StaysOut(t: Table, e: Event, now: int, k: Hash)
    requires k !in t.entries && !MayAdd(e, k)
    ensures k !in ApplyTo(t, e, now).entries
  {
    if e.Merge? { MergeLaw(t, e.local, now, e.source, e.decoded, k); }
  }

  /** After a removal, as long as no one adds the identity again, it is in the table no more: `Has` does
      not report it and the returned set does not hold it, at any reading. */
  lemma {:induction false} RemovedIsGone(events: seq<Timed>, at: int, more: seq<Timed>, k: Hash, now: int)
    requires |k| == 16 && forall i :: 0 <= i < |more| ==> !MayAdd(more[i].event, k)
    ensures var all := events + [Timed(Remove(k), at)] + more;
            && k !in Run(all).table.entries && k !in HasSet(Run(all).table.entries, now) && k !in Returned(all, now)
    decreases |more|
  {
    var all := events + [Timed(Remove(k), at)] + more;
    if more == [] {
      assert all[..|all| - 1] == events;
    } else {
      var init := more[..|more| - 1];
      RemovedIsGone(events, at, init, k, now);
      assert all[..|all| - 1] == events + [Timed(Remove(k), at)] + init;
      StaysOut(Run(all[..|all| - 1]).table, more[|more| - 1].event, more[|more| - 1].now, k);
    }
    ReturnedCoversIff(all, now);
  }

  /** The event leaves the local entry `e` of `k` alone. */
  predicate Spares(x: Timed, k: Hash, e: Entry) {
    && !(x.event.Remove? && x.event.k == k)
    && (x.event.Sweep? ==> e.until == 0.0 || x.now as real <= e.until)
    && (x.event.Merge? ==> x.event.local == e.source)
  }

  lemma StaysIn(t: Table, x: Timed, k: Hash, e: Entry)
    requires k in t.entries && t.entries[k] == e && Spares(x, k, e)
    ensures var u := ApplyTo(t, x.event, x.now); k in u.entries && u.entries[k] == e
  {
    if x.event.Merge? { MergeLaw(t, x.event.local, x.now, x.event.source, x.event.decoded, k); }
  }

  /** A new identity that is added is there with its source, expiry and reason, until it is removed or
      swept after its expiry; an identity that is present keeps its entry. */
  lemma {:induction false} AddedStays(events: seq<Timed>, at: int, k: Hash, e: Entry, more: seq<Timed>)
    requires |k| == 16 == |e.source| && k !in Run(events).table.entries
    requires forall i :: 0 <= i < |more| ==> Spares(more[i], k, e)
    ensures var all := Run(events + [Timed(Add(k, e.source, e.until, e.reason), at)] + more).table.entries;
            k in all && all[k] == e
    decreases |more|
  {
    var added := Timed(Add(k, e.source, e.until, e.reason), at);
    var all := events + [added] + more;
    if more == [] {
      assert all[..|all| - 1] == events;
    } else {
      var init := more[..|more| - 1];
      AddedStays(events, at, k, e, init);
      assert all[..|all| - 1] == events + [added] + init;
      assert Spares(more[|more| - 1], k, e);
      StaysIn(Run(all[..|all| - 1]).table, more[|more| - 1], k, e);
    }
  }

  /** A sweep leaves exactly the entries that are not past their time. */
  lemma SweepLaw(s: State, now: int, k: Hash)
    ensures var was, left := s.table.entries, Apply(s, Timed(Sweep, now)).table.entries;
            && (k in left <==> k in was && !(was[k].until != 0.0 && now as real > was[k].until))
            && (k in left ==> left[k] == was[k])
  {
    var was := s.table.entries;
    var swept := Swept(was, now);
    if swept.Keys == was.Keys {
      assert k in was ==> k in swept;
    }
  }
}
