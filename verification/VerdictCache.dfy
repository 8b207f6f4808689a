/** The stamp verdict caches of `pkg/discovery/interface_discovery.go`: one validation at a time, and
    two bounded first-in-first-out caches of its verdicts. */
module VerdictCache {

  const CACHE_MAX := 2048

  type Key = string

  datatype Fifo<V> = Fifo(entries: map<Key, V>, order: seq<Key>)

  // ---------------------------------------------------------------- one cache

  ghost predicate WellFormed<V>(c: Fifo<V>) {
    && (forall i, j :: 0 <= i < j < |c.order| ==> c.order[i] != c.order[j])
    && (forall k :: k in c.order <==> k in c.entries)
    && |c.order| <= CACHE_MAX
  }

  /** A new key goes last; when the cache is full the oldest one makes room for it. */
  function Remember<V>(c: Fifo<V>, k: Key, v: V): Fifo<V> {
    if k in c.entries then c
    else
      var order, entries := c.order + [k], c.entries[k := v];
      if |order| > CACHE_MAX then Fifo(entries - {order[0]}, order[1..]) else Fifo(entries, order)
  }

  lemma FullKeeps<V>(c: Fifo<V>, k: Key, v: V)
    requires WellFormed(c) && k !in c.entries && |c.order| == CACHE_MAX
    ensures WellFormed(Remember(c, k, v)) && k in Remember(c, k, v).entries
  {
    var all := c.order + [k];
    assert forall j :: j in all <==> j in c.order || j == k;
    TailOf(all);
  }

  lemma RememberKeeps<V>(c: Fifo<V>, k: Key, v: V)
    requires WellFormed(c)
    ensures WellFormed(Remember(c, k, v)) && k in Remember(c, k, v).entries
    ensures forall j :: j in Remember(c, k, v).entries ==> j == k || j in c.entries
  {
    if k !in c.entries {
      if |c.order| == CACHE_MAX {
        FullKeeps(c, k, v);
      } else {
        assert forall j :: j in c.order + [k] <==> j in c.order || j == k;
      }
    }
  }

  lemma TailOf(s: seq<Key>)
    requires s != [] && forall i, j :: 0 <= i < j < |s| ==> s[i] != s[j]
    ensures forall k :: k in s[1..] <==> k in s && k != s[0]
  {
    forall k | k in s && k != s[0]
      ensures k in s[1..]
    {
      var i :| 0 <= i < |s| && s[i] == k;
      assert s[1..][i - 1] == k;
    }
  }

  class Cache<V> {
    var entries: map<Key, V>
    var order: seq<Key>

    ghost function State(): Fifo<V>
      reads this
    {
      Fifo(entries, order)
    }

    constructor ()
      ensures State() == Fifo(map[], [])
    {
      entries, order := map[], [];
    }

    /** `rememberValidLocked` and `rememberInvalidLocked`, with their eviction loop. */
    method RememberLocked(k: Key, v: V)
      requires WellFormed(State())
      modifies this
      ensures WellFormed(State()) && State() == Remember(old(State()), k, v)
    {
      RememberKeeps(State(), k, v);
      if k in entries {
        return;
      }
      entries := entries[k := v];
      order := order + [k];
      ghost var full := State();
      while |order| > CACHE_MAX
        invariant |order| <= CACHE_MAX + 1
        invariant State() == full || State() == Remember(old(State()), k, v)
        invariant |full.order| <= CACHE_MAX ==> State() == full
        decreases |order|
      {
        var oldest := order[0];
        order := order[1..];
        entries := entries - {oldest};
      }
    }
  }

  // ---------------------------------------------------------------- interleaved handlers

  datatype State<V> = State(
    validating: bool,
    valid: Fifo<V>,
    invalid: Fifo<bool>,
    inFlight: map<nat, Key>,     // handler calls between the two locked sections, with their hash
    validLog: seq<Key>,          // every key ever remembered, in order
    invalidLog: seq<Key>,
    reported: seq<Key>)          // every key whose record went to the discovery callback, in order

  /** `blackholed` is the answer of the blackhole test, which both sections ask of a valid record. */
  datatype Event<V> =
    | Begin(t: nat, k: Key, blackholed: bool)                      // first locked section of ReceivedAnnounce
    | Finish(t: nat, verdict: Verdict<V>, blackholed: bool)        // second one, with the validation result

  datatype Verdict<V> = Rejected | Decoded(info: V)

  function Init<V>(): State<V> {
    State(false, Fifo(map[], []), Fifo(map[], []), map[], [], [], [])
  }

  /** A valid record is reported unless it is blackholed. */
  function Report(reported: seq<Key>, k: Key, blackholed: bool): seq<Key> {
    if blackholed then reported else reported + [k]
  }

  function Apply<V>(s: State<V>, e: Event<V>): State<V> {
    match e
    case Begin(t, k, blackholed) =>
      if t in s.inFlight || k in s.invalid.entries then s
      else if k in s.valid.entries then s.(reported := Report(s.reported, k, blackholed))
      else if s.validating then s
      else s.(validating := true, inFlight := s.inFlight[t := k])
    case Finish(t, verdict, blackholed) =>
      if t !in s.inFlight then s
      else
        var k := s.inFlight[t];
        var s' := s.(validating := false, inFlight := s.inFlight - {t});
        match verdict
        case Rejected =>
          s'.(invalid := Remember(s.invalid, k, true),
              invalidLog := if k in s.invalid.entries then s.invalidLog else s.invalidLog + [k])
        case Decoded(info) =>
          s'.(valid := Remember(s.valid, k, info), reported := Report(s.reported, k, blackholed),
              validLog := if k in s.valid.entries then s.validLog else s.validLog + [k])
  }

  function Run<V>(s: State<V>, events: seq<Event<V>>): State<V> {
    if events == [] then s
    else Apply(Run(s, events[..|events| - 1]), events[|events| - 1])
  }

  /** The last `CACHE_MAX` elements. */
  function Newest(log: seq<Key>): seq<Key> {
    if |log| <= CACHE_MAX then log else log[|log| - CACHE_MAX..]
  }

  ghost predicate Inv<V>(s: State<V>) {
    && (s.validating <==> s.inFlight != map[])
    && (forall t, u :: t in s.inFlight && u in s.inFlight ==> t == u)
    && (forall t :: t in s.inFlight ==> s.inFlight[t] !in s.valid.entries && s.inFlight[t] !in s.invalid.entries)
    && WellFormed(s.valid) && WellFormed(s.invalid)
    && s.valid.entries.Keys !! s.invalid.entries.Keys
    && s.valid.order == Newest(s.validLog) && s.invalid.order == Newest(s.invalidLog)
  }

  lemma NewestSnoc(log: seq<Key>, k: Key)
    ensures var n := Newest(log) + [k]; Newest(log + [k]) == if |n| > CACHE_MAX then n[1..] else n
  {
  }

  lemma ApplyKeepsInv<V>(s: State<V>, e: Event<V>)
    requires Inv(s)
    ensures Inv(Apply(s, e))
  {
    if e.Finish? && e.t in s.inFlight {
      var k := s.inFlight[e.t];
      assert s.inFlight - {e.t} == map[];
      match e.verdict
      case Rejected =>
        RememberKeeps(s.invalid, k, true);
        NewestSnoc(s.invalidLog, k);
      case Decoded(info) =>
        RememberKeeps(s.valid, k, info);
        NewestSnoc(s.validLog, k);
    } else if e.Begin? {
      var s' := Apply(s, e);
      assert s'.validating && !s.validating ==> e.t in s'.inFlight;
    }
  }

  /** Over all interleavings of handler calls: at most one validation is in flight and its key is in
      neither cache; the caches are disjoint; each order list is duplicate-free, lists exactly the
      keys of its map and has at most 2048 entries; and what it holds is the newest insertions, so
      what was evicted was the oldest. */
  lemma {:induction false} CachesSound<V>(events: seq<Event<V>>)
    ensures Inv(Run(Init(), events))
  {
    if events != [] {
      CachesSound(events[..|events| - 1]);
      ApplyKeepsInv(Run(Init(), events[..|events| - 1]), events[|events| - 1]);
    }
  }

  predicate AmongLast(log: seq<Key>, k: Key, n: nat) {
    exists i :: 0 <= i < |log| && |log| - n <= i && log[i] == k
  }

  lemma NewestIff(log: seq<Key>, k: Key)
    ensures k in Newest(log) <==> AmongLast(log, k, 2048)
  {
    var n := Newest(log);
    assert forall i :: 0 <= i < |n| ==> n[i] == log[|log| - |n| + i];
    if AmongLast(log, k, 2048) {
      var i :| 0 <= i < |log| && |log| - 2048 <= i && log[i] == k;
      assert n[i - (|log| - |n|)] == k;
    }
  }

  /** A verdict is in its cache exactly while it is among the 2048 newest of its kind, so what an
      insertion evicts is the oldest. */
  lemma EvictionIsOldest<V>(events: seq<Event<V>>, k: Key)
    ensures var s := Run(Init(), events);
            && (k in s.valid.entries <==> AmongLast(s.validLog, k, 2048))
            && (k in s.invalid.entries <==> AmongLast(s.invalidLog, k, 2048))
  {
    CachesSound(events);
    var s := Run<V>(Init(), events);
    NewestIff(s.validLog, k);
    NewestIff(s.invalidLog, k);
  }

  // ---------------------------------------------------------------- blackholed records

  /** A record that decodes enters the valid cache whether it is blackholed or not; the test decides
      only whether it is reported. */
  lemma DecodedIsCached<V>(events: seq<Event<V>>, t: nat, info: V, blackholed: bool)
    requires t in Run(Init(), events).inFlight
    ensures var s := Run(Init(), events);
            var k, s' := s.inFlight[t], Apply(s, Finish(t, Decoded(info), blackholed));
            && k !in s.valid.entries && k in s'.valid.entries && s'.valid.entries[k] == info
            && s'.reported == if blackholed then s.reported else s.reported + [k]
  {
    CachesSound(events);
    RememberKeeps(Run(Init(), events).valid, Run(Init(), events).inFlight[t], info);
  }

  function BlackholedRun<V>(k: Key, info: V): seq<Event<V>> {
    [Begin(0, k, true), Finish(0, Decoded(info), true)]
  }

  /** A run that reports nothing and leaves a blackholed record in the cache. */
  lemma BlackholedEntersCache<V>(k: Key, info: V)
    ensures var s := Run(Init(), BlackholedRun(k, info)); k in s.valid.entries && s.reported == []
  {
    var events := BlackholedRun(k, info);
    var one: seq<Event<V>> := [Begin(0, k, true)];
    assert events[..1] == one && one[..0] == [];
    assert Run(Init<V>(), one) == Apply(Init<V>(), one[0]);
    DecodedIsCached(one, 0, info, true);
  }

  /** An event that adds a key to the valid cache. */
  ghost predicate Enters<V>(s: State<V>, e: Event<V>) {
    exists k :: k in Apply(s, e).valid.entries && k !in s.valid.entries
  }

  /** A validation that succeeds. */
  predicate Decodes<V>(s: State<V>, e: Event<V>) {
    e.Finish? && e.verdict.Decoded? && e.t in s.inFlight
  }

  lemma EntersIff<V>(events: seq<Event<V>>, e: Event<V>)
    ensures Enters(Run(Init(), events), e) <==> Decodes(Run(Init(), events), e)
  {
    var s := Run(Init(), events);
    if Decodes(s, e) {
      DecodedIsCached(events, e.t, e.verdict.info, e.blackholed);
      assert s.inFlight[e.t] in Apply(s, e).valid.entries;
    }
  }

  /** What the handler documents: nothing enters the cache when it is found blackholed. */
  ghost predicate BlackholedNeverEnters<V>(events: seq<Event<V>>) {
    forall i :: 0 <= i < |events| && events[i].blackholed ==> !Enters(Run(Init(), events[..i]), events[i])
  }

  /** It holds of a run exactly when no successful validation was of a blackholed record. */
  lemma BlackholedNeverEntersIff<V>(events: seq<Event<V>>)
    ensures BlackholedNeverEnters(events)
            <==> forall i :: 0 <= i < |events| && Decodes(Run(Init(), events[..i]), events[i]) ==> !events[i].blackholed
  {
    forall i | 0 <= i < |events|
      ensures Enters(Run(Init(), events[..i]), events[i]) <==> Decodes(Run(Init(), events[..i]), events[i])
    {
      EntersIff(events[..i], events[i]);
    }
  }

  /** The blackhole test never said yes. */
  ghost predicate NoneBlackholed<V>(events: seq<Event<V>>) {
    forall i :: 0 <= i < |events| ==> !events[i].blackholed
  }

  ghost predicate OnlyValid<V>(s: State<V>) {
    forall k :: k in s.reported ==> k in s.validLog
  }

  ghost predicate AllReported<V>(s: State<V>) {
    forall k :: k in s.validLog ==> k in s.reported
  }

  /** Whatever is reported was found valid; and whatever was found valid is reported, if no record
      was blackholed. */
  lemma {:induction false} ReportedIsValid<V>(events: seq<Event<V>>)
    ensures OnlyValid(Run(Init(), events))
    ensures NoneBlackholed(events) ==> AllReported(Run(Init(), events))
  {
    if events != [] {
      var init := events[..|events| - 1];
      ReportedIsValid(init);
      CachesSound(init);
      var s, e := Run(Init(), init), events[|events| - 1];
      if NoneBlackholed(events) { assert !e.blackholed; }
      CachedIsLogged(s);
    }
  }

  lemma CachedIsLogged<V>(s: State<V>)
    requires Inv(s)
    ensures forall k :: k in s.valid.entries ==> k in s.validLog
  {
  }

  // ---------------------------------------------------------------- what each call does

  /** A record that is refused enters the invalid cache, is not reported, and is ignored when it comes
      again. */
  lemma RejectedIsCached<V>(events: seq<Event<V>>, t: nat, blackholed: bool)
    requires t in Run(Init(), events).inFlight
    ensures var s := Run(Init(), events);
            var k, u := s.inFlight[t], Apply(s, Finish(t, Rejected, blackholed));
            && k !in s.invalid.entries && k in u.invalid.entries && u.valid == s.valid && u.reported == s.reported
            && !u.validating && t !in u.inFlight
            && forall r, again :: Apply(u, Begin(r, k, again)) == u
  {
    CachesSound(events);
    RememberKeeps(Run(Init(), events).invalid, Run(Init(), events).inFlight[t], true);
  }

  /** What arrives: a key in the invalid cache is ignored; one in the valid cache is reported unless it
      is blackholed; an unknown one is validated unless a validation is running. */
  lemma ArrivalLaw<V>(s: State<V>, t: nat, k: Key, blackholed: bool)
    requires t !in s.inFlight
    ensures var u := Apply(s, Begin(t, k, blackholed));
            && (k in s.invalid.entries ==> u == s)
            && (k !in s.invalid.entries && k in s.valid.entries ==>
                  u == s.(reported := if blackholed then s.reported else s.reported + [k]))
            && (k !in s.invalid.entries && k !in s.valid.entries ==>
                  u == if s.validating then s else s.(validating := true, inFlight := s.inFlight[t := k]))
  {
  }
}
