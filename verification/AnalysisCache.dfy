/** The bounded cache of domain analyses: a map and a FIFO eviction ring, shared by concurrent callers. */
module AnalysisCache {
  import opened Wrappers

  const CAPACITY: nat := 512

  /** Map, ring of insertion order, index of the oldest entry and next write slot. */
  datatype Cache<A> = Cache(entries: map<string, A>, ring: seq<string>, head: nat, tail: nat)

  /** The first critical section. */
  function Lookup<A>(c: Cache<A>, domain: string): (r: Option<A>)
  {
    if domain in c.entries then Some(c.entries[domain]) else None
  }

  predicate InRange<A>(c: Cache<A>)
  {
    |c.ring| == CAPACITY && c.head < CAPACITY && c.tail < CAPACITY
  }

  /** The second critical section: store unless another caller has, evicting the oldest entry when full. */
  function Store<A>(c: Cache<A>, domain: string, result: A): (r: Cache<A>)
    requires InRange(c)
  {
    if domain in c.entries then c
    else
      var full := |c.entries| >= CAPACITY;
      var kept := if full then c.entries - {c.ring[c.head]} else c.entries;
      Cache(kept[domain := result], c.ring[c.tail := domain],
            if full then Slot(c.head, 1) else c.head, Slot(c.tail, 1))
  }

  // --------------------------------------------------------------------- the ring

  /** The index i places after head, around the ring. */
  function Slot(head: nat, i: nat): (k: nat)
    requires head < CAPACITY && i <= CAPACITY
    ensures k < CAPACITY
  {
    if head + i < CAPACITY then head + i else head + i - CAPACITY
  }

  lemma SlotIsModular(head: nat, i: nat)
    requires head < CAPACITY && i <= CAPACITY
    ensures Slot(head, i) == (head + i) % CAPACITY
  {
  }

  /** n ring entries from head on. */
  function ReadRing(ring: seq<string>, head: nat, n: nat): (q: seq<string>)
    requires |ring| == CAPACITY && head < CAPACITY && n <= CAPACITY
    ensures |q| == n
  {
    seq(n, i requires 0 <= i < n => ring[Slot(head, i)])
  }

  /** The ring read from the oldest entry on. */
  function Queue<A>(c: Cache<A>): (q: seq<string>)
    requires InRange(c) && |c.entries| <= CAPACITY
  {
    ReadRing(c.ring, c.head, |c.entries|)
  }

  /** The members of a list. */
  function Members(q: seq<string>): (r: set<string>)
    ensures |r| <= |q|
  {
    if q == [] then {} else Members(q[..|q| - 1]) + {q[|q| - 1]}
  }

  /** The cached keys are exactly the ring entries from head to tail. */
  ghost predicate Valid<A>(c: Cache<A>)
  {
    && InRange(c)
    && |c.entries| <= CAPACITY
    && c.tail == Slot(c.head, |c.entries|)
    && Members(Queue(c)) == c.entries.Keys
  }

  lemma {:induction false} MembersIn(q: seq<string>, k: string)
    ensures k in Members(q) <==> k in q
  {
    if q != [] {
      MembersIn(q[..|q| - 1], k);
      assert q == q[..|q| - 1] + [q[|q| - 1]];
    }
  }

  lemma MembersPush(q: seq<string>, domain: string)
    ensures Members(q + [domain]) == Members(q) + {domain}
  {
    assert (q + [domain])[..|q|] == q;
  }

  lemma {:induction false} MembersFirst(q: seq<string>)
    requires q != []
    ensures Members(q) == {q[0]} + Members(q[1..])
  {
    if |q| > 1 {
      MembersFirst(q[..|q| - 1]);
      assert q[1..][..|q| - 2] == q[..|q| - 1][1..];
    } else {
      assert q[1..] == [] && q[..0] == [];
    }
  }

  /** A list with as many members as entries has no entry twice. */
  lemma MembersDrop(q: seq<string>)
    requires q != [] && |Members(q)| == |q|
    ensures Members(q[1..]) == Members(q) - {q[0]}
  {
    MembersFirst(q);
    SameSize(Members(q) - {q[0]}, Members(q[1..]));
  }

  lemma SameSize<T>(a: set<T>, b: set<T>)
    requires a <= b && |a| >= |b|
    ensures a == b
  {
    assert b == a + (b - a);
  }

  lemma {:induction false} MembersDistinct(q: seq<string>, i: nat, j: nat)
    requires |Members(q)| == |q| && i < j < |q|
    ensures q[i] != q[j]
    decreases |q|
  {
    var front, last := q[..|q| - 1], q[|q| - 1];
    assert last !in Members(front) && |Members(front)| == |front|;
    if j < |q| - 1 {
      MembersDistinct(front, i, j);
    } else {
      MembersIn(front, last);
      assert front[i] == q[i];
    }
  }

  /** Writing behind the last entry appends. */
  lemma RingAppends(ring: seq<string>, head: nat, n: nat, domain: string)
    requires |ring| == CAPACITY && head < CAPACITY && n < CAPACITY
    ensures ReadRing(ring[Slot(head, n) := domain], head, n + 1) == ReadRing(ring, head, n) + [domain]
  {
  }

  /** Overwriting the oldest entry of a full ring and moving the head past it drops it and appends. */
  lemma RingRotates(ring: seq<string>, head: nat, domain: string)
    requires |ring| == CAPACITY && head < CAPACITY
    ensures ReadRing(ring[head := domain], Slot(head, 1), CAPACITY) == ReadRing(ring, head, CAPACITY)[1..] + [domain]
  {
    var r, q := ReadRing(ring[head := domain], Slot(head, 1), CAPACITY), ReadRing(ring, head, CAPACITY);
    forall i | 0 <= i < CAPACITY
      ensures r[i] == (q[1..] + [domain])[i]
    {
      assert Slot(Slot(head, 1), i) == Slot(head, i + 1);
      if i < CAPACITY - 1 {
        assert q[1..][i] == q[i + 1];
      }
    }
  }

  /** The queue after a store: the oldest entry leaves a full cache, the new one goes to the back. */
  function Pushed(q: seq<string>, domain: string): (r: seq<string>)
    ensures |r| <= |q| + 1
  {
    (if |q| >= CAPACITY then q[1..] else q) + [domain]
  }

  lemma StoreWithRoom<A>(c: Cache<A>, domain: string, result: A)
    requires Valid(c) && domain !in c.entries && |c.entries| < CAPACITY
    ensures Valid(Store(c, domain, result))
    ensures Queue(Store(c, domain, result)) == Queue(c) + [domain]
  {
    var d := Store(c, domain, result);
    RingAppends(c.ring, c.head, |c.entries|, domain);
    assert |d.entries| == |c.entries| + 1 && d.ring == c.ring[c.tail := domain] && d.head == c.head;
    MembersPush(Queue(c), domain);
  }

  /** Dropping the first of a list of distinct entries and appending a new one. */
  lemma MembersRotate(q: seq<string>, domain: string)
    requires q != [] && |Members(q)| == |q| && domain !in Members(q)
    ensures Members(q[1..] + [domain]) == (Members(q) - {q[0]}) + {domain}
    ensures |Members(q[1..] + [domain])| == |q|
  {
    MembersFirst(q);
    MembersDrop(q);
    MembersPush(q[1..], domain);
  }

  lemma StoreWhenFull<A>(c: Cache<A>, domain: string, result: A)
    requires Valid(c) && domain !in c.entries && |c.entries| == CAPACITY
    ensures Valid(Store(c, domain, result))
    ensures Queue(Store(c, domain, result)) == Queue(c)[1..] + [domain]
  {
    var q, d := Queue(c), Store(c, domain, result);
    assert q[0] == c.ring[c.head];
    MembersRotate(q, domain);
    assert d.entries.Keys == (c.entries.Keys - {q[0]}) + {domain};
    RingRotates(c.ring, c.head, domain);
  }

  /** The ring implements a bounded FIFO queue. */
  lemma StoreIsPush<A>(c: Cache<A>, domain: string, result: A)
    requires Valid(c) && domain !in c.entries
    ensures Valid(Store(c, domain, result))
    ensures Queue(Store(c, domain, result)) == Pushed(Queue(c), domain)
  {
    if |c.entries| < CAPACITY {
      StoreWithRoom(c, domain, result);
    } else {
      StoreWhenFull(c, domain, result);
    }
  }

  // ---------------------------------------------------------------- the calculator

  class Calculator<A> {
    var analysisCache: map<string, A>
    const cacheEvictQ: array<string>
    var cacheHead: nat
    var cacheTail: nat

    ghost function View(): (c: Cache<A>)
      reads this, cacheEvictQ
    {
      Cache(analysisCache, cacheEvictQ[..], cacheHead, cacheTail)
    }

    constructor ()
      ensures View().entries == map[] && Valid(View()) && fresh(cacheEvictQ)
    {
      analysisCache := map[];
      cacheEvictQ := new string[CAPACITY](_ => "");
      cacheHead, cacheTail := 0, 0;
    }

    method Find(domain: string) returns (r: Option<A>)
      requires Valid(View())
      ensures r == Lookup(View(), domain)
    {
      if domain in analysisCache {
        return Some(analysisCache[domain]);
      }
      return None;
    }

    /** Evicts one entry if the cache is full, and stores. */
    method Insert(domain: string, result: A)
      requires InRange(View()) && domain !in analysisCache
      modifies this, cacheEvictQ
      ensures View() == Store(old(View()), domain, result)
    {
      ghost var was := View();
      if |analysisCache| >= CAPACITY {
        SlotIsModular(cacheHead, 1);
        var oldest := cacheEvictQ[cacheHead];
        cacheHead := (cacheHead + 1) % CAPACITY;
        analysisCache := analysisCache - {oldest};
      }
      SlotIsModular(cacheTail, 1);
      cacheEvictQ[cacheTail] := domain;
      assert cacheEvictQ[..] == was.ring[was.tail := domain];
      cacheTail := (cacheTail + 1) % CAPACITY;
      analysisCache := analysisCache[domain := result];
    }

    /** Double-check, evict one entry if full, and store. */
    method Remember(domain: string, result: A)
      requires Valid(View())
      modifies this, cacheEvictQ
      ensures View() == Store(old(View()), domain, result)
      ensures Valid(View())
    {
      if domain !in analysisCache {
        StoreIsPush(View(), domain, result);
        Insert(domain, result);
      }
    }

    /** A whole call that no other caller interrupts, whatever the cache holds. */
    method AnalyzeDomain(raw: string, lower: string -> string, analyze: string -> A) returns (result: A)
      requires Valid(View())
      modifies this, cacheEvictQ
      ensures Valid(View())
      ensures result == if lower(raw) in old(analysisCache) then old(analysisCache)[lower(raw)] else analyze(lower(raw))
      ensures View() == Store(old(View()), lower(raw), analyze(lower(raw)))
      ensures old(Correct(View(), analyze)) ==> Correct(View(), analyze) && result == analyze(lower(raw))
    {
      var domain := lower(raw);
      var cached := Find(domain);
      if cached.Some? {
        return cached.value;
      }
      result := analyze(domain);
      Remember(domain, result);
    }
  }

  /** Every cached value is what direct analysis gives. */
  ghost predicate Correct<A>(c: Cache<A>, analyze: string -> A)
  {
    forall k :: k in c.entries ==> c.entries[k] == analyze(k)
  }

  // ---------------------------------------------------------- concurrent callers

  /** A result and the step at which it was computed. */
  datatype Stamped<A> = Stamped(result: A, at: nat)

  /** A caller between its two critical sections, before or after its computation. */
  datatype Caller<A> = Missed(raw: string, began: nat) | Computed(raw: string, began: nat, value: Stamped<A>)

  /** What one call returned, and its first and last step. */
  datatype Return<A> = Return(raw: string, value: Stamped<A>, began: nat, ended: nat)

  /** The shared cache, the callers, the insertions and the returns so far, the settings and those in force at
      each step so far. The cache treats values alike, so the stamps change nothing. */
  datatype System<S, A> = System(
    cache: Cache<Stamped<A>>, callers: map<nat, Caller<A>>, inserted: seq<string>, returned: seq<Return<A>>,
    settings: S, history: seq<S>)

  /** An atomic step: a caller's lookup, its computation, its store, or a change of settings. */
  datatype Step<S> = Begin(t: nat, raw: string) | Compute(t: nat) | Finish(t: nat) | Configure(settings: S)

  ghost function Init<S, A>(settings: S): (s: System<S, A>)
  {
    System(Cache(map[], seq(CAPACITY, _ => ""), 0, 0), map[], [], [], settings, [])
  }

  ghost function Begun<S, A>(s: System<S, A>, t: nat, raw: string, lower: string -> string): (r: System<S, A>)
  {
    if t in s.callers then s
    else
      var cached, now := Lookup(s.cache, lower(raw)), |s.history|;
      if cached.Some? then s.(returned := s.returned + [Return(raw, cached.value, now, now)])
      else s.(callers := s.callers[t := Missed(raw, now)])
  }

  ghost function Calculated<S, A>(s: System<S, A>, t: nat, lower: string -> string, analyze: (S, string) -> A): (r: System<S, A>)
  {
    if t !in s.callers || s.callers[t].Computed? then s
    else
      var c := s.callers[t];
      var value := Stamped(analyze(s.settings, lower(c.raw)), |s.history|);
      s.(callers := s.callers[t := Computed(c.raw, c.began, value)])
  }

  ghost function Finished<S, A>(s: System<S, A>, t: nat, lower: string -> string): (r: System<S, A>)
    requires InRange(s.cache)
  {
    if t !in s.callers || s.callers[t].Missed? then s
    else
      var c := s.callers[t];
      var domain := lower(c.raw);
      s.(cache := Store(s.cache, domain, c.value), callers := s.callers - {t},
         inserted := if domain in s.cache.entries then s.inserted else s.inserted + [domain],
         returned := s.returned + [Return(c.raw, c.value, c.began, |s.history|)])
  }

  ghost function Next<S, A>(s: System<S, A>, step: Step<S>, lower: string -> string, analyze: (S, string) -> A): (r: System<S, A>)
    requires InRange(s.cache)
    ensures InRange(r.cache) && r.history == s.history + [s.settings]
  {
    var r :=
      match step
      case Begin(t, raw) => Begun(s, t, raw, lower)
      case Compute(t) => Calculated(s, t, lower, analyze)
      case Finish(t) => Finished(s, t, lower)
      case Configure(settings) => s.(settings := settings);
    r.(history := s.history + [s.settings])
  }

  /** The system after an arbitrary interleaving of steps. */
  ghost function Run<S, A>(first: S, steps: seq<Step<S>>, lower: string -> string, analyze: (S, string) -> A): (s: System<S, A>)
    ensures InRange(s.cache)
  {
    if steps == [] then Init(first)
    else Next(Run(first, steps[..|steps| - 1], lower, analyze), steps[|steps| - 1], lower, analyze)
  }

  /** The last CAPACITY insertions. */
  function Recent(inserted: seq<string>): (q: seq<string>)
  {
    if |inserted| <= CAPACITY then inserted else inserted[|inserted| - CAPACITY..]
  }

  /** A value is the analysis of the domain under the settings in force when it was computed. */
  ghost predicate Right<S, A>(history: seq<S>, v: Stamped<A>, domain: string, analyze: (S, string) -> A)
  {
    v.at < |history| && v.result == analyze(history[v.at], domain)
  }

  /** A return of a value computed during the call, or of one computed before the call. */
  ghost predicate Timed<A>(r: Return<A>, clock: nat)
  {
    r.ended < clock && (r.began < r.value.at < r.ended || r.value.at < r.began == r.ended)
  }

  /** Cached keys are the most recent insertions in order. */
  ghost predicate InOrder<B>(c: Cache<B>, inserted: seq<string>)
  {
    Valid(c) && Queue(c) == Recent(inserted)
  }

  ghost predicate CacheRight<S, A>(s: System<S, A>, analyze: (S, string) -> A)
  {
    forall k :: k in s.cache.entries ==> Right(s.history, s.cache.entries[k], k, analyze)
  }

  ghost predicate CallersRight<S, A>(s: System<S, A>, lower: string -> string, analyze: (S, string) -> A)
  {
    forall t :: t in s.callers ==>
      var c := s.callers[t];
      c.began < |s.history| &&
      (c.Computed? ==> c.began < c.value.at && Right(s.history, c.value, lower(c.raw), analyze))
  }

  ghost predicate ReturnsRight<S, A>(s: System<S, A>, lower: string -> string, analyze: (S, string) -> A)
  {
    forall i :: 0 <= i < |s.returned| ==>
      Timed(s.returned[i], |s.history|) && Right(s.history, s.returned[i].value, lower(s.returned[i].raw), analyze)
  }

  ghost predicate Invariant<S, A>(s: System<S, A>, lower: string -> string, analyze: (S, string) -> A)
  {
    && InOrder(s.cache, s.inserted) && CacheRight(s, analyze)
    && CallersRight(s, lower, analyze) && ReturnsRight(s, lower, analyze)
  }

  lemma RecentPush(inserted: seq<string>, domain: string)
    ensures Recent(inserted + [domain]) == Pushed(Recent(inserted), domain)
  {
  }

  lemma StoreKeepsOrder<B>(c: Cache<B>, inserted: seq<string>, domain: string, value: B)
    requires InOrder(c, inserted)
    ensures InOrder(Store(c, domain, value), if domain in c.entries then inserted else inserted + [domain])
  {
    if domain !in c.entries {
      StoreIsPush(c, domain, value);
      RecentPush(inserted, domain);
    }
  }

  /** A store adds at most the one value. */
  lemma StoreAdds<B>(c: Cache<B>, domain: string, value: B, k: string)
    requires InRange(c)
    ensures k in Store(c, domain, value).entries ==>
      (k == domain && Store(c, domain, value).entries[k] == value) ||
      (k in c.entries && Store(c, domain, value).entries[k] == c.entries[k])
  {
  }

  /** What is right stays right as time goes by. */
  lemma HistoryGrows<S, A>(s: System<S, A>, x: S, lower: string -> string, analyze: (S, string) -> A)
    requires CacheRight(s, analyze) && CallersRight(s, lower, analyze) && ReturnsRight(s, lower, analyze)
    ensures var g := s.(history := s.history + [x]);
      CacheRight(g, analyze) && CallersRight(g, lower, analyze) && ReturnsRight(g, lower, analyze)
  {
    assert forall i :: 0 <= i < |s.history| ==> (s.history + [x])[i] == s.history[i];
  }

  lemma FinishKeepsCache<S, A>(s: System<S, A>, c: Caller<A>, lower: string -> string, analyze: (S, string) -> A)
    requires InRange(s.cache) && CacheRight(s, analyze)
    requires c.Computed? && Right(s.history, c.value, lower(c.raw), analyze)
    ensures CacheRight(s.(cache := Store(s.cache, lower(c.raw), c.value)), analyze)
  {
    var d := Store(s.cache, lower(c.raw), c.value);
    forall k | k in d.entries
      ensures Right(s.history, d.entries[k], k, analyze)
    {
      StoreAdds(s.cache, lower(c.raw), c.value, k);
    }
  }

  lemma FinishKeepsReturns<S, A>(s: System<S, A>, c: Caller<A>, lower: string -> string, analyze: (S, string) -> A)
    requires ReturnsRight(s, lower, analyze) && s.history != []
    requires c.Computed? && c.began < c.value.at < |s.history| - 1 && Right(s.history, c.value, lower(c.raw), analyze)
    ensures var r := Return(c.raw, c.value, c.began, |s.history| - 1);
      ReturnsRight(s.(returned := s.returned + [r]), lower, analyze)
  {
  }

  lemma FinishKeeps<S, A>(s: System<S, A>, t: nat, lower: string -> string, analyze: (S, string) -> A)
    requires Invariant(s, lower, analyze)
    ensures Invariant(Next(s, Finish(t), lower, analyze), lower, analyze)
  {
    var r, g := Next(s, Finish(t), lower, analyze), s.(history := s.history + [s.settings]);
    HistoryGrows(s, s.settings, lower, analyze);
    if t in s.callers && s.callers[t].Computed? {
      var c := s.callers[t];
      assert c.value.at < |s.history| by { assert Right(s.history, c.value, lower(c.raw), analyze); }
      StoreKeepsOrder(s.cache, s.inserted, lower(c.raw), c.value);
      FinishKeepsCache(g, c, lower, analyze);
      FinishKeepsReturns(g, c, lower, analyze);
      assert CacheRight(r, analyze) && ReturnsRight(r, lower, analyze);
      assert forall u :: u in r.callers ==> u in g.callers && r.callers[u] == g.callers[u];
      assert CallersRight(r, lower, analyze);
    } else {
      assert r == g;
    }
  }

  lemma HitKeeps<S, A>(s: System<S, A>, raw: string, lower: string -> string, analyze: (S, string) -> A)
    requires CacheRight(s, analyze) && ReturnsRight(s, lower, analyze) && lower(raw) in s.cache.entries
    ensures var r := Return(raw, s.cache.entries[lower(raw)], |s.history|, |s.history|);
      ReturnsRight(s.(returned := s.returned + [r], history := s.history + [s.settings]), lower, analyze)
  {
    var v := s.cache.entries[lower(raw)];
    assert Right(s.history, v, lower(raw), analyze);
    assert forall i :: 0 <= i < |s.history| ==> (s.history + [s.settings])[i] == s.history[i];
  }

  lemma BeginKeeps<S, A>(s: System<S, A>, t: nat, raw: string, lower: string -> string, analyze: (S, string) -> A)
    requires Invariant(s, lower, analyze)
    ensures Invariant(Next(s, Begin(t, raw), lower, analyze), lower, analyze)
  {
    HistoryGrows(s, s.settings, lower, analyze);
    var r := Next(s, Begin(t, raw), lower, analyze);
    assert CacheRight(r, analyze);
    if t !in s.callers {
      if lower(raw) in s.cache.entries {
        HitKeeps(s, raw, lower, analyze);
        assert r.callers == s.callers;
      } else {
        assert r.returned == s.returned;
      }
    }
  }

  lemma ComputeKeeps<S, A>(s: System<S, A>, t: nat, lower: string -> string, analyze: (S, string) -> A)
    requires Invariant(s, lower, analyze)
    ensures Invariant(Next(s, Compute(t), lower, analyze), lower, analyze)
  {
    HistoryGrows(s, s.settings, lower, analyze);
    var r := Next(s, Compute(t), lower, analyze);
    assert CacheRight(r, analyze) && ReturnsRight(r, lower, analyze);
    assert r.history[|s.history|] == s.settings;
  }

  /** Every step of every caller, and every change of settings, keeps the invariant. */
  lemma NextKeeps<S, A>(s: System<S, A>, step: Step<S>, lower: string -> string, analyze: (S, string) -> A)
    requires Invariant(s, lower, analyze)
    ensures Invariant(Next(s, step, lower, analyze), lower, analyze)
  {
    match step
    case Begin(t, raw) => BeginKeeps(s, t, raw, lower, analyze);
    case Compute(t) => ComputeKeeps(s, t, lower, analyze);
    case Finish(t) => FinishKeeps(s, t, lower, analyze);
    case Configure(_) =>
  }

  /** Under every interleaving of calls and changes of settings: the ring from head to tail holds the most recent
      insertions, they are the cached keys, the size stays within capacity, and every return is the analysis
      under the settings in force when its value was computed, in the call itself or before it. */
  lemma {:induction false} EveryInterleaving<S, A>(
    first: S, steps: seq<Step<S>>, lower: string -> string, analyze: (S, string) -> A)
    ensures Invariant(Run(first, steps, lower, analyze), lower, analyze)
    decreases |steps|
  {
    if steps != [] {
      EveryInterleaving(first, steps[..|steps| - 1], lower, analyze);
      NextKeeps(Run(first, steps[..|steps| - 1], lower, analyze), steps[|steps| - 1], lower, analyze);
    }
  }

  // ------------------------------------------------------------ changes of settings

  /** Every setting the run starts with or changes to is an allowed one. */
  ghost predicate Allowed<S>(first: S, steps: seq<Step<S>>, allowed: S -> bool)
  {
    allowed(first) && forall i :: 0 <= i < |steps| && steps[i].Configure? ==> allowed(steps[i].settings)
  }

  lemma {:induction false} SettingsAllowed<S, A>(
    first: S, steps: seq<Step<S>>, allowed: S -> bool, lower: string -> string, analyze: (S, string) -> A)
    requires Allowed(first, steps, allowed)
    ensures allowed(Run(first, steps, lower, analyze).settings)
    ensures |Run(first, steps, lower, analyze).history| == |steps|
    ensures forall i :: 0 <= i < |steps| ==> allowed(Run(first, steps, lower, analyze).history[i])
    decreases |steps|
  {
    if steps != [] {
      SettingsAllowed(first, steps[..|steps| - 1], allowed, lower, analyze);
    }
  }

  /** With settings that no step changes, every return is what direct analysis gives. */
  lemma UnchangedSettings<S(!new), A>(
    first: S, steps: seq<Step<S>>, lower: string -> string, analyze: (S, string) -> A, i: nat)
    requires forall j :: 0 <= j < |steps| ==> !steps[j].Configure?
    requires i < |Run(first, steps, lower, analyze).returned|
    ensures var r := Run(first, steps, lower, analyze).returned[i]; r.value.result == analyze(first, lower(r.raw))
  {
    EveryInterleaving(first, steps, lower, analyze);
    SettingsAllowed(first, steps, x => x == first, lower, analyze);
  }

  /** A return gives what direct analysis would have given at some moment of the call. */
  ghost predicate Fresh<S, A>(history: seq<S>, r: Return<A>, lower: string -> string, analyze: (S, string) -> A)
  {
    exists i :: r.began <= i <= r.ended < |history| && r.value.result == analyze(history[i], lower(r.raw))
  }

  ghost predicate AllFresh<S, A>(s: System<S, A>, lower: string -> string, analyze: (S, string) -> A)
  {
    forall i :: 0 <= i < |s.returned| ==> Fresh(s.history, s.returned[i], lower, analyze)
  }

  /** The settings make no difference to any analysis. */
  ghost predicate Immaterial<S(!new), A>(allowed: S -> bool, lower: string -> string, analyze: (S, string) -> A)
  {
    forall x: S, y: S, raw: string :: allowed(x) && allowed(y) ==> analyze(x, lower(raw)) == analyze(y, lower(raw))
  }

  /** One call, a change of settings, and another call of the same domain. */
  function CallChangeCall<S>(raw: string, y: S): (steps: seq<Step<S>>)
  {
    [Begin(0, raw), Compute(0), Finish(0), Configure(y), Begin(0, raw)]
  }

  lemma RunPush<S, A>(first: S, steps: seq<Step<S>>, step: Step<S>, lower: string -> string, analyze: (S, string) -> A)
    ensures Run(first, steps + [step], lower, analyze) == Next(Run(first, steps, lower, analyze), step, lower, analyze)
  {
    assert (steps + [step])[..|steps|] == steps;
  }

  /** The cache answers with the analysis under the old settings. */
  lemma OldAnswer<S, A>(x: S, y: S, raw: string, lower: string -> string, analyze: (S, string) -> A)
    ensures var s := Run(x, CallChangeCall(raw, y), lower, analyze);
      && s.history == [x, x, x, x, y] && |s.returned| == 2
      && s.returned[1] == Return(raw, Stamped(analyze(x, lower(raw)), 1), 4, 4)
  {
    var none: seq<Step<S>> := [];
    var s1, s2, s3 := none + [Begin(0, raw)], none + [Begin(0, raw)] + [Compute(0)],
      none + [Begin(0, raw)] + [Compute(0)] + [Finish(0)];
    RunPush(x, none, Begin(0, raw), lower, analyze);
    RunPush(x, s1, Compute(0), lower, analyze);
    RunPush(x, s2, Finish(0), lower, analyze);
    RunPush(x, s3, Configure(y), lower, analyze);
    RunPush(x, s3 + [Configure(y)], Begin(0, raw), lower, analyze);
    assert CallChangeCall(raw, y) == s3 + [Configure(y)] + [Begin(0, raw)];
  }

  /** Exactly when a change of settings never shows: over all interleavings of calls and changes among the allowed
      settings, every return is current at some moment of its call if and only if the settings make no
      difference to any analysis. */
  lemma TransparentIff<S(!new), A>(allowed: S -> bool, lower: string -> string, analyze: (S, string) -> A)
    ensures (forall first, steps :: Allowed(first, steps, allowed) ==> AllFresh(Run(first, steps, lower, analyze), lower, analyze))
      <==> Immaterial(allowed, lower, analyze)
  {
    if Immaterial(allowed, lower, analyze) {
      forall first, steps | Allowed(first, steps, allowed)
        ensures AllFresh(Run(first, steps, lower, analyze), lower, analyze)
      {
        ImmaterialFresh(first, steps, allowed, lower, analyze);
      }
    } else {
      var x: S, y: S, raw: string :| allowed(x) && allowed(y) && analyze(x, lower(raw)) != analyze(y, lower(raw));
      var steps := CallChangeCall(raw, y);
      OldAnswer(x, y, raw, lower, analyze);
      assert Allowed(x, steps, allowed);
      var s := Run(x, steps, lower, analyze);
      assert !Fresh(s.history, s.returned[1], lower, analyze);
    }
  }

  lemma ImmaterialFresh<S(!new), A>(
    first: S, steps: seq<Step<S>>, allowed: S -> bool, lower: string -> string, analyze: (S, string) -> A)
    requires Allowed(first, steps, allowed) && Immaterial(allowed, lower, analyze)
    ensures AllFresh(Run(first, steps, lower, analyze), lower, analyze)
  {
    var s := Run(first, steps, lower, analyze);
    EveryInterleaving(first, steps, lower, analyze);
    SettingsAllowed(first, steps, allowed, lower, analyze);
    forall i | 0 <= i < |s.returned|
      ensures Fresh(s.history, s.returned[i], lower, analyze)
    {
      var r := s.returned[i];
      assert Timed(r, |s.history|);
      assert r.value.result == analyze(s.history[r.began], lower(r.raw));
    }
  }

  /** The step from moment j to the next changes the analysis of a domain. */
  ghost predicate Changes<S, A>(moments: seq<S>, j: int, domain: string, analyze: (S, string) -> A)
  {
    0 <= j < |moments| - 1 && analyze(moments[j], domain) != analyze(moments[j + 1], domain)
  }

  lemma {:induction false} SameBetween<S, A>(moments: seq<S>, i: int, j: int, domain: string, analyze: (S, string) -> A)
    requires 0 <= i <= j < |moments| && forall k :: i <= k < j ==> !Changes(moments, k, domain, analyze)
    ensures analyze(moments[i], domain) == analyze(moments[j], domain)
    decreases j - i
  {
    if i < j {
      SameBetween(moments, i, j - 1, domain, analyze);
      assert !Changes(moments, j - 1, domain, analyze);
    }
  }

  /** At most one step between two moments changes the analysis of a domain. */
  ghost predicate ChangesOnce<S, A>(moments: seq<S>, at: nat, domain: string, analyze: (S, string) -> A)
  {
    forall i, j :: at <= i < j && Changes(moments, i, domain, analyze) ==> !Changes(moments, j, domain, analyze)
  }

  lemma SameIff<S, A>(moments: seq<S>, at: nat, domain: string, analyze: (S, string) -> A)
    requires at < |moments| && ChangesOnce(moments, at, domain, analyze)
    ensures analyze(moments[at], domain) == analyze(moments[|moments| - 1], domain) <==>
      NoChange(moments, at, domain, analyze)
  {
    if j :| at <= j && Changes(moments, j, domain, analyze) {
      SameBetween(moments, at, j, domain, analyze);
      SameBetween(moments, j + 1, |moments| - 1, domain, analyze);
    } else {
      SameBetween(moments, at, |moments| - 1, domain, analyze);
    }
  }

  /** No step from a moment on changes the analysis of a domain. */
  ghost predicate NoChange<S, A>(moments: seq<S>, at: nat, domain: string, analyze: (S, string) -> A)
  {
    forall j :: at <= j ==> !Changes(moments, j, domain, analyze)
  }

  /** A result is the analysis under the settings of every moment from at on. */
  ghost predicate CurrentSince<S, A>(moments: seq<S>, at: nat, domain: string, result: A, analyze: (S, string) -> A)
  {
    forall j :: at <= j < |moments| ==> result == analyze(moments[j], domain)
  }

  lemma CurrentSinceIff<S, A>(moments: seq<S>, at: nat, domain: string, analyze: (S, string) -> A)
    requires at < |moments|
    ensures CurrentSince(moments, at, domain, analyze(moments[at], domain), analyze) <==> NoChange(moments, at, domain, analyze)
  {
    if NoChange(moments, at, domain, analyze) {
      forall j | at <= j < |moments|
        ensures analyze(moments[at], domain) == analyze(moments[j], domain)
      {
        SameBetween(moments, at, j, domain, analyze);
      }
    } else {
      var j :| at <= j && Changes(moments, j, domain, analyze);
      assert analyze(moments[j], domain) != analyze(moments[j + 1], domain);
    }
  }

  /** After any run, a cached answer has been current at every moment since its computation exactly when no step
      since then changed the analysis of its domain. Unless changes cancel out, it is current now exactly then. */
  lemma HitCurrentIff<S, A>(
    first: S, steps: seq<Step<S>>, domain: string, lower: string -> string, analyze: (S, string) -> A)
    requires domain in Run(first, steps, lower, analyze).cache.entries
    ensures var s := Run(first, steps, lower, analyze);
      var moments, v := s.history + [s.settings], s.cache.entries[domain];
      && (CurrentSince(moments, v.at, domain, v.result, analyze) <==> NoChange(moments, v.at, domain, analyze))
      && (ChangesOnce(moments, v.at, domain, analyze) ==>
          (v.result == analyze(s.settings, domain) <==> NoChange(moments, v.at, domain, analyze)))
  {
    EveryInterleaving(first, steps, lower, analyze);
    var s := Run(first, steps, lower, analyze);
    CacheCurrentIff(s, domain, analyze);
  }

  lemma CacheCurrentIff<S, A>(s: System<S, A>, domain: string, analyze: (S, string) -> A)
    requires CacheRight(s, analyze) && domain in s.cache.entries
    ensures var moments, v := s.history + [s.settings], s.cache.entries[domain];
      && (CurrentSince(moments, v.at, domain, v.result, analyze) <==> NoChange(moments, v.at, domain, analyze))
      && (ChangesOnce(moments, v.at, domain, analyze) ==>
          (v.result == analyze(s.settings, domain) <==> NoChange(moments, v.at, domain, analyze)))
  {
    var moments, v := s.history + [s.settings], s.cache.entries[domain];
    assert Right(s.history, v, domain, analyze);
    assert moments[v.at] == s.history[v.at] && moments[|moments| - 1] == s.settings;
    CurrentSinceIff(moments, v.at, domain, analyze);
    if ChangesOnce(moments, v.at, domain, analyze) {
      SameIff(moments, v.at, domain, analyze);
    }
  }

  /** A caller that computed before a change and has not stored yet. */
  lemma BeforeLateStore<S, A>(x: S, y: S, raw: string, lower: string -> string, analyze: (S, string) -> A)
    ensures var s := Run(x, [Begin(0, raw), Compute(0), Configure(y)], lower, analyze);
      && s.cache == Init<S, A>(x).cache && s.settings == y && s.history == [x, x, x] && s.returned == []
      && s.callers == map[0 := Computed(raw, 0, Stamped(analyze(x, lower(raw)), 1))]
  {
    var none: seq<Step<S>> := [];
    var s1, s2 := none + [Begin(0, raw)], none + [Begin(0, raw)] + [Compute(0)];
    RunPush(x, none, Begin(0, raw), lower, analyze);
    RunPush(x, s1, Compute(0), lower, analyze);
    RunPush(x, s2, Configure(y), lower, analyze);
    assert [Begin(0, raw), Compute(0), Configure(y)] == s2 + [Configure(y)];
  }

  /** A domain that is not cached when a setting changes can become stale too: a caller that computed before the
      change stores after it, and the next call gets the old answer. */
  lemma LateStoreIsOld<S, A>(x: S, y: S, raw: string, lower: string -> string, analyze: (S, string) -> A)
    ensures Run(x, [Begin(0, raw), Compute(0), Configure(y)], lower, analyze).cache.entries == map[]
    ensures var s := Run(x, [Begin(0, raw), Compute(0), Configure(y), Finish(0), Begin(1, raw)], lower, analyze);
      |s.returned| == 2 && s.settings == y && s.returned[1] == Return(raw, Stamped(analyze(x, lower(raw)), 1), 4, 4)
  {
    var steps := [Begin(0, raw), Compute(0), Configure(y)];
    BeforeLateStore(x, y, raw, lower, analyze);
    RunPush(x, steps, Finish(0), lower, analyze);
    RunPush(x, steps + [Finish(0)], Begin(1, raw), lower, analyze);
    assert [Begin(0, raw), Compute(0), Configure(y), Finish(0), Begin(1, raw)] == steps + [Finish(0)] + [Begin(1, raw)];
  }

  /** In a valid cache no key is queued twice, and the queued keys are the cached ones. */
  lemma QueueIsKeys<A>(c: Cache<A>)
    requires Valid(c)
    ensures forall i, j :: 0 <= i < j < |Queue(c)| ==> Queue(c)[i] != Queue(c)[j]
    ensures forall k :: k in c.entries <==> k in Queue(c)
  {
    var q := Queue(c);
    assert |Members(q)| == |c.entries.Keys| == |q|;
    forall i, j | 0 <= i < j < |q|
      ensures q[i] != q[j]
    {
      MembersDistinct(q, i, j);
    }
    forall k
      ensures k in c.entries <==> k in q
    {
      MembersIn(q, k);
    }
  }
}
