/** The 1-in-N samplers: the one in the kernel, which reads a shared configuration, and its userspace twin. */
module Sampler {
  import opened Wrappers

  /** Counters are 64 bits wide and wrap. */
  const WRAP: nat := 0x1_0000_0000_0000_0000

  type Rate = n: nat | n < 0x1_0000_0000

  datatype Kind = Syscall | Network | File

  /** One in N per kind (0 = none, 1 = all) and the global switch. */
  datatype Config = Config(syscall: Rate, network: Rate, file: Rate, enabled: bool)
  {
    function Of(k: Kind): Rate
    {
      match k case Syscall => syscall case Network => network case File => file
    }
  }

  type Word = n: nat | n < WRAP

  /** One counter per kind, those of one CPU. */
  datatype Counters = Counters(syscall: Word, network: Word, file: Word)
  {
    function Of(k: Kind): Word
    {
      match k case Syscall => syscall case Network => network case File => file
    }

    function Bumped(k: Kind): (r: Counters)
      ensures forall j: Kind :: r.Of(j) == if j == k then Bump(Of(j)) else Of(j)
    {
      match k
      case Syscall => this.(syscall := Bump(syscall))
      case Network => this.(network := Bump(network))
      case File => this.(file := Bump(file))
    }
  }

  function Bump(c: Word): (r: Word)
  {
    (c + 1) % WRAP
  }

  // --------------------------------------------------------------- both samplers

  /** Whether an event takes a counter value: sampling is on and the rate is neither none nor all. */
  predicate Counts(cfg: Config, k: Kind)
  {
    cfg.enabled && cfg.Of(k) > 1
  }

  /** The kernel's decision on an event, from the counter value it fetches. */
  predicate KernelPasses(cfg: Config, k: Kind, counter: Word)
  {
    if !cfg.enabled then true
    else if cfg.Of(k) == 0 then false
    else if cfg.Of(k) == 1 then true
    else counter % cfg.Of(k) == 0
  }

  /** The userspace limiter's decision, from the counter value before its increment. */
  predicate LimiterPasses(cfg: Config, k: Kind, counter: Word)
  {
    if !cfg.enabled || cfg.Of(k) <= 1 then true else Bump(counter) % cfg.Of(k) == 1
  }

  class KernelSampler {
    var config: Option<Config>
    var counters: Counters

    constructor ()
      ensures config.None? && counters == Counters(0, 0, 0)
    {
      config := None;
      counters := Counters(0, 0, 0);
    }

    /** should_sample: override is the rate argument, 0 to take the configured one. */
    method ShouldSample(k: Kind, override: Rate) returns (pass: bool)
      modifies this
      ensures config == old(config)
      ensures config.None? ==> pass && counters == old(counters)
      ensures config.Some? ==>
        var cfg := Effective(config.value, k, override);
        pass == KernelPasses(cfg, k, old(counters).Of(k)) &&
        counters == if Counts(cfg, k) then old(counters).Bumped(k) else old(counters)
    {
      if config.None? || !config.value.enabled {
        return true;
      }
      var rate: Rate := if override == 0 then config.value.Of(k) else override;
      if rate == 0 {
        return false;
      }
      if rate == 1 {
        return true;
      }
      var count := counters.Of(k);
      counters := counters.Bumped(k);
      return count % rate == 0;
    }
  }

  /** The configuration with the rate argument of the call put in, unless it is 0. */
  function Effective(cfg: Config, k: Kind, override: Rate): (r: Config)
    ensures r.enabled == cfg.enabled && r.Of(k) == if override == 0 then cfg.Of(k) else override
  {
    if override == 0 then cfg
    else match k
      case Syscall => cfg.(syscall := override)
      case Network => cfg.(network := override)
      case File => cfg.(file := override)
  }

  class RateLimiter {
    var counters: Counters
    var config: Config

    constructor (syscall: Rate, network: Rate, file: Rate)
      ensures config == Config(syscall, network, file, false) && counters == Counters(0, 0, 0)
    {
      counters := Counters(0, 0, 0);
      config := Config(syscall, network, file, false);
    }

    method Allow(k: Kind) returns (pass: bool)
      modifies this
      ensures config == old(config)
      ensures pass == LimiterPasses(config, k, old(counters).Of(k))
      ensures counters == if Counts(config, k) then old(counters).Bumped(k) else old(counters)
    {
      if !config.enabled || config.Of(k) <= 1 {
        return true;
      }
      counters := counters.Bumped(k);
      var count := counters.Of(k);
      return count % config.Of(k) == 1;
    }
  }

  // ------------------------------------------------------------------ equivalence

  /** The two exceptions: the kernel drops everything at rate 0, and at the wrap the limiter's counter reads 0. */
  predicate Clash(cfg: Config, k: Kind, counter: Word)
  {
    cfg.enabled && (cfg.Of(k) == 0 || (cfg.Of(k) > 1 && counter == WRAP - 1 && (WRAP - 1) % cfg.Of(k) == 0))
  }

  lemma NextRemainder(c: nat, n: nat)
    requires n > 1
    ensures (c + 1) % n == 1 <==> c % n == 0
  {
    var q, r := c / n, c % n;
    assert c == n * q + r;
    if r + 1 < n {
      RemainderIs(c + 1, n, q, r + 1);
    } else {
      assert c + 1 == n * (q + 1) by { assert n * (q + 1) == n * q + n; }
      RemainderIs(c + 1, n, q + 1, 0);
    }
  }

  lemma RemainderIs(x: nat, n: nat, q: nat, r: nat)
    requires n > 0 && r < n && x == n * q + r
    ensures x % n == r && x / n == q
  {
    var d := q - x / n;
    assert n * d == n * q - n * (x / n);
    assert n * d == x % n - r;
    ProductNotSmall(n, d);
  }

  lemma ProductNotSmall(n: nat, d: int)
    ensures d >= 1 ==> n * d >= n
    ensures d <= -1 ==> n * d + n <= 0
  {
  }

  /** From equal counters the two samplers decide alike exactly outside the two exceptions. */
  lemma DecisionsAgreeIff(cfg: Config, k: Kind, counter: Word)
    ensures KernelPasses(cfg, k, counter) == LimiterPasses(cfg, k, counter) <==> !Clash(cfg, k, counter)
  {
    if Counts(cfg, k) {
      if counter == WRAP - 1 {
        assert Bump(counter) == 0;
      } else {
        assert Bump(counter) == counter + 1;
        NextRemainder(counter, cfg.Of(k));
      }
    }
  }

  /** For one of each: at rate 0 only the limiter passes, and at the wrap, at rate 3, only the kernel does. */
  lemma SamplersDiffer()
    ensures !KernelPasses(Config(0, 1, 1, true), Syscall, 0) && LimiterPasses(Config(0, 1, 1, true), Syscall, 0)
    ensures KernelPasses(Config(3, 1, 1, true), Syscall, WRAP - 1) && !LimiterPasses(Config(3, 1, 1, true), Syscall, WRAP - 1)
  {
    assert WRAP - 1 == 3 * 6148914691236517205;
  }

  datatype Op = Event(kind: Kind) | Switch(on: bool) | SetRates(syscall: Rate, network: Rate, file: Rate)

  /** The configuration and counters of one sampler. */
  datatype State = State(config: Config, counters: Counters)

  function Configured(s: State, o: Op): (r: State)
    requires !o.Event?
  {
    match o
    case Switch(on) => s.(config := s.config.(enabled := on))
    case SetRates(a, b, c) => s.(config := Config(a, b, c, s.config.enabled))
  }

  /** The kernel counts an event unless sampling is off, the rate is 0 or the rate is 1. */
  function KernelNext(s: State, o: Op): (r: State)
  {
    if !o.Event? then Configured(s, o)
    else if !s.config.enabled || s.config.Of(o.kind) == 0 || s.config.Of(o.kind) == 1 then s
    else s.(counters := s.counters.Bumped(o.kind))
  }

  /** The limiter counts an event unless it is off or the rate is at most 1. */
  function LimiterNext(s: State, o: Op): (r: State)
  {
    if !o.Event? then Configured(s, o)
    else if !s.config.enabled || s.config.Of(o.kind) <= 1 then s
    else s.(counters := s.counters.Bumped(o.kind))
  }

  function KernelRun(s: State, ops: seq<Op>): (r: State)
  {
    if ops == [] then s else KernelNext(KernelRun(s, ops[..|ops| - 1]), ops[|ops| - 1])
  }

  function LimiterRun(s: State, ops: seq<Op>): (r: State)
  {
    if ops == [] then s else LimiterNext(LimiterRun(s, ops[..|ops| - 1]), ops[|ops| - 1])
  }

  function KernelDecides(s: State, k: Kind): (pass: bool)
  {
    KernelPasses(s.config, k, s.counters.Of(k))
  }

  function LimiterDecides(s: State, k: Kind): (pass: bool)
  {
    LimiterPasses(s.config, k, s.counters.Of(k))
  }

  /** The kernel's decisions over a run, each from its own state. */
  function KernelDecisions(s: State, ops: seq<Op>): (ds: seq<bool>)
  {
    if ops == [] then []
    else
      var front, o := ops[..|ops| - 1], ops[|ops| - 1];
      KernelDecisions(s, front) + if o.Event? then [KernelDecides(KernelRun(s, front), o.kind)] else []
  }

  /** The limiter's decisions over a run, each from its own state. */
  function LimiterDecisions(s: State, ops: seq<Op>): (ds: seq<bool>)
  {
    if ops == [] then []
    else
      var front, o := ops[..|ops| - 1], ops[|ops| - 1];
      LimiterDecisions(s, front) + if o.Event? then [LimiterDecides(LimiterRun(s, front), o.kind)] else []
  }

  /** No event of the kernel's run meets an exception. */
  ghost predicate ClashFree(s: State, ops: seq<Op>)
  {
    ops != [] ==>
      var front, o := ops[..|ops| - 1], ops[|ops| - 1];
      var before := KernelRun(s, front);
      ClashFree(s, front) && (o.Event? ==> !Clash(before.config, o.kind, before.counters.Of(o.kind)))
  }

  /** The two machines stay in the same state, whatever they decide. */
  lemma {:induction false} MachinesStayEqual(s: State, ops: seq<Op>)
    ensures KernelRun(s, ops) == LimiterRun(s, ops)
    ensures |KernelDecisions(s, ops)| == |LimiterDecisions(s, ops)|
  {
    if ops != [] {
      MachinesStayEqual(s, ops[..|ops| - 1]);
    }
  }

  /** Over every run of events, switches and rate changes the two samplers, started alike, decide alike, event
      by event, exactly when no event meets an exception. */
  lemma {:induction false} RunsAgreeIff(s: State, ops: seq<Op>)
    ensures KernelDecisions(s, ops) == LimiterDecisions(s, ops) <==> ClashFree(s, ops)
  {
    if ops != [] {
      var front, o := ops[..|ops| - 1], ops[|ops| - 1];
      RunsAgreeIff(s, front);
      MachinesStayEqual(s, front);
      var a, b := KernelDecisions(s, front), LimiterDecisions(s, front);
      if o.Event? {
        var before := KernelRun(s, front);
        DecisionsAgreeIff(before.config, o.kind, before.counters.Of(o.kind));
        SnocEqual(a, KernelDecides(before, o.kind), b, LimiterDecides(before, o.kind));
      } else {
        assert a + [] == a && b + [] == b;
      }
    }
  }

  lemma SnocEqual<T>(a: seq<T>, x: T, b: seq<T>, y: T)
    requires |a| == |b|
    ensures a + [x] == b + [y] <==> a == b && x == y
  {
    if a + [x] == b + [y] {
      assert a == (a + [x])[..|a|] && b == (b + [y])[..|b|];
      assert (a + [x])[|a|] == x && (b + [y])[|b|] == y;
    }
  }

  ghost predicate RatesFromOne(c: Config)
  {
    c.syscall >= 1 && c.network >= 1 && c.file >= 1
  }

  /** The events of one kind in a run. */
  function Events(ops: seq<Op>, k: Kind): (n: nat)
  {
    if ops == [] then 0 else Events(ops[..|ops| - 1], k) + if ops[|ops| - 1] == Event(k) then 1 else 0
  }

  /** With rates from 1 on and fewer events of each kind than its counter has room for, no event meets an exception. */
  lemma {:induction false} OrdinaryRunsAgree(s: State, ops: seq<Op>)
    requires RatesFromOne(s.config)
    requires forall i :: 0 <= i < |ops| && ops[i].SetRates? ==>
      ops[i].syscall >= 1 && ops[i].network >= 1 && ops[i].file >= 1
    requires forall k: Kind :: s.counters.Of(k) + Events(ops, k) < WRAP
    ensures ClashFree(s, ops) && RatesFromOne(KernelRun(s, ops).config)
    ensures forall k: Kind :: KernelRun(s, ops).counters.Of(k) <= s.counters.Of(k) + Events(ops, k)
    decreases |ops|
  {
    if ops != [] {
      var front, o := ops[..|ops| - 1], ops[|ops| - 1];
      assert forall k: Kind :: Events(front, k) <= Events(ops, k);
      OrdinaryRunsAgree(s, front);
      if o.Event? {
        assert Events(ops, o.kind) == Events(front, o.kind) + 1;
      }
    }
  }

  // ------------------------------------------------------------------------ rates

  /** How many of m consecutive events the kernel passes at rate n, from counter value c on. */
  function Passed(n: nat, c: nat, m: nat): (p: nat)
    requires n > 0
    ensures p <= m
  {
    if m == 0 then 0 else Passed(n, c, m - 1) + if ((c + m - 1) % WRAP) % n == 0 then 1 else 0
  }

  lemma {:induction false} PassedSplit(n: nat, c: nat, a: nat, b: nat)
    requires n > 0
    ensures Passed(n, c, a + b) == Passed(n, c, a) + Passed(n, c + a, b)
    decreases b
  {
    if b > 0 {
      PassedSplit(n, c, a, b - 1);
    }
  }

  lemma {:induction false} PassedHit(n: nat, c: nat, m: nat, i: nat)
    requires n > 0 && i < m && ((c + i) % WRAP) % n == 0
    ensures Passed(n, c, m) >= 1
    decreases m
  {
    if i < m - 1 {
      PassedHit(n, c, m - 1, i);
    }
  }

  lemma NextMultiple(x: nat, n: nat)
    requires n > 0 && x % n != 0
    ensures (x + (n - x % n)) % n == 0
  {
    var q, r := x / n, x % n;
    assert x == n * q + r;
    assert n * (q + 1) == n * q + n;
    RemainderIs(x + (n - r), n, q + 1, 0);
  }

  lemma WrapsTo(c: nat, i: nat)
    requires c % WRAP + i <= WRAP
    ensures (c + i) % WRAP == if c % WRAP + i < WRAP then c % WRAP + i else 0
  {
  }

  /** n consecutive events hold at least one that passes, across the wrap too. */
  lemma WindowPasses(n: nat, c: nat)
    requires 0 < n < WRAP
    ensures Passed(n, c, n) >= 1
  {
    var x := c % WRAP;
    var r := x % n;
    var i := if r == 0 then 0 else if x + (n - r) <= WRAP then n - r else WRAP - x;
    WrapsTo(c, i);
    if r != 0 {
      NextMultiple(x, n);
    }
    assert ((c + i) % WRAP) % n == 0;
    PassedHit(n, c, n, i);
  }

  /** At least every n-th event passes, from any counter value and across the wrap. */
  lemma {:induction false} SamplingFloor(n: nat, c: nat, m: nat)
    requires 0 < n < WRAP
    ensures Passed(n, c, m) >= m / n
    decreases m
  {
    if m >= n {
      var rest := m - n;
      SamplingFloor(n, c + n, rest);
      assert Passed(n, c, m) >= 1 + Passed(n, c + n, rest) by {
        WindowPasses(n, c);
        PassedSplit(n, c, n, rest);
      }
      assert m / n == rest / n + 1 by {
        QuotientStep(m, n);
      }
    } else {
      RemainderIs(m, n, 0, m);
    }
  }

  lemma QuotientStep(m: nat, n: nat)
    requires 0 < n <= m
    ensures m / n == (m - n) / n + 1
  {
    var q, r := (m - n) / n, (m - n) % n;
    assert m - n == n * q + r;
    assert n * (q + 1) == n * q + n;
    RemainderIs(m, n, q + 1, r);
  }

  /** m / n rounded up. */
  function Ceiling(m: nat, n: nat): (r: nat)
    requires n > 0
  {
    (m + n - 1) / n
  }

  /** How many multiples of n lie in [c, c + m). */
  function Multiples(n: nat, c: nat, m: nat): (p: nat)
    requires n > 0
  {
    if m == 0 then 0 else Multiples(n, c, m - 1) + if (c + m - 1) % n == 0 then 1 else 0
  }

  lemma CeilingStep(x: nat, n: nat)
    requires n > 0
    ensures Ceiling(x + 1, n) == Ceiling(x, n) + if x % n == 0 then 1 else 0
  {
    var q, r := x / n, x % n;
    assert x == n * q + r;
    assert n * (q + 1) == n * q + n;
    RemainderIs(x + n, n, q + 1, r);
    if r == 0 {
      RemainderIs(x + n - 1, n, q, n - 1);
    } else {
      RemainderIs(x + n - 1, n, q + 1, r - 1);
    }
  }

  lemma {:induction false} MultiplesExact(n: nat, c: nat, m: nat)
    requires n > 0
    ensures Multiples(n, c, m) == Ceiling(c + m, n) - Ceiling(c, n)
    decreases m
  {
    if m > 0 {
      MultiplesExact(n, c, m - 1);
      CeilingStep(c + m - 1, n);
    }
  }

  lemma {:induction false} CeilingSubadditive(a: nat, b: nat, n: nat)
    requires n > 0
    ensures Ceiling(a + b, n) <= Ceiling(a, n) + Ceiling(b, n)
    decreases b
  {
    if b >= n {
      CeilingSubadditive(a, b - n, n);
      QuotientStep(a + b + n - 1, n);
      QuotientStep(b + n - 1, n);
    } else if b > 0 {
      CeilingMonotone(a + b, a + n, n);
      QuotientStep(a + n + n - 1, n);
      RemainderIs(b + n - 1, n, 1, b - 1);
    } else {
      RemainderIs(n - 1, n, 0, n - 1);
    }
  }

  lemma {:induction false} CeilingMonotone(a: nat, b: nat, n: nat)
    requires n > 0 && a <= b
    ensures Ceiling(a, n) <= Ceiling(b, n)
    decreases b - a
  {
    if a < b {
      CeilingMonotone(a, b - 1, n);
      CeilingStep(b - 1, n);
    }
  }

  lemma MultiplesAtMost(n: nat, c: nat, m: nat)
    requires n > 0
    ensures Multiples(n, c, m) <= Ceiling(m, n)
  {
    MultiplesExact(n, c, m);
    CeilingSubadditive(c, m, n);
  }

  lemma SmallModular(x: nat)
    requires x < WRAP
    ensures x % WRAP == x
  {
  }

  lemma NextModular(x: nat)
    ensures (x % WRAP + 1) % WRAP == (x + 1) % WRAP
  {
  }

  lemma {:induction false} PassedWithoutWrap(n: nat, c: nat, m: nat)
    requires n > 0 && c + m <= WRAP
    ensures Passed(n, c, m) == Multiples(n, c, m)
    decreases m
  {
    if m > 0 {
      PassedWithoutWrap(n, c, m - 1);
      SmallModular(c + m - 1);
    }
  }

  /** Before the counter wraps, no more than one event in n passes, rounded up. */
  lemma SamplingCeiling(n: nat, c: nat, m: nat)
    requires n > 0 && c + m <= WRAP
    ensures Passed(n, c, m) <= Ceiling(m, n)
  {
    PassedWithoutWrap(n, c, m);
    MultiplesAtMost(n, c, m);
  }

  lemma DividingWrap(n: nat, x: nat)
    requires n > 0 && WRAP % n == 0
    ensures (x % WRAP) % n == x % n
  {
    var k, q, y := WRAP / n, x / WRAP, x % WRAP;
    assert WRAP == n * k && x == WRAP * q + y;
    var p, r := y / n, y % n;
    assert y == n * p + r;
    assert x == n * (k * q + p) + r by {
      assert WRAP * q == n * (k * q) by { assert (n * k) * q == n * (k * q); }
      assert n * (k * q + p) == n * (k * q) + n * p;
    }
    RemainderIs(x, n, k * q + p, r);
  }

  lemma {:induction false} PassedWhenDividing(n: nat, c: nat, m: nat)
    requires n > 0 && WRAP % n == 0
    ensures Passed(n, c, m) == Multiples(n, c, m)
    decreases m
  {
    if m > 0 {
      PassedWhenDividing(n, c, m - 1);
      DividingWrap(n, c + m - 1);
    }
  }

  lemma PassesBeforeWrap(n: nat, q: nat, r: nat)
    requires 0 < r < n && WRAP == n * q + r
    ensures ((WRAP - r) % WRAP) % n == 0
  {
    SmallModular(WRAP - r);
    RemainderIs(WRAP - r, n, q, 0);
  }

  /** Two events around the wrap that both pass although fewer than n events lie between them. */
  lemma WrapOvershoots(n: nat, q: nat, r: nat)
    requires 0 < r < n && WRAP == n * q + r
    ensures Passed(n, WRAP - r, r + 1) > Ceiling(r + 1, n)
  {
    var c := WRAP - r;
    PassesBeforeWrap(n, q, r);
    PassedHit(n, c, r, 0);
    PassesAtWrap(n);
    PassedSplit(n, c, r, 1);
    RemainderIs(r + n, n, 1, r);
  }

  lemma PassesAtWrap(n: nat)
    requires n > 0
    ensures Passed(n, WRAP, 1) == 1
  {
    assert (WRAP + 1 - 1) % WRAP == 0;
    assert Passed(n, WRAP, 0) == 0;
  }

  /** The upper bound holds for all counter values and run lengths exactly when n divides 2^64. */
  lemma SamplingCeilingIff(n: nat)
    requires 1 < n < WRAP
    ensures (forall c: nat, m: nat :: Passed(n, c, m) <= Ceiling(m, n)) <==> WRAP % n == 0
  {
    if WRAP % n == 0 {
      forall c: nat, m: nat
        ensures Passed(n, c, m) <= Ceiling(m, n)
      {
        PassedWhenDividing(n, c, m);
        MultiplesAtMost(n, c, m);
      }
    } else {
      WrapOvershoots(n, WRAP / n, WRAP % n);
    }
  }
}
