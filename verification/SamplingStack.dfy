/** From channel load to sampled events: the load controller, the configuration it writes and the kernel sampler. */
module SamplingStack {
  import opened Sampler
  import opened LoadControl
  import opened Wrappers

  /** A configuration with the rate of one kind replaced and sampling switched on. */
  function WithRate(cfg: Config, k: Kind, n: Rate): (r: Config)
    ensures r.enabled && forall j: Kind :: r.Of(j) == if j == k then n else cfg.Of(j)
  {
    match k
    case Syscall => cfg.(syscall := n, enabled := true)
    case Network => cfg.(network := n, enabled := true)
    case File => cfg.(file := n, enabled := true)
  }

  /** The machine's conversion of a float to a 32-bit unsigned integer: exact where the value fits, anything else
      where it does not. */
  ghost predicate Converts(convert: real -> Rate)
  {
    forall x: real :: 0.0 <= x < 4294967296.0 ==> convert(x) == x.Floor
  }

  function Quantised(rate: real, convert: real -> Rate): (n: Rate)
  {
    if rate <= 0.0 then 0
    else if rate >= 1.0 then 1
    else
      var n := convert(1.0 / rate);
      if n < 1 then 1 else n
  }

  lemma QuantisedIsDivisor(rate: real, convert: real -> Rate)
    requires Converts(convert) && Expressible(rate)
    ensures Quantised(rate, convert) == Divisor(rate)
  {
    DivisorFits(rate);
    if 0.0 < rate < 1.0 {
      InverseBounds(rate);
      InverseFits(rate, 1.0 / rate);
    }
  }

  lemma InverseFits(r: real, s: real)
    requires r > 0.0 && r * s == 1.0 && r * 4294967296.0 > 1.0
    ensures s < 4294967296.0
  {
    assert r * (4294967296.0 - s) > 0.0;
    SameSign(4294967296.0 - s, r);
  }

  /** The configuration after pushing a rate table of which some writes fail. */
  function Push(cfg: Config, rates: map<Kind, real>, fails: set<Kind>, convert: real -> Rate): (r: Config)
  {
    Config(PushOne(cfg, rates, fails, convert, Syscall), PushOne(cfg, rates, fails, convert, Network),
           PushOne(cfg, rates, fails, convert, File), cfg.enabled || rates.Keys - fails != {})
  }

  function PushOne(cfg: Config, rates: map<Kind, real>, fails: set<Kind>, convert: real -> Rate, k: Kind): (n: Rate)
  {
    if k in rates && k !in fails then Quantised(rates[k], convert) else cfg.Of(k)
  }

  class SamplingController {
    const convert: real -> Rate
    var config: Config
    /** What the kernel sees. */
    var kernel: Config

    /** Once a write has succeeded, the kernel sees the stored configuration. */
    ghost predicate Valid()
      reads this
    {
      InStep(config, kernel) && Converts(convert)
    }

    constructor (convert: real -> Rate)
      requires Converts(convert)
      ensures Valid() && config == Config(1, 1, 1, false) && kernel == Config(0, 0, 0, false)
      ensures this.convert == convert
    {
      this.convert := convert;
      config, kernel := Config(1, 1, 1, false), Config(0, 0, 0, false);
    }

    method UpdateConfig(cfg: Config, fails: bool) returns (ok: bool)
      modifies this
      ensures ok == !fails
      ensures config == if ok then cfg else old(config)
      ensures kernel == if ok then cfg else old(kernel)
    {
      if fails {
        return false;
      }
      kernel := cfg;
      config := cfg;
      return true;
    }

    /** Turns a rate into a divisor and writes it; a kind nobody knows is an error. */
    method SetSamplingRate(kind: Option<Kind>, rate: real, fails: bool) returns (ok: bool)
      requires Valid()
      modifies this
      ensures Valid() && ok == (kind.Some? && !fails)
      ensures config == if ok then WithRate(old(config), kind.value, Quantised(rate, convert)) else old(config)
    {
      var sampleRate: Rate;
      if rate <= 0.0 {
        sampleRate := 0;
      } else if rate >= 1.0 {
        sampleRate := 1;
      } else {
        sampleRate := convert(1.0 / rate);
        if sampleRate < 1 {
          sampleRate := 1;
        }
      }
      if kind.None? {
        return false;
      }
      ok := UpdateConfig(WithRate(config, kind.value, sampleRate), fails);
    }

    method Enable(fails: bool) returns (ok: bool)
      requires Valid()
      modifies this
      ensures Valid() && ok == !fails
      ensures config == if ok then old(config).(enabled := true) else old(config)
    {
      ok := UpdateConfig(config.(enabled := true), fails);
    }

    method Disable(fails: bool) returns (ok: bool)
      requires Valid()
      modifies this
      ensures Valid() && ok == !fails
      ensures config == if ok then old(config).(enabled := false) else old(config)
    {
      ok := UpdateConfig(config.(enabled := false), fails);
    }
  }

  /** The kernel has the stored configuration, or both have sampling off. */
  ghost predicate InStep(config: Config, kernel: Config)
  {
    config.enabled == kernel.enabled && (kernel.enabled ==> kernel == config)
  }

  /** So the kernel decides by the stored configuration. */
  lemma KernelDecidesByConfig(config: Config, kernel: Config, k: Kind, counter: Word)
    requires InStep(config, kernel)
    ensures KernelPasses(kernel, k, counter) == KernelPasses(config, k, counter)
    ensures Counts(kernel, k) == Counts(config, k)
  {
  }

  class RingBufLoadController {
    const cfg: LoadConfig
    const ctrl: SamplingController
    var level: Level
    var rates: map<Kind, real>

    /** The stored rates are the table of the current level. */
    ghost predicate Valid()
      reads this, ctrl
    {
      ctrl.Valid() && rates == Table(cfg, level)
    }

    constructor (cfg: LoadConfig, ctrl: SamplingController)
      requires ctrl.Valid()
      ensures Valid() && this.cfg == cfg && this.ctrl == ctrl && level == Normal
    {
      this.cfg, this.ctrl, level := cfg, ctrl, Normal;
      rates := map[Syscall := 1.0, File := 1.0, Network := 1.0];
    }

    /** Stores and pushes a table, in some order; a failed write is only logged. */
    method ApplyRates(table: map<Kind, real>, fails: set<Kind>)
      requires ctrl.Valid()
      modifies this`rates, ctrl
      ensures ctrl.Valid()
      ensures rates == old(rates) + table
      ensures ctrl.config == Push(old(ctrl.config), table, fails, ctrl.convert)
    {
      ghost var was, had := ctrl.config, rates;
      var todo := table.Keys;
      while todo != {}
        invariant todo <= table.Keys && ctrl.Valid()
        invariant rates == had + (table - todo)
        invariant ctrl.config == Push(was, table - todo, fails, ctrl.convert)
      {
        var k :| k in todo;
        ghost var before := table - todo;
        todo := todo - {k};
        assert table - todo == before[k := table[k]];
        rates := rates[k := table[k]];
        var _ := ctrl.SetSamplingRate(Some(k), table[k], k in fails);
        PushMore(was, before, k, table[k], fails, ctrl.convert);
      }
      assert table - {} == table;
    }

    /** One tick of the control loop. */
    method Check(fill: real, fails: set<Kind>)
      requires Valid()
      modifies this`level, this`rates, ctrl
      ensures Valid()
      ensures level == NextLevel(cfg, old(level), fill)
      ensures ctrl.config == if level == old(level) then old(ctrl.config)
        else Push(old(ctrl.config), Table(cfg, level), fails, ctrl.convert)
    {
      var next := level;
      match level {
        case Normal =>
          if fill >= cfg.criticalAt {
            next := Critical;
          } else if fill >= cfg.degradedAt {
            next := Degraded;
          }
        case Degraded =>
          if fill >= cfg.criticalAt {
            next := Critical;
          } else if fill < cfg.recoverAt {
            next := Normal;
          }
        case Critical =>
          if fill < cfg.recoverAt {
            next := Normal;
          }
      }
      if next != level {
        EnterLevel(next, fails);
      }
    }

    method EnterLevel(next: Level, fails: set<Kind>)
      requires Valid()
      modifies this`level, this`rates, ctrl
      ensures Valid() && level == next
      ensures ctrl.config == Push(old(ctrl.config), Table(cfg, next), fails, ctrl.convert)
    {
      level := next;
      ApplyRates(Table(cfg, next), fails);
      assert rates == Table(cfg, next);
    }

    /** Shutdown: back to full rates, unless already there. */
    method Restore(fails: set<Kind>)
      requires Valid()
      modifies this`level, this`rates, ctrl
      ensures Valid() && level == Normal
      ensures old(level) == Normal ==> ctrl.config == old(ctrl.config)
      ensures old(level) != Normal ==> ctrl.config == Push(old(ctrl.config), Table(cfg, Normal), fails, ctrl.convert)
    {
      if level == Normal {
        return;
      }
      EnterLevel(Normal, fails);
    }

    method EWMAScaleFactor(k: Kind) returns (f: real)
      requires Valid()
      ensures f == ScaleFactor(TableRate(cfg, level, k))
    {
      if k !in rates || rates[k] <= 0.0 || rates[k] >= 1.0 {
        return 1.0;
      }
      return 1.0 / rates[k];
    }
  }

  lemma PushMore(was: Config, before: map<Kind, real>, k: Kind, rate: real, fails: set<Kind>, convert: real -> Rate)
    requires k !in before
    ensures Push(was, before[k := rate], fails, convert) ==
      if k in fails then Push(was, before, fails, convert)
      else WithRate(Push(was, before, fails, convert), k, Quantised(rate, convert))
  {
    assert before[k := rate].Keys == before.Keys + {k};
    if k in fails {
      assert before[k := rate].Keys - fails == before.Keys - fails;
    } else {
      assert k in before[k := rate].Keys - fails;
    }
  }

  /** The divisor that entering a level writes for a kind. */
  function RateAt(cfg: LoadConfig, level: Level, k: Kind, convert: real -> Rate): (n: Rate)
  {
    Quantised(TableRate(cfg, level, k), convert)
  }

  /** Entering a level gives each kind whose write succeeds its divisor, and any success switches sampling on. */
  lemma PushOf(was: Config, cfg: LoadConfig, level: Level, fails: set<Kind>, convert: real -> Rate, k: Kind)
    ensures var r := Push(was, Table(cfg, level), fails, convert);
      && r.Of(k) == (if k in fails then was.Of(k) else RateAt(cfg, level, k, convert))
      && r.enabled == (was.enabled || SomeWrite(fails))
  {
    assert k in Table(cfg, level);
    var left := Table(cfg, level).Keys - fails;
    assert left != {} <==> Syscall in left || Network in left || File in left by {
      assert forall j :: j in left ==> j == Syscall || j == Network || j == File;
    }
  }

  /** The write for some kind succeeds. */
  predicate SomeWrite(fails: set<Kind>)
  {
    Syscall !in fails || Network !in fails || File !in fails
  }

  // -------------------------------------------------------------------- whole runs

  /** A tick of the controller or its shutdown, with the kinds whose writes would fail, sampling switched on or off
      by hand, or an event. */
  datatype Op =
    | Tick(fill: real, fails: set<Kind>)
    | Restore(fails: set<Kind>)
    | Switch(on: bool, failed: bool)
    | Occur(kind: Kind)

  /** The level, the stored configuration, by which the kernel decides, and the counters. */
  datatype Stack = Stack(level: Level, config: Config, counters: Counters)

  function Start(): Stack
  {
    Stack(Normal, Config(1, 1, 1, false), Counters(0, 0, 0))
  }

  /** A change of level pushes its table; staying at a level does nothing. */
  function Enter(cfg: LoadConfig, convert: real -> Rate, s: Stack, next: Level, fails: set<Kind>): (r: Stack)
  {
    if next == s.level then s else s.(level := next, config := Push(s.config, Table(cfg, next), fails, convert))
  }

  function Step(cfg: LoadConfig, convert: real -> Rate, s: Stack, o: Op): (r: Stack)
  {
    match o
    case Tick(fill, fails) => Enter(cfg, convert, s, NextLevel(cfg, s.level, fill), fails)
    case Restore(fails) => Enter(cfg, convert, s, Normal, fails)
    case Switch(on, failed) => if failed then s else s.(config := s.config.(enabled := on))
    case Occur(k) =>
      if Counts(s.config, k) then s.(counters := s.counters.Bumped(k)) else s
  }

  function After(cfg: LoadConfig, convert: real -> Rate, s: Stack, ops: seq<Op>): (r: Stack)
  {
    if ops == [] then s else Step(cfg, convert, After(cfg, convert, s, ops[..|ops| - 1]), ops[|ops| - 1])
  }

  /** The load samples since the last shutdown. */
  function Fills(ops: seq<Op>): (fs: seq<real>)
  {
    if ops == [] then []
    else
      var front, o := ops[..|ops| - 1], ops[|ops| - 1];
      match o
      case Tick(fill, _) => Fills(front) + [fill]
      case Restore(_) => []
      case _ => Fills(front)
  }

  /** Events of kind k in a run, and how many of them the kernel passes. */
  function Occurred(ops: seq<Op>, k: Kind): (n: nat)
  {
    if ops == [] then 0 else Occurred(ops[..|ops| - 1], k) + if ops[|ops| - 1] == Occur(k) then 1 else 0
  }

  function Kept(cfg: LoadConfig, convert: real -> Rate, s: Stack, ops: seq<Op>, k: Kind): (n: nat)
  {
    if ops == [] then 0
    else
      var before := After(cfg, convert, s, ops[..|ops| - 1]);
      Kept(cfg, convert, s, ops[..|ops| - 1], k) +
      if ops[|ops| - 1] == Occur(k) && KernelPasses(before.config, k, before.counters.Of(k)) then 1 else 0
  }

  /** The level after a run, from the load samples alone. */
  function LevelOf(cfg: LoadConfig, ops: seq<Op>): (level: Level)
  {
    LevelAfter(cfg, Fills(ops))
  }

  /** The step o after front changes the level, with these failing writes. */
  predicate Entering(cfg: LoadConfig, front: seq<Op>, o: Op)
  {
    (o.Tick? || o.Restore?) && LevelOf(cfg, front + [o]) != LevelOf(cfg, front)
  }

  /** The level whose divisor a kind got last: that of the last change of level whose write for it succeeded. */
  function LastWritten(cfg: LoadConfig, ops: seq<Op>, k: Kind): (level: Level)
  {
    if ops == [] then Normal
    else
      var front, o := ops[..|ops| - 1], ops[|ops| - 1];
      if Entering(cfg, front, o) && k !in o.fails then LevelOf(cfg, front + [o]) else LastWritten(cfg, front, k)
  }

  /** Whether sampling is on: the last successful write of a rate or switch by hand decides. */
  function SwitchedOn(cfg: LoadConfig, ops: seq<Op>): (on: bool)
  {
    if ops == [] then false
    else
      var front, o := ops[..|ops| - 1], ops[|ops| - 1];
      if Entering(cfg, front, o) && SomeWrite(o.fails) then true
      else if o.Switch? && !o.failed then o.on
      else SwitchedOn(cfg, front)
  }

  lemma LevelSnoc(cfg: LoadConfig, front: seq<Op>, o: Op)
    ensures LevelOf(cfg, front + [o]) ==
      match o
      case Tick(fill, _) => NextLevel(cfg, LevelOf(cfg, front), fill)
      case Restore(_) => Normal
      case _ => LevelOf(cfg, front)
  {
    assert (front + [o])[..|front|] == front;
    if o.Tick? {
      assert (Fills(front) + [o.fill])[..|Fills(front)|] == Fills(front);
    }
  }

  /** After any history of load, shutdowns, switches and events, with any failing writes, the level is that of the
      load since the last shutdown, each kind has the divisor it got last, and sampling is on or off as the last
      successful write says. */
  lemma {:induction false} StackFollowsLoad(cfg: LoadConfig, convert: real -> Rate, ops: seq<Op>, k: Kind)
    ensures After(cfg, convert, Start(), ops).level == LevelOf(cfg, ops)
    ensures After(cfg, convert, Start(), ops).config.Of(k) == RateAt(cfg, LastWritten(cfg, ops, k), k, convert)
    ensures After(cfg, convert, Start(), ops).config.enabled == SwitchedOn(cfg, ops)
    decreases |ops|
  {
    if ops != [] {
      var front, o := ops[..|ops| - 1], ops[|ops| - 1];
      var before := After(cfg, convert, Start(), front);
      StackFollowsLoad(cfg, convert, front, k);
      assert front + [o] == ops;
      LevelSnoc(cfg, front, o);
      if o.Tick? || o.Restore? {
        PushOf(before.config, cfg, LevelOf(cfg, ops), o.fails, convert, k);
      }
    }
  }

  /** A divisor is that of a configured rate between the floor and 1, of the floor below it and of 1 above 1. */
  ghost predicate DivisorFollows(n: Rate, rate: real, min: real, convert: real -> Rate)
  {
    && (0.0 <= rate && min <= rate <= 1.0 ==> n == Quantised(rate, convert))
    && (0.0 < min && rate < min ==> n == Quantised(min, convert))
    && (rate > 1.0 && min <= 1.0 ==> n == 1)
  }

  /** End to end: a sample that takes the stack into Critical, from any state and with no failing write, gives each
      kind the divisor of its configured critical rate and switches sampling on. */
  lemma CriticalApplied(cfg: LoadConfig, convert: real -> Rate, s: Stack, fill: real)
    requires s.level != Critical && fill >= cfg.criticalAt
    ensures var r := Step(cfg, convert, s, Tick(fill, {}));
      && r.level == Critical && r.config.enabled && r.counters == s.counters
      && DivisorFollows(r.config.syscall, cfg.syscallCritical, cfg.minSyscall, convert)
      && DivisorFollows(r.config.file, cfg.fileCritical, cfg.minFile, convert)
      && DivisorFollows(r.config.network, cfg.networkCritical, cfg.minNetwork, convert)
  {
    TransitionsIff(cfg, fill);
    EnteredApplies(cfg, convert, s, Critical);
  }

  /** And one that takes it into Degraded: the configured degraded rates, and every network event. */
  lemma DegradedApplied(cfg: LoadConfig, convert: real -> Rate, s: Stack, fill: real)
    requires s.level == Normal && cfg.degradedAt <= fill < cfg.criticalAt
    ensures var r := Step(cfg, convert, s, Tick(fill, {}));
      && r.level == Degraded && r.config.enabled && r.counters == s.counters
      && DivisorFollows(r.config.syscall, cfg.syscallDegraded, cfg.minSyscall, convert)
      && DivisorFollows(r.config.file, cfg.fileDegraded, cfg.minFile, convert)
      && r.config.network == 1
  {
    TransitionsIff(cfg, fill);
    EnteredApplies(cfg, convert, s, Degraded);
  }

  /** Recovery and shutdown without failing writes give every kind divisor 1. */
  lemma NormalApplied(cfg: LoadConfig, convert: real -> Rate, s: Stack, fill: real)
    requires s.level != Normal
    ensures Step(cfg, convert, s, Restore({})).config == Config(1, 1, 1, true)
    ensures fill < cfg.recoverAt && (s.level == Critical || fill < cfg.criticalAt) ==>
      Step(cfg, convert, s, Tick(fill, {})) == s.(level := Normal, config := Config(1, 1, 1, true))
  {
    TransitionsIff(cfg, fill);
    EnteredApplies(cfg, convert, s, Normal);
  }

  lemma EnteredApplies(cfg: LoadConfig, convert: real -> Rate, s: Stack, next: Level)
    requires next != s.level
    ensures var r := Enter(cfg, convert, s, next, {});
      && r.level == next && r.counters == s.counters && r.config.enabled
      && r.config.syscall == Quantised(TableRate(cfg, next, Syscall), convert)
      && r.config.network == Quantised(TableRate(cfg, next, Network), convert)
      && r.config.file == Quantised(TableRate(cfg, next, File), convert)
    ensures Follows(TableRate(cfg, Degraded, Syscall), cfg.syscallDegraded, cfg.minSyscall)
    ensures Follows(TableRate(cfg, Degraded, File), cfg.fileDegraded, cfg.minFile)
    ensures Follows(TableRate(cfg, Critical, Syscall), cfg.syscallCritical, cfg.minSyscall)
    ensures Follows(TableRate(cfg, Critical, File), cfg.fileCritical, cfg.minFile)
    ensures Follows(TableRate(cfg, Critical, Network), cfg.networkCritical, cfg.minNetwork)
  {
    PushOf(s.config, cfg, next, {}, convert, Syscall);
    PushOf(s.config, cfg, next, {}, convert, Network);
    PushOf(s.config, cfg, next, {}, convert, File);
    TableFollowsConfig(cfg);
  }

  /** Without failing writes for a kind its divisor is that of the current level. */
  lemma {:induction false} WrittenIsCurrent(cfg: LoadConfig, ops: seq<Op>, k: Kind)
    requires forall i :: 0 <= i < |ops| && (ops[i].Tick? || ops[i].Restore?) ==> k !in ops[i].fails
    ensures LastWritten(cfg, ops, k) == LevelOf(cfg, ops)
    decreases |ops|
  {
    if ops != [] {
      var front, o := ops[..|ops| - 1], ops[|ops| - 1];
      WrittenIsCurrent(cfg, front, k);
      assert front + [o] == ops;
      LevelSnoc(cfg, front, o);
    }
  }

  /** Neither the level nor the switch changes during the run. */
  ghost predicate Steady(cfg: LoadConfig, convert: real -> Rate, s: Stack, ops: seq<Op>)
  {
    ops != [] ==>
      && Steady(cfg, convert, s, ops[..|ops| - 1])
      && After(cfg, convert, s, ops).level == s.level && After(cfg, convert, s, ops).config.enabled == s.config.enabled
  }

  lemma {:induction false} SteadyLevel(cfg: LoadConfig, convert: real -> Rate, s: Stack, ops: seq<Op>)
    requires Steady(cfg, convert, s, ops)
    ensures After(cfg, convert, s, ops).level == s.level && After(cfg, convert, s, ops).config.enabled == s.config.enabled
  {
  }

  lemma {:induction false} SteadyConfig(cfg: LoadConfig, convert: real -> Rate, s: Stack, ops: seq<Op>)
    requires Steady(cfg, convert, s, ops)
    ensures After(cfg, convert, s, ops).config == s.config
    decreases |ops|
  {
    if ops != [] {
      SteadyLevel(cfg, convert, s, ops[..|ops| - 1]);
      SteadyConfig(cfg, convert, s, ops[..|ops| - 1]);
    }
  }

  lemma {:induction false} SteadyAll(cfg: LoadConfig, convert: real -> Rate, s: Stack, ops: seq<Op>, k: Kind)
    requires Steady(cfg, convert, s, ops) && !Counts(s.config, k) && (s.config.enabled ==> s.config.Of(k) >= 1)
    ensures Kept(cfg, convert, s, ops, k) == Occurred(ops, k)
    decreases |ops|
  {
    if ops != [] {
      SteadyConfig(cfg, convert, s, ops[..|ops| - 1]);
      SteadyAll(cfg, convert, s, ops[..|ops| - 1], k);
    }
  }

  lemma {:induction false} SteadyNone(cfg: LoadConfig, convert: real -> Rate, s: Stack, ops: seq<Op>, k: Kind)
    requires Steady(cfg, convert, s, ops) && s.config.enabled && s.config.Of(k) == 0
    ensures Kept(cfg, convert, s, ops, k) == 0
    decreases |ops|
  {
    if ops != [] {
      SteadyConfig(cfg, convert, s, ops[..|ops| - 1]);
      SteadyNone(cfg, convert, s, ops[..|ops| - 1], k);
    }
  }

  /** The counter after m increments. */
  function Advanced(c: Word, m: nat): (r: Word)
  {
    if m == 0 then c else Bump(Advanced(c, m - 1))
  }

  lemma {:induction false} AdvancedModular(c: Word, m: nat)
    ensures Advanced(c, m) == (c + m) % WRAP
  {
    if m == 0 {
      SmallModular(c);
    } else {
      AdvancedModular(c, m - 1);
      NextModular(c + m - 1);
    }
  }

  /** One more event passes when the counter, around the wrap, says so. */
  lemma OneSampled(s: Stack, k: Kind, c: Word, m: nat)
    requires Counts(s.config, k) && s.counters.Of(k) == Advanced(c, m)
    ensures Passed(s.config.Of(k), c, m + 1) ==
      Passed(s.config.Of(k), c, m) + if KernelPasses(s.config, k, s.counters.Of(k)) then 1 else 0
  {
    AdvancedModular(c, m);
  }

  lemma OthersUncounted(cfg: LoadConfig, convert: real -> Rate, s: Stack, o: Op, k: Kind)
    requires o != Occur(k)
    ensures Step(cfg, convert, s, o).counters.Of(k) == s.counters.Of(k)
  {
  }

  lemma {:induction false} SteadyCounter(cfg: LoadConfig, convert: real -> Rate, s: Stack, ops: seq<Op>, k: Kind)
    requires Steady(cfg, convert, s, ops) && Counts(s.config, k)
    ensures After(cfg, convert, s, ops).counters.Of(k) == Advanced(s.counters.Of(k), Occurred(ops, k))
    decreases |ops|
  {
    if ops != [] {
      var front, o := ops[..|ops| - 1], ops[|ops| - 1];
      SteadyConfig(cfg, convert, s, front);
      SteadyCounter(cfg, convert, s, front, k);
      if o != Occur(k) {
        OthersUncounted(cfg, convert, After(cfg, convert, s, front), o, k);
      }
    }
  }

  /** While the level is steady, one kind's events are sampled by its own counter at one divisor. */
  lemma {:induction false} SteadySampled(cfg: LoadConfig, convert: real -> Rate, s: Stack, ops: seq<Op>, k: Kind)
    requires Steady(cfg, convert, s, ops) && Counts(s.config, k)
    ensures Kept(cfg, convert, s, ops, k) == Passed(s.config.Of(k), s.counters.Of(k), Occurred(ops, k))
    decreases |ops|
  {
    if ops != [] {
      var front, o := ops[..|ops| - 1], ops[|ops| - 1];
      SteadyConfig(cfg, convert, s, front);
      SteadyCounter(cfg, convert, s, front, k);
      SteadySampled(cfg, convert, s, front, k);
      if o == Occur(k) {
        OneSampled(After(cfg, convert, s, front), k, s.counters.Of(k), Occurred(front, k));
      }
    }
  }

  lemma FloorOfProduct(m: nat, min: real, n: nat)
    requires 0.0 < min && n >= 1 && min * (n as real) <= 1.0
    ensures (m as real * min).Floor <= m / n
  {
    var x, q := m as real * min, m / n;
    assert m < n * (q + 1);
    assert (m as real) < (n as real) * (q as real + 1.0);
    ScaleDown(m as real, min, n as real, q as real + 1.0);
    assert x < q as real + 1.0;
  }

  lemma ScaleDown(m: real, min: real, n: real, b: real)
    requires m < n * b && 0.0 < min && min * n <= 1.0 && b > 0.0
    ensures m * min < b
  {
    var p := n * b;
    assert m * min < p * min;
    assert p * min == (min * n) * b;
    assert (min * n) * b <= b;
  }

  /** End to end: after any load history and any failing writes, while the level is steady, of m events of a
      kind at least floor(m * min) pass, whatever the counter value. */
  lemma SamplingFloorEndToEnd(cfg: LoadConfig, convert: real -> Rate, history: seq<Op>, ops: seq<Op>, k: Kind)
    requires Converts(convert) && 0.0 < MinRate(cfg, k) <= 1.0
    requires Steady(cfg, convert, After(cfg, convert, Start(), history), ops)
    ensures Kept(cfg, convert, After(cfg, convert, Start(), history), ops, k) >= Guaranteed(Occurred(ops, k), MinRate(cfg, k))
  {
    var s := After(cfg, convert, Start(), history);
    StackFollowsLoad(cfg, convert, history, k);
    KeptFloor(cfg, convert, s, ops, k, LastWritten(cfg, history, k));
  }

  /** The least number of m events that a floor of min guarantees. */
  function Guaranteed(m: nat, min: real): (n: int)
  {
    (m as real * min).Floor
  }

  lemma DivisorCovers(r: real, min: real)
    requires Fine(r) && 0.0 < min <= r
    ensures 1 <= Divisor(r) < 0x1_0000_0000 && min * (Divisor(r) as real) <= 1.0
  {
    DivisorBounds(r);
    Smaller(min, r, Divisor(r) as real);
  }

  lemma PassedFloor(n: nat, min: real, c: nat, m: nat)
    requires 1 <= n < 0x1_0000_0000 && 0.0 < min && min * (n as real) <= 1.0
    ensures Passed(n, c, m) >= Guaranteed(m, min)
  {
    SamplingFloor(n, c, m);
    FloorOfProduct(m, min, n);
  }

  lemma FloorBelow(m: nat, min: real)
    requires 0.0 < min <= 1.0
    ensures Guaranteed(m, min) <= m
  {
    assert m as real * (1.0 - min) >= 0.0;
  }

  /** Whatever the machine makes of a quotient beyond 32 bits, the divisor of a rate from min on guarantees min. */
  lemma DivisorGuarantees(r: real, min: real, convert: real -> Rate, c: nat, m: nat)
    requires Converts(convert) && 0.0 < min <= r <= 1.0
    ensures Quantised(r, convert) >= 1 && Passed(Quantised(r, convert), c, m) >= Guaranteed(m, min)
  {
    var n := Quantised(r, convert);
    if Fine(r) {
      QuantisedIsDivisor(r, convert);
      DivisorCovers(r, min);
    } else {
      assert min * 4294967296.0 <= r * 4294967296.0 <= 1.0;
      Smaller(n as real, 4294967296.0, min);
    }
    PassedFloor(n, min, c, m);
  }

  lemma KeptFloor(cfg: LoadConfig, convert: real -> Rate, s: Stack, ops: seq<Op>, k: Kind, level: Level)
    requires Converts(convert) && 0.0 < MinRate(cfg, k) <= 1.0
    requires s.config.Of(k) == RateAt(cfg, level, k, convert) && Steady(cfg, convert, s, ops)
    ensures Kept(cfg, convert, s, ops, k) >= Guaranteed(Occurred(ops, k), MinRate(cfg, k))
  {
    DivisorGuarantees(TableRate(cfg, level, k), MinRate(cfg, k), convert, s.counters.Of(k), Occurred(ops, k));
    if Counts(s.config, k) {
      SteadySampled(cfg, convert, s, ops, k);
    } else {
      SteadyAll(cfg, convert, s, ops, k);
      FloorBelow(Occurred(ops, k), MinRate(cfg, k));
    }
  }

  lemma Smaller(min: real, r: real, x: real)
    requires min <= r && x >= 0.0 && r * x <= 1.0
    ensures min * x <= 1.0
  {
    assert (r - min) * x >= 0.0;
  }

  /** The divisor in force: 1 while sampling is off, and otherwise the one the kind got last. */
  function InForce(cfg: LoadConfig, convert: real -> Rate, ops: seq<Op>, k: Kind): (n: Rate)
  {
    if SwitchedOn(cfg, ops) then RateAt(cfg, LastWritten(cfg, ops, k), k, convert) else 1
  }

  /** And no more than one in N pass, rounded up, until the counter wraps, N being the divisor in force; none pass if
      that is 0. */
  lemma SamplingCeilingEndToEnd(cfg: LoadConfig, convert: real -> Rate, history: seq<Op>, ops: seq<Op>, k: Kind)
    requires Steady(cfg, convert, After(cfg, convert, Start(), history), ops)
    requires After(cfg, convert, Start(), history).counters.Of(k) + Occurred(ops, k) <= WRAP
    ensures var n, kept := InForce(cfg, convert, history, k),
        Kept(cfg, convert, After(cfg, convert, Start(), history), ops, k);
      if n == 0 then kept == 0 else kept <= Ceiling(Occurred(ops, k), n)
  {
    StackFollowsLoad(cfg, convert, history, k);
    KeptCeiling(cfg, convert, After(cfg, convert, Start(), history), ops, k);
  }

  /** The divisor by which a configuration samples a kind. */
  function SamplesBy(cfg: Config, k: Kind): (n: Rate)
  {
    if cfg.enabled then cfg.Of(k) else 1
  }

  lemma KeptCeiling(cfg: LoadConfig, convert: real -> Rate, s: Stack, ops: seq<Op>, k: Kind)
    requires Steady(cfg, convert, s, ops) && s.counters.Of(k) + Occurred(ops, k) <= WRAP
    ensures var n, kept := SamplesBy(s.config, k), Kept(cfg, convert, s, ops, k);
      if n == 0 then kept == 0 else kept <= Ceiling(Occurred(ops, k), n)
  {
    if Counts(s.config, k) {
      SteadySampled(cfg, convert, s, ops, k);
      SamplingCeiling(s.config.Of(k), s.counters.Of(k), Occurred(ops, k));
    } else if SamplesBy(s.config, k) == 0 {
      SteadyNone(cfg, convert, s, ops, k);
    } else {
      SteadyAll(cfg, convert, s, ops, k);
      CeilingOne(Occurred(ops, k));
    }
  }

  lemma CeilingOne(m: nat)
    ensures Ceiling(m, 1) == m
  {
  }
}
