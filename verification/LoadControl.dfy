/** Load-driven sampling: the level state machine, the rate table of each level and the kernel configuration. */
module LoadControl {
  import opened Sampler

  datatype Level = Normal | Degraded | Critical

  /** Thresholds on the channel fill ratio, rates per level and floors per kind. */
  datatype LoadConfig = LoadConfig(
    degradedAt: real, criticalAt: real, recoverAt: real,
    syscallDegraded: real, syscallCritical: real, fileDegraded: real, fileCritical: real, networkCritical: real,
    minSyscall: real, minFile: real, minNetwork: real)

  // ------------------------------------------------------------------ the level

  function NextLevel(cfg: LoadConfig, level: Level, fill: real): (r: Level)
  {
    match level
    case Normal =>
      if fill >= cfg.criticalAt then Critical else if fill >= cfg.degradedAt then Degraded else Normal
    case Degraded =>
      if fill >= cfg.criticalAt then Critical else if fill < cfg.recoverAt then Normal else Degraded
    case Critical =>
      if fill < cfg.recoverAt then Normal else Critical
  }

  function LevelAfter(cfg: LoadConfig, fills: seq<real>): (r: Level)
  {
    if fills == [] then Normal else NextLevel(cfg, LevelAfter(cfg, fills[..|fills| - 1]), fills[|fills| - 1])
  }

  /** The samples after the last one below the recovery threshold. */
  function SinceRecovery(cfg: LoadConfig, fills: seq<real>): (r: seq<real>)
  {
    if fills == [] || fills[|fills| - 1] < cfg.recoverAt then []
    else SinceRecovery(cfg, fills[..|fills| - 1]) + [fills[|fills| - 1]]
  }

  function Peak(fills: seq<real>): (m: real)
    requires fills != []
    ensures m in fills && forall f :: f in fills ==> f <= m
  {
    var last := fills[|fills| - 1];
    assert fills == fills[..|fills| - 1] + [last];
    if |fills| == 1 then last
    else var m := Peak(fills[..|fills| - 1]); if last > m then last else m
  }

  function Classify(cfg: LoadConfig, fill: real): (r: Level)
  {
    if fill >= cfg.criticalAt then Critical else if fill >= cfg.degradedAt then Degraded else Normal
  }

  /** The level as a function of history alone: the worst fill since the last recovery. */
  function WorstSinceRecovery(cfg: LoadConfig, fills: seq<real>): (r: Level)
  {
    var recent := SinceRecovery(cfg, fills);
    if recent == [] then Normal else Classify(cfg, Peak(recent))
  }

  lemma {:induction false} SinceRecoveryIsSuffix(cfg: LoadConfig, fills: seq<real>) returns (i: nat)
    ensures i <= |fills| && SinceRecovery(cfg, fills) == fills[i..]
    ensures i > 0 ==> fills[i - 1] < cfg.recoverAt
    ensures forall j :: i <= j < |fills| ==> fills[j] >= cfg.recoverAt
  {
    if fills == [] || fills[|fills| - 1] < cfg.recoverAt {
      i := |fills|;
    } else {
      i := SinceRecoveryIsSuffix(cfg, fills[..|fills| - 1]);
    }
  }

  lemma PeakPush(fills: seq<real>, f: real)
    ensures Peak(fills + [f]) == if fills == [] || f > Peak(fills) then f else Peak(fills)
  {
    assert (fills + [f])[..|fills|] == fills;
  }

  lemma {:induction false} LevelIsWorst(cfg: LoadConfig, fills: seq<real>)
    requires cfg.recoverAt <= cfg.degradedAt && cfg.recoverAt <= cfg.criticalAt
    ensures LevelAfter(cfg, fills) == WorstSinceRecovery(cfg, fills)
  {
    if fills != [] {
      var front, f := fills[..|fills| - 1], fills[|fills| - 1];
      LevelIsWorst(cfg, front);
      PeakPush(SinceRecovery(cfg, front), f);
    }
  }

  /** The controller equals the closed form on every history exactly when recovery lies below both other thresholds. */
  lemma LevelIsWorstIff(cfg: LoadConfig)
    ensures (forall fills :: LevelAfter(cfg, fills) == WorstSinceRecovery(cfg, fills)) <==>
      cfg.recoverAt <= cfg.degradedAt && cfg.recoverAt <= cfg.criticalAt
  {
    if cfg.recoverAt <= cfg.degradedAt && cfg.recoverAt <= cfg.criticalAt {
      forall fills
        ensures LevelAfter(cfg, fills) == WorstSinceRecovery(cfg, fills)
      {
        LevelIsWorst(cfg, fills);
      }
    } else {
      var f := if cfg.recoverAt > cfg.criticalAt then cfg.criticalAt else cfg.degradedAt;
      assert [f][..0] == [];
      assert LevelAfter(cfg, [f]) == NextLevel(cfg, Normal, f);
      assert LevelAfter(cfg, [f]) != WorstSinceRecovery(cfg, [f]);
    }
  }

  // ------------------------------------------------------------------ the rates

  /** Keeps a rate within [min, 1]. */
  function Clamp(rate: real, min: real): (r: real)
    ensures 0.0 < min <= 1.0 ==> min <= r <= 1.0
  {
    if min > 0.0 && rate < min then min else if rate > 1.0 then 1.0 else if rate < 0.0 then 0.0 else rate
  }

  function TableRate(cfg: LoadConfig, level: Level, k: Kind): (r: real)
    ensures 0.0 < MinRate(cfg, k) <= 1.0 ==> MinRate(cfg, k) <= r <= 1.0
  {
    match (level, k)
    case (Degraded, Syscall) => Clamp(cfg.syscallDegraded, cfg.minSyscall)
    case (Degraded, File) => Clamp(cfg.fileDegraded, cfg.minFile)
    case (Critical, Syscall) => Clamp(cfg.syscallCritical, cfg.minSyscall)
    case (Critical, File) => Clamp(cfg.fileCritical, cfg.minFile)
    case (Critical, Network) => Clamp(cfg.networkCritical, cfg.minNetwork)
    case _ => 1.0
  }

  /** The rates a level applies. */
  function Table(cfg: LoadConfig, level: Level): (rates: map<Kind, real>)
    ensures rates.Keys == {Syscall, File, Network}
    ensures forall k :: k in rates ==> rates[k] == TableRate(cfg, level, k)
  {
    map[Syscall := TableRate(cfg, level, Syscall), File := TableRate(cfg, level, File),
        Network := TableRate(cfg, level, Network)]
  }

  function MinRate(cfg: LoadConfig, k: Kind): (r: real)
  {
    match k case Syscall => cfg.minSyscall case Network => cfg.minNetwork case File => cfg.minFile
  }

  /** A rate is applied as configured if it lies between the floor and 1; below the floor the floor is applied, and
      above 1 it is 1. */
  ghost predicate Follows(applied: real, rate: real, min: real)
  {
    && (0.0 <= rate && min <= rate <= 1.0 ==> applied == rate)
    && (0.0 < min && rate < min ==> applied == min)
    && (rate > 1.0 && min <= 1.0 ==> applied == 1.0)
  }

  /** Which configured rate each level applies to each kind. */
  lemma TableFollowsConfig(cfg: LoadConfig)
    ensures Follows(TableRate(cfg, Degraded, Syscall), cfg.syscallDegraded, cfg.minSyscall)
    ensures Follows(TableRate(cfg, Degraded, File), cfg.fileDegraded, cfg.minFile)
    ensures TableRate(cfg, Degraded, Network) == 1.0
    ensures Follows(TableRate(cfg, Critical, Syscall), cfg.syscallCritical, cfg.minSyscall)
    ensures Follows(TableRate(cfg, Critical, File), cfg.fileCritical, cfg.minFile)
    ensures Follows(TableRate(cfg, Critical, Network), cfg.networkCritical, cfg.minNetwork)
    ensures forall k: Kind :: TableRate(cfg, Normal, k) == 1.0
  {
  }

  /** Exactly when a sample changes the level: load at or above a threshold enters its level, a critical one from
      anywhere, and only load strictly below the recovery threshold leads back, always to Normal. */
  lemma TransitionsIff(cfg: LoadConfig, fill: real)
    ensures NextLevel(cfg, Normal, fill) == Critical <==> fill >= cfg.criticalAt
    ensures NextLevel(cfg, Normal, fill) == Degraded <==> cfg.degradedAt <= fill < cfg.criticalAt
    ensures NextLevel(cfg, Degraded, fill) == Critical <==> fill >= cfg.criticalAt
    ensures NextLevel(cfg, Degraded, fill) == Normal <==> fill < cfg.criticalAt && fill < cfg.recoverAt
    ensures NextLevel(cfg, Critical, fill) == Normal <==> fill < cfg.recoverAt
    ensures NextLevel(cfg, Critical, fill) != Degraded
  {
  }

  /** The configured rates fall from Degraded to Critical. */
  ghost predicate Falling(cfg: LoadConfig)
  {
    cfg.syscallCritical <= cfg.syscallDegraded && cfg.fileCritical <= cfg.fileDegraded
  }

  /** Worse load never raises a rate; Normal keeps everything and Degraded keeps every network event. */
  lemma WorseLoadLowersRates(cfg: LoadConfig, k: Kind)
    requires 0.0 < MinRate(cfg, k) <= 1.0 && Falling(cfg)
    ensures TableRate(cfg, Critical, k) <= TableRate(cfg, Degraded, k) <= TableRate(cfg, Normal, k) == 1.0
    ensures TableRate(cfg, Degraded, Network) == 1.0
  {
    match k case Syscall => case Network => case File =>
  }

  /** The rate is not so small that its divisor leaves 32 bits; rates from 1 on and rates up to 0 are not. */
  ghost predicate Expressible(r: real)
  {
    0.0 < r < 1.0 ==> Fine(r)
  }

  ghost predicate Fine(r: real)
  {
    0.0 < r <= 1.0 && r * 4294967296.0 > 1.0
  }

  /** The divisor N of a rate: one event in N is kept. */
  function Divisor(rate: real): (n: nat)
  {
    if rate <= 0.0 then 0
    else if rate >= 1.0 then 1
    else (1.0 / rate).Floor
  }

  lemma InverseBounds(r: real)
    requires 0.0 < r < 1.0
    ensures 1.0 / r > 1.0 && r * (1.0 / r) == 1.0
  {
  }

  /** Quantising never samples more coarsely than asked, and less than twice as finely. */
  lemma DivisorBounds(r: real)
    requires Fine(r)
    ensures 1 <= Divisor(r) < 0x1_0000_0000
    ensures r * (Divisor(r) as real) <= 1.0
    ensures r < 1.0 ==> r <= 1.0 / (Divisor(r) as real) < 2.0 * r
  {
    if r < 1.0 {
      InverseBounds(r);
      var x := Divisor(r) as real;
      Sandwich(r, 1.0 / r, x);
      DivideThrough(r, x, 1.0 / x);
    }
  }

  /** Every divisor fits in 32 bits, and only a rate of nothing gives 0. */
  lemma DivisorFits(r: real)
    requires Expressible(r)
    ensures Divisor(r) < 0x1_0000_0000
    ensures Divisor(r) == 0 <==> r <= 0.0
  {
    if 0.0 < r < 1.0 {
      DivisorBounds(r);
    }
  }

  lemma Sandwich(r: real, s: real, x: real)
    requires r > 0.0 && r * s == 1.0 && 1.0 <= x && x <= s && s < x + 1.0
    ensures r * x <= 1.0 && 1.0 < r * x + r * x
  {
    var a, b := r * x, r * s;
    assert a <= b && b == 1.0;
    assert b < r * (x + x);
    assert r * (x + x) == a + a;
    assert b < a + a;
  }

  lemma DivideThrough(r: real, x: real, y: real)
    requires x > 0.0 && x * y == 1.0 && r * x <= 1.0 && 1.0 < r * x + r * x
    ensures r <= y < 2.0 * r
  {
    var a, b, d, e := r * x, x * y, r + r - y, y - r;
    assert b == 1.0;
    assert e * x == b - a;
    assert d * x == a + a - b;
    assert a + a - b > 0.0;
    SameSign(d, x);
    SameSign(e, x);
    assert d > 0.0 && e >= 0.0;
  }

  lemma SameSign(a: real, x: real)
    requires x > 0.0
    ensures a * x > 0.0 ==> a > 0.0
    ensures a * x >= 0.0 ==> a >= 0.0
  {
  }

  /** The correction factor profilers multiply by. */
  function ScaleFactor(rate: real): (f: real)
  {
    if rate <= 0.0 || rate >= 1.0 then 1.0 else 1.0 / rate
  }

  /** The factor is the inverse of the rate, at least the divisor of the rate and less than one above it. */
  lemma ScaleFactorNearDivisor(r: real)
    requires r > 0.0
    ensures r <= 1.0 ==> r * ScaleFactor(r) == 1.0
    ensures (Divisor(r) as real) <= ScaleFactor(r) < (Divisor(r) as real) + 1.0
  {
  }
}
