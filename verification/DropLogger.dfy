/** The lock-free throttle for "events dropped" log lines, under every interleaving of its callers. */
module DropLogger {
  import opened Wrappers

  /** Where a caller of record is: each constructor is the state before its next atomic action. */
  datatype Phase =
    | Idle
    | Added
    | Timed(now: int)
    | Loaded(now: int, last: int)
    | Won(now: int)
    | Swapped(now: int, count: nat)

  /** A log line: the time its writer installed and the count it carries. */
  datatype Line = Line(at: int, count: nat)

  /** The two atomics, the callers, the number of record calls that counted their event, the values
      installed in lastLogTime and the lines written. */
  datatype System = System(
    lastLogTime: int, pending: nat, callers: seq<Phase>, records: nat, installs: seq<int>, lines: seq<Line>)

  /** The next atomic action of caller t; clock is what a clock read would give. */
  function Step(s: System, t: nat, clock: int, interval: int): (r: System)
  {
    if t >= |s.callers| then s
    else
      match s.callers[t]
      case Idle =>
        s.(pending := s.pending + 1, records := s.records + 1, callers := s.callers[t := Added])
      case Added =>
        s.(callers := s.callers[t := Timed(clock)])
      case Timed(now) =>
        s.(callers := s.callers[t := if now - s.lastLogTime < interval then Idle else Loaded(now, s.lastLogTime)])
      case Loaded(now, last) =>
        if s.lastLogTime != last then s.(callers := s.callers[t := Idle])
        else s.(lastLogTime := now, installs := s.installs + [now], callers := s.callers[t := Won(now)])
      case Won(now) =>
        s.(pending := 0, callers := s.callers[t := Swapped(now, s.pending)])
      case Swapped(now, count) =>
        s.(lines := if count > 0 then s.lines + [Line(now, count)] else s.lines, callers := s.callers[t := Idle])
  }

  datatype Action = Action(t: nat, clock: int)

  function Start(n: nat): (s: System)
  {
    System(0, 0, seq(n, _ => Idle), 0, [], [])
  }

  function Run(n: nat, acts: seq<Action>, interval: int): (s: System)
  {
    if acts == [] then Start(n)
    else Step(Run(n, acts[..|acts| - 1], interval), acts[|acts| - 1].t, acts[|acts| - 1].clock, interval)
  }

  class Logger {
    const interval: int
    var lastLogTime: int
    var pending: nat

    constructor (interval: int)
      ensures this.interval == interval && lastLogTime == 0 && pending == 0
    {
      this.interval, lastLogTime, pending := interval, 0, 0;
    }

    /** A whole call that no other caller interrupts. */
    method Record(now: int) returns (line: Option<Line>)
      modifies this
      ensures now - old(lastLogTime) >= interval ==>
        line == Some(Line(now, old(pending) + 1)) && lastLogTime == now && pending == 0
      ensures now - old(lastLogTime) < interval ==>
        line == None && lastLogTime == old(lastLogTime) && pending == old(pending) + 1
      ensures Alone(old(lastLogTime), old(pending), now, interval) == (lastLogTime, pending, line)
    {
      pending := pending + 1;
      var last := lastLogTime;
      if now - last < interval {
        return None;
      }
      lastLogTime := now;
      var count := pending;
      pending := 0;
      if count > 0 {
        return Some(Line(now, count));
      }
      return None;
    }
  }

  /** Both atomics and the line written after the six actions of a caller that runs alone. */
  function Alone(last: int, pending: nat, now: int, interval: int): (r: (int, nat, Option<Line>))
  {
    var s0 := System(last, pending, [Idle], 0, [], []);
    var s3 := Step(Step(Step(s0, 0, now, interval), 0, now, interval), 0, now, interval);
    if s3.callers[0].Idle? then (s3.lastLogTime, s3.pending, None)
    else
      var s6 := Step(Step(Step(s3, 0, now, interval), 0, now, interval), 0, now, interval);
      (s6.lastLogTime, s6.pending, if s6.lines == [] then None else Some(s6.lines[0]))
  }

  // ----------------------------------------------------------------- conservation

  function Held(p: Phase): (n: nat)
  {
    if p.Swapped? then p.count else 0
  }

  /** Counts taken from pending and not yet logged. */
  function InFlight(ps: seq<Phase>): (n: nat)
  {
    if ps == [] then 0 else InFlight(ps[..|ps| - 1]) + Held(ps[|ps| - 1])
  }

  lemma {:induction false} InFlightUpdate(ps: seq<Phase>, t: nat, p: Phase)
    requires t < |ps|
    ensures InFlight(ps[t := p]) == InFlight(ps) - Held(ps[t]) + Held(p)
    decreases |ps|
  {
    var front, qs := ps[..|ps| - 1], ps[t := p];
    if t == |ps| - 1 {
      assert qs[..|qs| - 1] == front;
    } else {
      assert qs[..|qs| - 1] == front[t := p];
      InFlightUpdate(front, t, p);
    }
  }

  function Logged(lines: seq<Line>): (n: nat)
  {
    if lines == [] then 0 else Logged(lines[..|lines| - 1]) + lines[|lines| - 1].count
  }

  lemma LoggedPush(lines: seq<Line>, l: Line)
    ensures Logged(lines + [l]) == Logged(lines) + l.count
  {
    assert (lines + [l])[..|lines|] == lines;
  }

  lemma {:induction false} NothingInFlight(n: nat)
    ensures InFlight(seq(n, _ => Idle)) == 0
  {
    if n > 0 {
      NothingInFlight(n - 1);
      assert seq(n, _ => Idle)[..n - 1] == seq(n - 1, _ => Idle);
    }
  }

  ghost predicate Balanced(s: System)
  {
    Logged(s.lines) + InFlight(s.callers) + s.pending == s.records
  }

  lemma StepBalanced(s: System, t: nat, clock: int, interval: int)
    requires Balanced(s)
    ensures Balanced(Step(s, t, clock, interval))
  {
    if t < |s.callers| {
      InFlightUpdate(s.callers, t, Step(s, t, clock, interval).callers[t]);
      if s.callers[t].Swapped? {
        LoggedPush(s.lines, Line(s.callers[t].now, s.callers[t].count));
      }
    }
  }

  /** Under every interleaving each recorded drop is logged, taken for logging or still pending, exactly once. */
  lemma {:induction false} DropsConserved(n: nat, acts: seq<Action>, interval: int)
    ensures Balanced(Run(n, acts, interval))
    decreases |acts|
  {
    if acts == [] {
      NothingInFlight(n);
    } else {
      DropsConserved(n, acts[..|acts| - 1], interval);
      StepBalanced(Run(n, acts[..|acts| - 1], interval), acts[|acts| - 1].t, acts[|acts| - 1].clock, interval);
    }
  }

  // ------------------------------------------------------------------- throttling

  function Latest(ts: seq<int>): (t: int)
  {
    if ts == [] then 0 else ts[|ts| - 1]
  }

  /** Each value is at least interval above the one before it, the first above the initial 0. */
  ghost predicate Spaced(ts: seq<int>, interval: int)
  {
    ts == [] || (Spaced(ts[..|ts| - 1], interval) && ts[|ts| - 1] - Latest(ts[..|ts| - 1]) >= interval)
  }

  /** How many of the times lie in [a, b]. */
  function CountIn(ts: seq<int>, a: int, b: int): (n: nat)
  {
    if ts == [] then 0 else CountIn(ts[..|ts| - 1], a, b) + if a <= ts[|ts| - 1] <= b then 1 else 0
  }

  lemma CountPush(ts: seq<int>, t: int, a: int, b: int)
    ensures CountIn(ts + [t], a, b) == CountIn(ts, a, b) + if a <= t <= b then 1 else 0
  {
    assert (ts + [t])[..|ts|] == ts;
  }

  /** A caller that won the right to log with a time in [a, b] and has not logged yet. */
  function Claim(p: Phase, a: int, b: int): (n: nat)
  {
    if (p.Won? || p.Swapped?) && a <= p.now <= b then 1 else 0
  }

  function Claims(ps: seq<Phase>, a: int, b: int): (n: nat)
  {
    if ps == [] then 0 else Claims(ps[..|ps| - 1], a, b) + Claim(ps[|ps| - 1], a, b)
  }

  lemma {:induction false} ClaimsUpdate(ps: seq<Phase>, t: nat, p: Phase, a: int, b: int)
    requires t < |ps|
    ensures Claims(ps[t := p], a, b) == Claims(ps, a, b) - Claim(ps[t], a, b) + Claim(p, a, b)
    decreases |ps|
  {
    var front, qs := ps[..|ps| - 1], ps[t := p];
    if t == |ps| - 1 {
      assert qs[..|qs| - 1] == front;
    } else {
      assert qs[..|qs| - 1] == front[t := p];
      ClaimsUpdate(front, t, p, a, b);
    }
  }

  function Times(lines: seq<Line>): (ts: seq<int>)
    ensures |ts| == |lines|
  {
    if lines == [] then [] else Times(lines[..|lines| - 1]) + [lines[|lines| - 1].at]
  }

  lemma TimesPush(lines: seq<Line>, l: Line)
    ensures Times(lines + [l]) == Times(lines) + [l.at]
  {
    assert (lines + [l])[..|lines|] == lines;
  }

  /** Installed values are spaced, the last of them is current, and a caller about to install checked the spacing. */
  ghost predicate InstallsSpaced(s: System, interval: int)
  {
    && Spaced(s.installs, interval)
    && s.lastLogTime == Latest(s.installs)
    && forall t :: 0 <= t < |s.callers| && s.callers[t].Loaded? ==> s.callers[t].now - s.callers[t].last >= interval
  }

  /** In every span there are at least as many installed values as lines and claims. */
  ghost predicate LinesInstalled(s: System, a: int, b: int)
  {
    CountIn(Times(s.lines), a, b) + Claims(s.callers, a, b) <= CountIn(s.installs, a, b)
  }

  lemma StepSpaced(s: System, t: nat, clock: int, interval: int)
    requires InstallsSpaced(s, interval)
    ensures InstallsSpaced(Step(s, t, clock, interval), interval)
  {
    var r := Step(s, t, clock, interval);
    if |r.installs| > |s.installs| {
      assert r.installs[..|s.installs|] == s.installs;
    }
  }

  lemma StepLines(s: System, t: nat, clock: int, interval: int, a: int, b: int)
    requires t < |s.callers|
    ensures CountIn(Times(Step(s, t, clock, interval).lines), a, b) <=
      CountIn(Times(s.lines), a, b) + if s.callers[t].Swapped? then Claim(s.callers[t], a, b) else 0
  {
    if s.callers[t].Swapped? {
      CountLine(s.lines, s.callers[t].now, s.callers[t].count, a, b);
    }
  }

  lemma StepInstalls(s: System, t: nat, clock: int, interval: int, a: int, b: int)
    requires t < |s.callers|
    ensures CountIn(Step(s, t, clock, interval).installs, a, b) ==
      CountIn(s.installs, a, b) + if s.callers[t].Loaded? then Claim(Step(s, t, clock, interval).callers[t], a, b) else 0
  {
    if s.callers[t].Loaded? {
      CountPush(s.installs, s.callers[t].now, a, b);
    }
  }

  lemma StepClaim(s: System, t: nat, clock: int, interval: int, a: int, b: int)
    requires t < |s.callers|
    ensures var r := Step(s, t, clock, interval);
      && r.callers == s.callers[t := r.callers[t]]
      && (s.callers[t].Swapped? ==> Claim(r.callers[t], a, b) == 0)
      && (!s.callers[t].Swapped? && !s.callers[t].Loaded? ==> Claim(r.callers[t], a, b) == Claim(s.callers[t], a, b))
  {
  }

  lemma StepInstalled(s: System, t: nat, clock: int, interval: int, a: int, b: int)
    requires LinesInstalled(s, a, b)
    ensures LinesInstalled(Step(s, t, clock, interval), a, b)
  {
    if t < |s.callers| {
      var r := Step(s, t, clock, interval);
      StepLines(s, t, clock, interval, a, b);
      StepInstalls(s, t, clock, interval, a, b);
      StepClaim(s, t, clock, interval, a, b);
      ClaimsUpdate(s.callers, t, r.callers[t], a, b);
    }
  }

  lemma CountLine(lines: seq<Line>, now: int, count: nat, a: int, b: int)
    ensures CountIn(Times(lines + [Line(now, count)]), a, b) ==
      CountIn(Times(lines), a, b) + if a <= now <= b then 1 else 0
  {
    TimesPush(lines, Line(now, count));
    CountPush(Times(lines), now, a, b);
  }

  lemma {:induction false} NoClaims(n: nat, a: int, b: int)
    ensures Claims(seq(n, _ => Idle), a, b) == 0
  {
    if n > 0 {
      NoClaims(n - 1, a, b);
      assert seq(n, _ => Idle)[..n - 1] == seq(n - 1, _ => Idle);
    }
  }

  /** Under every interleaving successive installed values grow by at least the interval, and no span
      holds more lines than installed values. */
  lemma {:induction false} AlwaysThrottled(n: nat, acts: seq<Action>, interval: int, a: int, b: int)
    ensures InstallsSpaced(Run(n, acts, interval), interval) && LinesInstalled(Run(n, acts, interval), a, b)
    decreases |acts|
  {
    if acts == [] {
      NoClaims(n, a, b);
    } else {
      var s, act := Run(n, acts[..|acts| - 1], interval), acts[|acts| - 1];
      AlwaysThrottled(n, acts[..|acts| - 1], interval, a, b);
      StepSpaced(s, act.t, act.clock, interval);
      StepInstalled(s, act.t, act.clock, interval, a, b);
    }
  }

  lemma {:induction false} SpacedBelow(ts: seq<int>, interval: int, b: int)
    requires interval > 0 && Spaced(ts, interval) && (ts != [] ==> ts[|ts| - 1] <= b)
    ensures forall i :: 0 <= i < |ts| ==> ts[i] <= b
    decreases |ts|
  {
    if ts != [] {
      var front := ts[..|ts| - 1];
      assert front != [] ==> front[|front| - 1] <= b;
      SpacedBelow(front, interval, b);
    }
  }

  lemma {:induction false} CountNarrow(ts: seq<int>, a: int, b: int, c: int)
    requires c <= b && forall i :: 0 <= i < |ts| ==> ts[i] <= c
    ensures CountIn(ts, a, b) == CountIn(ts, a, c)
    decreases |ts|
  {
    if ts != [] {
      CountNarrow(ts[..|ts| - 1], a, b, c);
    }
  }

  lemma {:induction false} CountBelow(ts: seq<int>, a: int, b: int)
    requires forall i :: 0 <= i < |ts| ==> ts[i] < a
    ensures CountIn(ts, a, b) == 0
    decreases |ts|
  {
    if ts != [] {
      CountBelow(ts[..|ts| - 1], a, b);
    }
  }

  lemma {:induction false} SpacedCount(ts: seq<int>, interval: int, a: int, b: int)
    requires interval > 0 && Spaced(ts, interval)
    ensures CountIn(ts, a, b) > 0 ==> (CountIn(ts, a, b) - 1) * interval <= b - a
    decreases |ts|
  {
    if ts != [] {
      var front, t := ts[..|ts| - 1], ts[|ts| - 1];
      assert Spaced(front, interval);
      if t > b {
        SpacedCount(front, interval, a, b);
      } else if t < a {
        SpacedBelow(ts, interval, t);
        CountBelow(ts, a, b);
      } else {
        var c := t - interval;
        assert front != [] ==> front[|front| - 1] <= c;
        SpacedBelow(front, interval, c);
        CountNarrow(front, a, b, c);
        SpacedCount(front, interval, a, c);
        var n := CountIn(front, a, c);
        if n > 0 {
          assert n * interval == (n - 1) * interval + interval;
        }
      }
    }
  }

  /** Under every interleaving at most span / interval + 1 log lines carry times within any span. */
  lemma LinesThrottled(n: nat, acts: seq<Action>, interval: int, a: int, span: nat)
    requires interval > 0
    ensures CountIn(Times(Run(n, acts, interval).lines), a, a + span) <= span / interval + 1
  {
    var ts := Run(n, acts, interval).installs;
    AlwaysThrottled(n, acts, interval, a, a + span);
    SpacedCount(ts, interval, a, a + span);
    var m := CountIn(ts, a, a + span);
    if m > 0 {
      QuotientAtLeast(m - 1, interval, span);
    }
  }

  lemma QuotientAtLeast(q: nat, d: int, x: nat)
    requires d > 0 && q * d <= x
    ensures q <= x / d
  {
    var r := x / d;
    assert x < (r + 1) * d;
    assert (r + 1 - q) * d == (r + 1) * d - q * d;
    PositiveFactor(r + 1 - q, d);
  }

  lemma PositiveFactor(a: int, d: int)
    requires d > 0 && a * d > 0
    ensures a > 0
  {
  }

  // -------------------------------------------------------------------- progress

  /** How far a call has come. */
  function Rank(p: Phase): (n: nat)
  {
    match p
    case Idle => 0 case Added => 1 case Timed(_) => 2 case Loaded(_, _) => 3 case Won(_) => 4 case Swapped(_, _) => 5
  }

  /** No caller waits for another: each action of a call comes one step further or ends it. */
  lemma CallsAdvance(s: System, t: nat, clock: int, interval: int)
    requires t < |s.callers|
    ensures var p, q := s.callers[t], Step(s, t, clock, interval).callers[t];
      Rank(q) == Rank(p) + 1 || (q == Idle && p != Idle)
  {
  }

  /** An action of another caller leaves a call where it is. */
  lemma OthersStay(s: System, u: nat, clock: int, interval: int, t: nat)
    requires t < |s.callers| && u != t
    ensures |Step(s, u, clock, interval).callers| == |s.callers|
    ensures Step(s, u, clock, interval).callers[t] == s.callers[t]
  {
  }

  /** Action j of the run installs a time. */
  ghost predicate Installs(n: nat, acts: seq<Action>, interval: int, j: int)
  {
    0 <= j < |acts| && Run(n, acts[..j + 1], interval).installs != Run(n, acts[..j], interval).installs
  }

  /** Only an install changes the installed time. */
  lemma StepInstallsTime(s: System, t: nat, clock: int, interval: int)
    ensures Step(s, t, clock, interval).lastLogTime != s.lastLogTime ==>
      Step(s, t, clock, interval).installs != s.installs
  {
  }

  lemma RunSnoc(n: nat, acts: seq<Action>, interval: int)
    requires acts != []
    ensures var a := acts[|acts| - 1];
      Run(n, acts, interval) == Step(Run(n, acts[..|acts| - 1], interval), a.t, a.clock, interval)
  {
  }

  /** A call that waits for its swap read the installed time in an action of its own, and has not acted since; if the
      installed time is another one now, another caller has installed one in between. */
  ghost predicate LoadedAt(n: nat, acts: seq<Action>, interval: int, t: nat, last: int, k: int)
  {
    && 0 <= k < |acts| && acts[k].t == t && Run(n, acts[..k], interval).lastLogTime == last
    && (forall j :: k < j < |acts| ==> acts[j].t != t)
    && (Run(n, acts, interval).lastLogTime != last ==>
        exists j :: k < j < |acts| && acts[j].t != t && Installs(n, acts, interval, j))
  }

  lemma {:induction false} CallerCount(n: nat, acts: seq<Action>, interval: int)
    ensures |Run(n, acts, interval).callers| == n
    decreases |acts|
  {
    if acts != [] {
      CallerCount(n, acts[..|acts| - 1], interval);
    }
  }

  lemma LoadedStays(n: nat, front: seq<Action>, a: Action, interval: int, t: nat, last: int, k: int)
    requires LoadedAt(n, front, interval, t, last, k) && a.t != t
    ensures LoadedAt(n, front + [a], interval, t, last, k)
  {
    var acts := front + [a];
    assert acts[..|acts| - 1] == front && acts[..|front|] == front && acts[..|acts|] == acts;
    assert acts[..k] == front[..k];
    StepInstallsTime(Run(n, front, interval), a.t, a.clock, interval);
    if j :| k < j < |front| && front[j].t != t && Installs(n, front, interval, j) {
      assert acts[..j] == front[..j] && acts[..j + 1] == front[..j + 1];
      assert acts[j].t != t && Installs(n, acts, interval, j);
    }
    if Run(n, acts, interval).lastLogTime != Run(n, front, interval).lastLogTime {
      assert acts[|front|] == a && Installs(n, acts, interval, |front|);
    }
  }

  lemma {:induction false} WhereLoaded(n: nat, acts: seq<Action>, interval: int, t: nat) returns (k: int)
    requires t < n && t < |Run(n, acts, interval).callers| && Run(n, acts, interval).callers[t].Loaded?
    ensures LoadedAt(n, acts, interval, t, Run(n, acts, interval).callers[t].last, k)
    decreases |acts|
  {
    var front, a := acts[..|acts| - 1], acts[|acts| - 1];
    CallerCount(n, front, interval);
    assert front + [a] == acts;
    if a.t == t {
      k := |acts| - 1;
    } else {
      OthersStay(Run(n, front, interval), a.t, a.clock, interval, t);
      k := WhereLoaded(n, front, interval, t);
      LoadedStays(n, front, a, interval, t, Run(n, acts, interval).callers[t].last, k);
    }
  }

  /** Under every interleaving a call ends without a line only for one of three reasons: its clock reading was less than
      the interval past the installed time it read, another caller installed a time after it had read it, or another
      caller had taken its count. */
  lemma SilentOnlyIf(n: nat, acts: seq<Action>, interval: int, t: nat, clock: int)
    requires t < n && t < |Run(n, acts, interval).callers| && !Run(n, acts, interval).callers[t].Idle?
    requires var s := Run(n, acts, interval);
      Step(s, t, clock, interval).callers[t].Idle? && Step(s, t, clock, interval).lines == s.lines
    ensures var s := Run(n, acts, interval);
      match s.callers[t]
      case Timed(now) => now - s.lastLogTime < interval
      case Loaded(_, last) => exists k, j ::
        LoadedAt(n, acts, interval, t, last, k) && k < j < |acts| && acts[j].t != t && Installs(n, acts, interval, j)
      case Swapped(_, count) => count == 0
      case _ => false
  {
    var s := Run(n, acts, interval);
    if s.callers[t].Loaded? {
      var k := WhereLoaded(n, acts, interval, t);
    }
  }

  /** And a call that gets through logs: the winner of the exchange takes all pending counts and writes them with its
      own clock reading. */
  lemma WinnerLogs(s: System, t: nat, clock: int, interval: int)
    requires t < |s.callers| && s.callers[t].Won? && s.pending > 0
    ensures var now, r := s.callers[t].now, Step(Step(s, t, clock, interval), t, clock, interval);
      r.lines == s.lines + [Line(now, s.pending)] && r.pending == 0
  {
  }
}
