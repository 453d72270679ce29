/** Capability tracking: the handlers that turn credential commits into a stream of capability changes. */
module PrivEsc {
  import opened Wrappers

  const CAPACITY: nat := 65536

  type Pid = nat

  /** An effective capability set, as a bitmask. */
  type Caps = nat

  datatype Event = Event(pid: Pid, before: Caps, after: Caps)

  /** The stored sets and the events submitted so far. */
  datatype State = State(caps: map<Pid, Caps>, log: seq<Event>)

  /** A capset entry, or a credential commit; room says whether the ring buffer has space. */
  datatype Op = Capset(pid: Pid) | Commit(pid: Pid, caps: Caps, room: bool)

  /** What is stored for a PID; nothing stored counts as no capabilities. */
  function Stored(caps: map<Pid, Caps>, pid: Pid): (c: Caps)
  {
    if pid in caps then caps[pid] else 0
  }

  /** An update of a map of bounded size: an absent key is refused when the map is full. */
  function Put(caps: map<Pid, Caps>, pid: Pid, c: Caps): (r: map<Pid, Caps>)
  {
    if pid in caps || |caps| < CAPACITY then caps[pid := c] else caps
  }

  /** A commit is reported if it changes the stored set and finds ring-buffer space. */
  predicate Reports(s: State, o: Op)
  {
    o.Commit? && Stored(s.caps, o.pid) != o.caps && o.room
  }

  function Next(s: State, o: Op): (r: State)
  {
    match o
    case Capset(pid) => if pid in s.caps then s else s.(caps := Put(s.caps, pid, 0))
    case Commit(pid, c, _) =>
      if Reports(s, o) then State(Put(s.caps, pid, c), s.log + [Event(pid, Stored(s.caps, pid), c)]) else s
  }

  class Monitor {
    var pidCaps: map<Pid, Caps>
    var events: seq<Event>

    ghost function View(): (s: State)
      reads this
    {
      State(pidCaps, events)
    }

    constructor ()
      ensures View() == State(map[], [])
    {
      pidCaps, events := map[], [];
    }

    /** Emits a change and remembers it, unless nothing changed or there is no space. */
    method EmitPrivesc(pid: Pid, before: Caps, after: Caps, room: bool)
      modifies this
      ensures if before != after && room
        then pidCaps == Put(old(pidCaps), pid, after) && events == old(events) + [Event(pid, before, after)]
        else View() == old(View())
    {
      if before == after {
        return;
      }
      if !room {
        return;
      }
      if pid in pidCaps || |pidCaps| < CAPACITY {
        pidCaps := pidCaps[pid := after];
      }
      events := events + [Event(pid, before, after)];
    }

    method TraceCapset(pid: Pid)
      modifies this
      ensures View() == Next(old(View()), Capset(pid))
    {
      if pid !in pidCaps && |pidCaps| < CAPACITY {
        pidCaps := pidCaps[pid := 0];
      }
    }

    method TraceCommitCreds(pid: Pid, newCaps: Caps, room: bool)
      modifies this
      ensures View() == Next(old(View()), Commit(pid, newCaps, room))
    {
      var oldCaps := 0;
      if pid in pidCaps {
        oldCaps := pidCaps[pid];
      }
      EmitPrivesc(pid, oldCaps, newCaps, room);
    }
  }

  // ------------------------------------------------------------------------- runs

  function Run(ops: seq<Op>): (s: State)
  {
    if ops == [] then State(map[], []) else Next(Run(ops[..|ops| - 1]), ops[|ops| - 1])
  }

  function EventsOf(pid: Pid, log: seq<Event>): (es: seq<Event>)
  {
    if log == [] then []
    else EventsOf(pid, log[..|log| - 1]) + if log[|log| - 1].pid == pid then [log[|log| - 1]] else []
  }

  lemma EventsPush(pid: Pid, log: seq<Event>, e: Event)
    ensures EventsOf(pid, log + [e]) == EventsOf(pid, log) + if e.pid == pid then [e] else []
  {
    assert (log + [e])[..|log|] == log;
  }

  /** The set one gets by replaying the changes from no capabilities. */
  function Replay(es: seq<Event>): (c: Caps)
  {
    if es == [] then 0 else es[|es| - 1].after
  }

  /** Each change starts where the previous one ended, the first from nothing, and each is a change. */
  ghost predicate Chain(es: seq<Event>)
  {
    forall i :: 0 <= i < |es| ==> es[i].before == Replay(es[..i]) && es[i].before != es[i].after
  }

  /** All changes start from nothing. */
  ghost predicate FromNothing(es: seq<Event>)
  {
    forall i :: 0 <= i < |es| ==> es[i].before == 0 && es[i].after != 0
  }

  /** A PID with a stored set has a chain that ends in it; a PID without one has only changes from nothing,
      and none at all unless the map is full. */
  ghost predicate Tracked(s: State, pid: Pid)
  {
    var es := EventsOf(pid, s.log);
    if pid in s.caps then Chain(es) && s.caps[pid] == Replay(es)
    else FromNothing(es) && (es != [] ==> |s.caps| >= CAPACITY)
  }

  lemma ChainPush(es: seq<Event>, e: Event)
    requires Chain(es) && e.before == Replay(es) && e.before != e.after
    ensures Chain(es + [e])
  {
    var fs := es + [e];
    forall i | 0 <= i < |fs|
      ensures fs[i].before == Replay(fs[..i]) && fs[i].before != fs[i].after
    {
      if i < |es| {
        assert fs[..i] == es[..i];
      } else {
        assert fs[..i] == es;
      }
    }
  }

  lemma PutGrows(caps: map<Pid, Caps>, pid: Pid, c: Caps)
    ensures |Put(caps, pid, c)| >= |caps|
  {
    assert caps.Keys <= Put(caps, pid, c).Keys;
    SubsetSize(caps.Keys, Put(caps, pid, c).Keys);
  }

  lemma SubsetSize<T>(a: set<T>, b: set<T>)
    requires a <= b
    ensures |a| <= |b|
  {
    assert b == a + (b - a);
  }

  lemma NextTracked(s: State, o: Op, pid: Pid)
    requires Tracked(s, pid)
    ensures Tracked(Next(s, o), pid)
  {
    var es := EventsOf(pid, s.log);
    PutGrows(s.caps, o.pid, if o.Commit? then o.caps else 0);
    if Reports(s, o) {
      var e := Event(o.pid, Stored(s.caps, o.pid), o.caps);
      EventsPush(pid, s.log, e);
      if o.pid == pid {
        if pid in s.caps || |s.caps| < CAPACITY {
          assert Chain(es) && Stored(s.caps, pid) == Replay(es);
          ChainPush(es, e);
        } else {
          assert FromNothing(es + [e]);
        }
      } else {
        assert EventsOf(pid, Next(s, o).log) == es;
      }
    }
  }

  lemma {:induction false} EveryPidTracked(ops: seq<Op>, pid: Pid)
    ensures Tracked(Run(ops), pid)
    decreases |ops|
  {
    if ops != [] {
      EveryPidTracked(ops[..|ops| - 1], pid);
      NextTracked(Run(ops[..|ops| - 1]), ops[|ops| - 1], pid);
    }
  }

  /** Over every run, with any ring-buffer failures, the events of a PID form a chain exactly when the PID
      got its place in the map or has at most one event. */
  lemma ChainIff(ops: seq<Op>, pid: Pid)
    ensures Chain(EventsOf(pid, Run(ops).log)) <==> pid in Run(ops).caps || |EventsOf(pid, Run(ops).log)| <= 1
  {
    EveryPidTracked(ops, pid);
    var es := EventsOf(pid, Run(ops).log);
    if pid !in Run(ops).caps {
      if |es| > 1 {
        assert es[..1] == [es[0]];
        assert es[1].before == 0 && Replay(es[..1]) == es[0].after;
      }
    }
  }

  /** A run that stores n PIDs. */
  function Fill(n: nat): (ops: seq<Op>)
    ensures |ops| == n
  {
    if n == 0 then [] else Fill(n - 1) + [Capset(n - 1)]
  }

  /** Exactly n PIDs are stored, all below n, and nothing was reported. */
  ghost predicate Filled(s: State, n: nat)
  {
    |s.caps| == n && s.log == [] && forall p :: p in s.caps ==> p < n
  }

  lemma FillStep(s: State, n: nat)
    requires Filled(s, n) && n < CAPACITY
    ensures Filled(Next(s, Capset(n)), n + 1)
  {
    assert n !in s.caps;
    assert s.caps[n := 0].Keys == s.caps.Keys + {n};
  }

  lemma {:induction false} FillStores(n: nat)
    requires n <= CAPACITY
    ensures Filled(Run(Fill(n)), n)
  {
    if n > 0 {
      var ops := Fill(n - 1);
      FillStores(n - 1);
      RunPush(ops, Capset(n - 1));
      FillStep(Run(ops), n - 1);
    }
  }

  lemma RunPush(ops: seq<Op>, o: Op)
    ensures Run(ops + [o]) == Next(Run(ops), o)
  {
    assert (ops + [o])[..|ops|] == ops;
  }

  /** A reported commit of a PID that a full map refuses. */
  lemma RefusedCommit(s: State, pid: Pid, c: Caps)
    requires pid !in s.caps && |s.caps| >= CAPACITY
    ensures Next(s, Commit(pid, c, true)) == if c == 0 then s else s.(log := s.log + [Event(pid, 0, c)])
  {
  }

  /** The failing family: with the map full, as FillStores gets it, two reported commits of a new PID do not link up. */
  lemma FullMapBreaksChain(full: seq<Op>, pid: Pid, a: Caps, b: Caps)
    requires Filled(Run(full), pid) && pid == CAPACITY && a != 0 && b != 0
    ensures var ops := full + [Commit(pid, a, true)] + [Commit(pid, b, true)];
      EventsOf(pid, Run(ops).log) == [Event(pid, 0, a), Event(pid, 0, b)] && !Chain(EventsOf(pid, Run(ops).log))
  {
    var s, e, f := Run(full), Event(pid, 0, a), Event(pid, 0, b);
    assert pid !in s.caps;
    RunPush(full, Commit(pid, a, true));
    RunPush(full + [Commit(pid, a, true)], Commit(pid, b, true));
    RefusedCommit(s, pid, a);
    RefusedCommit(s.(log := s.log + [e]), pid, b);
    TwoEvents(pid, a, b);
  }

  lemma TwoEvents(pid: Pid, a: Caps, b: Caps)
    requires a != 0
    ensures var es := [] + [Event(pid, 0, a)] + [Event(pid, 0, b)];
      EventsOf(pid, es) == es && es == [Event(pid, 0, a), Event(pid, 0, b)] && !Chain(es)
  {
    var e, f := Event(pid, 0, a), Event(pid, 0, b);
    EventsPush(pid, [], e);
    EventsPush(pid, [] + [e], f);
    var es := [e, f];
    assert es[..1] == [e] && es[1].before == 0 && Replay([e]) == a;
  }

  /** While the map has room no PID is refused, so every PID has a chain. */
  lemma ChainWithRoom(ops: seq<Op>, pid: Pid)
    requires |Run(ops).caps| < CAPACITY
    ensures Chain(EventsOf(pid, Run(ops).log))
  {
    EveryPidTracked(ops, pid);
  }

  // ----------------------------------------------------------------------- replay

  /** The effective set of the last commit of a PID. */
  function Effective(ops: seq<Op>, pid: Pid): (c: Option<Caps>)
  {
    if ops == [] then None
    else
      var o := ops[|ops| - 1];
      if o.Commit? && o.pid == pid then Some(o.caps) else Effective(ops[..|ops| - 1], pid)
  }

  /** The last commit of a PID was reported, or committed what its events so far replay to. */
  predicate InStep(ops: seq<Op>, pid: Pid)
  {
    if ops == [] then true
    else
      var s, o := Run(ops[..|ops| - 1]), ops[|ops| - 1];
      if o.Commit? && o.pid == pid then Reports(s, o) || o.caps == Replay(EventsOf(pid, s.log))
      else InStep(ops[..|ops| - 1], pid)
  }

  /** For every process, refused by a full map or not, replaying its events gives its current effective set
      exactly when its last commit was reported, or committed what the events replay to anyway. */
  lemma {:induction false} ReplayIff(ops: seq<Op>, pid: Pid)
    requires Effective(ops, pid).Some?
    ensures Replay(EventsOf(pid, Run(ops).log)) == Effective(ops, pid).value <==> InStep(ops, pid)
    decreases |ops|
  {
    var front, o := ops[..|ops| - 1], ops[|ops| - 1];
    var s := Run(front);
    if Reports(s, o) {
      EventsPush(pid, s.log, Event(o.pid, Stored(s.caps, o.pid), o.caps));
    }
    if !(o.Commit? && o.pid == pid) {
      ReplayIff(front, pid);
    }
  }

  /** The last commit of a PID found ring-buffer space or made no change to the stored set. */
  predicate Noticed(ops: seq<Op>, pid: Pid)
  {
    if ops == [] then true
    else
      var s, o := Run(ops[..|ops| - 1]), ops[|ops| - 1];
      if o.Commit? && o.pid == pid then o.room || o.caps == Stored(s.caps, pid) else Noticed(ops[..|ops| - 1], pid)
  }

  /** The map has not refused the PID: it is stored or has no event yet. */
  ghost predicate Admitted(ops: seq<Op>, pid: Pid)
  {
    pid in Run(ops).caps || EventsOf(pid, Run(ops).log) == []
  }

  lemma StoredIsReplay(ops: seq<Op>, pid: Pid)
    requires Admitted(ops, pid)
    ensures Stored(Run(ops).caps, pid) == Replay(EventsOf(pid, Run(ops).log))
  {
    EveryPidTracked(ops, pid);
  }

  lemma AdmittedBefore(ops: seq<Op>, pid: Pid)
    requires ops != [] && Admitted(ops, pid)
    ensures Admitted(ops[..|ops| - 1], pid)
  {
    var front, o := ops[..|ops| - 1], ops[|ops| - 1];
    EveryPidTracked(front, pid);
    var s := Run(front);
    if Reports(s, o) {
      EventsPush(pid, s.log, Event(o.pid, Stored(s.caps, o.pid), o.caps));
    }
  }

  /** For a process the map did not refuse: exactly when its last commit found space or made no change. */
  lemma {:induction false} AdmittedReplayIff(ops: seq<Op>, pid: Pid)
    requires Admitted(ops, pid) && Effective(ops, pid).Some?
    ensures Replay(EventsOf(pid, Run(ops).log)) == Effective(ops, pid).value <==> Noticed(ops, pid)
    decreases |ops|
  {
    var front, o := ops[..|ops| - 1], ops[|ops| - 1];
    AdmittedBefore(ops, pid);
    StoredIsReplay(front, pid);
    ReplayIff(ops, pid);
    if !(o.Commit? && o.pid == pid) {
      ReplayIff(front, pid);
      AdmittedReplayIff(front, pid);
    }
  }

  /** The last non-empty set a PID committed with ring-buffer space, empty if there is none. */
  function LastHeard(ops: seq<Op>, pid: Pid): (c: Caps)
  {
    if ops == [] then 0
    else
      var o := ops[|ops| - 1];
      if o.Commit? && o.pid == pid && o.caps != 0 && o.room then o.caps else LastHeard(ops[..|ops| - 1], pid)
  }

  /** The last commit of a PID is a non-empty one with space, or equals the last such one before. */
  predicate HeardLast(ops: seq<Op>, pid: Pid)
  {
    if ops == [] then true
    else
      var front, o := ops[..|ops| - 1], ops[|ops| - 1];
      if o.Commit? && o.pid == pid then (o.caps != 0 && o.room) || o.caps == LastHeard(front, pid)
      else HeardLast(front, pid)
  }

  lemma StoredStays(s: State, o: Op, pid: Pid)
    ensures pid in s.caps ==> pid in Next(s, o).caps
  {
  }

  /** The events of a process without a place in the map replay to the last non-empty set it committed with space. */
  lemma {:induction false} RefusedReplay(ops: seq<Op>, pid: Pid)
    requires pid !in Run(ops).caps
    ensures Replay(EventsOf(pid, Run(ops).log)) == LastHeard(ops, pid)
    decreases |ops|
  {
    if ops != [] {
      var front, o := ops[..|ops| - 1], ops[|ops| - 1];
      StoredStays(Run(front), o, pid);
      RefusedReplay(front, pid);
      if Reports(Run(front), o) {
        EventsPush(pid, Run(front).log, Event(o.pid, Stored(Run(front).caps, o.pid), o.caps));
      }
    }
  }

  /** For a process without a place in the map, in terms of its commits alone: the replay is its effective set exactly
      when its last commit is a non-empty one with space, or equals the last such one before, empty if none. */
  lemma {:induction false} RefusedReplayIff(ops: seq<Op>, pid: Pid)
    requires pid !in Run(ops).caps && Effective(ops, pid).Some?
    ensures Replay(EventsOf(pid, Run(ops).log)) == Effective(ops, pid).value <==> HeardLast(ops, pid)
    decreases |ops|
  {
    var front, o := ops[..|ops| - 1], ops[|ops| - 1];
    StoredStays(Run(front), o, pid);
    RefusedReplay(ops, pid);
    if !(o.Commit? && o.pid == pid) {
      RefusedReplay(front, pid);
      RefusedReplayIff(front, pid);
    }
  }

  /** What a last commit decides. */
  lemma LastCommit(front: seq<Op>, pid: Pid, c: Caps, room: bool)
    ensures var ops, o := front + [Commit(pid, c, room)], Commit(pid, c, room);
      && Effective(ops, pid) == Some(c)
      && (Noticed(ops, pid) <==> room || c == Stored(Run(front).caps, pid))
      && (InStep(ops, pid) <==> Reports(Run(front), o) || c == Replay(EventsOf(pid, Run(front).log)))
  {
    assert (front + [Commit(pid, c, room)])[..|front|] == front;
  }

  /** The state after a process that a full map refuses gained capabilities, and after it gave them up. */
  lemma RefusedGain(full: seq<Op>, pid: Pid, a: Caps)
    requires Filled(Run(full), pid) && pid == CAPACITY && a != 0
    ensures var once := full + [Commit(pid, a, true)];
      Run(once) == State(Run(full).caps, [Event(pid, 0, a)]) && Run(once + [Commit(pid, 0, true)]) == Run(once)
  {
    var s, once := Run(full), full + [Commit(pid, a, true)];
    assert pid !in s.caps;
    RunPush(full, Commit(pid, a, true));
    RunPush(once, Commit(pid, 0, true));
    RefusedCommit(s, pid, a);
    RefusedCommit(s.(log := s.log + [Event(pid, 0, a)]), pid, 0);
  }

  lemma OneEvent(pid: Pid, a: Caps)
    requires a != 0
    ensures var e := Event(pid, 0, a);
      EventsOf(pid, [e]) == [e] && Chain([e]) && Replay([e]) == a
  {
    EventsPush(pid, [], Event(pid, 0, a));
    assert [] + [Event(pid, 0, a)] == [Event(pid, 0, a)] && [Event(pid, 0, a)][..0] == [];
  }

  /** For one: a refused process gains capabilities and gives them up again, with space for both reports. The
      second commit equals what the map gives for an absent PID, so the one event is a chain but its
      replay is not the effective set. */
  lemma RefusedDropUnseen(full: seq<Op>, pid: Pid, a: Caps)
    requires Filled(Run(full), pid) && pid == CAPACITY && a != 0
    ensures var ops := full + [Commit(pid, a, true)] + [Commit(pid, 0, true)];
      && EventsOf(pid, Run(ops).log) == [Event(pid, 0, a)] && Chain(EventsOf(pid, Run(ops).log))
      && Noticed(ops, pid) && !InStep(ops, pid)
      && Effective(ops, pid) == Some(0) && Replay(EventsOf(pid, Run(ops).log)) == a
  {
    var once := full + [Commit(pid, a, true)];
    RefusedGain(full, pid, a);
    OneEvent(pid, a);
    assert pid !in Run(full).caps;
    LastCommit(once, pid, 0, true);
  }
}
