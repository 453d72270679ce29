/** The alert aggregator: one window machine per key, driven by batches of alerts and periodic reaping. */
module AlertAggregator {
  import opened AlertWindows
  import opened Wrappers

  function Get(es: Entries, k: string): (e: Option<Entry>)
  {
    if k in es then Some(es[k]) else None
  }

  function IngestEntries(es: Entries, alerts: seq<Alert>, now: int, window: int): (r: Entries)
  {
    if alerts == [] then es
    else
      var before := IngestEntries(es, alerts[..|alerts| - 1], now, window);
      var a := alerts[|alerts| - 1];
      before[AlertKey(a) := StepEntry(Get(before, AlertKey(a)), Arrive(a, now), window).value]
  }

  function IngestOut(es: Entries, alerts: seq<Alert>, now: int, window: int): (out: seq<Alert>)
  {
    if alerts == [] then []
    else
      var front, a := alerts[..|alerts| - 1], alerts[|alerts| - 1];
      IngestOut(es, front, now, window) +
      StepOut(Get(IngestEntries(es, front, now, window), AlertKey(a)), Arrive(a, now))
  }

  function ReapEntries(es: Entries, now: int): (r: Entries)
  {
    map k | k in es && now < es[k].windowEnd :: es[k]
  }

  /** The final alerts of the expired entries, in the order in which the keys are visited. */
  function ReapOut(es: Entries, order: seq<string>, now: int): (out: seq<Alert>)
  {
    if order == [] then []
    else ReapOut(es, order[..|order| - 1], now) + StepOut(Get(es, order[|order| - 1]), Tick(now))
  }

  ghost predicate Distinct(order: seq<string>)
  {
    forall i, j :: 0 <= i < j < |order| ==> order[i] != order[j]
  }

  /** order lists each member of keys once. */
  ghost predicate Enumerates(order: seq<string>, keys: set<string>)
  {
    (forall k :: k in order <==> k in keys) && Distinct(order)
  }

  lemma EnumeratesPush(order: seq<string>, keys: set<string>, key: string)
    requires Enumerates(order, keys) && key !in keys
    ensures Enumerates(order + [key], keys + {key})
  {
    assert forall i :: 0 <= i < |order| ==> order[i] in keys;
  }

  lemma EnumeratesNext(order: seq<string>, keys: set<string>, todo: set<string>, key: string)
    requires Enumerates(order, keys - todo) && todo <= keys && key in todo
    ensures Enumerates(order + [key], keys - (todo - {key}))
  {
    EnumeratesPush(order, keys - todo, key);
    assert keys - (todo - {key}) == keys - todo + {key};
  }

  lemma ReapPush(es: Entries, order: seq<string>, key: string, now: int)
    ensures ReapOut(es, order + [key], now) == ReapOut(es, order, now) + StepOut(Get(es, key), Tick(now))
  {
    assert (order + [key])[..|order|] == order;
  }

  class Aggregator {
    const enabled: bool
    const window: int
    var entries: Entries

    constructor (enabled: bool, window: int)
      ensures this.enabled == enabled && entries == map[]
      ensures this.window == if window <= 0 then 60_000_000_000 else window
    {
      this.enabled := enabled;
      this.window := if window <= 0 then 60_000_000_000 else window;
      entries := map[];
    }

    /** Folds one alert into its key's window, or closes that window and opens the next. */
    method IngestOne(alert: Alert, now: int) returns (out: seq<Alert>)
      modifies this
      ensures var e := Get(old(entries), AlertKey(alert));
        entries == old(entries)[AlertKey(alert) := StepEntry(e, Arrive(alert, now), window).value] &&
        out == StepOut(e, Arrive(alert, now))
    {
      out := [];
      var key := AlertKey(alert);
      if key !in entries || now > entries[key].windowEnd {
        if key in entries && entries[key].alert.count > 1 {
          out := out + [entries[key].alert];
        }
        var head := alert.(count := 1, firstSeen := now, lastSeen := now);
        entries := entries[key := Entry(head, now + window)];
        out := out + [head];
        return;
      }
      var entry := entries[key];
      entries := entries[key := entry.(alert := entry.alert.(count := entry.alert.count + 1, lastSeen := now))];
    }

    /** Folds a batch and returns the alerts to forward at once. */
    method Ingest(alerts: seq<Alert>, now: int) returns (out: seq<Alert>)
      modifies this
      ensures !enabled ==> out == alerts && entries == old(entries)
      ensures enabled ==> entries == IngestEntries(old(entries), alerts, now, window)
      ensures enabled ==> out == IngestOut(old(entries), alerts, now, window)
    {
      if !enabled || |alerts| == 0 {
        return alerts;
      }
      out := [];
      ghost var was := entries;
      for i := 0 to |alerts|
        invariant entries == IngestEntries(was, alerts[..i], now, window)
        invariant out == IngestOut(was, alerts[..i], now, window)
      {
        assert alerts[..i + 1][..i] == alerts[..i];
        var more := IngestOne(alerts[i], now);
        out := out + more;
      }
      assert alerts[..|alerts|] == alerts;
    }

    /** Closes expired windows, visiting the keys in some order, and returns the final alerts. */
    method Reap(now: int) returns (out: seq<Alert>, ghost order: seq<string>)
      modifies this
      ensures !enabled ==> out == [] && entries == old(entries)
      ensures enabled ==> entries == ReapEntries(old(entries), now)
      ensures enabled ==> Enumerates(order, old(entries).Keys) && out == ReapOut(old(entries), order, now)
    {
      out, order := [], [];
      if !enabled {
        return;
      }
      ghost var was := entries;
      var todo := entries.Keys;
      while todo != {}
        invariant todo <= was.Keys
        invariant Enumerates(order, was.Keys - todo)
        invariant out == ReapOut(was, order, now)
        invariant forall k :: k in entries <==> k in was && (k in todo || now < was[k].windowEnd)
        invariant forall k :: k in entries ==> entries[k] == was[k]
      {
        var key :| key in todo;
        ReapPush(was, order, key, now);
        EnumeratesNext(order, was.Keys, todo, key);
        todo := todo - {key};
        order := order + [key];
        var entry := entries[key];
        if now < entry.windowEnd {
          continue;
        }
        if entry.alert.count > 1 {
          out := out + [entry.alert];
        }
        entries := entries - {key};
      }
    }
  }

  // ------------------------------------------------------------------------- runs

  datatype Op = Ingest(alerts: seq<Alert>, now: int) | Reap(now: int, order: seq<string>)

  function RunEntries(ops: seq<Op>, window: int): (es: Entries)
  {
    if ops == [] then map[]
    else
      var es := RunEntries(ops[..|ops| - 1], window);
      match ops[|ops| - 1]
      case Ingest(alerts, now) => IngestEntries(es, alerts, now, window)
      case Reap(now, _) => ReapEntries(es, now)
  }

  /** Everything forwarded downstream over a run of an enabled aggregator. */
  function RunOutputs(ops: seq<Op>, window: int): (out: seq<Alert>)
  {
    if ops == [] then []
    else
      var front := ops[..|ops| - 1];
      var es := RunEntries(front, window);
      RunOutputs(front, window) +
      match ops[|ops| - 1]
      case Ingest(alerts, now) => IngestOut(es, alerts, now, window)
      case Reap(now, order) => ReapOut(es, order, now)
  }

  /** Every reap visits exactly the keys that are present. */
  ghost predicate ValidRun(ops: seq<Op>, window: int)
  {
    forall i :: 0 <= i < |ops| && ops[i].Reap? ==> Enumerates(ops[i].order, RunEntries(ops[..i], window).Keys)
  }

  function ArrivalsOf(k: string, alerts: seq<Alert>, now: int): (os: seq<Occurrence>)
  {
    if alerts == [] then []
    else
      var a := alerts[|alerts| - 1];
      ArrivalsOf(k, alerts[..|alerts| - 1], now) + if AlertKey(a) == k then [Arrive(a, now)] else []
  }

  /** What key k sees of a run. */
  function Project(k: string, ops: seq<Op>): (os: seq<Occurrence>)
  {
    if ops == [] then []
    else
      Project(k, ops[..|ops| - 1]) +
      match ops[|ops| - 1]
      case Ingest(alerts, now) => ArrivalsOf(k, alerts, now)
      case Reap(now, _) => [Tick(now)]
  }

  /** The alerts with key k. */
  function Only(k: string, out: seq<Alert>): (r: seq<Alert>)
  {
    if out == [] then []
    else Only(k, out[..|out| - 1]) + if AlertKey(out[|out| - 1]) == k then [out[|out| - 1]] else []
  }

  lemma {:induction false} OnlyConcat(k: string, a: seq<Alert>, b: seq<Alert>)
    ensures Only(k, a + b) == Only(k, a) + Only(k, b)
    decreases |b|
  {
    if b == [] {
      assert a + b == a;
    } else {
      assert (a + b)[..|a + b| - 1] == a + b[..|b| - 1];
      OnlyConcat(k, a, b[..|b| - 1]);
    }
  }

  lemma OnlyOne(k: string, a: Alert)
    ensures Only(k, [a]) == if AlertKey(a) == k then [a] else []
  {
    assert [a][..0] == [];
  }

  /** Each stored alert belongs to the key it is stored under. */
  ghost predicate Filed(es: Entries)
  {
    forall k :: k in es ==> AlertKey(es[k].alert) == k
  }

  lemma HeadKey(a: Alert, now: int)
    ensures AlertKey(HeadOf(a, now)) == AlertKey(a)
  {
    assert PartsOf(HeadOf(a, now)) == PartsOf(a);
  }

  lemma FoldedKey(e: Entry, now: int)
    ensures AlertKey(Folded(e, now).alert) == AlertKey(e.alert)
  {
    assert PartsOf(Folded(e, now).alert) == PartsOf(e.alert);
  }

  /** An arrival leaves an entry of its own key. */
  lemma EntryKey(e: Option<Entry>, a: Alert, now: int, window: int)
    requires e.Some? ==> AlertKey(e.value.alert) == AlertKey(a)
    ensures var r := StepEntry(e, Arrive(a, now), window); r.Some? && AlertKey(r.value.alert) == AlertKey(a)
  {
    HeadKey(a, now);
    if e.Some? {
      FoldedKey(e.value, now);
    }
  }

  lemma FiledMore(es: Entries, key: string, e: Entry)
    requires Filed(es) && AlertKey(e.alert) == key
    ensures Filed(es[key := e])
  {
  }

  lemma {:induction false} IngestFiled(es: Entries, alerts: seq<Alert>, now: int, window: int)
    requires Filed(es)
    ensures Filed(IngestEntries(es, alerts, now, window))
  {
    if alerts != [] {
      var front, a := alerts[..|alerts| - 1], alerts[|alerts| - 1];
      var before := IngestEntries(es, front, now, window);
      IngestFiled(es, front, now, window);
      EntryKey(Get(before, AlertKey(a)), a, now, window);
      FiledMore(before, AlertKey(a), StepEntry(Get(before, AlertKey(a)), Arrive(a, now), window).value);
    }
  }

  lemma {:induction false} RunFiled(ops: seq<Op>, window: int)
    ensures Filed(RunEntries(ops, window))
  {
    if ops != [] {
      RunFiled(ops[..|ops| - 1], window);
      var o := ops[|ops| - 1];
      if o.Ingest? {
        IngestFiled(RunEntries(ops[..|ops| - 1], window), o.alerts, o.now, window);
      }
    }
  }

  lemma FinalOwn(k: string, e: Entry)
    ensures Only(k, Final(e)) == if AlertKey(e.alert) == k then Final(e) else []
  {
    OnlyOne(k, e.alert);
  }

  /** A closed window of one key emits its final alert, if any, and the head of the next, both of that key. */
  lemma ClosingOwn(k: string, key: string, e: Entry, head: Alert)
    requires AlertKey(e.alert) == key && AlertKey(head) == key
    ensures Only(k, Final(e) + [head]) == if k == key then Final(e) + [head] else []
  {
    FinalOwn(k, e);
    OnlyOne(k, head);
    OnlyConcat(k, Final(e), [head]);
  }

  /** A step of the machine of one key emits alerts of that key only. */
  lemma StepOutOwn(k: string, key: string, e: Option<Entry>, o: Occurrence)
    requires e.Some? ==> AlertKey(e.value.alert) == key
    requires o.Arrive? ==> AlertKey(o.alert) == key
    ensures Only(k, StepOut(e, o)) == if k == key then StepOut(e, o) else []
  {
    match o
    case Tick(_) =>
      if e.Some? {
        FinalOwn(k, e.value);
      }
    case Arrive(a, now) =>
      HeadKey(a, now);
      if e.None? {
        OnlyOne(k, HeadOf(a, now));
      } else {
        ClosingOwn(k, key, e.value, HeadOf(a, now));
      }
  }

  lemma RunSnoc(os: seq<Occurrence>, o: Occurrence, window: int)
    ensures RunEntry(os + [o], window) == StepEntry(RunEntry(os, window), o, window)
    ensures RunOut(os + [o], window) == RunOut(os, window) + StepOut(RunEntry(os, window), o)
  {
    assert (os + [o])[..|os|] == os;
  }

  /** One alert moves the machine of its own key and no other. */
  lemma OneProjects(k: string, es: Entries, a: Alert, now: int, window: int, os: seq<Occurrence>)
    requires Filed(es) && Get(es, k) == RunEntry(os, window)
    ensures var key := AlertKey(a);
      var o := Arrive(a, now);
      var seen := os + if key == k then [o] else [];
      && Get(es[key := StepEntry(Get(es, key), o, window).value], k) == RunEntry(seen, window)
      && RunOut(os, window) + Only(k, StepOut(Get(es, key), o)) == RunOut(seen, window)
  {
    var key, o := AlertKey(a), Arrive(a, now);
    StepOutOwn(k, key, Get(es, key), o);
    EntryKey(Get(es, key), a, now, window);
    if key == k {
      RunSnoc(os, o, window);
    } else {
      assert os + [] == os;
      assert RunOut(os, window) + [] == RunOut(os, window);
    }
  }

  lemma ConcatAssociates<T>(a: seq<T>, b: seq<T>, c: seq<T>)
    ensures a + b + c == a + (b + c)
  {
  }

  /** A batch moves each key's machine by that key's own arrivals. */
  lemma {:induction false} IngestProjects(k: string, es: Entries, alerts: seq<Alert>, now: int, window: int, os: seq<Occurrence>)
    requires Filed(es) && Get(es, k) == RunEntry(os, window)
    ensures Get(IngestEntries(es, alerts, now, window), k) == RunEntry(os + ArrivalsOf(k, alerts, now), window)
    ensures RunOut(os, window) + Only(k, IngestOut(es, alerts, now, window)) ==
      RunOut(os + ArrivalsOf(k, alerts, now), window)
    decreases |alerts|
  {
    if alerts == [] {
      assert os + ArrivalsOf(k, alerts, now) == os;
    } else {
      var front, a := alerts[..|alerts| - 1], alerts[|alerts| - 1];
      IngestProjects(k, es, front, now, window, os);
      IngestFiled(es, front, now, window);
      var mid := IngestEntries(es, front, now, window);
      var seen := os + ArrivalsOf(k, front, now);
      OneProjects(k, mid, a, now, window, seen);
      ConcatAssociates(os, ArrivalsOf(k, front, now), if AlertKey(a) == k then [Arrive(a, now)] else []);
      var out, more := IngestOut(es, front, now, window), StepOut(Get(mid, AlertKey(a)), Arrive(a, now));
      OnlyConcat(k, out, more);
      ConcatAssociates(RunOut(os, window), Only(k, out), Only(k, more));
    }
  }

  lemma DistinctFront(order: seq<string>, keys: set<string>)
    requires order != [] && Enumerates(order, keys)
    ensures Enumerates(order[..|order| - 1], keys - {order[|order| - 1]})
  {
    var front, key := order[..|order| - 1], order[|order| - 1];
    assert order == front + [key];
    assert key !in front;
  }

  /** Reaping emits each key's final alert once, whatever the visiting order. */
  lemma {:induction false} ReapOnly(k: string, es: Entries, order: seq<string>, keys: set<string>, now: int)
    requires Filed(es) && keys <= es.Keys && Enumerates(order, keys)
    ensures Only(k, ReapOut(es, order, now)) == if k in keys then StepOut(Get(es, k), Tick(now)) else []
    decreases |order|
  {
    if order != [] {
      var front, key := order[..|order| - 1], order[|order| - 1];
      DistinctFront(order, keys);
      ReapOnly(k, es, front, keys - {key}, now);
      var out, more := ReapOut(es, front, now), StepOut(Get(es, key), Tick(now));
      assert key in keys;
      StepOutOwn(k, key, Get(es, key), Tick(now));
      assert Only(k, out + more) == Only(k, out) + Only(k, more) by {
        OnlyConcat(k, out, more);
      }
      assert k == key ==> Only(k, out) == [];
    } else {
      assert k !in order;
    }
  }

  lemma ReapProjects(k: string, es: Entries, order: seq<string>, now: int, window: int, os: seq<Occurrence>)
    requires Filed(es) && Enumerates(order, es.Keys) && Get(es, k) == RunEntry(os, window)
    ensures Get(ReapEntries(es, now), k) == RunEntry(os + [Tick(now)], window)
    ensures RunOut(os, window) + Only(k, ReapOut(es, order, now)) == RunOut(os + [Tick(now)], window)
  {
    ReapOnly(k, es, order, es.Keys, now);
    RunSnoc(os, Tick(now), window);
  }

  /** Keys are independent: over every run, each key behaves as a machine of its own. */
  lemma {:induction false} RunProjects(k: string, ops: seq<Op>, window: int)
    requires ValidRun(ops, window)
    ensures Get(RunEntries(ops, window), k) == RunEntry(Project(k, ops), window)
    ensures Only(k, RunOutputs(ops, window)) == RunOut(Project(k, ops), window)
    decreases |ops|
  {
    if ops != [] {
      var front, o := ops[..|ops| - 1], ops[|ops| - 1];
      assert forall i :: 0 <= i < |front| ==> front[..i] == ops[..i];
      RunProjects(k, front, window);
      RunFiled(front, window);
      var es := RunEntries(front, window);
      match o
      case Ingest(alerts, now) =>
        IngestProjects(k, es, alerts, now, window, Project(k, front));
        OnlyConcat(k, RunOutputs(front, window), IngestOut(es, alerts, now, window));
      case Reap(now, order) =>
        ReapProjects(k, es, order, now, window, Project(k, front));
        OnlyConcat(k, RunOutputs(front, window), ReapOut(es, order, now));
    }
  }

  /** The windows of key k over a run. */
  function WindowsOf(k: string, ops: seq<Op>, window: int): (ws: seq<Span>)
  {
    Ledger(Project(k, ops), window)
  }

  /** How many alerts of key k a run ingested. */
  function Ingested(k: string, ops: seq<Op>): (n: nat)
  {
    if ops == [] then 0
    else Ingested(k, ops[..|ops| - 1]) + if ops[|ops| - 1].Ingest? then |Only(k, ops[|ops| - 1].alerts)| else 0
  }

  lemma {:induction false} ArrivalsConcat(a: seq<Occurrence>, b: seq<Occurrence>)
    ensures Arrivals(a + b) == Arrivals(a) + Arrivals(b)
    decreases |b|
  {
    if b == [] {
      assert a + b == a;
    } else {
      assert (a + b)[..|a + b| - 1] == a + b[..|b| - 1];
      ArrivalsConcat(a, b[..|b| - 1]);
    }
  }

  lemma {:induction false} BatchArrivals(k: string, alerts: seq<Alert>, now: int)
    ensures Arrivals(ArrivalsOf(k, alerts, now)) == |Only(k, alerts)|
    decreases |alerts|
  {
    if alerts != [] {
      var front, a := alerts[..|alerts| - 1], alerts[|alerts| - 1];
      BatchArrivals(k, front, now);
      ArrivalsConcat(ArrivalsOf(k, front, now), if AlertKey(a) == k then [Arrive(a, now)] else []);
      assert Arrivals([Arrive(a, now)]) == 1;
    }
  }

  lemma {:induction false} IngestedIsArrivals(k: string, ops: seq<Op>)
    ensures Ingested(k, ops) == Arrivals(Project(k, ops))
    decreases |ops|
  {
    if ops != [] {
      var front, o := ops[..|ops| - 1], ops[|ops| - 1];
      IngestedIsArrivals(k, front);
      match o
      case Ingest(alerts, now) =>
        BatchArrivals(k, alerts, now);
        ArrivalsConcat(Project(k, front), ArrivalsOf(k, alerts, now));
      case Reap(now, _) =>
        ArrivalsConcat(Project(k, front), [Tick(now)]);
        assert Arrivals([Tick(now)]) == 0;
    }
  }

  /** Over every interleaving of batches and reaps: the alerts ingested for a key are the counts of its windows,
      and what went downstream for that key is one head per window and one final alert per closed window
      with repeats. Only the last window may be open, and then it is the stored entry. */
  lemma Conservation(k: string, ops: seq<Op>, window: int)
    requires ValidRun(ops, window)
    ensures Ingested(k, ops) == TotalCount(WindowsOf(k, ops, window))
    ensures Only(k, RunOutputs(ops, window)) == EmittedAll(WindowsOf(k, ops, window))
    ensures Get(RunEntries(ops, window), k) == OpenEntry(WindowsOf(k, ops, window), window)
    ensures WellKept(WindowsOf(k, ops, window))
  {
    var os := Project(k, ops);
    IngestedIsArrivals(k, ops);
    WindowsConserve(os, window);
    RunProjects(k, ops, window);
    OutputsAreEmissions(os, window);
    EntryIsOpenWindow(os, window);
    LedgerWellKept(os, window);
  }

  /** The same balance seen from outside: downstream alerts account for every ingested alert of the key
      except the repeats still held in its open window. */
  lemma NothingLost(k: string, ops: seq<Op>, window: int)
    requires ValidRun(ops, window)
    ensures Ingested(k, ops) ==
      AccountedAll(Only(k, RunOutputs(ops, window))) + PendingRepeats(Get(RunEntries(ops, window), k))
  {
    Conservation(k, ops, window);
    EmissionsAccount(WindowsOf(k, ops, window), window);
  }

  ghost predicate MonotoneRun(ops: seq<Op>)
  {
    forall i, j :: 0 <= i < j < |ops| ==> ops[i].now <= ops[j].now
  }

  lemma {:induction false} BatchTimes(k: string, alerts: seq<Alert>, now: int)
    ensures forall i :: 0 <= i < |ArrivalsOf(k, alerts, now)| ==> TimeOf(ArrivalsOf(k, alerts, now)[i]) == now
    decreases |alerts|
  {
    if alerts != [] {
      BatchTimes(k, alerts[..|alerts| - 1], now);
    }
  }

  lemma {:induction false} ProjectMonotone(k: string, ops: seq<Op>)
    requires MonotoneRun(ops)
    ensures Monotone(Project(k, ops))
    ensures forall i :: 0 <= i < |Project(k, ops)| ==> ops != [] && TimeOf(Project(k, ops)[i]) <= ops[|ops| - 1].now
    decreases |ops|
  {
    if ops != [] {
      var front, o := ops[..|ops| - 1], ops[|ops| - 1];
      ProjectMonotone(k, front);
      if o.Ingest? {
        BatchTimes(k, o.alerts, o.now);
      }
    }
  }

  lemma {:induction false} EmissionsTimed(ws: seq<Span>, window: int)
    requires window > 0 && Spaced(ws, window)
    ensures forall i :: 0 <= i < |EmittedAll(ws)| ==>
      var a := EmittedAll(ws)[i]; a.firstSeen <= a.lastSeen <= a.firstSeen + window
    decreases |ws|
  {
    if ws != [] {
      EmissionsTimed(ws[..|ws| - 1], window);
    }
  }

  /** With a clock that never runs backwards, windows of one key start at least one window length apart,
      and every alert sent downstream spans at most one window length. */
  lemma WindowTiming(k: string, ops: seq<Op>, window: int)
    requires ValidRun(ops, window) && window > 0 && MonotoneRun(ops)
    ensures forall i, j :: 0 <= i < j < |WindowsOf(k, ops, window)| ==>
      WindowsOf(k, ops, window)[i].start + window <= WindowsOf(k, ops, window)[j].start
    ensures forall i :: 0 <= i < |Only(k, RunOutputs(ops, window))| ==>
      var a := Only(k, RunOutputs(ops, window))[i]; a.firstSeen <= a.lastSeen <= a.firstSeen + window
  {
    Conservation(k, ops, window);
    ProjectMonotone(k, ops);
    LedgerSpaced(Project(k, ops), window, if ops == [] then 0 else ops[|ops| - 1].now);
    EmissionsTimed(WindowsOf(k, ops, window), window);
  }

  /** Over every interleaving a key has an entry exactly if the last window it opened has not ended, by a reap at or after
      its end or by an arrival after it. */
  lemma EntryIff(k: string, ops: seq<Op>, window: int)
    requires ValidRun(ops, window)
    ensures Get(RunEntries(ops, window), k).Some? <==> exists i :: StaysOpen(Project(k, ops), i, window)
  {
    RunProjects(k, ops, window);
    OpenWindowIff(Project(k, ops), window);
  }
}
