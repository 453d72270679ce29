/** The time windows of one aggregation key: the machine that keeps one open entry, and the ledger it implements. */
module AlertWindows {
  import opened AggregationKey
  import opened Wrappers

  /** The file part of an alert's triggering event. */
  datatype FileInfo = FileInfo(fdPath: string, filename: string)

  /** An alert: the fields the aggregator reads or writes, and body for all the others. */
  datatype Alert = Alert(
    ruleID: string, comm: string, file: Option<FileInfo>, namespace: string, pod: string, body: nat,
    count: nat, firstSeen: int, lastSeen: int)

  /** The running aggregate of one key. */
  datatype Entry = Entry(alert: Alert, windowEnd: int)

  type Entries = map<string, Entry>

  function AlertPath(a: Alert): (path: string)
  {
    match a.file
    case None => []
    case Some(f) => if f.fdPath != [] then f.fdPath else f.filename
  }

  /** Which path counts: the one resolved from the descriptor if there is one, otherwise the file name, and none for an
      event without a file. */
  lemma PathChosen(a: Alert)
    ensures a.file.None? ==> PartsOf(a).path == ""
    ensures forall f :: a.file == Some(f) && f.fdPath != "" ==> PartsOf(a).path == Normalized(f.fdPath)
    ensures forall f :: a.file == Some(f) && f.fdPath == "" ==> PartsOf(a).path == Normalized(f.filename)
  {
  }

  function PartsOf(a: Alert): (p: Parts)
  {
    Parts(a.ruleID, a.comm, Normalized(AlertPath(a)), a.namespace, a.pod)
  }

  function AlertKey(a: Alert): (key: string)
  {
    KeyOf(PartsOf(a))
  }

  /** An alert shares its key with exactly the alerts of equal components, if it has no bar in a component. */
  lemma AlertKeysSeparate(a: Alert, b: Alert)
    requires BarFree(PartsOf(a))
    ensures AlertKey(a) == AlertKey(b) <==> PartsOf(a) == PartsOf(b)
  {
    UnambiguousIffBarFree(PartsOf(a));
  }

  lemma PathIsNormal(a: Alert)
    ensures NormalPath(PartsOf(a).path)
  {
    NormalizeIdempotent(AlertPath(a));
    NormalIffFixed(PartsOf(a).path);
  }

  /** An alert has the components p exactly if their path is one that normalisation gives. */
  lemma AlertOf(p: Parts) returns (a: Alert)
    requires NormalPath(p.path)
    ensures PartsOf(a) == p
  {
    a := Alert(p.ruleID, p.comm, Some(FileInfo(p.path, [])), p.namespace, p.pod, 0, 1, 0, 0);
    NormalIffFixed(p.path);
  }

  /** Some other alert shares the key of an alert. */
  ghost predicate Shared(a: Alert)
  {
    exists b: Alert :: AlertKey(b) == AlertKey(a) && PartsOf(b) != PartsOf(a)
  }

  /** Some stretch of the path between bars is itself a path that normalisation gives. */
  ghost predicate NormalStretch(path: string)
  {
    exists pre, t, post :: Stretch(path, pre, t, post) && NormalPath(t)
  }

  lemma SharedByFields(a: Alert)
    requires !BarsInPathOnly(PartsOf(a))
    ensures Shared(a)
  {
    PathIsNormal(a);
    var q := Collision(PartsOf(a));
    var b := AlertOf(q);
  }

  lemma SharedByPath(a: Alert)
    requires NormalStretch(PartsOf(a).path)
    ensures Shared(a)
  {
    var p := PartsOf(a);
    var pre, t, post :| Stretch(p.path, pre, t, post) && NormalPath(t);
    var q := StretchIsCut(p, pre, t, post);
    var b := AlertOf(q);
    assert |q.path| < |p.path|;
  }

  lemma SharedHasStretch(a: Alert)
    requires Shared(a) && BarsInPathOnly(PartsOf(a))
    ensures NormalStretch(PartsOf(a).path)
  {
    var b: Alert :| AlertKey(b) == AlertKey(a) && PartsOf(b) != PartsOf(a);
    var pre, post := OtherCut(PartsOf(a), PartsOf(b));
    PathIsNormal(b);
  }

  /** Exactly when different alerts share a key: the rule, the command, the namespace or the pod has a bar, or
      some stretch of the path between bars is itself a path that normalisation gives. */
  lemma AlertCollisionIff(a: Alert)
    ensures Shared(a) <==>
      BAR in a.ruleID || BAR in a.comm || BAR in a.namespace || BAR in a.pod || NormalStretch(PartsOf(a).path)
  {
    if !BarsInPathOnly(PartsOf(a)) {
      SharedByFields(a);
    } else if NormalStretch(PartsOf(a).path) {
      SharedByPath(a);
    } else if Shared(a) {
      SharedHasStretch(a);
    }
  }

  /** For one: a bar that moves between rule and command. */
  lemma BarMoves(a: Alert, b: Alert)
    requires a.ruleID == "x|y" && a.comm == "z" && b == a.(ruleID := "x", comm := "y|z")
    ensures AlertKey(a) == AlertKey(b) && PartsOf(a) != PartsOf(b)
  {
    var tail := PartsOf(a).path + [BAR] + (a.namespace + [BAR] + a.pod);
    assert "x|y" + [BAR] + ("z" + [BAR] + tail) == "x" + [BAR] + ("y|z" + [BAR] + tail);
    assert |a.ruleID| != |b.ruleID|;
  }

  /** And a bar that does no harm: neither part of the path /1|b is a path that normalisation gives. */
  lemma HarmlessBar(a: Alert)
    requires PartsOf(a).path == "/1|b" && BarsInPathOnly(PartsOf(a))
    ensures !Shared(a)
  {
    AlertCollisionIff(a);
    forall pre, t, post | Stretch("/1|b", pre, t, post)
      ensures !NormalPath(t)
    {
      PartsOfHarmless(pre, t, post);
      NormalIffFixed(t);
    }
  }

  lemma PartsOfHarmless(pre: string, t: string, post: string)
    requires Stretch("/1|b", pre, t, post)
    ensures Normalized(t) != t
  {
    var s := "/1|b";
    assert s[2] == BAR;
    assert forall i :: 0 <= i < 4 && i != 2 ==> s[i] != BAR;
    assert pre == s[..|pre|] && t == s[|pre|..|pre| + |t|] && post == s[|pre| + |t|..];
    assert post != [] ==> post[0] == s[|pre| + |t|];
    if pre == [] {
      assert t == "/1";
      NumberIsStarred();
    } else {
      assert pre[|pre| - 1] == s[|pre| - 1];
      assert t == "b";
      assert Normalized(t)[0] == '/';
    }
  }

  lemma NumberIsStarred()
    ensures Normalized("/1") == "/*" != "/1"
  {
    assert "/1"[1..] == "1" && "1"[1..] == "";
    SplitFirst("1", "");
    assert Split("/1") == ["", "1"];
    assert ["", "1"][1..] == ["1"] && ["1"][1..] == [];
    assert IsNumericSpec("1");
    assert Kept(["1"], MAX_DEPTH) == ["*"];
    assert Normalized("/1") == ['/'] + Join(["*"]) == "/*";
    assert "/*"[1] != "/1"[1];
  }

  // ------------------------------------------------------------ one key's machine

  /** What one key sees of a run. */
  datatype Occurrence = Arrive(alert: Alert, now: int) | Tick(now: int)

  function HeadOf(a: Alert, now: int): (h: Alert)
  {
    a.(count := 1, firstSeen := now, lastSeen := now)
  }

  function Opened(a: Alert, now: int, window: int): (e: Entry)
  {
    Entry(HeadOf(a, now), now + window)
  }

  function Folded(e: Entry, now: int): (r: Entry)
  {
    e.(alert := e.alert.(count := e.alert.count + 1, lastSeen := now))
  }

  /** The final alert of a window, if it had repeats. */
  function Final(e: Entry): (out: seq<Alert>)
  {
    if e.alert.count > 1 then [e.alert] else []
  }

  function StepEntry(e: Option<Entry>, o: Occurrence, window: int): (r: Option<Entry>)
  {
    match o
    case Arrive(a, now) =>
      if e.None? || now > e.value.windowEnd then Some(Opened(a, now, window)) else Some(Folded(e.value, now))
    case Tick(now) =>
      if e.Some? && now >= e.value.windowEnd then None else e
  }

  function StepOut(e: Option<Entry>, o: Occurrence): (out: seq<Alert>)
  {
    match o
    case Arrive(a, now) =>
      if e.None? then [HeadOf(a, now)]
      else if now > e.value.windowEnd then Final(e.value) + [HeadOf(a, now)]
      else []
    case Tick(now) =>
      if e.Some? && now >= e.value.windowEnd then Final(e.value) else []
  }

  function RunEntry(os: seq<Occurrence>, window: int): (r: Option<Entry>)
  {
    if os == [] then None else StepEntry(RunEntry(os[..|os| - 1], window), os[|os| - 1], window)
  }

  function RunOut(os: seq<Occurrence>, window: int): (out: seq<Alert>)
  {
    if os == [] then []
    else RunOut(os[..|os| - 1], window) + StepOut(RunEntry(os[..|os| - 1], window), os[|os| - 1])
  }

  // ------------------------------------------------------------------- the ledger

  /** A window: the alert that opened it, when, how many alerts it took and when the last came. */
  datatype Span = Span(opener: Alert, start: int, count: nat, last: int, closed: bool)

  /** A window opens at an arrival and takes the arrivals up to and including its end. The first later
      arrival closes it, and so does the first tick at or after its end. */
  function LedgerStep(ws: seq<Span>, o: Occurrence, window: int): (vs: seq<Span>)
  {
    var n := |ws| - 1;
    var open := n >= 0 && !ws[n].closed;
    match o
    case Arrive(a, now) =>
      if open && now <= ws[n].start + window then ws[n := ws[n].(count := ws[n].count + 1, last := now)]
      else (if open then ws[n := ws[n].(closed := true)] else ws) + [Span(a, now, 1, now, false)]
    case Tick(now) =>
      if open && now >= ws[n].start + window then ws[n := ws[n].(closed := true)] else ws
  }

  /** All windows of one key, oldest first. */
  function Ledger(os: seq<Occurrence>, window: int): (ws: seq<Span>)
  {
    if os == [] then [] else LedgerStep(Ledger(os[..|os| - 1], window), os[|os| - 1], window)
  }

  function FinalOf(w: Span): (a: Alert)
  {
    w.opener.(count := w.count, firstSeen := w.start, lastSeen := w.last)
  }

  /** What a window sends downstream: one head, and one final alert once it is closed with repeats. */
  function Emitted(w: Span): (out: seq<Alert>)
  {
    [HeadOf(w.opener, w.start)] + if w.closed && w.count > 1 then [FinalOf(w)] else []
  }

  function EmittedAll(ws: seq<Span>): (out: seq<Alert>)
  {
    if ws == [] then [] else EmittedAll(ws[..|ws| - 1]) + Emitted(ws[|ws| - 1])
  }

  /** The entry that a ledger's last window, if open, corresponds to. */
  function OpenEntry(ws: seq<Span>, window: int): (e: Option<Entry>)
  {
    if ws == [] || ws[|ws| - 1].closed then None
    else Some(Entry(FinalOf(ws[|ws| - 1]), ws[|ws| - 1].start + window))
  }

  /** Every window took at least its opener, and only the last may be open. */
  ghost predicate WellKept(ws: seq<Span>)
  {
    forall i :: 0 <= i < |ws| ==> ws[i].count >= 1 && (i < |ws| - 1 ==> ws[i].closed)
  }

  lemma {:induction false} LedgerWellKept(os: seq<Occurrence>, window: int)
    ensures WellKept(Ledger(os, window))
  {
    if os != [] {
      LedgerWellKept(os[..|os| - 1], window);
    }
  }

  /** The machine's one entry is the ledger's open window. */
  lemma {:induction false} EntryIsOpenWindow(os: seq<Occurrence>, window: int)
    ensures RunEntry(os, window) == OpenEntry(Ledger(os, window), window)
  {
    if os != [] {
      EntryIsOpenWindow(os[..|os| - 1], window);
    }
  }

  lemma EmittedLast(ws: seq<Span>, w: Span)
    requires ws != []
    ensures EmittedAll(ws[|ws| - 1 := w]) == EmittedAll(ws[..|ws| - 1]) + Emitted(w)
  {
    var vs := ws[|ws| - 1 := w];
    assert vs[..|vs| - 1] == ws[..|ws| - 1];
  }

  lemma EmittedMore(ws: seq<Span>, w: Span)
    ensures EmittedAll(ws + [w]) == EmittedAll(ws) + Emitted(w)
  {
    assert (ws + [w])[..|ws|] == ws;
  }

  /** Closing the open window adds exactly its final alert. */
  lemma EmittedClose(ws: seq<Span>, window: int)
    requires ws != [] && !ws[|ws| - 1].closed
    ensures EmittedAll(ws[|ws| - 1 := ws[|ws| - 1].(closed := true)]) ==
      EmittedAll(ws) + Final(OpenEntry(ws, window).value)
  {
    var w := ws[|ws| - 1];
    EmittedLast(ws, w.(closed := true));
    var front := EmittedAll(ws[..|ws| - 1]);
    assert Emitted(w) == [HeadOf(w.opener, w.start)];
    assert front + Emitted(w.(closed := true)) == front + Emitted(w) + Final(OpenEntry(ws, window).value);
  }

  lemma EmittedStep(ws: seq<Span>, o: Occurrence, window: int)
    ensures EmittedAll(LedgerStep(ws, o, window)) == EmittedAll(ws) + StepOut(OpenEntry(ws, window), o)
  {
    var e := OpenEntry(ws, window);
    match o
    case Arrive(a, now) =>
      var head := Span(a, now, 1, now, false);
      if e.None? {
        EmittedMore(ws, head);
      } else if now > e.value.windowEnd {
        EmittedClose(ws, window);
        EmittedMore(ws[|ws| - 1 := ws[|ws| - 1].(closed := true)], head);
        assert EmittedAll(ws) + Final(e.value) + Emitted(head) == EmittedAll(ws) + (Final(e.value) + [HeadOf(a, now)]);
      } else {
        EmittedLast(ws, LedgerStep(ws, o, window)[|ws| - 1]);
      }
    case Tick(now) =>
      if e.Some? && now >= e.value.windowEnd {
        EmittedClose(ws, window);
      }
  }

  /** A key's outputs are its windows' emissions, in order: never a second head or final alert. */
  lemma {:induction false} OutputsAreEmissions(os: seq<Occurrence>, window: int)
    ensures RunOut(os, window) == EmittedAll(Ledger(os, window))
  {
    if os != [] {
      var front := os[..|os| - 1];
      OutputsAreEmissions(front, window);
      EntryIsOpenWindow(front, window);
      EmittedStep(Ledger(front, window), os[|os| - 1], window);
    }
  }

  // ----------------------------------------------------------------- conservation

  function Arrivals(os: seq<Occurrence>): (n: nat)
  {
    if os == [] then 0 else Arrivals(os[..|os| - 1]) + if os[|os| - 1].Arrive? then 1 else 0
  }

  function TotalCount(ws: seq<Span>): (n: nat)
  {
    if ws == [] then 0 else TotalCount(ws[..|ws| - 1]) + ws[|ws| - 1].count
  }

  lemma TotalCountLast(ws: seq<Span>, w: Span)
    requires ws != []
    ensures TotalCount(ws[|ws| - 1 := w]) == TotalCount(ws) - ws[|ws| - 1].count + w.count
  {
    var vs := ws[|ws| - 1 := w];
    assert vs[..|vs| - 1] == ws[..|ws| - 1];
  }

  lemma TotalCountMore(ws: seq<Span>, w: Span)
    ensures TotalCount(ws + [w]) == TotalCount(ws) + w.count
  {
    assert (ws + [w])[..|ws|] == ws;
  }

  /** Every arrival is counted in exactly one window. */
  lemma {:induction false} WindowsConserve(os: seq<Occurrence>, window: int)
    ensures TotalCount(Ledger(os, window)) == Arrivals(os)
  {
    if os != [] {
      WindowsConserve(os[..|os| - 1], window);
      var ws, vs, o := Ledger(os[..|os| - 1], window), Ledger(os, window), os[|os| - 1];
      if o.Arrive? {
        var head := Span(o.alert, o.now, 1, o.now, false);
        if ws == [] || ws[|ws| - 1].closed {
          TotalCountMore(ws, head);
        } else if o.now <= ws[|ws| - 1].start + window {
          TotalCountLast(ws, vs[|ws| - 1]);
        } else {
          var closed := ws[|ws| - 1].(closed := true);
          TotalCountLast(ws, closed);
          TotalCountMore(ws[|ws| - 1 := closed], head);
        }
      } else if ws != [] {
        TotalCountLast(ws, vs[|ws| - 1]);
      }
    }
  }

  /** How many ingested alerts a downstream alert newly accounts for: a head one, a final alert its repeats. */
  function Accounted(a: Alert): (n: nat)
  {
    if a.count <= 1 then a.count else a.count - 1
  }

  function AccountedAll(out: seq<Alert>): (n: nat)
  {
    if out == [] then 0 else AccountedAll(out[..|out| - 1]) + Accounted(out[|out| - 1])
  }

  lemma {:induction false} AccountedConcat(a: seq<Alert>, b: seq<Alert>)
    ensures AccountedAll(a + b) == AccountedAll(a) + AccountedAll(b)
    decreases |b|
  {
    if b == [] {
      assert a + b == a;
    } else {
      assert (a + b)[..|a + b| - 1] == a + b[..|b| - 1];
      AccountedConcat(a, b[..|b| - 1]);
    }
  }

  /** Repeats folded into an open window and not yet reported. */
  function PendingRepeats(e: Option<Entry>): (n: nat)
  {
    if e.Some? && e.value.alert.count > 0 then e.value.alert.count - 1 else 0
  }

  lemma EmittedAccounts(w: Span)
    requires w.count >= 1
    ensures AccountedAll(Emitted(w)) == if w.closed then w.count else 1
  {
    var head, last := [HeadOf(w.opener, w.start)], [FinalOf(w)];
    assert AccountedAll(head) == Accounted(head[0]) && AccountedAll(last) == Accounted(last[0]);
    AccountedConcat(head, last);
    assert head + [] == head;
  }

  lemma {:induction false} EmissionsAccount(ws: seq<Span>, window: int)
    requires WellKept(ws)
    ensures AccountedAll(EmittedAll(ws)) + PendingRepeats(OpenEntry(ws, window)) == TotalCount(ws)
  {
    if ws != [] {
      var front, w := ws[..|ws| - 1], ws[|ws| - 1];
      assert WellKept(front) && OpenEntry(front, window).None?;
      EmissionsAccount(front, window);
      EmittedAccounts(w);
      AccountedConcat(EmittedAll(front), Emitted(w));
    }
  }

  // ------------------------------------------------------------------------- time

  function TimeOf(o: Occurrence): int { o.now }

  /** The clock never runs backwards. */
  ghost predicate Monotone(os: seq<Occurrence>)
  {
    forall i, j :: 0 <= i < j < |os| ==> TimeOf(os[i]) <= TimeOf(os[j])
  }

  /** Windows hold their arrivals within their length and start at least that far apart. */
  ghost predicate Spaced(ws: seq<Span>, window: int)
  {
    (forall i :: 0 <= i < |ws| ==> ws[i].start <= ws[i].last <= ws[i].start + window) &&
    (forall i, j :: 0 <= i < j < |ws| ==> ws[i].start + window <= ws[j].start)
  }

  /** Nothing in a ledger is later than now, and closed windows have ended by then. */
  ghost predicate Past(ws: seq<Span>, window: int, now: int)
  {
    forall i :: 0 <= i < |ws| ==> ws[i].last <= now && (ws[i].closed ==> ws[i].start + window <= now)
  }

  lemma SpacedOpen(ws: seq<Span>, a: Alert, now: int, window: int)
    requires window > 0 && Spaced(ws, window) && Past(ws, window, now)
    requires forall i :: 0 <= i < |ws| ==> ws[i].closed
    ensures Spaced(ws + [Span(a, now, 1, now, false)], window) && Past(ws + [Span(a, now, 1, now, false)], window, now)
  {
  }

  lemma SpacedClose(ws: seq<Span>, now: int, window: int)
    requires ws != [] && Spaced(ws, window) && Past(ws, window, now) && ws[|ws| - 1].start + window <= now
    ensures var vs := ws[|ws| - 1 := ws[|ws| - 1].(closed := true)]; Spaced(vs, window) && Past(vs, window, now)
  {
  }

  lemma SpacedStep(ws: seq<Span>, o: Occurrence, window: int)
    requires window > 0 && WellKept(ws) && Spaced(ws, window) && Past(ws, window, TimeOf(o))
    ensures Spaced(LedgerStep(ws, o, window), window) && Past(LedgerStep(ws, o, window), window, TimeOf(o))
  {
    var n := |ws| - 1;
    if n >= 0 && !ws[n].closed {
      if ws[n].start + window <= o.now {
        SpacedClose(ws, o.now, window);
      }
      if o.Arrive? && ws[n].start + window < o.now {
        SpacedOpen(ws[n := ws[n].(closed := true)], o.alert, o.now, window);
      }
    } else if o.Arrive? {
      SpacedOpen(ws, o.alert, o.now, window);
    }
  }

  lemma {:induction false} LedgerSpaced(os: seq<Occurrence>, window: int, now: int)
    requires window > 0 && Monotone(os) && (os != [] ==> TimeOf(os[|os| - 1]) <= now)
    ensures Spaced(Ledger(os, window), window) && Past(Ledger(os, window), window, now)
  {
    if os != [] {
      var front, o := os[..|os| - 1], os[|os| - 1];
      assert front != [] ==> TimeOf(front[|front| - 1]) <= TimeOf(o);
      LedgerSpaced(front, window, TimeOf(o));
      LedgerWellKept(front, window);
      SpacedStep(Ledger(front, window), o, window);
    }
  }

  // ---------------------------------------------------------- which window is open

  /** An occurrence ends a window that started at start: a tick at or after its end, or an arrival after its end. */
  predicate Ends(o: Occurrence, start: int, window: int)
  {
    if o.Tick? then o.now >= start + window else o.now > start + window
  }

  ghost predicate EndedBy(os: seq<Occurrence>, j: int, i: int, window: int)
    requires 0 <= j < |os|
  {
    exists k :: 0 <= k < |os| && j < k <= i && Ends(os[k], TimeOf(os[j]), window)
  }

  /** Arrival i opens a window: every window opened before has ended by then. */
  ghost predicate Opens(os: seq<Occurrence>, i: int, window: int)
    decreases i
  {
    0 <= i < |os| && os[i].Arrive? && forall j :: 0 <= j < i && Opens(os, j, window) ==> EndedBy(os, j, i, window)
  }

  /** Arrival i opened a window that nothing has ended since. */
  ghost predicate StaysOpen(os: seq<Occurrence>, i: int, window: int)
  {
    Opens(os, i, window) && !EndedBy(os, i, |os| - 1, window)
  }

  lemma EndedFront(os: seq<Occurrence>, o: Occurrence, j: int, i: int, window: int)
    requires 0 <= j < |os| && i < |os|
    ensures EndedBy(os + [o], j, i, window) <==> EndedBy(os, j, i, window)
  {
    var more := os + [o];
    assert more[j] == os[j];
    if k :| 0 <= k < |more| && j < k <= i && Ends(more[k], TimeOf(more[j]), window) {
      assert Ends(os[k], TimeOf(os[j]), window);
    }
    if k :| 0 <= k < |os| && j < k <= i && Ends(os[k], TimeOf(os[j]), window) {
      assert Ends(more[k], TimeOf(more[j]), window);
    }
  }

  lemma EndedLast(os: seq<Occurrence>, o: Occurrence, j: int, window: int)
    requires 0 <= j < |os|
    ensures EndedBy(os + [o], j, |os|, window) <==>
      EndedBy(os, j, |os| - 1, window) || Ends(o, TimeOf(os[j]), window)
  {
    var more := os + [o];
    assert more[j] == os[j] && more[|os|] == o;
    EndedFront(os, o, j, |os| - 1, window);
    if k :| 0 <= k < |more| && j < k <= |os| && Ends(more[k], TimeOf(more[j]), window) {
      assert k < |os| ==> EndedBy(more, j, |os| - 1, window);
    }
    if EndedBy(more, j, |os| - 1, window) {
      var k :| 0 <= k < |more| && j < k <= |os| - 1 && Ends(more[k], TimeOf(more[j]), window);
      assert Ends(more[k], TimeOf(more[j]), window);
    }
  }

  lemma {:induction false} OpensFront(os: seq<Occurrence>, o: Occurrence, i: int, window: int)
    requires i < |os|
    ensures Opens(os + [o], i, window) <==> Opens(os, i, window)
    decreases i
  {
    if 0 <= i {
      assert (os + [o])[i] == os[i];
      forall j | 0 <= j < i
        ensures Opens(os + [o], j, window) <==> Opens(os, j, window)
        ensures EndedBy(os + [o], j, i, window) <==> EndedBy(os, j, i, window)
      {
        OpensFront(os, o, j, window);
        EndedFront(os, o, j, i, window);
      }
    }
  }

  lemma OpensLast(os: seq<Occurrence>, o: Occurrence, window: int)
    ensures Opens(os + [o], |os|, window) <==>
      o.Arrive? && forall j :: 0 <= j < |os| && StaysOpen(os, j, window) ==> Ends(o, TimeOf(os[j]), window)
  {
    var more := os + [o];
    assert more[|os|] == o;
    forall j | 0 <= j < |os|
      ensures Opens(more, j, window) <==> Opens(os, j, window)
      ensures EndedBy(more, j, |os|, window) <==> EndedBy(os, j, |os| - 1, window) || Ends(o, TimeOf(os[j]), window)
    {
      OpensFront(os, o, j, window);
      EndedLast(os, o, j, window);
    }
  }

  lemma StaysFront(os: seq<Occurrence>, o: Occurrence, i: int, window: int)
    requires 0 <= i < |os|
    ensures StaysOpen(os + [o], i, window) <==> StaysOpen(os, i, window) && !Ends(o, TimeOf(os[i]), window)
  {
    OpensFront(os, o, i, window);
    EndedLast(os, o, i, window);
  }

  lemma StaysLast(os: seq<Occurrence>, o: Occurrence, window: int)
    ensures StaysOpen(os + [o], |os|, window) <==> Opens(os + [o], |os|, window)
  {
  }

  /** At most one window is open. */
  lemma OpenUnique(os: seq<Occurrence>, i: int, j: int, window: int)
    requires StaysOpen(os, i, window) && StaysOpen(os, j, window)
    ensures i == j
  {
    if i < j {
      OpenIsLater(os, i, j, window);
    } else if j < i {
      OpenIsLater(os, j, i, window);
    }
  }

  lemma OpenIsLater(os: seq<Occurrence>, i: int, j: int, window: int)
    requires 0 <= i < j && StaysOpen(os, i, window)
    ensures !Opens(os, j, window)
  {
    EndedLater(os, i, j, window);
  }

  lemma EndedLater(os: seq<Occurrence>, i: int, j: int, window: int)
    requires 0 <= i < |os|
    ensures EndedBy(os, i, j, window) ==> EndedBy(os, i, |os| - 1, window)
  {
    if k :| 0 <= k < |os| && i < k <= j && Ends(os[k], TimeOf(os[i]), window) {
      assert k <= |os| - 1;
    }
  }

  /** The time of the last arrival. */
  function LastArrival(os: seq<Occurrence>): (time: int)
  {
    if os == [] then 0
    else if os[|os| - 1].Arrive? then os[|os| - 1].now
    else LastArrival(os[..|os| - 1])
  }

  /** The entry is that of the window opened by arrival i. */
  ghost predicate IsEntryOf(e: Option<Entry>, os: seq<Occurrence>, i: int, window: int)
    requires 0 <= i < |os| && os[i].Arrive?
  {
    && e.Some? && e.value.windowEnd == os[i].now + window
    && e.value.alert == os[i].alert.(
         count := e.value.alert.count, firstSeen := os[i].now, lastSeen := e.value.alert.lastSeen)
    && e.value.alert.count == Arrivals(os) - Arrivals(os[..i])
    && e.value.alert.lastSeen == LastArrival(os)
  }

  /** After every sequence of arrivals and ticks, a key has an entry exactly if the last window opened has not ended: by
      a tick at or after its end or an arrival after it. The entry carries the opener, its time, the number of
      arrivals since and the time of the last. */
  lemma {:induction false} OpenWindowIff(os: seq<Occurrence>, window: int)
    ensures RunEntry(os, window).Some? <==> exists i :: StaysOpen(os, i, window)
    ensures forall i :: StaysOpen(os, i, window) ==> IsEntryOf(RunEntry(os, window), os, i, window)
  {
    if os != [] {
      var front, o := os[..|os| - 1], os[|os| - 1];
      assert os == front + [o];
      OpenWindowIff(front, window);
      OpensLast(front, o, window);
      StaysLast(front, o, window);
      if j :| StaysOpen(front, j, window) {
        OpenStep(front, o, j, window);
      } else {
        OpenNew(front, o, window);
      }
    }
  }

  /** The entry of a window that an arrival just opened. */
  lemma NewEntry(os: seq<Occurrence>, a: Alert, now: int, window: int)
    requires RunEntry(os, window).None? || now > RunEntry(os, window).value.windowEnd
    ensures var more := os + [Arrive(a, now)]; IsEntryOf(RunEntry(more, window), more, |os|, window)
  {
    var more := os + [Arrive(a, now)];
    assert more[..|os|] == os && more[..|more| - 1] == os && more[|os|] == Arrive(a, now);
  }

  lemma OpenStep(os: seq<Occurrence>, o: Occurrence, j: int, window: int)
    requires StaysOpen(os, j, window) && IsEntryOf(RunEntry(os, window), os, j, window)
    ensures RunEntry(os + [o], window).Some? <==> exists i :: StaysOpen(os + [o], i, window)
    ensures forall i :: StaysOpen(os + [o], i, window) ==> IsEntryOf(RunEntry(os + [o], window), os + [o], i, window)
  {
    var more := os + [o];
    assert more[..|os|] == os && more[..j] == os[..j] && more[j] == os[j] && more[|os|] == o;
    OpensLast(os, o, window);
    StaysFront(os, o, j, window);
    forall i | 0 <= i < |os| && StaysOpen(more, i, window)
      ensures i == j
    {
      StaysFront(os, o, i, window);
      OpenUnique(os, i, j, window);
    }
    forall i | 0 <= i < |os| && StaysOpen(os, i, window)
      ensures i == j
    {
      OpenUnique(os, i, j, window);
    }
    if Ends(o, TimeOf(os[j]), window) && o.Arrive? {
      NewEntry(os, o.alert, o.now, window);
      assert StaysOpen(more, |os|, window);
    }
  }

  lemma OpenNew(os: seq<Occurrence>, o: Occurrence, window: int)
    requires RunEntry(os, window).None? && forall i :: !StaysOpen(os, i, window)
    ensures RunEntry(os + [o], window).Some? <==> exists i :: StaysOpen(os + [o], i, window)
    ensures forall i :: StaysOpen(os + [o], i, window) ==> IsEntryOf(RunEntry(os + [o], window), os + [o], i, window)
  {
    var more := os + [o];
    assert more[..|os|] == os && more[|os|] == o;
    OpensLast(os, o, window);
    forall i | 0 <= i < |os|
      ensures !StaysOpen(more, i, window)
    {
      StaysFront(os, o, i, window);
    }
    assert |more| - 1 == |os|;
    if o.Arrive? {
      NewEntry(os, o.alert, o.now, window);
      assert StaysOpen(more, |os|, window);
    }
  }

  /** An arrival is forwarded at once, as a head, exactly if it opens a window. */
  lemma HeadIff(os: seq<Occurrence>, a: Alert, now: int, window: int)
    ensures var out := StepOut(RunEntry(os, window), Arrive(a, now));
      (out != [] && out[|out| - 1] == HeadOf(a, now)) <==> Opens(os + [Arrive(a, now)], |os|, window)
  {
    OpenWindowIff(os, window);
    OpensLast(os, Arrive(a, now), window);
    if j :| StaysOpen(os, j, window) {
      forall i | 0 <= i < |os| && StaysOpen(os, i, window)
        ensures i == j
      {
        OpenUnique(os, i, j, window);
      }
    }
  }
}
