/** What the blocklist maps hold after any history of reloads, added entries and removed entries. */
module BlocklistHistory {
  import opened Blocklist

  // --------------------------------------------------------------------- one map

  /** A step of one map: a reload that gets through, or one entry put in or deleted without being tracked. */
  datatype Move<K> = Reload(keys: seq<K>) | Put(key: K) | Delete(key: K)

  function Moved<K>(f: Family<K>, m: Move<K>): (g: Family<K>)
  {
    match m
    case Reload(keys) => Family(Target(f, keys), keys)
    case Put(k) => f.(entries := f.entries + {k})
    case Delete(k) => f.(entries := f.entries - {k})
  }

  function MovedAll<K>(f: Family<K>, ms: seq<Move<K>>): (g: Family<K>)
  {
    if ms == [] then f else Moved(MovedAll(f, ms[..|ms| - 1]), ms[|ms| - 1])
  }

  /** Move i brings k in. */
  ghost predicate Brings<K>(ms: seq<Move<K>>, i: int, k: K)
  {
    0 <= i < |ms| && (ms[i] == Put(k) || (ms[i].Reload? && k in ms[i].keys))
  }

  /** The last reload before move n asked for k, or there is none and k was tracked at the start. */
  ghost predicate AskedBefore<K>(f: Family<K>, ms: seq<Move<K>>, n: int, k: K)
    requires 0 <= n <= |ms|
  {
    || (k in f.tracked && forall j :: 0 <= j < n ==> !ms[j].Reload?)
    || exists r :: 0 <= r < n && ms[r].Reload? && k in ms[r].keys && forall j :: r < j < n ==> !ms[j].Reload?
  }

  /** Move i takes k out: by hand, or as the first reload without k after one that asked for it. */
  ghost predicate TakesOut<K>(f: Family<K>, ms: seq<Move<K>>, i: int, k: K)
  {
    0 <= i < |ms| && (ms[i] == Delete(k) || (ms[i].Reload? && k !in ms[i].keys && AskedBefore(f, ms, i, k)))
  }

  /** k was brought in, or there from the start, and not taken out since. */
  ghost predicate Held<K>(f: Family<K>, ms: seq<Move<K>>, k: K)
  {
    || (k in f.entries && forall j :: 0 <= j < |ms| ==> !TakesOut(f, ms, j, k))
    || exists i :: Brings(ms, i, k) && forall j :: i < j < |ms| ==> !TakesOut(f, ms, j, k)
  }

  lemma AskedFront<K>(f: Family<K>, ms: seq<Move<K>>, m: Move<K>, n: int, k: K)
    requires 0 <= n <= |ms|
    ensures AskedBefore(f, ms + [m], n, k) <==> AskedBefore(f, ms, n, k)
  {
    var more := ms + [m];
    assert forall j :: 0 <= j < n ==> more[j] == ms[j];
    if r :| 0 <= r < n && more[r].Reload? && k in more[r].keys && forall j :: r < j < n ==> !more[j].Reload? {
      assert ms[r].Reload?;
    }
    if r :| 0 <= r < n && ms[r].Reload? && k in ms[r].keys && forall j :: r < j < n ==> !ms[j].Reload? {
      assert more[r].Reload?;
    }
  }

  /** One more move: asked for by the last reload now. */
  lemma AskedSnoc<K>(f: Family<K>, ms: seq<Move<K>>, m: Move<K>, k: K)
    ensures AskedBefore(f, ms + [m], |ms| + 1, k) <==> if m.Reload? then k in m.keys else AskedBefore(f, ms, |ms|, k)
  {
    var more, n := ms + [m], |ms|;
    assert more[n] == m;
    assert forall j :: 0 <= j < n ==> more[j] == ms[j];
    if r :| 0 <= r < n + 1 && more[r].Reload? && k in more[r].keys && forall j :: r < j < n + 1 ==> !more[j].Reload? {
      assert !m.Reload? ==> r < n && ms[r].Reload?;
    }
    if r :| 0 <= r < n && ms[r].Reload? && k in ms[r].keys && forall j :: r < j < n ==> !ms[j].Reload? {
      assert more[r].Reload?;
    }
  }

  lemma TakesFront<K>(f: Family<K>, ms: seq<Move<K>>, m: Move<K>, i: int, k: K)
    requires i < |ms|
    ensures TakesOut(f, ms + [m], i, k) <==> TakesOut(f, ms, i, k)
  {
    if 0 <= i {
      assert (ms + [m])[i] == ms[i];
      AskedFront(f, ms, m, i, k);
    }
  }

  lemma HeldSnoc<K>(f: Family<K>, ms: seq<Move<K>>, m: Move<K>, k: K)
    ensures Held(f, ms + [m], k) <==> Brings(ms + [m], |ms|, k) || (Held(f, ms, k) && !TakesOut(f, ms + [m], |ms|, k))
  {
    var more, n := ms + [m], |ms|;
    forall i | 0 <= i < n
      ensures TakesOut(f, more, i, k) <==> TakesOut(f, ms, i, k)
      ensures Brings(more, i, k) <==> Brings(ms, i, k)
    {
      TakesFront(f, ms, m, i, k);
      assert more[i] == ms[i];
    }
    if i :| Brings(more, i, k) && forall j :: i < j < |more| ==> !TakesOut(f, more, j, k) {
      assert i < n ==> Brings(ms, i, k);
    }
    if i :| Brings(ms, i, k) && forall j :: i < j < |ms| ==> !TakesOut(f, ms, j, k) {
      assert Brings(more, i, k);
    }
  }

  /** Over every history of one map, an entry is present exactly when it was brought in and not taken out since,
      and it is tracked exactly when the last reload asked for it. */
  lemma {:induction false} HistoryDecides<K>(f: Family<K>, ms: seq<Move<K>>, k: K)
    ensures k in MovedAll(f, ms).entries <==> Held(f, ms, k)
    ensures k in MovedAll(f, ms).tracked <==> AskedBefore(f, ms, |ms|, k)
    decreases |ms|
  {
    if ms != [] {
      var front, m, n := ms[..|ms| - 1], ms[|ms| - 1], |ms| - 1;
      assert front + [m] == ms;
      HistoryDecides(f, front, k);
      HeldSnoc(f, front, m, k);
      AskedSnoc(f, front, m, k);
      AskedFront(f, front, m, n, k);
      MoveDecides(MovedAll(f, front), m, k);
      assert Brings(ms, n, k) <==> m == Put(k) || (m.Reload? && k in m.keys);
      assert TakesOut(f, ms, n, k) <==> m == Delete(k) || (m.Reload? && k !in m.keys && AskedBefore(f, ms, n, k));
    }
  }

  lemma MoveDecides<K>(f: Family<K>, m: Move<K>, k: K)
    ensures k in Moved(f, m).entries <==>
      || m == Put(k) || (m.Reload? && k in m.keys)
      || (k in f.entries && m != Delete(k) && (m.Reload? ==> k !in f.tracked))
  {
    if m.Reload? {
      TargetHas(f, m.keys, k);
    }
  }

  lemma {:induction false} MovedConcat<K>(f: Family<K>, a: seq<Move<K>>, b: seq<Move<K>>)
    ensures MovedAll(f, a + b) == MovedAll(MovedAll(f, a), b)
    decreases |b|
  {
    if b == [] {
      assert a + b == a;
    } else {
      assert (a + b)[..|a + b| - 1] == a + b[..|b| - 1];
      MovedConcat(f, a, b[..|b| - 1]);
    }
  }

  // ------------------------------------------------------- a reload as moves of one map

  /** The keys a reload deletes, up to its first failure. */
  function Deleted<K>(p: Progress<K>, past: seq<K>, wanted: set<K>, fails: set<nat>): (ks: seq<K>)
  {
    if past == [] then []
    else
      var q, k := RemoveStale(p, past[..|past| - 1], wanted, fails), past[|past| - 1];
      Deleted(p, past[..|past| - 1], wanted, fails) + if q.ok && k !in wanted && q.ops !in fails then [k] else []
  }

  /** The keys a reload inserts, up to its first failure. */
  function Inserted<K>(p: Progress<K>, keys: seq<K>, fails: set<nat>): (ks: seq<K>)
  {
    if keys == [] then []
    else
      var q, k := InsertAll(p, keys[..|keys| - 1], fails), keys[|keys| - 1];
      Inserted(p, keys[..|keys| - 1], fails) + if q.ok && q.ops !in fails then [k] else []
  }

  function Deletes<K>(ks: seq<K>): (ms: seq<Move<K>>)
  {
    if ks == [] then [] else Deletes(ks[..|ks| - 1]) + [Delete(ks[|ks| - 1])]
  }

  function Puts<K>(ks: seq<K>): (ms: seq<Move<K>>)
  {
    if ks == [] then [] else Puts(ks[..|ks| - 1]) + [Put(ks[|ks| - 1])]
  }

  /** What a reload of one map comes to: one move if it gets through, and otherwise the deletions and insertions
      it made before it failed, none of them tracked. */
  function SyncMoves<K>(f: Family<K>, keys: seq<K>, fails: set<nat>, ops: nat): (ms: seq<Move<K>>)
  {
    var start := Progress(f.entries, true, ops);
    var removed := RemoveStale(start, f.tracked, Set(keys), fails);
    if InsertAll(removed, keys, fails).ok then [Reload(keys)]
    else Deletes(Deleted(start, f.tracked, Set(keys), fails)) + Puts(Inserted(removed, keys, fails))
  }

  lemma MovedSnoc<K>(f: Family<K>, ms: seq<Move<K>>, m: Move<K>)
    ensures MovedAll(f, ms + [m]) == Moved(MovedAll(f, ms), m)
  {
    assert (ms + [m])[..|ms|] == ms;
  }

  lemma DeletesSnoc<K>(ks: seq<K>, k: K)
    ensures Deletes(ks + [k]) == Deletes(ks) + [Delete(k)]
  {
    assert (ks + [k])[..|ks|] == ks;
  }

  lemma PutsSnoc<K>(ks: seq<K>, k: K)
    ensures Puts(ks + [k]) == Puts(ks) + [Put(k)]
  {
    assert (ks + [k])[..|ks|] == ks;
  }

  lemma {:induction false} DeletesEffect<K>(f: Family<K>, p: Progress<K>, past: seq<K>, wanted: set<K>, fails: set<nat>)
    requires f.entries == p.entries
    ensures MovedAll(f, Deletes(Deleted(p, past, wanted, fails))) ==
      f.(entries := RemoveStale(p, past, wanted, fails).entries)
    decreases |past|
  {
    if past != [] {
      var front, k := past[..|past| - 1], past[|past| - 1];
      var ks := Deleted(p, front, wanted, fails);
      DeletesEffect(f, p, front, wanted, fails);
      DeletesSnoc(ks, k);
      MovedSnoc(f, Deletes(ks), Delete(k));
      assert ks + [] == ks;
    }
  }

  lemma {:induction false} PutsEffect<K>(f: Family<K>, p: Progress<K>, keys: seq<K>, fails: set<nat>)
    requires f.entries == p.entries
    ensures MovedAll(f, Puts(Inserted(p, keys, fails))) == f.(entries := InsertAll(p, keys, fails).entries)
    decreases |keys|
  {
    if keys != [] {
      var front, k := keys[..|keys| - 1], keys[|keys| - 1];
      var ks := Inserted(p, front, fails);
      PutsEffect(f, p, front, fails);
      PutsSnoc(ks, k);
      MovedSnoc(f, Puts(ks), Put(k));
      assert ks + [] == ks;
    }
  }

  /** A reload of one map, whatever fails, is its moves. */
  lemma SyncIsMoves<K>(f: Family<K>, keys: seq<K>, fails: set<nat>, ops: nat)
    ensures MovedAll(f, SyncMoves(f, keys, fails, ops)) == Sync(f, keys, fails, ops).0
  {
    var start := Progress(f.entries, true, ops);
    var removed := RemoveStale(start, f.tracked, Set(keys), fails);
    if Sync(f, keys, fails, ops).1.ok {
      SyncKeepsTarget(f, keys, fails, ops);
      assert [Reload(keys)][..0] == [];
    } else {
      var g := f.(entries := removed.entries);
      DeletesEffect(f, start, f.tracked, Set(keys), fails);
      PutsEffect(g, removed, keys, fails);
      MovedConcat(f, Deletes(Deleted(start, f.tracked, Set(keys), fails)), Puts(Inserted(removed, keys, fails)));
    }
  }

  lemma {:induction false} DeletedAreStale<K>(p: Progress<K>, past: seq<K>, wanted: set<K>, fails: set<nat>, k: K)
    requires k in Deleted(p, past, wanted, fails)
    ensures k in past && k !in wanted
    decreases |past|
  {
    var front := past[..|past| - 1];
    if k in Deleted(p, front, wanted, fails) {
      DeletedAreStale(p, front, wanted, fails, k);
    }
  }

  lemma {:induction false} InsertedIsPrefix<K>(p: Progress<K>, keys: seq<K>, fails: set<nat>)
    ensures Inserted(p, keys, fails) <= keys
    ensures InsertAll(p, keys, fails).ok ==> Inserted(p, keys, fails) == keys
    ensures p.ok && !InsertAll(p, keys, fails).ok ==> Inserted(p, keys, fails) != keys
    ensures !p.ok ==> Inserted(p, keys, fails) == []
    decreases |keys|
  {
    if keys != [] {
      var front, k := keys[..|keys| - 1], keys[|keys| - 1];
      InsertedIsPrefix(p, front, fails);
      InsertEffect(p, front, fails);
      assert keys == front + [k];
    }
  }

  /** What a failed reload of one map did: it deleted some tracked keys that are not wanted and inserted a part of
      the list from its start on, not all of it unless the list is empty. */
  lemma FailedReload<K>(f: Family<K>, keys: seq<K>, fails: set<nat>, ops: nat) returns (gone: seq<K>, n: nat)
    requires !Sync(f, keys, fails, ops).1.ok
    ensures n <= |keys| && (keys != [] ==> n < |keys|)
    ensures SyncMoves(f, keys, fails, ops) == Deletes(gone) + Puts(keys[..n])
    ensures forall k :: k in gone ==> k in f.tracked && k !in keys
  {
    var start := Progress(f.entries, true, ops);
    var removed := RemoveStale(start, f.tracked, Set(keys), fails);
    gone := Deleted(start, f.tracked, Set(keys), fails);
    InsertedIsPrefix(removed, keys, fails);
    n := |Inserted(removed, keys, fails)|;
    assert Inserted(removed, keys, fails) == keys[..n];
    forall k | k in gone
      ensures k in f.tracked && k !in keys
    {
      DeletedAreStale(start, f.tracked, Set(keys), fails, k);
    }
  }

  // -------------------------------------------------------------------- all maps

  /** What the three maps see. */
  datatype Moves = Moves(v4: seq<Move<Key>>, v6: seq<Move<Key>>, ports: seq<Move<Port>>)
  {
    function Then(more: Moves): (r: Moves)
    {
      Moves(v4 + more.v4, v6 + more.v6, ports + more.ports)
    }
  }

  const NO_MOVES := Moves([], [], [])

  function Effect(s: State, ms: Moves): (r: State)
  {
    State(MovedAll(s.v4, ms.v4), MovedAll(s.v6, ms.v6), MovedAll(s.ports, ms.ports))
  }

  lemma EffectThen(s: State, a: Moves, b: Moves)
    ensures Effect(s, a.Then(b)) == Effect(Effect(s, a), b)
  {
    MovedConcat(s.v4, a.v4, b.v4);
    MovedConcat(s.v6, a.v6, b.v6);
    MovedConcat(s.ports, a.ports, b.ports);
  }

  /** One reload of the three maps: those after the one that failed see nothing. */
  function ReconcileMoves(s: State, ks: Keys, fails: set<nat>): (ms: Moves)
  {
    var p4 := Sync(s.v4, ks.v4, fails, 0).1;
    var p6 := Sync(s.v6, ks.v6, fails, p4.ops).1;
    Moves(SyncMoves(s.v4, ks.v4, fails, 0),
          if p4.ok then SyncMoves(s.v6, ks.v6, fails, p4.ops) else [],
          if p4.ok && p6.ok then SyncMoves(s.ports, ks.ports, fails, p6.ops) else [])
  }

  function AttemptMoves(s: State, cfg: Config, fails: set<nat>): (ms: Moves)
  {
    if AllParse(cfg.subnets) then ReconcileMoves(s, KeysOf(cfg), fails) else NO_MOVES
  }

  lemma AttemptIsMoves(s: State, cfg: Config, fails: set<nat>)
    ensures Effect(s, AttemptMoves(s, cfg, fails)) == Attempt(s, cfg, fails).0
  {
    if AllParse(cfg.subnets) {
      var ks := KeysOf(cfg);
      var p4 := Sync(s.v4, ks.v4, fails, 0).1;
      SyncIsMoves(s.v4, ks.v4, fails, 0);
      SyncIsMoves(s.v6, ks.v6, fails, p4.ops);
      SyncIsMoves(s.ports, ks.ports, fails, Sync(s.v6, ks.v6, fails, p4.ops).1.ops);
    }
  }

  /** Attempts with one configuration, one after the other, whether the last one succeeds or not. */
  function AttemptsMoves(s: State, cfg: Config, tries: seq<set<nat>>): (ms: Moves)
  {
    if tries == [] then NO_MOVES
    else
      var front := tries[..|tries| - 1];
      AttemptsMoves(s, cfg, front).Then(AttemptMoves(Attempts(s, cfg, front).0, cfg, tries[|tries| - 1]))
  }

  lemma {:induction false} AttemptsAreMoves(s: State, cfg: Config, tries: seq<set<nat>>)
    ensures Effect(s, AttemptsMoves(s, cfg, tries)) == Attempts(s, cfg, tries).0
    decreases |tries|
  {
    if tries != [] {
      var front, last := tries[..|tries| - 1], tries[|tries| - 1];
      AttemptsAreMoves(s, cfg, front);
      AttemptIsMoves(Attempts(s, cfg, front).0, cfg, last);
      EffectThen(s, AttemptsMoves(s, cfg, front), AttemptMoves(Attempts(s, cfg, front).0, cfg, last));
    }
  }

  /** A call to the controller: a configuration, tried until it succeeds or is given up, or one entry by hand. A
      call that fails on one entry changes nothing and is left out. */
  datatype Act =
    | Configure(cfg: Config, tries: seq<set<nat>>)
    | AddSubnet(subnet: Subnet)
    | RemoveSubnet(subnet: Subnet)
    | AddPort(port: Port)
    | RemovePort(port: Port)

  function Acted(s: State, a: Act): (r: State)
  {
    match a
    case Configure(cfg, tries) => Attempts(s, cfg, tries).0
    case AddSubnet(n) => WithSubnet(s, n)
    case RemoveSubnet(n) => WithoutSubnet(s, n)
    case AddPort(p) => s.(ports := s.ports.(entries := s.ports.entries + {p}))
    case RemovePort(p) => s.(ports := s.ports.(entries := s.ports.entries - {p}))
  }

  function After(s: State, acts: seq<Act>): (r: State)
  {
    if acts == [] then s else Acted(After(s, acts[..|acts| - 1]), acts[|acts| - 1])
  }

  function ActMoves(s: State, a: Act): (ms: Moves)
  {
    match a
    case Configure(cfg, tries) => AttemptsMoves(s, cfg, tries)
    case AddSubnet(n) =>
      if !Parses(n) then NO_MOVES
      else if n.V4? then Moves([Put(KeyFor(n.cidr))], [], []) else Moves([], [Put(KeyFor(n.cidr))], [])
    case RemoveSubnet(n) =>
      if !Parses(n) then NO_MOVES
      else if n.V4? then Moves([Delete(KeyFor(n.cidr))], [], []) else Moves([], [Delete(KeyFor(n.cidr))], [])
    case AddPort(p) => Moves([], [], [Put(p)])
    case RemovePort(p) => Moves([], [], [Delete(p)])
  }

  lemma MovedOne<K>(f: Family<K>, m: Move<K>)
    ensures MovedAll(f, [m]) == Moved(f, m)
  {
    assert [m][..0] == [];
  }

  /** Every call to the controller is the moves it makes. */
  lemma ActIsMoves(s: State, a: Act)
    ensures Effect(s, ActMoves(s, a)) == Acted(s, a)
  {
    match a
    case Configure(cfg, tries) => AttemptsAreMoves(s, cfg, tries);
    case AddSubnet(n) =>
      if Parses(n) {
        MovedOne(s.v4, Put(KeyFor(n.cidr)));
        MovedOne(s.v6, Put(KeyFor(n.cidr)));
      }
    case RemoveSubnet(n) =>
      if Parses(n) {
        MovedOne(s.v4, Delete(KeyFor(n.cidr)));
        MovedOne(s.v6, Delete(KeyFor(n.cidr)));
      }
    case AddPort(p) => MovedOne(s.ports, Put(p));
    case RemovePort(p) => MovedOne(s.ports, Delete(p));
  }

  /** What the maps see of a history. */
  function MovesOf(s: State, acts: seq<Act>): (ms: Moves)
  {
    if acts == [] then NO_MOVES
    else
      var front := acts[..|acts| - 1];
      MovesOf(s, front).Then(ActMoves(After(s, front), acts[|acts| - 1]))
  }

  lemma {:induction false} HistoryIsMoves(s: State, acts: seq<Act>)
    ensures Effect(s, MovesOf(s, acts)) == After(s, acts)
    decreases |acts|
  {
    if acts != [] {
      var front, a := acts[..|acts| - 1], acts[|acts| - 1];
      HistoryIsMoves(s, front);
      ActIsMoves(After(s, front), a);
      EffectThen(s, MovesOf(s, front), ActMoves(After(s, front), a));
    }
  }

  /** After any history, given-up configurations and entries by hand included, each map holds exactly the entries
      brought in and not taken out since. */
  lemma MapsHoldHistory(s: State, acts: seq<Act>)
    ensures forall k :: k in After(s, acts).v4.entries <==> Held(s.v4, MovesOf(s, acts).v4, k)
    ensures forall k :: k in After(s, acts).v6.entries <==> Held(s.v6, MovesOf(s, acts).v6, k)
    ensures forall p :: p in After(s, acts).ports.entries <==> Held(s.ports, MovesOf(s, acts).ports, p)
  {
    HistoryIsMoves(s, acts);
    var ms := MovesOf(s, acts);
    forall k
      ensures k in After(s, acts).v4.entries <==> Held(s.v4, ms.v4, k)
      ensures k in After(s, acts).v6.entries <==> Held(s.v6, ms.v6, k)
    {
      HistoryDecides(s.v4, ms.v4, k);
      HistoryDecides(s.v6, ms.v6, k);
    }
    forall p
      ensures p in After(s, acts).ports.entries <==> Held(s.ports, ms.ports, p)
    {
      HistoryDecides(s.ports, ms.ports, p);
    }
  }

  /** Every act is a configuration that was retried until it succeeded. */
  ghost predicate AllConfigured(s: State, acts: seq<Act>)
  {
    acts != [] ==>
      var front, a := acts[..|acts| - 1], acts[|acts| - 1];
      AllConfigured(s, front) && a.Configure? && Attempts(After(s, front), a.cfg, a.tries).1
  }
}
