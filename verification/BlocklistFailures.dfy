/** What a failed reload of the blocklist leaves behind for the next successful one. */
module BlocklistFailures {
  import opened Blocklist

  /** How many keys a list of past keys makes a reload delete. */
  function Stale<K>(past: seq<K>, wanted: set<K>): (n: nat)
  {
    if past == [] then 0 else Stale(past[..|past| - 1], wanted) + if past[|past| - 1] in wanted then 0 else 1
  }

  /** How many map operations a reload of one map makes. */
  function Ops<K>(f: Family<K>, keys: seq<K>): (n: nat)
  {
    Stale(f.tracked, Set(keys)) + |keys|
  }

  /** None of n operations from first on fails. */
  ghost predicate Pass(fails: set<nat>, first: nat, n: nat)
  {
    forall i :: first <= i < first + n ==> i !in fails
  }

  lemma {:induction false} RemovePasses<K>(p: Progress<K>, past: seq<K>, wanted: set<K>, fails: set<nat>)
    requires p.ok && Pass(fails, p.ops, Stale(past, wanted))
    ensures var r := RemoveStale(p, past, wanted, fails); r.ok && r.ops == p.ops + Stale(past, wanted)
    decreases |past|
  {
    if past != [] {
      RemovePasses(p, past[..|past| - 1], wanted, fails);
    }
  }

  lemma {:induction false} InsertPasses<K>(p: Progress<K>, keys: seq<K>, fails: set<nat>)
    requires p.ok && Pass(fails, p.ops, |keys|)
    ensures var r := InsertAll(p, keys, fails); r.ok && r.ops == p.ops + |keys|
    decreases |keys|
  {
    if keys != [] {
      InsertPasses(p, keys[..|keys| - 1], fails);
    }
  }

  /** A reload of one map succeeds if none of its own operations fails. */
  lemma SyncPasses<K>(f: Family<K>, keys: seq<K>, fails: set<nat>, ops: nat)
    requires Pass(fails, ops, Ops(f, keys))
    ensures Sync(f, keys, fails, ops).1.ok && Sync(f, keys, fails, ops).1.ops == ops + Ops(f, keys)
  {
    var start := Progress(f.entries, true, ops);
    RemovePasses(start, f.tracked, Set(keys), fails);
    InsertPasses(RemoveStale(start, f.tracked, Set(keys), fails), keys, fails);
  }

  lemma {:induction false} RemoveStops<K>(p: Progress<K>, past: seq<K>, wanted: set<K>)
    requires p.ok && Stale(past, wanted) > 0
    ensures !RemoveStale(p, past, wanted, {p.ops}).ok
    decreases |past|
  {
    var front := past[..|past| - 1];
    if Stale(front, wanted) > 0 {
      RemoveStops(p, front, wanted);
    } else {
      RemovePasses(p, front, wanted, {p.ops});
    }
  }

  /** If insertion i + 1 fails, key i was inserted. */
  lemma InsertStopsAfter<K>(p: Progress<K>, keys: seq<K>, i: nat)
    requires p.ok && i + 1 < |keys|
    ensures var r := InsertAll(p, keys, {p.ops + i + 1}); !r.ok && keys[i] in r.entries
  {
    var fails := {p.ops + i + 1};
    InsertPasses(p, keys[..i + 1], fails);
    InsertEffect(p, keys[..i + 1], fails);
    assert keys[i] == keys[..i + 1][i];
    assert keys[..i + 2][..i + 1] == keys[..i + 1];
    InsertStopped(p, keys, i + 2, fails);
  }

  lemma InsertStops<K>(p: Progress<K>, keys: seq<K>)
    requires p.ok && keys != []
    ensures !InsertAll(p, keys, {p.ops}).ok
  {
    assert keys[..1][..0] == [];
    assert InsertAll(p, keys[..1], {p.ops}) == p.(ok := false, ops := p.ops + 1);
    InsertStopped(p, keys, 1, {p.ops});
  }

  /** A reload of one map that makes any operation can fail at its first. */
  lemma SyncStops<K>(f: Family<K>, keys: seq<K>, ops: nat)
    requires Ops(f, keys) > 0
    ensures !Sync(f, keys, {ops}, ops).1.ok
  {
    var start := Progress(f.entries, true, ops);
    var removed := RemoveStale(start, f.tracked, Set(keys), {ops});
    if Stale(f.tracked, Set(keys)) > 0 {
      RemoveStops(start, f.tracked, Set(keys));
      InsertEffect(removed, keys, {ops});
    } else {
      RemovePasses(start, f.tracked, Set(keys), {ops});
      InsertStops(removed, keys);
    }
  }

  /** Every key but the last that a failed list may leave behind is there already, tracked, or wanted next. */
  ghost predicate LeavesNothing<K>(f: Family<K>, failed: seq<K>, keys: seq<K>)
  {
    forall i :: 0 <= i < |failed| - 1 ==> failed[i] in f.entries || failed[i] in f.tracked || failed[i] in keys
  }

  /** Every entry nobody tracks that a list claims for itself is wanted next. */
  ghost predicate ClaimsNothing<K>(f: Family<K>, failed: seq<K>, keys: seq<K>)
  {
    forall k :: k in failed && k in f.entries && k !in f.tracked ==> k in keys
  }

  /** The map where an attempt failed: what the next list gives is as without the attempt, if nothing is left. */
  lemma FailedTarget<K>(f: Family<K>, failed: seq<K>, fails: set<nat>, ops: nat, keys: seq<K>)
    requires !Sync(f, failed, fails, ops).1.ok && LeavesNothing(f, failed, keys)
    ensures Target(Sync(f, failed, fails, ops).0, keys) == Target(f, keys)
  {
    var start, g := Progress(f.entries, true, ops), Sync(f, failed, fails, ops).0;
    var removed := RemoveStale(start, f.tracked, Set(failed), fails);
    RemoveEffect(start, f.tracked, Set(failed), fails);
    InsertEffect(removed, failed, fails);
    FailedAdds(removed, failed, fails);
    forall k
      ensures k in Target(g, keys) <==> k in Target(f, keys)
    {
      TargetHas(f, keys, k);
      TargetHas(g, keys, k);
    }
  }

  /** Of a list whose insertion fails, the last key is not added. */
  lemma FailedAdds<K>(p: Progress<K>, failed: seq<K>, fails: set<nat>)
    ensures var r := InsertAll(p, failed, fails);
      !r.ok ==> forall k :: k in r.entries && k !in p.entries ==> exists i :: 0 <= i < |failed| - 1 && failed[i] == k
  {
    var r := InsertAll(p, failed, fails);
    if failed != [] && !r.ok {
      var front := failed[..|failed| - 1];
      InsertEffect(p, front, fails);
      forall k | k in r.entries && k !in p.entries
        ensures exists i :: 0 <= i < |failed| - 1 && failed[i] == k
      {
        assert k in front;
        var i :| 0 <= i < |front| && front[i] == k;
        assert failed[i] == k;
      }
    }
  }

  /** A map the attempt got through: what the next list gives is as without the attempt, exactly if nothing
      was claimed. */
  lemma PassedTargetIff<K>(f: Family<K>, failed: seq<K>, keys: seq<K>)
    ensures Target(Family(Target(f, failed), failed), keys) == Target(f, keys) <==> ClaimsNothing(f, failed, keys)
  {
    var g := Family(Target(f, failed), failed);
    forall k
      ensures (k in Target(g, keys) <==> k in Target(f, keys)) <==>
        (k in failed && k in f.entries && k !in f.tracked ==> k in keys)
    {
      TargetHas(f, failed, k);
      TargetHas(f, keys, k);
      TargetHas(g, keys, k);
    }
    if Target(g, keys) == Target(f, keys) {
      assert forall k :: k in Target(g, keys) <==> k in Target(f, keys);
    }
  }

  /** A key left behind, at the failure right after its insertion. */
  lemma KeyLeft<K>(f: Family<K>, failed: seq<K>, ops: nat, keys: seq<K>, i: nat) returns (at: nat)
    requires i + 1 < |failed| && failed[i] !in f.entries && failed[i] !in f.tracked && failed[i] !in keys
    ensures ops <= at < ops + Ops(f, failed)
    ensures !Sync(f, failed, {at}, ops).1.ok
    ensures Target(Sync(f, failed, {at}, ops).0, keys) != Target(f, keys)
  {
    var start := Progress(f.entries, true, ops);
    at := ops + Stale(f.tracked, Set(failed)) + i + 1;
    RemovePasses(start, f.tracked, Set(failed), {at});
    InsertStopsAfter(RemoveStale(start, f.tracked, Set(failed), {at}), failed, i);
    TargetHas(f, keys, failed[i]);
    TargetHas(Sync(f, failed, {at}, ops).0, keys, failed[i]);
  }

  /** What a failed attempt may do that later keys do not undo: leave a key behind in the map where it fails,
      or claim an entry nobody tracked in a map it got through before. */
  ghost predicate Forgettable(s: State, failed: Keys, keys: Keys)
  {
    && LeavesNothing(s.v4, failed.v4, keys.v4)
    && LeavesNothing(s.v6, failed.v6, keys.v6)
    && LeavesNothing(s.ports, failed.ports, keys.ports)
    && (Ops(s.v6, failed.v6) + Ops(s.ports, failed.ports) > 0 ==> ClaimsNothing(s.v4, failed.v4, keys.v4))
    && (Ops(s.ports, failed.ports) > 0 ==> ClaimsNothing(s.v6, failed.v6, keys.v6))
  }

  /** The failure of an attempt does not change what the next keys give. */
  ghost predicate Forgotten(s: State, failed: Keys, fails: set<nat>, keys: Keys)
  {
    !Reconcile(s, failed, fails).1 ==> Goal(Reconcile(s, failed, fails).0, keys) == Goal(s, keys)
  }

  lemma FailureHasOps<K>(f: Family<K>, keys: seq<K>, fails: set<nat>, ops: nat)
    ensures !Sync(f, keys, fails, ops).1.ok ==> Ops(f, keys) > 0
  {
    if Ops(f, keys) == 0 {
      SyncPasses(f, keys, fails, ops);
    }
  }

  lemma ForgottenWhen(s: State, failed: Keys, fails: set<nat>, keys: Keys)
    requires Forgettable(s, failed, keys)
    ensures Forgotten(s, failed, fails, keys)
  {
    var p4 := Sync(s.v4, failed.v4, fails, 0).1;
    var p6 := Sync(s.v6, failed.v6, fails, p4.ops).1;
    PassedTargetIff(s.v4, failed.v4, keys.v4);
    SyncKeepsTarget(s.v4, failed.v4, fails, 0);
    if !p4.ok {
      FailedTarget(s.v4, failed.v4, fails, 0, keys.v4);
    } else {
      FailureHasOps(s.v6, failed.v6, fails, p4.ops);
      if !p6.ok {
        FailedTarget(s.v6, failed.v6, fails, p4.ops, keys.v6);
      } else {
        ForgottenAtPorts(s, failed, fails, keys);
      }
    }
  }

  lemma ForgottenAtPorts(s: State, failed: Keys, fails: set<nat>, keys: Keys)
    requires Forgettable(s, failed, keys) && Sync(s.v4, failed.v4, fails, 0).1.ok
    requires Sync(s.v6, failed.v6, fails, Sync(s.v4, failed.v4, fails, 0).1.ops).1.ok
    ensures Forgotten(s, failed, fails, keys)
  {
    var p4 := Sync(s.v4, failed.v4, fails, 0).1;
    var p6 := Sync(s.v6, failed.v6, fails, p4.ops).1;
    PassedTargetIff(s.v4, failed.v4, keys.v4);
    SyncKeepsTarget(s.v4, failed.v4, fails, 0);
    PassedTargetIff(s.v6, failed.v6, keys.v6);
    SyncKeepsTarget(s.v6, failed.v6, fails, p4.ops);
    FailureHasOps(s.ports, failed.ports, fails, p6.ops);
    if !Sync(s.ports, failed.ports, fails, p6.ops).1.ok {
      FailedTarget(s.ports, failed.ports, fails, p6.ops, keys.ports);
    }
  }

  /** One failing operation past those of the first map: that map is done. */
  lemma PastV4(s: State, ks: Keys, at: nat)
    requires at >= Ops(s.v4, ks.v4)
    ensures Sync(s.v4, ks.v4, {at}, 0).0 == Family(Target(s.v4, ks.v4), ks.v4)
    ensures Sync(s.v4, ks.v4, {at}, 0).1.ok && Sync(s.v4, ks.v4, {at}, 0).1.ops == Ops(s.v4, ks.v4)
  {
    SyncPasses(s.v4, ks.v4, {at}, 0);
    SyncKeepsTarget(s.v4, ks.v4, {at}, 0);
  }

  /** One failing operation past those of the first two maps: both are done. */
  lemma PastV6(s: State, ks: Keys, at: nat)
    requires at >= Ops(s.v4, ks.v4) + Ops(s.v6, ks.v6)
    ensures var r := Sync(s.v6, ks.v6, {at}, Ops(s.v4, ks.v4));
      r.0 == Family(Target(s.v6, ks.v6), ks.v6) && r.1.ok && r.1.ops == Ops(s.v4, ks.v4) + Ops(s.v6, ks.v6)
  {
    SyncPasses(s.v6, ks.v6, {at}, Ops(s.v4, ks.v4));
    SyncKeepsTarget(s.v6, ks.v6, {at}, Ops(s.v4, ks.v4));
  }

  /** An attempt that fails in the second map. */
  lemma FailsAtV6(s: State, ks: Keys, at: nat)
    requires at >= Ops(s.v4, ks.v4) && !Sync(s.v6, ks.v6, {at}, Ops(s.v4, ks.v4)).1.ok
    ensures !Reconcile(s, ks, {at}).1
    ensures Reconcile(s, ks, {at}).0.v4 == Family(Target(s.v4, ks.v4), ks.v4)
    ensures Reconcile(s, ks, {at}).0.v6 == Sync(s.v6, ks.v6, {at}, Ops(s.v4, ks.v4)).0
  {
    PastV4(s, ks, at);
  }

  /** An attempt that fails in the third map. */
  lemma FailsAtPorts(s: State, ks: Keys, at: nat)
    requires at >= Ops(s.v4, ks.v4) + Ops(s.v6, ks.v6)
    requires !Sync(s.ports, ks.ports, {at}, Ops(s.v4, ks.v4) + Ops(s.v6, ks.v6)).1.ok
    ensures !Reconcile(s, ks, {at}).1
    ensures Reconcile(s, ks, {at}).0.v4 == Family(Target(s.v4, ks.v4), ks.v4)
    ensures Reconcile(s, ks, {at}).0.v6 == Family(Target(s.v6, ks.v6), ks.v6)
    ensures Reconcile(s, ks, {at}).0.ports ==
      Sync(s.ports, ks.ports, {at}, Ops(s.v4, ks.v4) + Ops(s.v6, ks.v6)).0
  {
    PastV4(s, ks, at);
    PastV6(s, ks, at);
  }

  lemma LeftInV4(s: State, failed: Keys, keys: Keys) returns (at: nat)
    requires !LeavesNothing(s.v4, failed.v4, keys.v4)
    ensures !Forgotten(s, failed, {at}, keys)
  {
    var i :| 0 <= i < |failed.v4| - 1 &&
      !(failed.v4[i] in s.v4.entries || failed.v4[i] in s.v4.tracked || failed.v4[i] in keys.v4);
    at := KeyLeft(s.v4, failed.v4, 0, keys.v4, i);
  }

  lemma LeftInV6(s: State, failed: Keys, keys: Keys) returns (at: nat)
    requires !LeavesNothing(s.v6, failed.v6, keys.v6)
    ensures !Forgotten(s, failed, {at}, keys)
  {
    var i :| 0 <= i < |failed.v6| - 1 &&
      !(failed.v6[i] in s.v6.entries || failed.v6[i] in s.v6.tracked || failed.v6[i] in keys.v6);
    at := KeyLeft(s.v6, failed.v6, Ops(s.v4, failed.v4), keys.v6, i);
    FailsAtV6(s, failed, at);
  }

  lemma LeftInPorts(s: State, failed: Keys, keys: Keys) returns (at: nat)
    requires !LeavesNothing(s.ports, failed.ports, keys.ports)
    ensures !Forgotten(s, failed, {at}, keys)
  {
    var i :| 0 <= i < |failed.ports| - 1 &&
      !(failed.ports[i] in s.ports.entries || failed.ports[i] in s.ports.tracked || failed.ports[i] in keys.ports);
    at := KeyLeft(s.ports, failed.ports, Ops(s.v4, failed.v4) + Ops(s.v6, failed.v6), keys.ports, i);
    FailsAtPorts(s, failed, at);
  }

  /** A failure in the last map after an entry was claimed. */
  lemma ClaimedBeforePorts(s: State, failed: Keys, keys: Keys) returns (at: nat)
    requires Ops(s.ports, failed.ports) > 0
    requires !ClaimsNothing(s.v4, failed.v4, keys.v4) || !ClaimsNothing(s.v6, failed.v6, keys.v6)
    ensures !Forgotten(s, failed, {at}, keys)
  {
    at := Ops(s.v4, failed.v4) + Ops(s.v6, failed.v6);
    SyncStops(s.ports, failed.ports, at);
    FailsAtPorts(s, failed, at);
    PassedTargetIff(s.v4, failed.v4, keys.v4);
    PassedTargetIff(s.v6, failed.v6, keys.v6);
  }

  lemma ClaimedBeforeV6(s: State, failed: Keys, keys: Keys) returns (at: nat)
    requires Ops(s.v6, failed.v6) > 0 && !ClaimsNothing(s.v4, failed.v4, keys.v4)
    ensures !Forgotten(s, failed, {at}, keys)
  {
    at := Ops(s.v4, failed.v4);
    SyncStops(s.v6, failed.v6, at);
    FailsAtV6(s, failed, at);
    PassedTargetIff(s.v4, failed.v4, keys.v4);
  }

  /** Where the condition fails, an operation whose failure lasts. */
  lemma LastingFailure(s: State, failed: Keys, keys: Keys) returns (at: nat)
    requires !Forgettable(s, failed, keys)
    ensures !Forgotten(s, failed, {at}, keys)
  {
    if !LeavesNothing(s.v4, failed.v4, keys.v4) {
      at := LeftInV4(s, failed, keys);
    } else if !LeavesNothing(s.v6, failed.v6, keys.v6) {
      at := LeftInV6(s, failed, keys);
    } else if !LeavesNothing(s.ports, failed.ports, keys.ports) {
      at := LeftInPorts(s, failed, keys);
    } else if Ops(s.ports, failed.ports) > 0 {
      at := ClaimedBeforePorts(s, failed, keys);
    } else {
      at := ClaimedBeforeV6(s, failed, keys);
    }
  }

  /** Exactly when a failed SetBlocklist call is forgotten by the next successful one, whatever operation
      failed: a condition on the old state and the two configurations. */
  lemma FailureForgottenIff(s: State, failed: Config, cfg: Config)
    requires AllParse(failed.subnets) && AllParse(cfg.subnets)
    ensures (forall fails :: !Attempt(s, failed, fails).1 ==> Applied(Attempt(s, failed, fails).0, cfg) == Applied(s, cfg))
      <==> Forgettable(s, KeysOf(failed), KeysOf(cfg))
  {
    var f, k := KeysOf(failed), KeysOf(cfg);
    if Forgettable(s, f, k) {
      forall fails
        ensures !Attempt(s, failed, fails).1 ==> Applied(Attempt(s, failed, fails).0, cfg) == Applied(s, cfg)
      {
        ForgottenWhen(s, f, fails, k);
      }
    } else {
      var at := LastingFailure(s, f, k);
      assert !Forgotten(s, f, {at}, k);
      assert !Attempt(s, failed, {at}).1;
    }
  }

  /** For one: of two ports the second fails to go in; when the list is then withdrawn, the first stays. */
  lemma FailureLeaks(a: Port, b: Port)
    requires a != b
    ensures var s := State(Family({}, []), Family({}, []), Family({}, []));
      var r := Attempt(s, Config([], [a, b]), {1});
      && !r.1 && Applied(r.0, Config([], [])).ports.entries == {a}
      && Applied(s, Config([], [])).ports.entries == {}
  {
    var none: Family<Key> := Family({}, []);
    assert Sync(none, [], {1}, 0) == (none, Progress({}, true, 0));
    assert [a, b][..1] == [a] && [a][..0] == [];
    assert InsertAll(Progress({}, true, 0), [a], {1}) == Progress({a}, true, 1);
    assert InsertAll(Progress({}, true, 0), [a, b], {1}) == Progress({a}, false, 2);
  }

  /** For another: a list claims a subnet that was added by hand and fails at the next map; when the list is
      then withdrawn, the subnet added by hand goes too. */
  lemma FailureClaims(x: Cidr, y: Cidr, s: State, list: Config)
    requires ValidCidr(x, 32) && ValidCidr(y, 128)
    requires s == State(Family({KeyFor(x)}, []), Family({}, []), Family({}, [])) && list == Config([V4(x), V6(y)], [])
    ensures var r := Attempt(s, list, {1}); !r.1 && Applied(r.0, Config([], [])).v4.entries == {}
    ensures Applied(s, Config([], [])).v4.entries == {KeyFor(x)}
  {
    var k, l := KeyFor(x), KeyFor(y);
    TwoSubnets(x, y);
    assert [k][..0] == [] && [l][..0] == [];
    assert InsertAll(Progress({k}, true, 0), [k], {1}) == Progress({k}, true, 1);
    assert Sync(Family({k}, []), [k], {1}, 0) == (Family({k}, [k]), Progress({k}, true, 1));
    var none: Family<Key> := Family({}, []);
    assert InsertAll(Progress({}, true, 1), [l], {1}) == Progress({}, false, 2);
    assert Sync(none, [l], {1}, 1) == (none, Progress({}, false, 2));
  }

  lemma TwoSubnets(x: Cidr, y: Cidr)
    requires ValidCidr(x, 32) && ValidCidr(y, 128)
    ensures KeysOf(Config([V4(x), V6(y)], [])) == Keys([KeyFor(x)], [KeyFor(y)], [])
  {
    var subnets := [V4(x), V6(y)];
    assert subnets[..1] == [V4(x)] && [V4(x)][..0] == [];
    assert KeysV4([V4(x)][..0]) == [] && KeysV6([V4(x)][..0]) == [];
    assert KeysV4([V4(x)]) == [KeyFor(x)] && KeysV6([V4(x)]) == [];
  }
}
