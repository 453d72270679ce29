/** Hot reload of the in-kernel network blocklist: two prefix tries and a port set, any map operation of which may fail. */
module Blocklist {

  // ------------------------------------------------------------------- prefixes

  /** An address, most significant bit first. */
  type Bits = seq<bool>

  /** A subnet as written: an address and how many of its bits count. */
  datatype Cidr = Cidr(addr: Bits, ones: nat)

  /** A trie key: the prefix length and the address with the host bits cleared. */
  datatype Key = Key(prefixLen: nat, addr: Bits)

  predicate ValidCidr(c: Cidr, width: nat)
  {
    |c.addr| == width && c.ones <= width
  }

  predicate Contains(c: Cidr, ip: Bits)
    requires c.ones <= |c.addr|
  {
    |ip| == |c.addr| && ip[..c.ones] == c.addr[..c.ones]
  }

  function Zeros(n: nat): (z: Bits)
    ensures |z| == n && forall i :: 0 <= i < n ==> !z[i]
  {
    seq(n, _ => false)
  }

  function KeyFor(c: Cidr): (k: Key)
    requires c.ones <= |c.addr|
    ensures |k.addr| == |c.addr| && k.prefixLen == c.ones && k.addr[..c.ones] == c.addr[..c.ones]
  {
    Key(c.ones, c.addr[..c.ones] + Zeros(|c.addr| - c.ones))
  }

  /** The trie has an entry that is a prefix of the full address. */
  ghost predicate TrieMatches(trie: set<Key>, ip: Bits)
  {
    exists k :: k in trie && KeyMatches(k, ip)
  }

  predicate KeyMatches(k: Key, ip: Bits)
  {
    |k.addr| == |ip| && k.prefixLen <= |ip| && ip[..k.prefixLen] == k.addr[..k.prefixLen]
  }

  lemma KeyMatchesIff(c: Cidr, ip: Bits)
    requires c.ones <= |c.addr|
    ensures KeyMatches(KeyFor(c), ip) <==> Contains(c, ip)
  {
  }

  ghost predicate SameAddresses(a: Cidr, b: Cidr)
    requires a.ones <= |a.addr| && b.ones <= |b.addr|
  {
    forall ip :: Contains(a, ip) <==> Contains(b, ip)
  }

  /** An address of a that differs from b's prefix at bit i. */
  lemma Outside(a: Cidr, b: Cidr, i: nat) returns (ip: Bits)
    requires |a.addr| == |b.addr| && a.ones <= |a.addr| && b.ones <= |b.addr|
    requires i < b.ones && (i >= a.ones || a.addr[i] != b.addr[i])
    ensures Contains(a, ip) && !Contains(b, ip)
  {
    ip := if i < a.ones then a.addr else a.addr[i := !b.addr[i]];
    assert ip[..a.ones] == a.addr[..a.ones];
    assert ip[..b.ones][i] != b.addr[..b.ones][i];
  }

  /** Two subnets of one family get the same key exactly when they contain the same addresses. */
  lemma SameKeyIff(a: Cidr, b: Cidr)
    requires |a.addr| == |b.addr| && a.ones <= |a.addr| && b.ones <= |b.addr|
    ensures KeyFor(a) == KeyFor(b) <==> SameAddresses(a, b)
  {
    if KeyFor(a) == KeyFor(b) {
      assert a.ones == b.ones && a.addr[..a.ones] == b.addr[..b.ones];
    } else if a.ones < b.ones {
      var ip := Outside(a, b, a.ones);
    } else if b.ones < a.ones {
      var ip := Outside(b, a, b.ones);
    } else {
      assert a.addr[..a.ones] != b.addr[..b.ones];
      var i :| 0 <= i < a.ones && a.addr[i] != b.addr[i];
      var ip := Outside(a, b, i);
    }
  }

  // -------------------------------------------------------- one map and its keys

  function Set<K>(s: seq<K>): (r: set<K>)
  {
    set k | k in s
  }

  /** A kernel map and the keys of it that the last applied configuration put there. */
  datatype Family<K> = Family(entries: set<K>, tracked: seq<K>)

  /** A map after some operations, whether all succeeded so far, and how many there were. */
  datatype Progress<K> = Progress(entries: set<K>, ok: bool, ops: nat)

  /** Deletes the old keys that are not wanted, up to the first failure; deleting an absent key is no failure. */
  function RemoveStale<K>(p: Progress<K>, past: seq<K>, wanted: set<K>, fails: set<nat>): (r: Progress<K>)
  {
    if past == [] then p
    else
      var q, k := RemoveStale(p, past[..|past| - 1], wanted, fails), past[|past| - 1];
      if !q.ok || k in wanted then q
      else if q.ops in fails then q.(ok := false, ops := q.ops + 1)
      else Progress(q.entries - {k}, true, q.ops + 1)
  }

  /** Inserts keys, up to the first failure. */
  function InsertAll<K>(p: Progress<K>, keys: seq<K>, fails: set<nat>): (r: Progress<K>)
  {
    if keys == [] then p
    else
      var q, k := InsertAll(p, keys[..|keys| - 1], fails), keys[|keys| - 1];
      if !q.ok then q
      else if q.ops in fails then q.(ok := false, ops := q.ops + 1)
      else Progress(q.entries + {k}, true, q.ops + 1)
  }

  /** Reconciles one map with new keys. */
  function Sync<K>(f: Family<K>, keys: seq<K>, fails: set<nat>, ops: nat): (r: (Family<K>, Progress<K>))
  {
    var removed := RemoveStale(Progress(f.entries, true, ops), f.tracked, Set(keys), fails);
    var inserted := InsertAll(removed, keys, fails);
    (Family(inserted.entries, if inserted.ok then keys else f.tracked), inserted)
  }

  /** What a reload is meant to leave: stale keys gone, wanted keys present, all others untouched. */
  function Target<K>(f: Family<K>, keys: seq<K>): (r: set<K>)
  {
    (f.entries - (Set(f.tracked) - Set(keys))) + Set(keys)
  }

  lemma {:induction false} RemoveEffect<K>(p: Progress<K>, past: seq<K>, wanted: set<K>, fails: set<nat>)
    ensures var r := RemoveStale(p, past, wanted, fails);
      && p.entries - (Set(past) - wanted) <= r.entries <= p.entries
      && (r.ok ==> p.ok && r.entries == p.entries - (Set(past) - wanted))
      && (!p.ok ==> r == p)
    decreases |past|
  {
    if past != [] {
      RemoveEffect(p, past[..|past| - 1], wanted, fails);
      assert past == past[..|past| - 1] + [past[|past| - 1]];
      assert Set(past) == Set(past[..|past| - 1]) + {past[|past| - 1]};
    }
  }

  lemma {:induction false} InsertEffect<K>(p: Progress<K>, keys: seq<K>, fails: set<nat>)
    ensures var r := InsertAll(p, keys, fails);
      && p.entries <= r.entries <= p.entries + Set(keys)
      && (r.ok ==> p.ok && r.entries == p.entries + Set(keys))
      && (!p.ok ==> r == p)
    decreases |keys|
  {
    if keys != [] {
      InsertEffect(p, keys[..|keys| - 1], fails);
      assert keys == keys[..|keys| - 1] + [keys[|keys| - 1]];
      assert Set(keys) == Set(keys[..|keys| - 1]) + {keys[|keys| - 1]};
    }
  }

  /** An attempt never moves the target, and reaches it if it succeeds. */
  lemma SyncKeepsTarget<K>(f: Family<K>, keys: seq<K>, fails: set<nat>, ops: nat)
    ensures Target(Sync(f, keys, fails, ops).0, keys) == Target(f, keys)
    ensures Sync(f, keys, fails, ops).1.ok ==> Sync(f, keys, fails, ops).0 == Family(Target(f, keys), keys)
  {
    var start := Progress(f.entries, true, ops);
    RemoveEffect(start, f.tracked, Set(keys), fails);
    InsertEffect(RemoveStale(start, f.tracked, Set(keys), fails), keys, fails);
  }

  lemma TargetHas<K>(f: Family<K>, keys: seq<K>, k: K)
    ensures k in Target(f, keys) <==> k in keys || (k in f.entries && k !in f.tracked)
  {
  }

  // --------------------------------------------------------------- the controller

  type Port = nat

  /** A configured subnet after text parsing. */
  datatype Subnet = Malformed | V4(cidr: Cidr) | V6(cidr: Cidr)

  datatype Config = Config(subnets: seq<Subnet>, ports: seq<Port>)

  datatype State = State(v4: Family<Key>, v6: Family<Key>, ports: Family<Port>)

  /** The text denotes a subnet whose mask and address fit its family. */
  predicate Parses(s: Subnet)
  {
    (s.V4? && ValidCidr(s.cidr, 32)) || (s.V6? && ValidCidr(s.cidr, 128))
  }

  predicate AllParse(subnets: seq<Subnet>)
  {
    forall i :: 0 <= i < |subnets| ==> Parses(subnets[i])
  }

  function KeysV4(subnets: seq<Subnet>): (ks: seq<Key>)
    requires AllParse(subnets)
  {
    if subnets == [] then []
    else
      var s := subnets[|subnets| - 1];
      KeysV4(subnets[..|subnets| - 1]) + if s.V4? then [KeyFor(s.cidr)] else []
  }

  function KeysV6(subnets: seq<Subnet>): (ks: seq<Key>)
    requires AllParse(subnets)
  {
    if subnets == [] then []
    else
      var s := subnets[|subnets| - 1];
      KeysV6(subnets[..|subnets| - 1]) + if s.V6? then [KeyFor(s.cidr)] else []
  }

  /** The keys a configuration asks for. */
  datatype Keys = Keys(v4: seq<Key>, v6: seq<Key>, ports: seq<Port>)

  function KeysOf(cfg: Config): (ks: Keys)
    requires AllParse(cfg.subnets)
  {
    Keys(KeysV4(cfg.subnets), KeysV6(cfg.subnets), cfg.ports)
  }

  /** The three maps in order, stopping at the first failed operation. */
  function Reconcile(s: State, ks: Keys, fails: set<nat>): (r: (State, bool))
  {
    var (v4, p4) := Sync(s.v4, ks.v4, fails, 0);
    if !p4.ok then (s.(v4 := v4), false)
    else
      var (v6, p6) := Sync(s.v6, ks.v6, fails, p4.ops);
      if !p6.ok then (s.(v4 := v4, v6 := v6), false)
      else
        var (ports, pp) := Sync(s.ports, ks.ports, fails, p6.ops);
        (State(v4, v6, ports), pp.ok)
  }

  /** One SetBlocklist call. */
  function Attempt(s: State, cfg: Config, fails: set<nat>): (r: (State, bool))
  {
    if !AllParse(cfg.subnets) then (s, false) else Reconcile(s, KeysOf(cfg), fails)
  }

  function Goal(s: State, ks: Keys): (r: State)
  {
    State(Family(Target(s.v4, ks.v4), ks.v4), Family(Target(s.v6, ks.v6), ks.v6),
          Family(Target(s.ports, ks.ports), ks.ports))
  }

  /** The state a successful call is meant to leave. */
  function Applied(s: State, cfg: Config): (r: State)
    requires AllParse(cfg.subnets)
  {
    Goal(s, KeysOf(cfg))
  }

  /** A parse error changes nothing; otherwise an attempt leaves the goal where it was, and success reaches it. */
  lemma AttemptKeepsGoal(s: State, cfg: Config, fails: set<nat>)
    ensures !AllParse(cfg.subnets) ==> Attempt(s, cfg, fails) == (s, false)
    ensures AllParse(cfg.subnets) ==> Applied(Attempt(s, cfg, fails).0, cfg) == Applied(s, cfg)
    ensures Attempt(s, cfg, fails).1 ==>
      AllParse(cfg.subnets) && Attempt(s, cfg, fails).0 == Applied(s, cfg)
  {
    if AllParse(cfg.subnets) {
      var k4, k6 := KeysV4(cfg.subnets), KeysV6(cfg.subnets);
      var p4 := Sync(s.v4, k4, fails, 0).1;
      var p6 := Sync(s.v6, k6, fails, p4.ops).1;
      SyncKeepsTarget(s.v4, k4, fails, 0);
      SyncKeepsTarget(s.v6, k6, fails, p4.ops);
      SyncKeepsTarget(s.ports, cfg.ports, fails, p6.ops);
    }
  }

  /** Repeated attempts with one configuration, each with its own failures. */
  function Attempts(s: State, cfg: Config, tries: seq<set<nat>>): (r: (State, bool))
  {
    if tries == [] then (s, false) else Attempt(Attempts(s, cfg, tries[..|tries| - 1]).0, cfg, tries[|tries| - 1])
  }

  lemma {:induction false} AttemptsKeepGoal(s: State, cfg: Config, tries: seq<set<nat>>)
    requires AllParse(cfg.subnets)
    ensures Applied(Attempts(s, cfg, tries).0, cfg) == Applied(s, cfg)
    decreases |tries|
  {
    if tries != [] {
      AttemptsKeepGoal(s, cfg, tries[..|tries| - 1]);
      AttemptKeepsGoal(Attempts(s, cfg, tries[..|tries| - 1]).0, cfg, tries[|tries| - 1]);
    }
  }

  /** Any number of failed attempts followed by a success leaves exactly what one success would have left. */
  lemma RetriesConverge(s: State, cfg: Config, tries: seq<set<nat>>)
    requires Attempts(s, cfg, tries).1
    ensures AllParse(cfg.subnets) && Attempts(s, cfg, tries).0 == Applied(s, cfg)
    ensures Attempt(s, cfg, {}).0 == Attempts(s, cfg, tries).0
  {
    var before := Attempts(s, cfg, tries[..|tries| - 1]).0;
    AttemptKeepsGoal(before, cfg, tries[|tries| - 1]);
    AttemptsKeepGoal(s, cfg, tries[..|tries| - 1]);
    NoFailures(s, cfg);
    AttemptKeepsGoal(s, cfg, {});
  }

  lemma {:induction false} RemoveSucceeds<K>(p: Progress<K>, past: seq<K>, wanted: set<K>)
    requires p.ok
    ensures RemoveStale(p, past, wanted, {}).ok
    decreases |past|
  {
    if past != [] {
      RemoveSucceeds(p, past[..|past| - 1], wanted);
    }
  }

  lemma {:induction false} InsertSucceeds<K>(p: Progress<K>, keys: seq<K>)
    requires p.ok
    ensures InsertAll(p, keys, {}).ok
    decreases |keys|
  {
    if keys != [] {
      InsertSucceeds(p, keys[..|keys| - 1]);
    }
  }

  lemma SyncSucceeds<K>(f: Family<K>, keys: seq<K>, ops: nat)
    ensures Sync(f, keys, {}, ops).1.ok
  {
    var start := Progress(f.entries, true, ops);
    RemoveSucceeds(start, f.tracked, Set(keys));
    InsertSucceeds(RemoveStale(start, f.tracked, Set(keys), {}), keys);
  }

  lemma NoFailures(s: State, cfg: Config)
    requires AllParse(cfg.subnets)
    ensures Attempt(s, cfg, {}).1
  {
    var k4, k6 := KeysV4(cfg.subnets), KeysV6(cfg.subnets);
    var p4 := Sync(s.v4, k4, {}, 0).1;
    SyncSucceeds(s.v4, k4, 0);
    SyncSucceeds(s.v6, k6, p4.ops);
    SyncSucceeds(s.ports, cfg.ports, Sync(s.v6, k6, {}, p4.ops).1.ops);
  }

  /** The effect of adding one subnet by hand: present in its map, not tracked. */
  function WithSubnet(s: State, n: Subnet): (r: State)
  {
    if !Parses(n) then s
    else if n.V4? then s.(v4 := s.v4.(entries := s.v4.entries + {KeyFor(n.cidr)}))
    else s.(v6 := s.v6.(entries := s.v6.entries + {KeyFor(n.cidr)}))
  }

  /** The effect of removing one subnet by hand; what is tracked stays tracked. */
  function WithoutSubnet(s: State, n: Subnet): (r: State)
  {
    if !Parses(n) then s
    else if n.V4? then s.(v4 := s.v4.(entries := s.v4.entries - {KeyFor(n.cidr)}))
    else s.(v6 := s.v6.(entries := s.v6.entries - {KeyFor(n.cidr)}))
  }

  /** An address is blocked after adding a subnet by hand exactly if it was before or the subnet contains it. */
  lemma AddedBlocksIff(s: State, n: Subnet, ip: Bits)
    requires Parses(n)
    ensures TrieMatches(WithSubnet(s, n).v4.entries, ip) <==> TrieMatches(s.v4.entries, ip) || (n.V4? && Contains(n.cidr, ip))
    ensures TrieMatches(WithSubnet(s, n).v6.entries, ip) <==> TrieMatches(s.v6.entries, ip) || (n.V6? && Contains(n.cidr, ip))
    ensures WithSubnet(s, n).ports == s.ports
  {
    KeyMatchesIff(n.cidr, ip);
    assert n.V4? ==> KeyFor(n.cidr) in WithSubnet(s, n).v4.entries;
    assert n.V6? ==> KeyFor(n.cidr) in WithSubnet(s, n).v6.entries;
    assert s.v4.entries <= WithSubnet(s, n).v4.entries && s.v6.entries <= WithSubnet(s, n).v6.entries;
  }

  /** After removing a subnet by hand exactly its own key is gone. */
  lemma RemovedKeyGone(s: State, n: Subnet, k: Key)
    requires Parses(n)
    ensures k in WithoutSubnet(s, n).v4.entries <==> k in s.v4.entries && !(n.V4? && k == KeyFor(n.cidr))
    ensures k in WithoutSubnet(s, n).v6.entries <==> k in s.v6.entries && !(n.V6? && k == KeyFor(n.cidr))
    ensures WithoutSubnet(s, n).ports == s.ports
  {
  }

  /** After a successful call an entry is present exactly when it is configured, or was there untracked. */
  lemma UntrackedSurvive(s: State, cfg: Config, fails: set<nat>, k: Key, port: Port)
    requires Attempt(s, cfg, fails).1
    ensures AllParse(cfg.subnets)
    ensures var v4 := Attempt(s, cfg, fails).0.v4.entries;
      k in v4 <==> k in KeysV4(cfg.subnets) || (k in s.v4.entries && k !in s.v4.tracked)
    ensures var v6 := Attempt(s, cfg, fails).0.v6.entries;
      k in v6 <==> k in KeysV6(cfg.subnets) || (k in s.v6.entries && k !in s.v6.tracked)
    ensures var ports := Attempt(s, cfg, fails).0.ports.entries;
      port in ports <==> port in cfg.ports || (port in s.ports.entries && port !in s.ports.tracked)
  {
    AttemptKeepsGoal(s, cfg, fails);
  }

  // ------------------------------------------------------------- imperative form

  /** Deletes stale keys one by one. */
  method RemoveStaleKeys<K(==)>(entries: set<K>, past: seq<K>, newKeys: seq<K>, fails: set<nat>, ops: nat)
    returns (p: Progress<K>)
    ensures p == RemoveStale(Progress(entries, true, ops), past, Set(newKeys), fails)
  {
    var newSet: set<K> := {};
    for i := 0 to |newKeys|
      invariant newSet == Set(newKeys[..i])
    {
      newSet := newSet + {newKeys[i]};
    }
    assert newKeys[..|newKeys|] == newKeys;
    p := Progress(entries, true, ops);
    for i := 0 to |past|
      invariant p.ok && p == RemoveStale(Progress(entries, true, ops), past[..i], Set(newKeys), fails)
    {
      assert past[..i + 1][..i] == past[..i];
      if past[i] !in newSet {
        if p.ops in fails {
          p := p.(ok := false, ops := p.ops + 1);
          RemoveStopped(Progress(entries, true, ops), past, i + 1, Set(newKeys), fails);
          return;
        }
        p := Progress(p.entries - {past[i]}, true, p.ops + 1);
      }
    }
    assert past[..|past|] == past;
  }

  lemma {:induction false} RemoveStopped<K>(p: Progress<K>, past: seq<K>, i: nat, wanted: set<K>, fails: set<nat>)
    requires i <= |past| && !RemoveStale(p, past[..i], wanted, fails).ok
    ensures RemoveStale(p, past, wanted, fails) == RemoveStale(p, past[..i], wanted, fails)
    decreases |past|
  {
    if i == |past| {
      assert past[..i] == past;
    } else {
      assert past[..|past| - 1][..i] == past[..i];
      RemoveStopped(p, past[..|past| - 1], i, wanted, fails);
    }
  }

  /** Inserts keys one by one. */
  method InsertKeys<K(==)>(start: Progress<K>, keys: seq<K>, fails: set<nat>) returns (p: Progress<K>)
    requires start.ok
    ensures p == InsertAll(start, keys, fails)
  {
    p := start;
    for i := 0 to |keys|
      invariant p.ok && p == InsertAll(start, keys[..i], fails)
    {
      assert keys[..i + 1][..i] == keys[..i];
      if p.ops in fails {
        p := p.(ok := false, ops := p.ops + 1);
        InsertStopped(start, keys, i + 1, fails);
        return;
      }
      p := Progress(p.entries + {keys[i]}, true, p.ops + 1);
    }
    assert keys[..|keys|] == keys;
  }

  lemma {:induction false} InsertStopped<K>(p: Progress<K>, keys: seq<K>, i: nat, fails: set<nat>)
    requires i <= |keys| && !InsertAll(p, keys[..i], fails).ok
    ensures InsertAll(p, keys, fails) == InsertAll(p, keys[..i], fails)
    decreases |keys|
  {
    if i == |keys| {
      assert keys[..i] == keys;
    } else {
      assert keys[..|keys| - 1][..i] == keys[..i];
      InsertStopped(p, keys[..|keys| - 1], i, fails);
    }
  }

  /** Stale keys out, new keys in, and the new keys tracked if nothing failed. */
  method SyncFamily<K(==)>(f: Family<K>, keys: seq<K>, fails: set<nat>, ops: nat) returns (g: Family<K>, p: Progress<K>)
    ensures (g, p) == Sync(f, keys, fails, ops)
  {
    var removed := RemoveStaleKeys(f.entries, f.tracked, keys, fails, ops);
    if !removed.ok {
      InsertEffect(removed, keys, fails);
      return f.(entries := removed.entries), removed;
    }
    p := InsertKeys(removed, keys, fails);
    g := Family(p.entries, if p.ok then keys else f.tracked);
  }

  class Controller {
    var ipv4: Family<Key>
    var ipv6: Family<Key>
    var ports: Family<Port>

    ghost function View(): (s: State)
      reads this
    {
      State(ipv4, ipv6, ports)
    }

    constructor (v4: set<Key>, v6: set<Key>, ps: set<Port>)
      ensures View() == State(Family(v4, []), Family(v6, []), Family(ps, []))
    {
      ipv4, ipv6, ports := Family(v4, []), Family(v6, []), Family(ps, []);
    }

    /** Splits the configured subnets into trie keys; any malformed entry is an error. */
    method ParseSubnets(subnets: seq<Subnet>) returns (ok: bool, k4: seq<Key>, k6: seq<Key>)
      ensures ok == AllParse(subnets)
      ensures ok ==> k4 == KeysV4(subnets) && k6 == KeysV6(subnets)
    {
      k4, k6 := [], [];
      for i := 0 to |subnets|
        invariant AllParse(subnets[..i]) && k4 == KeysV4(subnets[..i]) && k6 == KeysV6(subnets[..i])
      {
        assert subnets[..i + 1][..i] == subnets[..i];
        var s := subnets[i];
        if !Parses(s) {
          return false, [], [];
        }
        if s.V4? {
          k4 := k4 + [KeyFor(s.cidr)];
        } else {
          k6 := k6 + [KeyFor(s.cidr)];
        }
      }
      assert subnets[..|subnets|] == subnets;
      ok := true;
    }

    method SetBlocklist(cfg: Config, fails: set<nat>) returns (ok: bool)
      modifies this
      ensures (View(), ok) == Attempt(old(View()), cfg, fails)
    {
      var k4, k6;
      ok, k4, k6 := ParseSubnets(cfg.subnets);
      if !ok {
        return;
      }
      var p4, p6, pp;
      ipv4, p4 := SyncFamily(ipv4, k4, fails, 0);
      if !p4.ok {
        return false;
      }
      ipv6, p6 := SyncFamily(ipv6, k6, fails, p4.ops);
      if !p6.ok {
        return false;
      }
      ports, pp := SyncFamily(ports, cfg.ports, fails, p6.ops);
      ok := pp.ok;
    }

    /** A dynamic entry: present in the map, not tracked. */
    method AddSubnet(s: Subnet, fails: bool) returns (ok: bool)
      modifies this
      ensures ok == (Parses(s) && !fails)
      ensures View() == if ok then WithSubnet(old(View()), s) else old(View())
    {
      if !Parses(s) || fails {
        return false;
      }
      if s.V4? {
        ipv4 := ipv4.(entries := ipv4.entries + {KeyFor(s.cidr)});
      } else {
        ipv6 := ipv6.(entries := ipv6.entries + {KeyFor(s.cidr)});
      }
      return true;
    }

    method RemoveSubnet(s: Subnet, fails: bool) returns (ok: bool)
      modifies this
      ensures ok == (Parses(s) && !fails)
      ensures View() == if ok then WithoutSubnet(old(View()), s) else old(View())
    {
      if !Parses(s) || fails {
        return false;
      }
      if s.V4? {
        ipv4 := ipv4.(entries := ipv4.entries - {KeyFor(s.cidr)});
      } else {
        ipv6 := ipv6.(entries := ipv6.entries - {KeyFor(s.cidr)});
      }
      return true;
    }

    method AddPort(port: Port, fails: bool) returns (ok: bool)
      modifies this
      ensures ok == !fails
      ensures View() == if ok then old(View()).(ports := old(ports).(entries := old(ports.entries) + {port})) else old(View())
    {
      if fails {
        return false;
      }
      ports := ports.(entries := ports.entries + {port});
      return true;
    }

    method RemovePort(port: Port, fails: bool) returns (ok: bool)
      modifies this
      ensures ok == !fails
      ensures View() == if ok then old(View()).(ports := old(ports).(entries := old(ports.entries) - {port})) else old(View())
    {
      if fails {
        return false;
      }
      ports := ports.(entries := ports.entries - {port});
      return true;
    }
  }
}
