/** The connect hook's decision over the blocklist maps, and its agreement with the configuration. */
module LsmConnect {
  import opened Blocklist
  import BlocklistHistory

  const EPERM: int := 1

  datatype Destination = Inet(ip: Bits, port: Port) | Inet6(ip: Bits, port: Port) | OtherFamily

  /** The maps the hook reads: the tries, the ports and the two PID sets. */
  datatype Maps = Maps(v4: set<Key>, v6: set<Key>, ports: set<Port>, agents: set<nat>, blockedPids: set<nat>)

  /** The destination is on the address or port blocklist. */
  ghost predicate DestinationBlocked(m: Maps, d: Destination)
  {
    match d
    case Inet(ip, port) => TrieMatches(m.v4, ip) || port in m.ports
    case Inet6(ip, port) => TrieMatches(m.v6, ip) || port in m.ports
    case OtherFamily => false
  }

  ghost predicate Denies(m: Maps, pid: nat, d: Destination)
  {
    pid !in m.agents && (DestinationBlocked(m, d) || pid in m.blockedPids)
  }

  /** Looks for a stored prefix of the address. */
  method LookupTrie(trie: set<Key>, ip: Bits) returns (found: bool)
    ensures found == TrieMatches(trie, ip)
  {
    found := false;
    var todo := trie;
    while todo != {}
      invariant todo <= trie
      invariant found <==> exists k :: k in trie - todo && KeyMatches(k, ip)
    {
      var k :| k in todo;
      todo := todo - {k};
      if KeyMatches(k, ip) {
        found := true;
      }
    }
  }

  class Hook {
    var maps: Maps
    var allowed: nat
    var blocked: nat
    var drops: nat
    var audits: seq<nat>

    constructor (maps: Maps)
      ensures this.maps == maps && allowed == 0 && blocked == 0 && drops == 0 && audits == []
    {
      this.maps, allowed, blocked, drops, audits := maps, 0, 0, 0, [];
    }

    /** Decides one connect; room says whether the audit ring buffer has space. */
    method SocketConnect(pid: nat, d: Destination, room: bool) returns (ret: int)
      modifies this
      ensures maps == old(maps)
      ensures ret == if Denies(maps, pid, d) then -EPERM else 0
      ensures allowed == old(allowed) + (if ret == 0 then 1 else 0)
      ensures blocked == old(blocked) + (if ret == 0 then 0 else 1)
      ensures drops == old(drops) + (if pid !in maps.agents && DestinationBlocked(maps, d) then 1 else 0)
      ensures audits == if ret != 0 && room then old(audits) + [pid] else old(audits)
    {
      if pid in maps.agents {
        allowed := allowed + 1;
        return 0;
      }
      var ipBlocked := false;
      if d.Inet? {
        ipBlocked := LookupTrie(maps.v4, d.ip);
        if !ipBlocked {
          ipBlocked := d.port in maps.ports;
        }
      } else if d.Inet6? {
        ipBlocked := LookupTrie(maps.v6, d.ip);
        if !ipBlocked {
          ipBlocked := d.port in maps.ports;
        }
      }
      if ipBlocked {
        blocked := blocked + 1;
        drops := drops + 1;
        if room {
          audits := audits + [pid];
        }
        return -EPERM;
      }
      if pid !in maps.blockedPids {
        allowed := allowed + 1;
        return 0;
      }
      blocked := blocked + 1;
      if room {
        audits := audits + [pid];
      }
      return -EPERM;
    }
  }

  // --------------------------------------------------------- agreement with config

  /** Some configured subnet of the destination's family contains it, or its port is listed. */
  ghost predicate ConfigBlocks(cfg: Config, d: Destination)
    requires AllParse(cfg.subnets)
  {
    match d
    case Inet(ip, port) =>
      port in cfg.ports || exists i :: 0 <= i < |cfg.subnets| && cfg.subnets[i].V4? && Contains(cfg.subnets[i].cidr, ip)
    case Inet6(ip, port) =>
      port in cfg.ports || exists i :: 0 <= i < |cfg.subnets| && cfg.subnets[i].V6? && Contains(cfg.subnets[i].cidr, ip)
    case OtherFamily => false
  }

  lemma {:induction false} KeysMatchV4(subnets: seq<Subnet>, ip: Bits)
    requires AllParse(subnets)
    ensures (exists k :: k in KeysV4(subnets) && KeyMatches(k, ip)) <==>
      exists i :: 0 <= i < |subnets| && subnets[i].V4? && Contains(subnets[i].cidr, ip)
    decreases |subnets|
  {
    if subnets != [] {
      var front, s := subnets[..|subnets| - 1], subnets[|subnets| - 1];
      KeysMatchV4(front, ip);
      KeyMatchesIff(s.cidr, ip);
      if k :| k in KeysV4(subnets) && KeyMatches(k, ip) {
        if k !in KeysV4(front) {
          assert s.V4? && k == KeyFor(s.cidr);
          assert subnets[|subnets| - 1].V4?;
        }
      }
      if i :| 0 <= i < |subnets| && subnets[i].V4? && Contains(subnets[i].cidr, ip) {
        if i < |front| {
          assert front[i].V4?;
          var k :| k in KeysV4(front) && KeyMatches(k, ip);
          assert k in KeysV4(subnets);
        } else {
          assert KeyFor(s.cidr) in KeysV4(subnets);
        }
      }
    }
  }

  lemma {:induction false} KeysMatchV6(subnets: seq<Subnet>, ip: Bits)
    requires AllParse(subnets)
    ensures (exists k :: k in KeysV6(subnets) && KeyMatches(k, ip)) <==>
      exists i :: 0 <= i < |subnets| && subnets[i].V6? && Contains(subnets[i].cidr, ip)
    decreases |subnets|
  {
    if subnets != [] {
      var front, s := subnets[..|subnets| - 1], subnets[|subnets| - 1];
      KeysMatchV6(front, ip);
      KeyMatchesIff(s.cidr, ip);
      if k :| k in KeysV6(subnets) && KeyMatches(k, ip) {
        if k !in KeysV6(front) {
          assert s.V6? && k == KeyFor(s.cidr);
          assert subnets[|subnets| - 1].V6?;
        }
      }
      if i :| 0 <= i < |subnets| && subnets[i].V6? && Contains(subnets[i].cidr, ip) {
        if i < |front| {
          assert front[i].V6?;
          var k :| k in KeysV6(front) && KeyMatches(k, ip);
          assert k in KeysV6(subnets);
        } else {
          assert KeyFor(s.cidr) in KeysV6(subnets);
        }
      }
    }
  }

  /** Every entry of the maps was put there by the configuration in force. */
  ghost predicate Clean(s: State)
  {
    s.v4.entries == Set(s.v4.tracked) && s.v6.entries == Set(s.v6.tracked) && s.ports.entries == Set(s.ports.tracked)
  }

  lemma CleanTarget<K>(f: Family<K>, keys: seq<K>)
    requires f.entries == Set(f.tracked)
    ensures Target(f, keys) == Set(keys)
  {
  }

  /** The maps hold the keys of cfg and nothing else. */
  ghost predicate HoldsExactly(s: State, cfg: Config)
    requires AllParse(cfg.subnets)
  {
    s.v4 == Family(Set(KeysV4(cfg.subnets)), KeysV4(cfg.subnets)) &&
    s.v6 == Family(Set(KeysV6(cfg.subnets)), KeysV6(cfg.subnets)) &&
    s.ports == Family(Set(cfg.ports), cfg.ports)
  }

  lemma CleanApplied(s: State, cfg: Config)
    requires Clean(s) && AllParse(cfg.subnets)
    ensures HoldsExactly(Applied(s, cfg), cfg)
  {
    CleanTarget(s.v4, KeysV4(cfg.subnets));
    CleanTarget(s.v6, KeysV6(cfg.subnets));
    CleanTarget(s.ports, cfg.ports);
  }

  lemma {:induction false} ReloadsStayClean(s: State, acts: seq<BlocklistHistory.Act>)
    requires Clean(s) && BlocklistHistory.AllConfigured(s, acts)
    ensures Clean(BlocklistHistory.After(s, acts))
    ensures acts != [] ==>
      var last := acts[|acts| - 1];
      last.Configure? && AllParse(last.cfg.subnets) && HoldsExactly(BlocklistHistory.After(s, acts), last.cfg)
    decreases |acts|
  {
    if acts != [] {
      var front, a := acts[..|acts| - 1], acts[|acts| - 1];
      ReloadsStayClean(s, front);
      CleanStep(BlocklistHistory.After(s, front), a.cfg, a.tries);
    }
  }

  lemma CleanStep(s: State, cfg: Config, tries: seq<set<nat>>)
    requires Clean(s) && Attempts(s, cfg, tries).1
    ensures AllParse(cfg.subnets) && HoldsExactly(Attempts(s, cfg, tries).0, cfg)
    ensures Clean(Attempts(s, cfg, tries).0)
  {
    RetriesConverge(s, cfg, tries);
    CleanApplied(s, cfg);
  }

  /** Over maps that hold one configuration and nothing else, the kernel denies a connection exactly when it is not
      the agent's and the configuration or the PID list says so. */
  lemma KernelMatches(r: State, cfg: Config, agents: set<nat>, pids: set<nat>, pid: nat, d: Destination)
    requires AllParse(cfg.subnets) && HoldsExactly(r, cfg)
    ensures Denies(Maps(r.v4.entries, r.v6.entries, r.ports.entries, agents, pids), pid, d) <==>
      pid !in agents && (ConfigBlocks(cfg, d) || pid in pids)
  {
    match d
    case Inet(ip, _) =>
      KeysMatchV4(cfg.subnets, ip);
      assert TrieMatches(Set(KeysV4(cfg.subnets)), ip) <==> exists k :: k in KeysV4(cfg.subnets) && KeyMatches(k, ip);
    case Inet6(ip, _) =>
      KeysMatchV6(cfg.subnets, ip);
      assert TrieMatches(Set(KeysV6(cfg.subnets)), ip) <==> exists k :: k in KeysV6(cfg.subnets) && KeyMatches(k, ip);
    case OtherFamily =>
  }

  /** After any history of configurations, each retried until it succeeded, the kernel denies a connection exactly
      when it is not the agent's and the last configuration or the PID list says so. */
  lemma KernelAgreesWithConfig(
    s: State, acts: seq<BlocklistHistory.Act>, agents: set<nat>, pids: set<nat>, pid: nat, d: Destination)
    requires Clean(s) && BlocklistHistory.AllConfigured(s, acts) && acts != []
    ensures acts[|acts| - 1].Configure? && AllParse(acts[|acts| - 1].cfg.subnets)
    ensures var r := BlocklistHistory.After(s, acts);
      Denies(Maps(r.v4.entries, r.v6.entries, r.ports.entries, agents, pids), pid, d) <==>
      pid !in agents && (ConfigBlocks(acts[|acts| - 1].cfg, d) || pid in pids)
  {
    ReloadsStayClean(s, acts);
    KernelMatches(BlocklistHistory.After(s, acts), acts[|acts| - 1].cfg, agents, pids, pid, d);
  }

  /** A prefix of the address is held by a history of its map. */
  ghost predicate HeldPrefix(f: Family<Key>, ms: seq<BlocklistHistory.Move<Key>>, ip: Bits)
  {
    exists k :: BlocklistHistory.Held(f, ms, k) && KeyMatches(k, ip)
  }

  /** A history of the maps blocks a destination. */
  ghost predicate HistoryBlocks(s: State, acts: seq<BlocklistHistory.Act>, d: Destination)
  {
    match d
    case Inet(ip, port) =>
      HeldPrefix(s.v4, BlocklistHistory.MovesOf(s, acts).v4, ip) ||
      BlocklistHistory.Held(s.ports, BlocklistHistory.MovesOf(s, acts).ports, port)
    case Inet6(ip, port) =>
      HeldPrefix(s.v6, BlocklistHistory.MovesOf(s, acts).v6, ip) ||
      BlocklistHistory.Held(s.ports, BlocklistHistory.MovesOf(s, acts).ports, port)
    case OtherFamily => false
  }

  /** The same for any history of configurations, successful or given up, and of entries added and removed by hand,
      from any maps. */
  lemma KernelAgreesWithHistory(
    s: State, acts: seq<BlocklistHistory.Act>, agents: set<nat>, pids: set<nat>, pid: nat, d: Destination)
    ensures var r := BlocklistHistory.After(s, acts);
      Denies(Maps(r.v4.entries, r.v6.entries, r.ports.entries, agents, pids), pid, d) <==>
      pid !in agents && (HistoryBlocks(s, acts, d) || pid in pids)
  {
    BlocklistHistory.MapsHoldHistory(s, acts);
  }
}
