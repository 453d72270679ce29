/** TCP connection tracking: the connect and close handlers over two bounded insert-if-absent maps. */
module ConnTracking {
  import opened Bytes
  import opened Wrappers

  const CAPACITY: nat := 65536

  type Sock = nat

  const WRAP: nat := 0x1_0000_0000_0000_0000

  /** A 64-bit number of nanoseconds. */
  type Word = n: nat | n < WRAP

  /** An address field: IPv4 takes the first four octets, IPv6 all of them. */
  type Field = a: seq<byte> | |a| == 16 witness [0, 0, 0, 0, 0, 0, 0, 0, 0, 0, 0, 0, 0, 0, 0, 0]

  datatype Tuple = Tuple(saddr: Field, daddr: Field, sport: nat, dport: nat, family: nat)

  /** A submitted record. That of a close has its duration in the octets where its destination starts. */
  datatype Event =
    | Connected(sock: Sock, tuple: Tuple)
    | Closed(sock: Sock, record: Tuple)

  datatype State = State(start: map<Sock, Word>, meta: map<Sock, Tuple>)

  /** The time from ts to now, as the 64-bit subtraction gives it. */
  function Elapsed(ts: Word, now: Word): (d: Word)
  {
    (now - ts) % WRAP
  }

  /** The network fields after the duration is written to the first argument slot of the overlapping
      syscall fields: octets 16 to 24 of the union, where the destination address starts. */
  function Overlaid(t: Tuple, d: Word): (r: Tuple)
  {
    t.(daddr := PutLittleEndian(d, 8) + t.daddr[8..])
  }

  /** The duration the agent reads off a record. */
  function DurationOf(record: Tuple): (d: nat)
  {
    LittleEndian(record.daddr[..8])
  }

  /** A connect: whether its family is tracked, whether its destination is blocked, and whether the event
      was sampled and found ring-buffer space; or a close, with the tuple a re-read of the socket would give. */
  datatype Op =
    | Connect(sock: Sock, ts: Word, tuple: Tuple, inet: bool, blocked: bool, emitted: bool)
    | Close(sock: Sock, now: Word, room: bool, reread: Tuple)

  /** Insertion with BPF_NOEXIST into a map of bounded size. */
  function InsertNew<V>(m: map<Sock, V>, k: Sock, v: V): (r: map<Sock, V>)
  {
    if k in m || |m| >= CAPACITY then m else m[k := v]
  }

  function Next(s: State, o: Op): (r: State)
  {
    match o
    case Connect(sk, ts, tuple, inet, blocked, _) =>
      if !inet || blocked then s else State(InsertNew(s.start, sk, ts), InsertNew(s.meta, sk, tuple))
    case Close(sk, _, _, _) =>
      if sk !in s.start then s else State(s.start - {sk}, s.meta - {sk})
  }

  function Output(s: State, o: Op): (e: Option<Event>)
  {
    match o
    case Connect(sk, _, tuple, inet, blocked, emitted) =>
      if !inet || blocked || !emitted then None else Some(Connected(sk, tuple))
    case Close(sk, now, room, reread) =>
      if sk !in s.start || !room then None
      else Some(Closed(sk, Overlaid(if sk in s.meta then s.meta[sk] else reread, Elapsed(s.start[sk], now))))
  }

  class Tracker {
    var connStart: map<Sock, Word>
    var connMeta: map<Sock, Tuple>
    var startFull: nat
    var metaFull: nat

    ghost function View(): (s: State)
      reads this
    {
      State(connStart, connMeta)
    }

    constructor ()
      ensures View() == State(map[], map[]) && startFull == 0 && metaFull == 0
    {
      connStart, connMeta, startFull, metaFull := map[], map[], 0, 0;
    }

    method TraceConnect(sk: Sock, ts: Word, tuple: Tuple, inet: bool, blocked: bool, emitted: bool)
      returns (e: Option<Event>)
      modifies this
      ensures View() == Next(old(View()), Connect(sk, ts, tuple, inet, blocked, emitted))
      ensures e == Output(old(View()), Connect(sk, ts, tuple, inet, blocked, emitted))
      ensures old(connStart.Keys == connMeta.Keys) ==>
        connStart.Keys == connMeta.Keys && startFull - old(startFull) == metaFull - old(metaFull)
    {
      if connStart.Keys == connMeta.Keys {
        SameSize(connStart, connMeta);
      }
      e := None;
      if !inet {
        return;
      }
      if blocked {
        return;
      }
      if sk !in connStart {
        if |connStart| >= CAPACITY {
          startFull := startFull + 1;
        } else {
          connStart := connStart[sk := ts];
        }
      }
      if emitted {
        e := Some(Connected(sk, tuple));
      }
      if sk !in connMeta {
        if |connMeta| >= CAPACITY {
          metaFull := metaFull + 1;
        } else {
          connMeta := connMeta[sk := tuple];
        }
      }
    }

    method TraceClose(sk: Sock, now: Word, room: bool, reread: Tuple) returns (e: Option<Event>)
      modifies this
      ensures View() == Next(old(View()), Close(sk, now, room, reread))
      ensures e == Output(old(View()), Close(sk, now, room, reread))
      ensures startFull == old(startFull) && metaFull == old(metaFull)
    {
      if sk !in connStart {
        return None;
      }
      var duration := Elapsed(connStart[sk], now);
      connStart := connStart - {sk};
      var meta := if sk in connMeta then Some(connMeta[sk]) else None;
      if !room {
        connMeta := connMeta - {sk};
        return None;
      }
      var record := reread;
      if meta.Some? {
        record := meta.value;
        connMeta := connMeta - {sk};
      } else {
        assert connMeta - {sk} == connMeta;
      }
      record := record.(daddr := PutLittleEndian(duration, 8) + record.daddr[8..]);
      e := Some(Closed(sk, record));
    }
  }

  lemma SameSize<V, W>(a: map<Sock, V>, b: map<Sock, W>)
    requires a.Keys == b.Keys
    ensures |a| == |b|
  {
    assert |a| == |a.Keys| && |b| == |b.Keys|;
  }

  // ------------------------------------------------------------------------- runs

  function Run(ops: seq<Op>): (s: State)
  {
    if ops == [] then State(map[], map[]) else Next(Run(ops[..|ops| - 1]), ops[|ops| - 1])
  }

  /** In every reachable state the two maps have the same keys, at capacity too. */
  lemma {:induction false} DomainsEqual(ops: seq<Op>)
    ensures Run(ops).start.Keys == Run(ops).meta.Keys
    ensures |Run(ops).start| <= CAPACITY
  {
    if ops != [] {
      DomainsEqual(ops[..|ops| - 1]);
      var s := Run(ops[..|ops| - 1]);
      SameSize(s.start, s.meta);
    }
  }

  /** Connect i of the run opened what is stored for sk, and sk was not closed since. */
  ghost predicate OpenedBy(ops: seq<Op>, sk: Sock, i: int, ts: Word, tuple: Tuple)
  {
    && 0 <= i < |ops|
    && ops[i].Connect? && ops[i].inet && !ops[i].blocked
    && ops[i].sock == sk && ops[i].ts == ts && ops[i].tuple == tuple
    && forall j :: i < j < |ops| && ops[j].Close? ==> ops[j].sock != sk
  }

  lemma StillOpen(ops: seq<Op>, o: Op, sk: Sock, i: int, ts: Word, tuple: Tuple)
    requires OpenedBy(ops, sk, i, ts, tuple) && (o.Close? ==> o.sock != sk)
    ensures OpenedBy(ops + [o], sk, i, ts, tuple)
  {
  }

  /** What is stored for a socket, start time and tuple, comes from one and the same connect. */
  lemma {:induction false} StoredTogether(ops: seq<Op>, sk: Sock) returns (i: int)
    requires sk in Run(ops).start
    ensures sk in Run(ops).meta
    ensures OpenedBy(ops, sk, i, Run(ops).start[sk], Run(ops).meta[sk])
    decreases |ops|
  {
    var front, o := ops[..|ops| - 1], ops[|ops| - 1];
    var s := Run(front);
    DomainsEqual(front);
    SameSize(s.start, s.meta);
    if sk in s.start {
      i := StoredTogether(front, sk);
      StillOpen(front, o, sk, i, s.start[sk], s.meta[sk]);
      assert front + [o] == ops;
    } else {
      i := |ops| - 1;
    }
  }

  // ------------------------------------------------------------- what is tracked

  /** An accepted connect of a socket: its family is tracked and its destination is not blocked. */
  predicate Accepts(o: Op, sk: Sock)
  {
    o.Connect? && o.inet && !o.blocked && o.sock == sk
  }

  predicate Closes(o: Op, sk: Sock)
  {
    o.Close? && o.sock == sk
  }

  /** An accepted connect of a socket that is not stored, below capacity, stores exactly its own start time and tuple,
      whether or not its event is emitted. */
  lemma ConnectStores(s: State, sk: Sock, ts: Word, tuple: Tuple, emitted: bool)
    requires s.start.Keys == s.meta.Keys && sk !in s.start && |s.start| < CAPACITY
    ensures Next(s, Connect(sk, ts, tuple, true, false, emitted)) == State(s.start[sk := ts], s.meta[sk := tuple])
  {
    SameSize(s.start, s.meta);
  }

  /** Operation i is an accepted connect of sk that finds room in the maps. */
  ghost predicate Meets(ops: seq<Op>, i: int, sk: Sock)
  {
    0 <= i < |ops| && Accepts(ops[i], sk) && |Run(ops[..i]).start| < CAPACITY
  }

  ghost predicate ClosedAfter(ops: seq<Op>, i: int, sk: Sock)
  {
    exists j :: 0 <= j < |ops| && i < j && Closes(ops[j], sk)
  }

  /** Operation i is the first accepted connect of sk with room since the last close of sk. */
  ghost predicate Opener(ops: seq<Op>, i: int, sk: Sock)
  {
    && Meets(ops, i, sk) && !ClosedAfter(ops, i, sk)
    && forall j :: 0 <= j < i && Meets(ops, j, sk) ==> ClosedAfter(ops[..i], j, sk)
  }

  lemma MeetsFront(front: seq<Op>, o: Op, i: int, sk: Sock)
    requires i < |front|
    ensures Meets(front + [o], i, sk) <==> Meets(front, i, sk)
  {
    if 0 <= i {
      assert (front + [o])[..i] == front[..i] && (front + [o])[i] == front[i];
    }
  }

  lemma ClosedFront(front: seq<Op>, o: Op, i: int, sk: Sock)
    requires 0 <= i < |front|
    ensures ClosedAfter(front + [o], i, sk) <==> ClosedAfter(front, i, sk) || Closes(o, sk)
  {
    var ops := front + [o];
    assert ops[|front|] == o;
    if j :| i < j < |ops| && Closes(ops[j], sk) {
      assert j < |front| ==> Closes(front[j], sk);
    }
    if j :| i < j < |front| && Closes(front[j], sk) {
      assert Closes(ops[j], sk);
    }
  }

  lemma OpenerFront(front: seq<Op>, o: Op, i: int, sk: Sock)
    requires 0 <= i < |front|
    ensures Opener(front + [o], i, sk) <==> Opener(front, i, sk) && !Closes(o, sk)
  {
    MeetsFront(front, o, i, sk);
    ClosedFront(front, o, i, sk);
    assert (front + [o])[..i] == front[..i];
    forall j | 0 <= j < i
      ensures Meets(front + [o], j, sk) <==> Meets(front, j, sk)
    {
      MeetsFront(front, o, j, sk);
    }
  }

  lemma OpenerLast(front: seq<Op>, o: Op, sk: Sock)
    ensures Opener(front + [o], |front|, sk) <==>
      && Accepts(o, sk) && |Run(front).start| < CAPACITY
      && forall j :: 0 <= j < |front| && Meets(front, j, sk) ==> ClosedAfter(front, j, sk)
  {
    var ops := front + [o];
    assert ops[..|front|] == front && ops[|front|] == o;
    forall j | 0 <= j < |front|
      ensures Meets(ops, j, sk) <==> Meets(front, j, sk)
    {
      MeetsFront(front, o, j, sk);
    }
  }

  /** What one more operation does to one socket, in terms of the maps before. */
  lemma NextOf(s: State, o: Op, sk: Sock)
    requires s.start.Keys == s.meta.Keys
    ensures var r := Next(s, o);
      && (sk in r.start <==> !Closes(o, sk) && (sk in s.start || (Accepts(o, sk) && |s.start| < CAPACITY)))
      && (sk in s.start && sk in r.start ==> sk in r.meta && r.start[sk] == s.start[sk] && r.meta[sk] == s.meta[sk])
      && (sk !in s.start && sk in r.start ==> o.Connect? && sk in r.meta && r.start[sk] == o.ts && r.meta[sk] == o.tuple)
  {
    SameSize(s.start, s.meta);
  }

  /** In every reachable state a socket is stored exactly if some accepted connect of it that found room was not closed
      since, and what is stored is the first such connect since the last close. */
  lemma {:induction false} TrackedIff(ops: seq<Op>, sk: Sock)
    ensures sk in Run(ops).start <==> exists i :: Opener(ops, i, sk)
    ensures sk !in Run(ops).start ==> forall i :: Meets(ops, i, sk) ==> ClosedAfter(ops, i, sk)
    ensures forall i :: Opener(ops, i, sk) ==>
      sk in Run(ops).start && sk in Run(ops).meta && Run(ops).start[sk] == ops[i].ts && Run(ops).meta[sk] == ops[i].tuple
    decreases |ops|
  {
    if ops != [] {
      var front, o := ops[..|ops| - 1], ops[|ops| - 1];
      assert ops == front + [o];
      TrackedIff(front, sk);
      DomainsEqual(front);
      NextOf(Run(front), o, sk);
      OpenerLast(front, o, sk);
      forall i | 0 <= i < |front|
        ensures Opener(ops, i, sk) <==> Opener(front, i, sk) && !Closes(o, sk)
        ensures Meets(ops, i, sk) <==> Meets(front, i, sk)
        ensures ClosedAfter(ops, i, sk) <==> ClosedAfter(front, i, sk) || Closes(o, sk)
      {
        OpenerFront(front, o, i, sk);
        MeetsFront(front, o, i, sk);
        ClosedFront(front, o, i, sk);
      }
      if Opener(ops, |front|, sk) {
        assert sk !in Run(front).start;
      }
      if i :| Opener(front, i, sk) && !Closes(o, sk) {
        assert Opener(ops, i, sk);
      }
    }
  }

  /** The maps have room at every accepted connect of the run. */
  ghost predicate Roomy(ops: seq<Op>)
  {
    forall i, sk :: 0 <= i < |ops| && Accepts(ops[i], sk) ==> Meets(ops, i, sk)
  }

  /** While no connect meets a full map, a socket is stored exactly if some accepted connect of it was not closed since. */
  lemma TrackedWithRoom(ops: seq<Op>, sk: Sock)
    requires Roomy(ops)
    ensures sk in Run(ops).start <==> exists i :: 0 <= i < |ops| && Accepts(ops[i], sk) && !ClosedAfter(ops, i, sk)
  {
    TrackedIff(ops, sk);
    if sk in Run(ops).start {
      var i :| Opener(ops, i, sk);
      assert Accepts(ops[i], sk);
    }
  }

  /** Exactly when events are submitted: for a connect if it is accepted, sampled and finds ring-buffer space, and for a
      close if its socket is tracked and there is space. */
  lemma ReportedIff(s: State, o: Op)
    ensures Output(s, o).Some? <==>
      if o.Connect? then o.inet && !o.blocked && o.emitted else o.sock in s.start && o.room
    ensures o.Connect? && Output(s, o).Some? ==> Output(s, o).value == Connected(o.sock, o.tuple)
  {
  }

  /** For one: a connect on empty maps and its close 100 nanoseconds later. */
  lemma FirstConnectReported(sk: Sock, tuple: Tuple, emitted: bool, reread: Tuple)
    ensures Output(Run([Connect(sk, 100, tuple, true, false, emitted)]), Close(sk, 200, true, reread)) ==
      Some(Closed(sk, Overlaid(tuple, 100)))
  {
    var o := Connect(sk, 100, tuple, true, false, emitted);
    assert [o][..0] == [];
    ConnectStores(State(map[], map[]), sk, 100, tuple, emitted);
    assert Run([o]) == Next(Run([]), o);
  }

  /** A close of a tracked socket is filled from one connect that no other close ended: the re-read of the
      socket is never used. The duration is right, and so is every field but the start of the destination. */
  lemma CloseReportsItsConnect(ops: seq<Op>, sk: Sock, now: Word, reread: Tuple) returns (i: int, record: Tuple)
    requires sk in Run(ops).start
    ensures 0 <= i < |ops| && ops[i].Connect? && OpenedBy(ops, sk, i, ops[i].ts, ops[i].tuple)
    ensures Output(Run(ops), Close(sk, now, true, reread)) == Some(Closed(sk, record))
    ensures DurationOf(record) == Elapsed(ops[i].ts, now)
    ensures record == ops[i].tuple.(daddr := record.daddr) && record.daddr[8..] == ops[i].tuple.daddr[8..]
    ensures record.daddr == ops[i].tuple.daddr <==> DurationOf(ops[i].tuple) == Elapsed(ops[i].ts, now)
  {
    i := StoredTogether(ops, sk);
    record := Overlaid(ops[i].tuple, Elapsed(ops[i].ts, now));
    OverlayReads(ops[i].tuple, Elapsed(ops[i].ts, now));
    DestinationKeptIff(ops[i].tuple, Elapsed(ops[i].ts, now));
  }

  lemma OverlayReads(t: Tuple, d: Word)
    ensures DurationOf(Overlaid(t, d)) == d && Overlaid(t, d).daddr[8..] == t.daddr[8..]
  {
    LittleEndianRoundTrip(d, 8);
    assert Overlaid(t, d).daddr[..8] == PutLittleEndian(d, 8);
  }

  /** A record carries the destination exactly if the first eight octets of the destination, read as a
      number, happen to be the duration. */
  lemma DestinationKeptIff(t: Tuple, d: Word)
    ensures Overlaid(t, d).daddr == t.daddr <==> DurationOf(t) == d
  {
    OverlayReads(t, d);
    LittleEndianUnique(t.daddr[..8]);
    assert t.daddr == t.daddr[..8] + t.daddr[8..];
  }

  ghost predicate IsIpv4(f: Field)
  {
    forall i :: 4 <= i < 16 ==> f[i] == 0
  }

  /** a.b.c.d read from the last octet up. */
  function Backwards(a: int, b: int, c: int, d: int): (n: int)
  {
    a + 0x100 * (b + 0x100 * (c + 0x100 * d))
  }

  lemma Ipv4Number(f: Field)
    requires IsIpv4(f)
    ensures LittleEndian(f[..8]) == Backwards(f[0], f[1], f[2], f[3])
  {
    var z := f[4..8];
    assert z == [0, 0, 0, 0];
    assert LittleEndian(z[3..]) == 0 by { assert z[3..] == [0]; assert z[3..][1..] == []; }
    assert z[2..][1..] == z[3..] && z[1..][1..] == z[2..];
    assert LittleEndian(z[2..]) == 0;
    assert LittleEndian(z[1..]) == 0;
    assert LittleEndian(z) == 0;
    assert f[3..8][1..] == z && f[2..8][1..] == f[3..8] && f[1..8][1..] == f[2..8] && f[..8][1..] == f[1..8];
    assert LittleEndian(f[3..8]) == f[3];
    assert LittleEndian(f[2..8]) == f[2] + 256 * LittleEndian(f[3..8]);
    assert LittleEndian(f[1..8]) == f[1] + 256 * LittleEndian(f[2..8]);
  }

  /** An IPv4 destination a.b.c.d survives exactly in a connection of a + 256 b + 256^2 c + 256^3 d
      nanoseconds, so never in one that lasts 2^32 nanoseconds or more. */
  lemma Ipv4KeptIff(t: Tuple, d: Word)
    requires IsIpv4(t.daddr)
    ensures Overlaid(t, d).daddr == t.daddr <==>
      d == Backwards(t.daddr[0], t.daddr[1], t.daddr[2], t.daddr[3])
    ensures d >= 0x1_0000_0000 ==> Overlaid(t, d).daddr != t.daddr
  {
    DestinationKeptIff(t, d);
    Ipv4Number(t.daddr);
  }

  /** For one: after a minute, a connection to 10.0.0.1 is reported with another destination. */
  lemma MinuteOverwrites(t: Tuple)
    requires t.daddr == [10, 0, 0, 1, 0, 0, 0, 0, 0, 0, 0, 0, 0, 0, 0, 0]
    ensures Overlaid(t, 60_000_000_000).daddr != t.daddr
  {
    Ipv4KeptIff(t, 60_000_000_000);
  }

  /** Once closed, a socket is untracked until it connects again. */
  lemma CloseForgets(ops: seq<Op>, sk: Sock, now: Word, room: bool, reread: Tuple)
    ensures sk !in Run(ops + [Close(sk, now, room, reread)]).start
    ensures sk !in Run(ops + [Close(sk, now, room, reread)]).meta
  {
    var o := Close(sk, now, room, reread);
    assert (ops + [o])[..|ops|] == ops;
    DomainsEqual(ops);
  }

  /** No connect is reported by two closes: of two closes of a tracked socket the later one is filled from a
      connect that came after the earlier. */
  lemma ReportedOnce(ops: seq<Op>, c: int, d: int) returns (i: int, j: int)
    requires 0 <= c < d < |ops| && ops[c].Close? && ops[d].Close? && ops[c].sock == ops[d].sock
    requires ops[c].sock in Run(ops[..c]).start && ops[d].sock in Run(ops[..d]).start
    ensures 0 <= i < c < j < d && ops[i].Connect? && ops[j].Connect?
    ensures OpenedBy(ops[..c], ops[c].sock, i, ops[i].ts, ops[i].tuple)
    ensures OpenedBy(ops[..d], ops[d].sock, j, ops[j].ts, ops[j].tuple)
  {
    i := StoredTogether(ops[..c], ops[c].sock);
    j := StoredTogether(ops[..d], ops[d].sock);
    assert ops[..d][c] == ops[c];
  }
}
