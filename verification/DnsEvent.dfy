/** The ring-buffer records that carry captured DNS messages. */
module DnsEvent {
  import opened Bytes
  import opened DnsName
  import opened DnsMessage
  import opened Wrappers

  const EVENT_DNS: nat := 5
  const FIXED_LENGTH: nat := 43
  const MAX_PAYLOAD: nat := 256

  datatype Capture = Capture(timestamp: nat, pid: nat, tgid: nat, uid: nat, comm: seq<byte>, direction: byte)

  datatype Event = Event(capture: Capture, message: WireMessage)

  function CaptureOf(raw: seq<byte>): (c: Capture)
    requires |raw| >= FIXED_LENGTH
  {
    Capture(LittleEndian(Sub(raw, 4, 8)), LittleEndian(Sub(raw, 12, 4)), LittleEndian(Sub(raw, 16, 4)),
            LittleEndian(Sub(raw, 20, 4)), Sub(raw, 24, 16), raw[40])
  }

  /** The event in a raw record, or None for a short record, another type or an unreadable message. */
  function DecodeEvent(raw: seq<byte>): (e: Option<Event>)
  {
    if |raw| < FIXED_LENGTH || LittleEndian(Sub(raw, 0, 4)) != EVENT_DNS then None
    else
      var length := LittleEndian(Sub(raw, 41, 2));
      if length > MAX_PAYLOAD || FIXED_LENGTH + length > |raw| then None
      else
        match MessageOf(Sub(raw, FIXED_LENGTH, length))
        case None => None
        case Some(m) => Some(Event(CaptureOf(raw), m))
  }

  ghost predicate ValidCapture(c: Capture)
  {
    c.timestamp < Pow256(8) && c.pid < Pow256(4) && c.tgid < Pow256(4) && c.uid < Pow256(4) && |c.comm| == 16
  }

  /** Field order of a record: type, timestamp, pid, tgid, uid, comm, direction, length, payload. */
  function Layout(fields: seq<seq<byte>>): (bs: seq<byte>)
    requires |fields| == 9
  {
    fields[0] + (fields[1] + (fields[2] + (fields[3] +
    (fields[4] + (fields[5] + (fields[6] + (fields[7] + fields[8])))))))
  }

  predicate Widths(fields: seq<seq<byte>>)
    requires |fields| == 9
  {
    |fields[0]| == 4 && |fields[1]| == 8 && |fields[2]| == 4 && |fields[3]| == 4 &&
    |fields[4]| == 4 && |fields[5]| == 16 && |fields[6]| == 1 && |fields[7]| == 2
  }

  function Fields(kind: nat, c: Capture, payload: seq<byte>): (fields: seq<seq<byte>>)
    requires |c.comm| == 16
    ensures |fields| == 9 && Widths(fields) && fields[8] == payload
  {
    [PutLittleEndian(kind, 4), PutLittleEndian(c.timestamp, 8), PutLittleEndian(c.pid, 4),
     PutLittleEndian(c.tgid, 4), PutLittleEndian(c.uid, 4), c.comm, [c.direction],
     PutLittleEndian(|payload|, 2), payload]
  }

  /** The record the kernel side writes for an event of some kind with a captured payload. */
  function EventBytes(kind: nat, c: Capture, payload: seq<byte>): (bs: seq<byte>)
    requires |c.comm| == 16
  {
    Layout(Fields(kind, c, payload))
  }

  /** Four consecutive fields and what follows them. */
  lemma FourFields(raw: seq<byte>, pos: int, a: seq<byte>, b: seq<byte>, c: seq<byte>, d: seq<byte>, rest: seq<byte>)
    requires At(raw, pos, a + (b + (c + (d + rest))))
    ensures At(raw, pos, a) && At(raw, pos + |a|, b) && At(raw, pos + |a| + |b|, c)
    ensures At(raw, pos + |a| + |b| + |c|, d) && At(raw, pos + |a| + |b| + |c| + |d|, rest)
  {
    AtSplit(raw, pos, a, b + (c + (d + rest)));
    AtSplit(raw, pos + |a|, b, c + (d + rest));
    AtSplit(raw, pos + |a| + |b|, c, d + rest);
    AtSplit(raw, pos + |a| + |b| + |c|, d, rest);
  }

  lemma FieldsAt(raw: seq<byte>, fs: seq<seq<byte>>)
    requires |fs| == 9 && Widths(fs) && At(raw, 0, Layout(fs))
    ensures At(raw, 0, fs[0]) && At(raw, 4, fs[1]) && At(raw, 12, fs[2]) && At(raw, 16, fs[3]) && At(raw, 20, fs[4])
    ensures At(raw, 24, fs[5]) && At(raw, 40, fs[6]) && At(raw, 41, fs[7]) && At(raw, FIXED_LENGTH, fs[8])
  {
    FourFields(raw, 0, fs[0], fs[1], fs[2], fs[3], fs[4] + (fs[5] + (fs[6] + (fs[7] + fs[8]))));
    FourFields(raw, 20, fs[4], fs[5], fs[6], fs[7], fs[8]);
  }

  lemma NumberAt(raw: seq<byte>, pos: int, n: nat, width: nat)
    requires n < Pow256(width) && At(raw, pos, PutLittleEndian(n, width))
    ensures LittleEndian(Sub(raw, pos, width)) == n
  {
    LittleEndianRoundTrip(n, width);
  }

  lemma CaptureRoundTrip(raw: seq<byte>, kind: nat, c: Capture, payload: seq<byte>)
    requires ValidCapture(c) && At(raw, 0, EventBytes(kind, c, payload))
    ensures |raw| >= FIXED_LENGTH && CaptureOf(raw) == c
  {
    FieldsAt(raw, Fields(kind, c, payload));
    NumberAt(raw, 4, c.timestamp, 8);
    NumberAt(raw, 12, c.pid, 4);
    NumberAt(raw, 16, c.tgid, 4);
    NumberAt(raw, 20, c.uid, 4);
    AtByte(raw, 40, [c.direction], 0);
  }

  lemma LengthRoundTrip(raw: seq<byte>, kind: nat, c: Capture, payload: seq<byte>)
    requires ValidCapture(c) && kind < 0x1_0000_0000 && |payload| < 0x1_0000 && At(raw, 0, EventBytes(kind, c, payload))
    ensures |raw| >= FIXED_LENGTH + |payload|
    ensures LittleEndian(Sub(raw, 0, 4)) == kind && LittleEndian(Sub(raw, 41, 2)) == |payload|
    ensures Sub(raw, FIXED_LENGTH, |payload|) == payload
  {
    FieldsAt(raw, Fields(kind, c, payload));
    assert Pow256(2) == 256 * Pow256(1) && Pow256(4) == 256 * Pow256(3) && Pow256(3) == 256 * Pow256(2);
    NumberAt(raw, 0, kind, 4);
    NumberAt(raw, 41, |payload|, 2);
  }

  /** A record of kind 5 with at most 256 octets of payload decodes to what the kernel side captured and the payload
      denotes, whatever fills the reserved space; every other record is refused. */
  lemma EventRoundTrip(kind: nat, c: Capture, payload: seq<byte>, padding: seq<byte>)
    requires ValidCapture(c) && kind < 0x1_0000_0000 && |payload| < 0x1_0000
    ensures DecodeEvent(EventBytes(kind, c, payload) + padding) ==
      if kind != 5 || |payload| > 256 then None
      else match MessageOf(payload) case None => None case Some(m) => Some(Event(c, m))
  {
    var raw := EventBytes(kind, c, payload) + padding;
    AtPrefix(EventBytes(kind, c, payload), padding);
    CaptureRoundTrip(raw, kind, c, payload);
    LengthRoundTrip(raw, kind, c, payload);
  }

  lemma LayoutLength(kind: nat, c: Capture, payload: seq<byte>)
    requires |c.comm| == 16
    ensures |EventBytes(kind, c, payload)| == FIXED_LENGTH + |payload|
  {
  }

  /** A record cut off anywhere is refused. */
  lemma TruncatedRefused(kind: nat, c: Capture, payload: seq<byte>, head: seq<byte>, cut: seq<byte>)
    requires ValidCapture(c) && kind < 0x1_0000_0000 && |payload| < 0x1_0000
    requires head + cut == EventBytes(kind, c, payload) && cut != []
    ensures DecodeEvent(head) == None
  {
    var raw := EventBytes(kind, c, payload);
    LayoutLength(kind, c, payload);
    if |head| >= FIXED_LENGTH {
      assert raw + [] == raw;
      AtPrefix(raw, []);
      LengthRoundTrip(raw, kind, c, payload);
      SubExtends(head, cut, 41, 2);
    }
  }
}
