/** DNS messages (section 4.1 of RFC 1035): the answer walk, the whole-message parse and their inverse. */
module DnsMessage {
  import opened Bytes
  import opened DnsName
  import opened Wrappers

  const HEADER_LENGTH: nat := 12
  const TYPE_A: uint16 := 1

  /** A resource record as the answer walk sees it. */
  datatype Record = Record(rtype: uint16, rdata: seq<byte>, next: int)

  /** An IPv4 address. */
  datatype Address = Address(a: byte, b: byte, c: byte, d: byte)

  datatype WireMessage = WireMessage(qname: seq<byte>, qtype: uint16, rcode: uint16, ips: seq<Address>)

  /** The record whose name ends at at, if its fixed part and data lie inside the message. */
  function RecordBody(p: seq<byte>, at: int): (r: Option<Record>)
  {
    if at < 0 || at + 10 > |p| then None
    else
      var rdlen := BigEndian16(p[at + 8], p[at + 9]);
      if at + 10 + rdlen > |p| then None
      else Some(Record(BigEndian16(p[at], p[at + 1]), Sub(p, at + 10, rdlen), at + 10 + rdlen))
  }

  function RecordAt(p: seq<byte>, pos: int): (r: Option<Record>)
  {
    match ReadName(p, pos, MAX_JUMPS)
    case None => None
    case Some(w) => RecordBody(p, EndOf(pos, w))
  }

  /** The address in the data of a record, if it is an A record. */
  function Quad(rtype: uint16, rdata: seq<byte>): (ips: seq<Address>)
    ensures |ips| <= 1
  {
    if rtype == TYPE_A && |rdata| == 4 then [Address(rdata[0], rdata[1], rdata[2], rdata[3])] else []
  }

  /** The address a record carries. */
  function AddressIn(r: Record): (ips: seq<Address>)
    ensures |ips| <= 1
  {
    Quad(r.rtype, r.rdata)
  }

  /** The addresses in up to count records from pos, stopping at the first that cannot be read. */
  function Addresses(p: seq<byte>, pos: int, count: nat): (ips: seq<Address>)
    decreases count
  {
    if count == 0 then []
    else
      match RecordAt(p, pos)
      case None => []
      case Some(r) => AddressIn(r) + Addresses(p, r.next, count - 1)
  }

  /** How many of those records can be read. */
  function Readable(p: seq<byte>, pos: int, count: nat): (n: nat)
    decreases count
  {
    if count == 0 then 0
    else
      match RecordAt(p, pos)
      case None => 0
      case Some(r) => 1 + Readable(p, r.next, count - 1)
  }

  /** Reads the record at pos. */
  method DecodeRecord(p: seq<byte>, pos: int) returns (r: Option<Record>)
    ensures r == RecordAt(p, pos)
  {
    var _, at, ok := DecodeName(p, pos);
    if !ok {
      return None;
    }
    return RecordBody(p, at);
  }

  /** Appends the address of a record, if it carries one. */
  method AppendAddress(ips: seq<Address>, r: Record) returns (more: seq<Address>)
    ensures more == ips + AddressIn(r)
  {
    if r.rtype == TYPE_A && |r.rdata| == 4 {
      return ips + [Address(r.rdata[0], r.rdata[1], r.rdata[2], r.rdata[3])];
    }
    return ips;
  }

  /** Walks the answer section and collects the A-record addresses. */
  method DecodeAnswerIPs(p: seq<byte>, start: int, count: uint16) returns (ips: seq<Address>)
    ensures ips == Addresses(p, start, count)
  {
    ips := [];
    var pos, i := start, 0;
    ghost var all, left: nat := Addresses(p, start, count), count;
    while i < count
      invariant 0 <= i <= count && left == count - i
      invariant all == ips + Addresses(p, pos, left)
    {
      var r := DecodeRecord(p, pos);
      if r.None? {
        break;
      }
      AddressesStep(p, pos, left, ips, r.value);
      ips := AppendAddress(ips, r.value);
      pos, left, i := r.value.next, left - 1, i + 1;
    }
    assert Addresses(p, pos, left) == [];
  }

  lemma AddressesStep(p: seq<byte>, pos: int, count: nat, ips: seq<Address>, r: Record)
    requires count > 0 && RecordAt(p, pos) == Some(r)
    ensures ips + Addresses(p, pos, count) == ips + AddressIn(r) + Addresses(p, r.next, count - 1)
  {
    assert ips + (AddressIn(r) + Addresses(p, r.next, count - 1)) == ips + AddressIn(r) + Addresses(p, r.next, count - 1);
  }

  function IsResponse(flags: uint16): bool { flags >= 0x8000 }

  function RCode(flags: uint16): uint16 { flags % 16 }

  /** What is known once the question name has been read and ends at at. */
  function QuestionOf(p: seq<byte>, qname: seq<byte>, at: int): (m: WireMessage)
    requires |p| >= HEADER_LENGTH
  {
    var flags := BigEndian16(p[2], p[3]);
    if at < 0 || at + 4 > |p| then WireMessage(qname, 0, RCode(flags), [])
    else
      var ips := if IsResponse(flags) then Addresses(p, at + 4, BigEndian16(p[6], p[7])) else [];
      WireMessage(qname, BigEndian16(p[at], p[at + 1]), RCode(flags), ips)
  }

  /** The message a payload denotes, if it has a header, a question count and a readable question name. */
  function MessageOf(p: seq<byte>): (r: Option<WireMessage>)
  {
    if |p| < HEADER_LENGTH || BigEndian16(p[4], p[5]) == 0 then None
    else
      match ReadName(p, HEADER_LENGTH, MAX_JUMPS)
      case None => None
      case Some(w) => Some(QuestionOf(p, JoinDots(LabelsOf(w)), EndOf(HEADER_LENGTH, w)))
  }

  /** Decodes header, question and, for responses, the answers. */
  method ParseWireMessage(p: seq<byte>) returns (r: Option<WireMessage>)
    ensures r == MessageOf(p)
  {
    if |p| < HEADER_LENGTH {
      return None;
    }
    var flags := BigEndian16(p[2], p[3]);
    var qdCount, anCount := BigEndian16(p[4], p[5]), BigEndian16(p[6], p[7]);
    if qdCount == 0 {
      return None;
    }
    var qname, pos, ok := DecodeName(p, HEADER_LENGTH);
    if !ok {
      return None;
    }
    if pos + 4 > |p| {
      return Some(WireMessage(qname, 0, RCode(flags), []));
    }
    var qtype := BigEndian16(p[pos], p[pos + 1]);
    var ips: seq<Address> := [];
    if IsResponse(flags) {
      ips := DecodeAnswerIPs(p, pos + 4, anCount);
    }
    return Some(WireMessage(qname, qtype, RCode(flags), ips));
  }

  // ---------------------------------------------------------------- truncation

  lemma BodyExtends(p: seq<byte>, x: seq<byte>, at: int)
    requires RecordBody(p, at).Some?
    ensures RecordBody(p + x, at) == RecordBody(p, at)
  {
    SubExtends(p, x, at + 10, BigEndian16(p[at + 8], p[at + 9]));
  }

  lemma RecordExtends(p: seq<byte>, x: seq<byte>, pos: int)
    requires RecordAt(p, pos).Some?
    ensures RecordAt(p + x, pos) == RecordAt(p, pos)
  {
    ReadExtends(p, x, pos, MAX_JUMPS);
    BodyExtends(p, x, EndOf(pos, ReadName(p, pos, MAX_JUMPS).value));
  }

  lemma {:induction false} AddressesExtend(p: seq<byte>, x: seq<byte>, pos: int, count: nat)
    ensures Addresses(p, pos, count) <= Addresses(p + x, pos, count)
    decreases count
  {
    if count > 0 && RecordAt(p, pos).Some? {
      RecordExtends(p, x, pos);
      AddressesExtend(p, x, RecordAt(p, pos).value.next, count - 1);
    }
  }

  /** A longer capture of a readable message keeps its name and code and only adds addresses. */
  lemma MessageExtends(p: seq<byte>, x: seq<byte>)
    requires MessageOf(p).Some?
    ensures MessageOf(p + x).Some?
    ensures MessageOf(p + x).value.qname == MessageOf(p).value.qname
    ensures MessageOf(p + x).value.rcode == MessageOf(p).value.rcode
    ensures MessageOf(p + x).value.qtype == MessageOf(p).value.qtype || MessageOf(p).value.qtype == 0
    ensures MessageOf(p).value.ips <= MessageOf(p + x).value.ips
  {
    ReadExtends(p, x, HEADER_LENGTH, MAX_JUMPS);
    var at := EndOf(HEADER_LENGTH, ReadName(p, HEADER_LENGTH, MAX_JUMPS).value);
    if 0 <= at && at + 4 <= |p| {
      AddressesExtend(p, x, at + 4, BigEndian16(p[6], p[7]));
    }
  }

  // --------------------------------------------------------------------- size

  lemma RecordSize(p: seq<byte>, pos: int)
    requires RecordAt(p, pos).Some?
    ensures var r := RecordAt(p, pos).value; pos + 11 + |r.rdata| <= r.next <= |p|
  {
    ReadFacts(p, pos, ReadName(p, pos, MAX_JUMPS).value);
  }

  /** Each record takes 11 octets and each address 4 more, whatever the answer count claims. */
  lemma {:induction false} RecordsSize(p: seq<byte>, pos: int, count: nat)
    requires pos <= |p|
    ensures 11 * Readable(p, pos, count) + 4 * |Addresses(p, pos, count)| <= |p| - pos
    ensures |Addresses(p, pos, count)| <= Readable(p, pos, count)
    decreases count
  {
    if count > 0 && RecordAt(p, pos).Some? {
      RecordSize(p, pos);
      RecordsSize(p, RecordAt(p, pos).value.next, count - 1);
    }
  }

  /** At most one address per 15 octets. */
  lemma AddressBound(p: seq<byte>, pos: int, count: nat)
    requires pos <= |p|
    ensures |Addresses(p, pos, count)| <= (|p| - pos) / 15
  {
    RecordsSize(p, pos, count);
  }

  /** Exactly when a payload is refused: it is shorter than a header, counts no question, or no name of at most 32
      pointers starts behind the header. */
  lemma RefusedIff(p: seq<byte>)
    ensures MessageOf(p).None? <==>
      |p| < 12 || BigEndian16(p[4], p[5]) == 0 || forall w :: Denotes(p, 12, w) ==> Jumps(w) > 32
  {
    if ReadName(p, 12, MAX_JUMPS).Some? {
      DecoderLimit(p, 12, ReadName(p, 12, MAX_JUMPS).value);
    } else {
      forall w | Denotes(p, 12, w)
        ensures Jumps(w) > 32
      {
        DecoderLimit(p, 12, w);
      }
    }
  }

  // ----------------------------------------------------------------- encoding

  /** Labels the wire format can carry: no length octet is that of the root or of a pointer. */
  predicate Encodable(ls: Labels)
  {
    ls.Cons? ==> 0 < |ls.text| < 0xC0 && Encodable(ls.rest)
  }

  function LabelBytes(ls: Labels): (bs: seq<byte>)
    requires Encodable(ls)
  {
    match ls
    case Nil => []
    case Cons(text, rest) => ([|text|] + text) + LabelBytes(rest)
  }

  ghost function PointerBytes(target: nat): (bs: seq<byte>)
    requires target < 0x4000
    ensures |bs| == 2 && bs[0] >= 0xC0 && PointerTarget(bs[0], bs[1]) == target
  {
    PutBigEndian16(0xC000 + target)
  }

  function Length(ls: Labels): (n: nat)
  {
    match ls case Nil => 0 case Cons(_, rest) => 1 + Length(rest)
  }

  /** The name without its first k labels, and the octets those take. */
  function Suffix(ls: Labels, k: nat): (r: Labels)
    requires k <= Length(ls)
  {
    if k == 0 then ls else Suffix(ls.rest, k - 1)
  }

  function Skipped(ls: Labels, k: nat): (n: nat)
    requires k <= Length(ls)
  {
    if k == 0 then 0 else 1 + |ls.text| + Skipped(ls.rest, k - 1)
  }

  function Concat(a: Labels, b: Labels): (r: Labels)
  {
    match a case Nil => b case Cons(text, rest) => Cons(text, Concat(rest, b))
  }

  /** An owner name: own labels, then the root or a pointer at an offset of the message. */
  datatype Owner = Owner(own: Labels, share: Option<nat>)

  /** What an answer says: an IPv4 address, or anything that is not an address record of four octets. */
  datatype Content = A(address: Address) | Other(code: uint16, data: seq<byte>)
  {
    function Type(): uint16
    {
      match this case A(_) => 1 case Other(code, _) => code
    }

    function Data(): seq<byte>
    {
      match this case A(x) => [x.a, x.b, x.c, x.d] case Other(_, data) => data
    }
  }

  datatype Answer = Answer(owner: Owner, rclass: uint16, ttlHigh: uint16, ttlLow: uint16, content: Content)

  datatype Answers = NoAnswers | More(answer: Answer, others: Answers)

  datatype Message = Message(
    id: uint16, response: bool, options: nat, rcode: nat, question: Labels, qtype: uint16, qclass: uint16,
    answers: Answers, nsCount: uint16, arCount: uint16)

  predicate WritableOwner(o: Owner)
  {
    Encodable(o.own) && (o.share.Some? ==> o.share.value < 0x4000)
  }

  ghost function OwnerTail(o: Owner): (bs: seq<byte>)
    requires WritableOwner(o)
  {
    if o.share.None? then [0] else PointerBytes(o.share.value)
  }

  ghost function OwnerBytes(o: Owner): (bs: seq<byte>)
    requires WritableOwner(o)
  {
    LabelBytes(o.own) + OwnerTail(o)
  }

  /** The bytes before a name denote a name at target that one more pointer may follow. */
  ghost predicate Sharable(p: seq<byte>, target: nat)
  {
    exists w :: Denotes(p, target, w) && Jumps(w) < MAX_JUMPS
  }

  ghost function SharedWalk(p: seq<byte>, target: nat): (w: Walk)
    requires Sharable(p, target)
    ensures Denotes(p, target, w) && Jumps(w) < MAX_JUMPS
  {
    var w :| Denotes(p, target, w) && Jumps(w) < MAX_JUMPS;
    w
  }

  /** A pointer may go to any earlier position that denotes a name: the question name or an earlier owner name,
      a suffix of either, compressed itself or not. */
  ghost predicate ValidOwner(p: seq<byte>, o: Owner)
  {
    WritableOwner(o) && (o.share.Some? ==> Sharable(p, o.share.value))
  }

  /** The full name an owner stands for after the bytes p. */
  ghost function OwnerLabels(p: seq<byte>, o: Owner): (ls: Labels)
    requires ValidOwner(p, o)
  {
    if o.share.None? then o.own else Concat(o.own, LabelsOf(SharedWalk(p, o.share.value)))
  }

  predicate Writable(a: Answer)
  {
    WritableOwner(a.owner) && WritableContent(a.content)
  }

  predicate WritableContent(c: Content)
  {
    c.Other? ==> |c.data| < 0x1_0000 && (c.code != 1 || |c.data| != 4)
  }

  ghost function FixedBytes(a: Answer): (bs: seq<byte>)
    requires WritableContent(a.content)
    ensures |bs| == 10
  {
    FixedPart(a.content.Type(), a.rclass, a.ttlHigh, a.ttlLow, |a.content.Data()|)
  }

  ghost function FixedPart(rtype: uint16, rclass: uint16, ttlHigh: uint16, ttlLow: uint16, rdlen: uint16): (bs: seq<byte>)
    ensures |bs| == 10
  {
    PutBigEndian16(rtype) + PutBigEndian16(rclass) + PutBigEndian16(ttlHigh) + PutBigEndian16(ttlLow) +
    PutBigEndian16(rdlen)
  }

  lemma FixedOctets(rtype: uint16, rclass: uint16, ttlHigh: uint16, ttlLow: uint16, rdlen: uint16)
    ensures var bs := FixedPart(rtype, rclass, ttlHigh, ttlLow, rdlen);
      BigEndian16(bs[0], bs[1]) == rtype && BigEndian16(bs[8], bs[9]) == rdlen
  {
  }

  ghost function AnswerBytes(a: Answer): (bs: seq<byte>)
    requires Writable(a)
  {
    OwnerBytes(a.owner) + (FixedBytes(a) + a.content.Data())
  }

  predicate AllWritable(answers: Answers)
  {
    answers.More? ==> Writable(answers.answer) && AllWritable(answers.others)
  }

  function Count(answers: Answers): (n: nat)
  {
    match answers case NoAnswers => 0 case More(_, others) => 1 + Count(others)
  }

  ghost function AnswersBytes(answers: Answers): (bs: seq<byte>)
    requires AllWritable(answers)
    decreases answers
  {
    match answers
    case NoAnswers => []
    case More(a, others) => AnswerBytes(a) + AnswersBytes(others)
  }

  /** Every pointer goes to a name in the bytes before it, p and the answers before. */
  ghost predicate ValidAnswers(p: seq<byte>, answers: Answers)
    requires AllWritable(answers)
    decreases answers
  {
    answers.More? ==>
      ValidOwner(p, answers.answer.owner) && ValidAnswers(p + AnswerBytes(answers.answer), answers.others)
  }

  /** The flags word: the response bit, eleven bits that the decoder ignores, and the response code. */
  function FlagsOf(m: Message): (flags: uint16)
    requires WritableHeader(m)
  {
    (if m.response then 0x8000 else 0) + 16 * m.options + m.rcode
  }

  predicate WritableHeader(m: Message)
  {
    Count(m.answers) < 0x1_0000 && m.options < 2048 && m.rcode < 16
  }

  lemma FlagsRoundTrip(m: Message)
    requires WritableHeader(m)
    ensures IsResponse(FlagsOf(m)) == m.response && RCode(FlagsOf(m)) == m.rcode
  {
  }

  ghost function HeaderBytes(m: Message): (bs: seq<byte>)
    requires WritableHeader(m)
    ensures |bs| == HEADER_LENGTH
  {
    PutBigEndian16(m.id) + PutBigEndian16(FlagsOf(m)) + PutBigEndian16(1) + PutBigEndian16(Count(m.answers)) +
    PutBigEndian16(m.nsCount) + PutBigEndian16(m.arCount)
  }

  predicate WritableMessage(m: Message)
  {
    Encodable(m.question) && WritableHeader(m) && AllWritable(m.answers)
  }

  /** Header and question. */
  ghost function FrontBytes(m: Message): (bs: seq<byte>)
    requires WritableMessage(m)
  {
    HeaderBytes(m) + ((LabelBytes(m.question) + [0]) + (PutBigEndian16(m.qtype) + PutBigEndian16(m.qclass)))
  }

  ghost predicate ValidMessage(m: Message)
  {
    WritableMessage(m) && ValidAnswers(FrontBytes(m), m.answers)
  }

  /** The message in wire format, one question. */
  ghost function MessageBytes(m: Message): (bs: seq<byte>)
    requires WritableMessage(m)
  {
    FrontBytes(m) + AnswersBytes(m.answers)
  }

  /** The addresses a sender put into the answers, in order. */
  function SentAddresses(answers: Answers): (ips: seq<Address>)
  {
    match answers
    case NoAnswers => []
    case More(a, others) => (match a.content case A(x) => [x] case Other(_, _) => []) + SentAddresses(others)
  }

  // --------------------------------------------------------------- round trips

  function Prepend(ls: Labels, w: Walk): (r: Walk)
  {
    match ls case Nil => w case Cons(text, rest) => Take(text, Prepend(rest, w))
  }

  lemma TakeDenotes(p: seq<byte>, pos: int, text: seq<byte>, w: Walk)
    requires 0 < |text| < 0xC0 && At(p, pos, [|text|] + text) && Denotes(p, pos + 1 + |text|, w)
    ensures Denotes(p, pos, Take(text, w))
  {
    var head: seq<byte> := [|text|];
    AtByte(p, pos, head + text, 0);
    AtSplit(p, pos, head, text);
  }

  lemma FollowDenotes(p: seq<byte>, pos: int, bs: seq<byte>, w: Walk)
    requires |bs| == 2 && bs[0] >= 0xC0 && At(p, pos, bs) && Denotes(p, PointerTarget(bs[0], bs[1]), w)
    ensures Denotes(p, pos, Follow(PointerTarget(bs[0], bs[1]), w))
  {
    AtByte(p, pos, bs, 0);
    AtByte(p, pos, bs, 1);
  }

  lemma {:induction false} LabelsDenote(p: seq<byte>, pos: int, ls: Labels, w: Walk)
    requires Encodable(ls) && At(p, pos, LabelBytes(ls)) && Denotes(p, pos + |LabelBytes(ls)|, w)
    ensures Denotes(p, pos, Prepend(ls, w))
    decreases ls
  {
    if ls.Cons? {
      AtSplit(p, pos, [|ls.text|] + ls.text, LabelBytes(ls.rest));
      LabelsDenote(p, pos + 1 + |ls.text|, ls.rest, w);
      TakeDenotes(p, pos, ls.text, Prepend(ls.rest, w));
    }
  }

  lemma {:induction false} PrependShape(pos: int, ls: Labels, w: Walk)
    requires Encodable(ls)
    ensures LabelsOf(Prepend(ls, w)) == Concat(ls, LabelsOf(w))
    ensures Jumps(Prepend(ls, w)) == Jumps(w)
    ensures EndOf(pos, Prepend(ls, w)) == EndOf(pos + |LabelBytes(ls)|, w)
    decreases ls
  {
    if ls.Cons? {
      PrependShape(pos + 1 + |ls.text|, ls.rest, w);
    }
  }

  lemma {:induction false} ConcatNil(ls: Labels)
    ensures Concat(ls, Nil) == ls
  {
    if ls.Cons? {
      ConcatNil(ls.rest);
    }
  }

  /** A plain encoded name reads back as itself in any surrounding bytes. */
  lemma NameRoundTrip(p: seq<byte>, pos: int, ls: Labels)
    requires Encodable(ls) && At(p, pos, LabelBytes(ls) + [0])
    ensures Denotes(p, pos, Prepend(ls, Root))
    ensures ReadName(p, pos, MAX_JUMPS) == Some(Prepend(ls, Root))
    ensures LabelsOf(Prepend(ls, Root)) == ls
    ensures EndOf(pos, Prepend(ls, Root)) == pos + |LabelBytes(ls)| + 1
  {
    AtSplit(p, pos, LabelBytes(ls), [0]);
    AtByte(p, pos + |LabelBytes(ls)|, [0], 0);
    LabelsDenote(p, pos, ls, Root);
    PrependShape(pos, ls, Root);
    ConcatNil(ls);
    ReadIsComplete(p, pos, MAX_JUMPS, Prepend(ls, Root));
  }

  lemma {:induction false} SuffixAt(p: seq<byte>, pos: int, ls: Labels, k: nat)
    requires Encodable(ls) && k <= Length(ls) && At(p, pos, LabelBytes(ls) + [0])
    ensures Encodable(Suffix(ls, k)) && At(p, pos + Skipped(ls, k), LabelBytes(Suffix(ls, k)) + [0])
    decreases k
  {
    if k > 0 {
      AtShift(p, pos, [|ls.text|] + ls.text, LabelBytes(ls.rest), [0]);
      SuffixAt(p, pos + 1 + |ls.text|, ls.rest, k - 1);
    }
  }

  lemma ThenDenotes(p: seq<byte>, pos: int, own: Labels, tail: Walk)
    requires Encodable(own) && At(p, pos, LabelBytes(own)) && Jumps(tail) <= MAX_JUMPS
    requires Denotes(p, pos + |LabelBytes(own)|, tail)
    ensures ReadName(p, pos, MAX_JUMPS) == Some(Prepend(own, tail))
    ensures LabelsOf(Prepend(own, tail)) == Concat(own, LabelsOf(tail))
    ensures EndOf(pos, Prepend(own, tail)) == EndOf(pos + |LabelBytes(own)|, tail)
  {
    LabelsDenote(p, pos, own, tail);
    PrependShape(pos, own, tail);
    ReadIsComplete(p, pos, MAX_JUMPS, Prepend(own, tail));
  }

  /** Any suffix of the question name can be pointed at. */
  lemma QuestionSharable(p: seq<byte>, q: Labels, k: nat)
    requires Encodable(q) && k <= Length(q) && At(p, HEADER_LENGTH, LabelBytes(q) + [0])
    ensures Sharable(p, HEADER_LENGTH + Skipped(q, k))
    ensures LabelsOf(SharedWalk(p, HEADER_LENGTH + Skipped(q, k))) == Suffix(q, k)
  {
    var target, w := HEADER_LENGTH + Skipped(q, k), Prepend(Suffix(q, k), Root);
    SuffixAt(p, HEADER_LENGTH, q, k);
    NameRoundTrip(p, target, Suffix(q, k));
    PrependShape(0, Suffix(q, k), Root);
    assert Denotes(p, target, w) && Jumps(w) < MAX_JUMPS;
    DenotesUnique(p, target, w, SharedWalk(p, target));
  }

  /** How many pointers an owner name takes after the bytes p. */
  ghost function OwnerJumps(p: seq<byte>, o: Owner): (n: nat)
    requires ValidOwner(p, o)
    ensures n <= MAX_JUMPS
  {
    if o.share.None? then 0 else 1 + Jumps(SharedWalk(p, o.share.value))
  }

  lemma AtConcat(p: seq<byte>, b: seq<byte>, x: seq<byte>)
    ensures At(p + (b + x), |p|, b)
  {
    var whole := p + (b + x);
    SubIsSlice(whole, |p|, |b|);
    assert whole[|p|..|p| + |b|] == b;
  }

  /** Every owner name, through any chain of earlier names, reads back as the name it stands for. */
  lemma OwnerRoundTrip(p: seq<byte>, o: Owner, x: seq<byte>) returns (w: Walk)
    requires ValidOwner(p, o)
    ensures ReadName(p + (OwnerBytes(o) + x), |p|, MAX_JUMPS) == Some(w)
    ensures Denotes(p + (OwnerBytes(o) + x), |p|, w) && Jumps(w) == OwnerJumps(p, o)
    ensures LabelsOf(w) == OwnerLabels(p, o)
    ensures EndOf(|p|, w) == |p| + |OwnerBytes(o)|
  {
    var whole := p + (OwnerBytes(o) + x);
    AtConcat(p, OwnerBytes(o), x);
    AtSplit(whole, |p|, LabelBytes(o.own), OwnerTail(o));
    if o.share.None? {
      NameRoundTrip(whole, |p|, o.own);
      w := Prepend(o.own, Root);
      PrependShape(|p|, o.own, Root);
    } else {
      var onward := SharedWalk(p, o.share.value);
      DenotesExtends(p, OwnerBytes(o) + x, o.share.value, onward);
      FollowDenotes(whole, |p| + |LabelBytes(o.own)|, OwnerTail(o), onward);
      var tail := Follow(o.share.value, onward);
      ThenDenotes(whole, |p|, o.own, tail);
      PrependShape(|p|, o.own, tail);
      LabelsDenote(whole, |p|, o.own, tail);
      w := Prepend(o.own, tail);
    }
  }

  /** So an owner name can be pointed at in turn, as long as it takes fewer pointers than the limit. */
  lemma OwnerSharable(p: seq<byte>, o: Owner, x: seq<byte>)
    requires ValidOwner(p, o) && OwnerJumps(p, o) < MAX_JUMPS
    ensures Sharable(p + (OwnerBytes(o) + x), |p|)
    ensures LabelsOf(SharedWalk(p + (OwnerBytes(o) + x), |p|)) == OwnerLabels(p, o)
  {
    var w := OwnerRoundTrip(p, o, x);
    DenotesUnique(p + (OwnerBytes(o) + x), |p|, w, SharedWalk(p + (OwnerBytes(o) + x), |p|));
  }

  lemma BodyRoundTrip(p: seq<byte>, at: int, a: Answer)
    requires WritableContent(a.content) && At(p, at, FixedBytes(a) + a.content.Data())
    ensures RecordBody(p, at) == Some(Record(a.content.Type(), a.content.Data(), at + 10 + |a.content.Data()|))
  {
    var fixed, data := FixedBytes(a), a.content.Data();
    FixedOctets(a.content.Type(), a.rclass, a.ttlHigh, a.ttlLow, |data|);
    AtSplit(p, at, fixed, data);
    AtByte(p, at, fixed, 0);
    AtByte(p, at, fixed, 1);
    AtByte(p, at, fixed, 8);
    AtByte(p, at, fixed, 9);
  }

  lemma AnswerLength(a: Answer)
    requires Writable(a)
    ensures |AnswerBytes(a)| == |OwnerBytes(a.owner)| + 10 + |a.content.Data()|
  {
  }

  lemma RecordRoundTrip(p: seq<byte>, a: Answer, x: seq<byte>)
    requires Writable(a) && ValidOwner(p, a.owner)
    ensures RecordAt(p + (AnswerBytes(a) + x), |p|) ==
      Some(Record(a.content.Type(), a.content.Data(), |p| + |AnswerBytes(a)|))
  {
    var whole := p + (AnswerBytes(a) + x);
    AnswerLength(a);
    var w := OwnerThenBody(p, a, x);
    BodyRoundTrip(whole, |p| + |OwnerBytes(a.owner)|, a);
    RecordFrom(whole, |p|, w, Record(a.content.Type(), a.content.Data(), |p| + |AnswerBytes(a)|));
  }

  lemma OwnerThenBody(p: seq<byte>, a: Answer, x: seq<byte>) returns (w: Walk)
    requires Writable(a) && ValidOwner(p, a.owner)
    ensures var whole, at := p + (AnswerBytes(a) + x), |p| + |OwnerBytes(a.owner)|;
      && ReadName(whole, |p|, MAX_JUMPS) == Some(w) && EndOf(|p|, w) == at
      && At(whole, at, FixedBytes(a) + a.content.Data())
  {
    var owner, body := OwnerBytes(a.owner), FixedBytes(a) + a.content.Data();
    Regroup(p, owner, body, x);
    w := OwnerRoundTrip(p, a.owner, body + x);
    AtConcat(p, owner + body, x);
    AtSplit(p + ((owner + body) + x), |p|, owner, body);
  }

  lemma RecordFrom(p: seq<byte>, pos: int, w: Walk, r: Record)
    requires ReadName(p, pos, MAX_JUMPS) == Some(w) && RecordBody(p, EndOf(pos, w)) == Some(r)
    ensures RecordAt(p, pos) == Some(r)
  {
  }

  /** The answers can be read off p one after the other from pos on. */
  ghost predicate AnswersAt(p: seq<byte>, pos: int, answers: Answers)
    decreases answers
  {
    answers.More? ==>
      var r := RecordAt(p, pos);
      && r.Some? && r.value.rtype == answers.answer.content.Type() && r.value.rdata == answers.answer.content.Data()
      && AnswersAt(p, r.value.next, answers.others)
  }

  lemma Regroup(p: seq<byte>, a: seq<byte>, b: seq<byte>, x: seq<byte>)
    ensures p + (a + (b + x)) == p + ((a + b) + x) && (p + a) + (b + x) == p + ((a + b) + x)
  {
  }

  lemma AnswersMore(p: seq<byte>, pos: int, answers: Answers, next: int)
    requires answers.More? && AnswersAt(p, next, answers.others)
    requires RecordAt(p, pos) == Some(Record(answers.answer.content.Type(), answers.answer.content.Data(), next))
    ensures AnswersAt(p, pos, answers)
  {
  }

  lemma {:induction false} AnswersRead(p: seq<byte>, answers: Answers, x: seq<byte>)
    requires AllWritable(answers) && ValidAnswers(p, answers)
    ensures AnswersAt(p + (AnswersBytes(answers) + x), |p|, answers)
    decreases answers
  {
    if answers.More? {
      var bytes, others := AnswerBytes(answers.answer), AnswersBytes(answers.others);
      Regroup(p, bytes, others, x);
      RecordRoundTrip(p, answers.answer, others + x);
      AnswersRead(p + bytes, answers.others, x);
      AnswersMore(p + ((bytes + others) + x), |p|, answers, |p + bytes|);
    }
  }

  lemma {:induction false} AnswersAddresses(p: seq<byte>, pos: int, answers: Answers)
    requires AllWritable(answers) && AnswersAt(p, pos, answers)
    ensures Addresses(p, pos, Count(answers)) == SentAddresses(answers)
    decreases answers
  {
    if answers.More? {
      AnswersAddresses(p, RecordAt(p, pos).value.next, answers.others);
    }
  }

  lemma HeaderRoundTrip(p: seq<byte>, m: Message)
    requires WritableHeader(m) && At(p, 0, HeaderBytes(m))
    ensures BigEndian16(p[2], p[3]) == FlagsOf(m) && BigEndian16(p[4], p[5]) == 1
    ensures BigEndian16(p[6], p[7]) == Count(m.answers)
  {
    var h := HeaderBytes(m);
    AtByte(p, 0, h, 2);
    AtByte(p, 0, h, 3);
    AtByte(p, 0, h, 4);
    AtByte(p, 0, h, 5);
    AtByte(p, 0, h, 6);
    AtByte(p, 0, h, 7);
  }

  /** What the receiver of a message should see. */
  function Received(m: Message): (r: WireMessage)
    requires m.rcode < 16
  {
    WireMessage(JoinDots(m.question), m.qtype, m.rcode, if m.response then SentAddresses(m.answers) else [])
  }

  lemma QuestionRoundTrip(p: seq<byte>, m: Message, at: int)
    requires WritableMessage(m) && At(p, 0, HeaderBytes(m))
    requires At(p, at, PutBigEndian16(m.qtype) + PutBigEndian16(m.qclass)) && AnswersAt(p, at + 4, m.answers)
    ensures QuestionOf(p, JoinDots(m.question), at) == Received(m)
  {
    HeaderRoundTrip(p, m);
    FlagsRoundTrip(m);
    TypeRoundTrip(p, at, m.qtype, m.qclass);
    AnswersAddresses(p, at + 4, m.answers);
    QuestionFrom(p, JoinDots(m.question), at);
  }

  lemma TypeRoundTrip(p: seq<byte>, at: int, qtype: uint16, qclass: uint16)
    requires At(p, at, PutBigEndian16(qtype) + PutBigEndian16(qclass))
    ensures 0 <= at && at + 4 <= |p| && BigEndian16(p[at], p[at + 1]) == qtype
  {
    AtSplit(p, at, PutBigEndian16(qtype), PutBigEndian16(qclass));
    AtByte(p, at, PutBigEndian16(qtype), 0);
    AtByte(p, at, PutBigEndian16(qtype), 1);
  }

  lemma QuestionFrom(p: seq<byte>, qname: seq<byte>, at: int)
    requires |p| >= HEADER_LENGTH && 0 <= at && at + 4 <= |p|
    ensures var flags := BigEndian16(p[2], p[3]);
      QuestionOf(p, qname, at) == WireMessage(qname, BigEndian16(p[at], p[at + 1]), RCode(flags),
        if IsResponse(flags) then Addresses(p, at + 4, BigEndian16(p[6], p[7])) else [])
  {
  }

  lemma MessageReads(p: seq<byte>, m: Message)
    requires WritableMessage(m) && At(p, 0, FrontBytes(m)) && AnswersAt(p, |FrontBytes(m)|, m.answers)
    ensures MessageOf(p) == Some(Received(m))
  {
    var name := LabelBytes(m.question) + [0];
    FrontParts(p, m);
    HeaderRoundTrip(p, m);
    NameRoundTrip(p, HEADER_LENGTH, m.question);
    QuestionRoundTrip(p, m, HEADER_LENGTH + |name|);
    MessageFrom(p, Prepend(m.question, Root), Received(m));
  }

  lemma FrontParts(p: seq<byte>, m: Message)
    requires WritableMessage(m) && At(p, 0, FrontBytes(m))
    ensures At(p, 0, HeaderBytes(m)) && At(p, HEADER_LENGTH, LabelBytes(m.question) + [0])
    ensures At(p, HEADER_LENGTH + |LabelBytes(m.question) + [0]|, PutBigEndian16(m.qtype) + PutBigEndian16(m.qclass))
    ensures |FrontBytes(m)| == HEADER_LENGTH + |LabelBytes(m.question) + [0]| + 4
  {
    var name, fixed := LabelBytes(m.question) + [0], PutBigEndian16(m.qtype) + PutBigEndian16(m.qclass);
    AtSplit(p, 0, HeaderBytes(m), name + fixed);
    AtSplit(p, HEADER_LENGTH, name, fixed);
  }

  lemma MessageFrom(p: seq<byte>, w: Walk, r: WireMessage)
    requires |p| >= HEADER_LENGTH && BigEndian16(p[4], p[5]) != 0 && ReadName(p, HEADER_LENGTH, MAX_JUMPS) == Some(w)
    requires QuestionOf(p, JoinDots(LabelsOf(w)), EndOf(HEADER_LENGTH, w)) == r
    ensures MessageOf(p) == Some(r)
  {
  }

  /** Encoding then decoding a message is the identity, whatever compression it uses and whatever bytes follow. */
  lemma MessageRoundTrip(m: Message, trailing: seq<byte>)
    requires ValidMessage(m)
    ensures MessageOf(MessageBytes(m) + trailing) == Some(Received(m))
  {
    var front, answers := FrontBytes(m), AnswersBytes(m.answers);
    assert MessageBytes(m) + trailing == front + (answers + trailing);
    AtPrefix(front, answers + trailing);
    AnswersRead(front, m.answers, trailing);
    MessageReads(front + (answers + trailing), m);
  }
}
