/** Messages with several questions (section 4.1 of RFC 1035), of which the decoder takes the first only. */
module DnsQuestions {
  import opened Bytes
  import opened DnsName
  import opened DnsMessage
  import opened Wrappers

  /** The position after count questions from pos on, each a name and four octets. */
  function SkipQuestions(p: seq<byte>, pos: int, count: nat): (r: Option<int>)
    decreases count
  {
    if count == 0 then Some(pos)
    else
      match ReadName(p, pos, MAX_JUMPS)
      case None => None
      case Some(w) => if EndOf(pos, w) + 4 > |p| then None else SkipQuestions(p, EndOf(pos, w) + 4, count - 1)
  }

  /** The answers of a reader that takes as many questions as the header counts, as section 4.1 of RFC 1035 has it. */
  function CountedAnswers(p: seq<byte>): (ips: seq<Address>)
    requires |p| >= HEADER_LENGTH
  {
    if !IsResponse(BigEndian16(p[2], p[3])) then []
    else
      match SkipQuestions(p, HEADER_LENGTH, BigEndian16(p[4], p[5]))
      case None => []
      case Some(at) => Addresses(p, at, BigEndian16(p[6], p[7]))
  }

  function CountedMessage(p: seq<byte>): (r: Option<WireMessage>)
  {
    match MessageOf(p) case None => None case Some(m) => Some(m.(ips := CountedAnswers(p)))
  }

  /** The decoder, which takes one question whatever the header counts, agrees with that reader on every payload with
      one question and on every query. */
  lemma CountedAgrees(p: seq<byte>)
    requires |p| >= HEADER_LENGTH && (BigEndian16(p[4], p[5]) == 1 || !IsResponse(BigEndian16(p[2], p[3])))
    ensures CountedMessage(p) == MessageOf(p)
  {
    if MessageOf(p).Some? && IsResponse(BigEndian16(p[2], p[3])) {
      var w := ReadName(p, HEADER_LENGTH, MAX_JUMPS).value;
      ReadFacts(p, HEADER_LENGTH, w);
      assert SkipQuestions(p, EndOf(HEADER_LENGTH, w) + 4, 0) == Some(EndOf(HEADER_LENGTH, w) + 4);
    }
  }

  /** m more questions for the root, and an answer with the address 1.2.3.4. */
  function Tail(m: nat): (bs: seq<byte>)
    ensures |bs| == 5 * m + 15
    ensures bs[0] == 0 && bs[4] == 1 && bs[5] == 0
  {
    if m == 0 then [0, 0, 1, 0, 1, 0, 0, 0, 0, 0, 4, 1, 2, 3, 4] else [0, 0, 1, 0, 1] + Tail(m - 1)
  }

  lemma {:induction false} TailByte(m: nat, j: nat, i: nat)
    requires j <= m && i < 5 * (m - j) + 15
    ensures Tail(m)[5 * j + i] == Tail(m - j)[i]
    decreases j
  {
    if j > 0 {
      TailByte(m - 1, j - 1, i);
      assert Tail(m)[5 * j + i] == Tail(m - 1)[5 * (j - 1) + i];
    }
  }

  /** A response with n questions and one answer. */
  ghost function Questions(n: uint16): (p: seq<byte>)
    ensures |p| == HEADER_LENGTH + 5 * n + 15
    ensures BigEndian16(p[2], p[3]) == 0x8000 && BigEndian16(p[4], p[5]) == n && BigEndian16(p[6], p[7]) == 1
    ensures forall i :: 0 <= i < 5 * n + 15 ==> p[HEADER_LENGTH + i] == Tail(n)[i]
  {
    [0, 0, 0x80, 0, PutBigEndian16(n)[0], PutBigEndian16(n)[1], 0, 1, 0, 0, 0, 0] + Tail(n)
  }

  lemma {:induction false} SkipAll(n: uint16, j: nat)
    requires j <= n
    ensures SkipQuestions(Questions(n), HEADER_LENGTH + 5 * j, n - j) == Some(HEADER_LENGTH + 5 * n)
    decreases n - j
  {
    if j < n {
      SkipAll(n, j + 1);
      TailByte(n, j, 0);
      var p, pos := Questions(n), HEADER_LENGTH + 5 * j;
      assert p[pos] == p[HEADER_LENGTH + 5 * j];
      assert ReadName(p, pos, MAX_JUMPS) == Some(Root);
    }
  }

  /** A record for the root with the address 1.2.3.4. */
  lemma AddressRecord(p: seq<byte>, pos: nat)
    requires pos + 15 <= |p| && p[pos] == 0 && p[pos + 1] == 0 && p[pos + 2] == 1 && p[pos + 9] == 0 && p[pos + 10] == 4
    requires p[pos + 11] == 1 && p[pos + 12] == 2 && p[pos + 13] == 3 && p[pos + 14] == 4
    ensures RecordAt(p, pos) == Some(Record(TYPE_A, [1, 2, 3, 4], pos + 15))
  {
    var at := pos + 1;
    SubIsSlice(p, at + 10, 4);
    assert p[at + 10..at + 14] == [1, 2, 3, 4];
    assert RecordBody(p, at) == Some(Record(TYPE_A, [1, 2, 3, 4], at + 14));
    RecordFrom(p, pos, Root, Record(TYPE_A, [1, 2, 3, 4], pos + 15));
  }

  lemma LastByte(n: uint16, i: nat)
    requires i < 15
    ensures Questions(n)[HEADER_LENGTH + 5 * n + i] == Tail(0)[i]
  {
    TailByte(n, n, i);
    assert Questions(n)[HEADER_LENGTH + (5 * n + i)] == Tail(n)[5 * n + i];
  }

  /** The address is there for a reader that counts the questions. */
  lemma AnswerCounted(n: uint16)
    ensures Addresses(Questions(n), HEADER_LENGTH + 5 * n, 1) == [Address(1, 2, 3, 4)]
  {
    var p, pos := Questions(n), HEADER_LENGTH + 5 * n;
    LastByte(n, 0);
    LastByte(n, 1);
    LastByte(n, 2);
    LastByte(n, 9);
    LastByte(n, 10);
    LastByte(n, 11);
    LastByte(n, 12);
    LastByte(n, 13);
    LastByte(n, 14);
    AddressRecord(p, pos);
    assert Addresses(p, pos + 15, 0) == [];
  }

  /** The decoder takes the second question for a record of 256 octets of data. */
  lemma AnswerMissed(n: uint16)
    requires n >= 2
    ensures Addresses(Questions(n), HEADER_LENGTH + 5, 1) == []
  {
    var p := Questions(n);
    TailByte(n, 1, 0);
    TailByte(n, 2, 4);
    TailByte(n, 2, 5);
    assert p[17] == p[HEADER_LENGTH + 5] && p[26] == p[HEADER_LENGTH + 14] && p[27] == p[HEADER_LENGTH + 15];
    assert ReadName(p, 17, MAX_JUMPS) == Some(Root);
    assert BigEndian16(p[26], p[27]) == 256;
    assert forall at :: Addresses(p, at, 0) == [];
  }

  lemma CountedFrom(p: seq<byte>, at: int)
    requires |p| >= HEADER_LENGTH && IsResponse(BigEndian16(p[2], p[3]))
    requires SkipQuestions(p, HEADER_LENGTH, BigEndian16(p[4], p[5])) == Some(at)
    ensures CountedAnswers(p) == Addresses(p, at, BigEndian16(p[6], p[7]))
  {
  }

  lemma DecodedFrom(p: seq<byte>)
    requires |p| >= HEADER_LENGTH + 5 && IsResponse(BigEndian16(p[2], p[3])) && BigEndian16(p[4], p[5]) != 0
    requires p[HEADER_LENGTH] == 0
    ensures MessageOf(p).Some? && MessageOf(p).value.ips == Addresses(p, HEADER_LENGTH + 5, BigEndian16(p[6], p[7]))
  {
    MessageFrom(p, Root, QuestionOf(p, JoinDots(Nil), HEADER_LENGTH + 1));
  }

  lemma ReaderSees(n: uint16)
    ensures CountedAnswers(Questions(n)) == [Address(1, 2, 3, 4)]
  {
    SkipAll(n, 0);
    CountedFrom(Questions(n), HEADER_LENGTH + 5 * n);
    AnswerCounted(n);
  }

  lemma FirstName(n: uint16)
    ensures Questions(n)[HEADER_LENGTH] == 0
  {
    assert Questions(n)[HEADER_LENGTH + 0] == Tail(n)[0];
  }

  lemma DecoderMisses(n: uint16)
    requires n >= 2
    ensures MessageOf(Questions(n)).Some? && MessageOf(Questions(n)).value.ips == []
  {
    FirstName(n);
    DecodedFrom(Questions(n));
    AnswerMissed(n);
  }

  /** For every count above 1, a response with one address that the decoder does not see. */
  lemma QuestionsDiffer(n: uint16)
    requires n >= 2
    ensures CountedAnswers(Questions(n)) == [Address(1, 2, 3, 4)]
    ensures MessageOf(Questions(n)).Some? && MessageOf(Questions(n)).value.ips == []
  {
    ReaderSees(n);
    DecoderMisses(n);
  }

  /** Exactly when the decoder agrees with a reader that counts the questions, on all payloads with a given count: the
      count is 1. */
  lemma QuestionCountIff(n: uint16)
    requires n >= 1
    ensures (forall p: seq<byte> :: |p| >= HEADER_LENGTH && BigEndian16(p[4], p[5]) == n ==> CountedMessage(p) == MessageOf(p))
      <==> n == 1
  {
    if n == 1 {
      forall p: seq<byte> | |p| >= HEADER_LENGTH && BigEndian16(p[4], p[5]) == n
        ensures CountedMessage(p) == MessageOf(p)
      {
        CountedAgrees(p);
      }
    } else {
      QuestionsDiffer(n);
    }
  }
}
