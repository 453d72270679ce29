/** Domain names in DNS wire format with message compression (section 4.1.4 of RFC 1035). */
module DnsName {
  import opened Bytes
  import opened Wrappers

  const MAX_JUMPS: nat := 32
  const DOT: byte := 46

  /** The labels of a name, leftmost first. */
  datatype Labels = Nil | Cons(text: seq<byte>, rest: Labels)

  /** How a name is read off a message: labels taken and pointers followed, up to the root. */
  datatype Walk =
    | Root
    | Take(text: seq<byte>, onward: Walk)
    | Follow(target: nat, onward: Walk)

  /** The offset held by a compression pointer, the two marker bits taken off. */
  function PointerTarget(hi: byte, lo: byte): (t: nat)
    requires hi >= 0xC0
    ensures t < 0x4000
  {
    (hi - 0xC0) * 256 + lo
  }

  /** Taking the marker bits off is keeping the low 14 bits. */
  lemma PointerTargetIsMasked(hi: byte, lo: byte)
    requires hi >= 0xC0
    ensures PointerTarget(hi, lo) == BigEndian16(hi, lo) % 0x4000
  {
    assert BigEndian16(hi, lo) == 3 * 0x4000 + PointerTarget(hi, lo);
  }

  /** The bytes of p at pos denote the walk w. */
  ghost predicate Denotes(p: seq<byte>, pos: int, w: Walk)
    decreases w
  {
    0 <= pos < |p| &&
    match w
    case Root => p[pos] == 0
    case Take(text, onward) =>
      && 0 < p[pos] < 0xC0
      && pos + 1 + p[pos] <= |p|
      && text == Sub(p, pos + 1, p[pos])
      && Denotes(p, pos + 1 + p[pos], onward)
    case Follow(target, onward) =>
      && 0xC0 <= p[pos]
      && pos + 1 < |p|
      && target == PointerTarget(p[pos], p[pos + 1])
      && Denotes(p, target, onward)
  }

  function LabelsOf(w: Walk): (ls: Labels)
  {
    match w
    case Root => Nil
    case Take(text, onward) => Cons(text, LabelsOf(onward))
    case Follow(_, onward) => LabelsOf(onward)
  }

  function Jumps(w: Walk): (j: nat)
  {
    match w
    case Root => 0
    case Take(_, onward) => Jumps(onward)
    case Follow(_, onward) => 1 + Jumps(onward)
  }

  /** The position after the first terminator or first pointer of a walk that starts at pos. */
  function EndOf(pos: int, w: Walk): (end: int)
    decreases w
  {
    match w
    case Root => pos + 1
    case Take(text, onward) => EndOf(pos + 1 + |text|, onward)
    case Follow(_, _) => pos + 2
  }

  function JoinDots(ls: Labels): (name: seq<byte>)
  {
    match ls
    case Nil => []
    case Cons(text, Nil) => text
    case Cons(text, rest) => text + [DOT] + JoinDots(rest)
  }

  /** The walk read at pos with at most budget pointers, if there is one. */
  function ReadName(p: seq<byte>, pos: int, budget: nat): (r: Option<Walk>)
    decreases budget, |p| - pos
  {
    if pos < 0 || pos >= |p| then None
    else if p[pos] == 0 then Some(Root)
    else if p[pos] >= 0xC0 then
      if pos + 1 >= |p| || budget == 0 then None
      else
        var target := PointerTarget(p[pos], p[pos + 1]);
        match ReadName(p, target, budget - 1)
        case None => None
        case Some(onward) => Some(Follow(target, onward))
    else
      var next := pos + 1 + p[pos];
      if next > |p| then None
      else
        match ReadName(p, next, budget)
        case None => None
        case Some(onward) => Some(Take(Sub(p, pos + 1, p[pos]), onward))
  }

  lemma {:induction false} ReadIsSound(p: seq<byte>, pos: int, budget: nat)
    requires ReadName(p, pos, budget).Some?
    ensures Denotes(p, pos, ReadName(p, pos, budget).value) && Jumps(ReadName(p, pos, budget).value) <= budget
    decreases budget, |p| - pos
  {
    if p[pos] == 0 {
    } else if p[pos] >= 0xC0 {
      ReadIsSound(p, PointerTarget(p[pos], p[pos + 1]), budget - 1);
    } else {
      ReadIsSound(p, pos + 1 + p[pos], budget);
    }
  }

  lemma {:induction false} ReadIsComplete(p: seq<byte>, pos: int, budget: nat, w: Walk)
    requires Denotes(p, pos, w) && Jumps(w) <= budget
    ensures ReadName(p, pos, budget) == Some(w)
    decreases w
  {
    match w
    case Root =>
    case Take(text, onward) => ReadIsComplete(p, pos + 1 + p[pos], budget, onward);
    case Follow(target, onward) => ReadIsComplete(p, target, budget - 1, onward);
  }

  /** The decoder accepts exactly the names that need at most budget pointers. */
  lemma ReadExact(p: seq<byte>, pos: int, budget: nat, w: Walk)
    ensures ReadName(p, pos, budget) == Some(w) <==> Denotes(p, pos, w) && Jumps(w) <= budget
  {
    if ReadName(p, pos, budget) == Some(w) {
      ReadIsSound(p, pos, budget);
    }
    if Denotes(p, pos, w) && Jumps(w) <= budget {
      ReadIsComplete(p, pos, budget, w);
    }
  }

  /** In particular, the decoder reads exactly the names that need at most 32 pointers. */
  lemma DecoderLimit(p: seq<byte>, pos: int, w: Walk)
    ensures ReadName(p, pos, MAX_JUMPS) == Some(w) <==> Denotes(p, pos, w) && Jumps(w) <= 32
  {
    ReadExact(p, pos, MAX_JUMPS, w);
  }

  /** A position denotes at most one name. */
  lemma DenotesUnique(p: seq<byte>, pos: int, w: Walk, w': Walk)
    requires Denotes(p, pos, w) && Denotes(p, pos, w')
    ensures w == w'
  {
    var budget := Jumps(w) + Jumps(w');
    ReadIsComplete(p, pos, budget, w);
    ReadIsComplete(p, pos, budget, w');
  }

  // ---------------------------------------------------------------- truncation

  /** More bytes behind the message change nothing that could already be read. */
  lemma {:induction false} DenotesExtends(p: seq<byte>, x: seq<byte>, pos: int, w: Walk)
    requires Denotes(p, pos, w)
    ensures Denotes(p + x, pos, w)
    decreases w
  {
    match w
    case Root =>
    case Take(text, onward) =>
      DenotesExtends(p, x, pos + 1 + p[pos], onward);
      SubExtends(p, x, pos + 1, p[pos]);
    case Follow(target, onward) =>
      DenotesExtends(p, x, target, onward);
  }

  /** Truncation-monotone: a name that decodes keeps its meaning in every longer capture. */
  lemma ReadExtends(p: seq<byte>, x: seq<byte>, pos: int, budget: nat)
    requires ReadName(p, pos, budget).Some?
    ensures ReadName(p + x, pos, budget) == ReadName(p, pos, budget)
  {
    var w := ReadName(p, pos, budget).value;
    ReadIsSound(p, pos, budget);
    DenotesExtends(p, x, pos, w);
    ReadIsComplete(p + x, pos, budget, w);
  }

  // ---------------------------------------------------------------------- size

  lemma {:induction false} EndInRange(p: seq<byte>, pos: int, w: Walk)
    requires Denotes(p, pos, w)
    ensures pos < EndOf(pos, w) <= |p|
    decreases w
  {
    match w
    case Root =>
    case Take(text, onward) => EndInRange(p, pos + 1 + p[pos], onward);
    case Follow(_, _) =>
  }

  /** Octets the labels of a name occupy, length octets included. */
  function Weight(ls: Labels): (n: nat)
  {
    match ls
    case Nil => 0
    case Cons(text, rest) => 1 + |text| + Weight(rest)
  }

  lemma {:induction false} JoinFits(ls: Labels)
    ensures |JoinDots(ls)| <= Weight(ls)
  {
    if ls.Cons? {
      JoinFits(ls.rest);
    }
  }

  /** k times n, by repeated addition. */
  ghost function Times(k: nat, n: nat): (t: nat)
  {
    if k == 0 then 0 else n + Times(k - 1, n)
  }

  lemma {:induction false} TimesAtMost(k: nat, m: nat, n: nat)
    requires k <= m
    ensures Times(k, n) <= m * n
  {
    if k > 0 {
      TimesAtMost(k - 1, m - 1, n);
      assert m * n == (m - 1) * n + n;
    }
  }

  lemma {:induction false} WeightBound(p: seq<byte>, pos: int, w: Walk)
    requires Denotes(p, pos, w)
    ensures Weight(LabelsOf(w)) <= (|p| - pos) + Times(Jumps(w), |p|)
    decreases w
  {
    match w
    case Root =>
    case Take(text, onward) => WeightBound(p, pos + 1 + p[pos], onward);
    case Follow(target, onward) => WeightBound(p, target, onward);
  }

  /** Every decoded name is at most 33 times as long as the message. */
  lemma NameLengthBound(p: seq<byte>, pos: int, w: Walk)
    requires Denotes(p, pos, w) && Jumps(w) <= MAX_JUMPS
    ensures |JoinDots(LabelsOf(w))| <= 33 * |p|
  {
    WeightBound(p, pos, w);
    JoinFits(LabelsOf(w));
    TimesAtMost(Jumps(w), MAX_JUMPS, |p|);
  }

  // --------------------------------------------------------------- the decoder

  /** What a builder that already holds sb ends up with after the remaining labels. */
  function AppendLabels(sb: seq<byte>, ls: Labels): (name: seq<byte>)
    decreases ls
  {
    match ls
    case Nil => sb
    case Cons(text, rest) => AppendLabels((if |sb| > 0 then sb + [DOT] else sb) + text, rest)
  }

  ghost predicate NonEmpty(ls: Labels)
  {
    ls.Cons? ==> ls.text != [] && NonEmpty(ls.rest)
  }

  lemma {:induction false} LabelsNonEmpty(p: seq<byte>, pos: int, w: Walk)
    requires Denotes(p, pos, w)
    ensures NonEmpty(LabelsOf(w))
    decreases w
  {
    match w
    case Root =>
    case Take(text, onward) => LabelsNonEmpty(p, pos + 1 + p[pos], onward);
    case Follow(target, onward) => LabelsNonEmpty(p, target, onward);
  }

  /** Appending with dots in between is joining, as no label is empty. */
  lemma {:induction false} AppendIsJoin(sb: seq<byte>, ls: Labels)
    requires NonEmpty(ls)
    ensures AppendLabels(sb, ls) == if sb == [] then JoinDots(ls) else if ls == Nil then sb else sb + [DOT] + JoinDots(ls)
    decreases ls
  {
    if ls.Cons? {
      AppendIsJoin((if |sb| > 0 then sb + [DOT] else sb) + ls.text, ls.rest);
      JoinMore(sb, ls.text, JoinDots(ls.rest));
    }
  }

  lemma JoinMore(sb: seq<byte>, text: seq<byte>, tail: seq<byte>)
    ensures sb + [DOT] + text + [DOT] + tail == sb + [DOT] + (text + [DOT] + tail)
  {
  }

  /** What a caller learns from a successful read. */
  lemma ReadFacts(p: seq<byte>, pos: int, w: Walk)
    requires ReadName(p, pos, MAX_JUMPS) == Some(w)
    ensures 0 <= pos < EndOf(pos, w) <= |p|
    ensures |JoinDots(LabelsOf(w))| <= 33 * |p|
    ensures AppendLabels([], LabelsOf(w)) == JoinDots(LabelsOf(w))
  {
    ReadIsSound(p, pos, MAX_JUMPS);
    LabelsNonEmpty(p, pos, w);
    AppendIsJoin([], LabelsOf(w));
    EndInRange(p, pos, w);
    NameLengthBound(p, pos, w);
  }

  /** A reader at pos with jumps pointers used, sb built and endPos noted is on its way to the name at start. */
  ghost predicate OnTheWay(p: seq<byte>, start: int, pos: int, jumps: nat, sb: seq<byte>, endPos: int)
    requires jumps <= MAX_JUMPS
  {
    var whole, left := ReadName(p, start, MAX_JUMPS), ReadName(p, pos, MAX_JUMPS - jumps);
    whole.Some? == left.Some? &&
    (whole.Some? ==>
      AppendLabels(sb, LabelsOf(left.value)) == AppendLabels([], LabelsOf(whole.value)) &&
      EndOf(start, whole.value) == if endPos == -1 then EndOf(pos, left.value) else endPos)
  }

  lemma WayFollows(p: seq<byte>, start: int, pos: int, jumps: nat, sb: seq<byte>, endPos: int)
    requires jumps < MAX_JUMPS && OnTheWay(p, start, pos, jumps, sb, endPos)
    requires 0 <= pos && pos + 1 < |p| && p[pos] >= 0xC0
    ensures OnTheWay(p, start, PointerTarget(p[pos], p[pos + 1]), jumps + 1, sb, if endPos == -1 then pos + 2 else endPos)
  {
  }

  lemma WayTakes(p: seq<byte>, start: int, pos: int, jumps: nat, sb: seq<byte>, endPos: int)
    requires jumps <= MAX_JUMPS && OnTheWay(p, start, pos, jumps, sb, endPos)
    requires 0 <= pos < |p| && 0 < p[pos] < 0xC0 && pos + 1 + p[pos] <= |p|
    ensures OnTheWay(p, start, pos + 1 + p[pos], jumps,
      (if |sb| > 0 then sb + [DOT] else sb) + Sub(p, pos + 1, p[pos]), endPos)
  {
    TakeStep(p, pos, MAX_JUMPS - jumps);
    var onward := ReadName(p, pos + 1 + p[pos], MAX_JUMPS - jumps);
    if onward.Some? {
      TakenSame(sb, pos, Sub(p, pos + 1, p[pos]), onward.value);
    }
  }

  lemma TakenSame(sb: seq<byte>, pos: int, text: seq<byte>, onward: Walk)
    ensures AppendLabels(sb, LabelsOf(Take(text, onward))) ==
      AppendLabels((if |sb| > 0 then sb + [DOT] else sb) + text, LabelsOf(onward))
    ensures EndOf(pos, Take(text, onward)) == EndOf(pos + 1 + |text|, onward)
  {
  }

  lemma TakeStep(p: seq<byte>, pos: int, budget: nat)
    requires 0 <= pos < |p| && 0 < p[pos] < 0xC0 && pos + 1 + p[pos] <= |p|
    ensures ReadName(p, pos, budget) ==
      match ReadName(p, pos + 1 + p[pos], budget)
      case None => None
      case Some(onward) => Some(Take(Sub(p, pos + 1, p[pos]), onward))
  {
  }

  lemma WayEnds(p: seq<byte>, start: int, pos: int, jumps: nat, sb: seq<byte>, endPos: int)
    requires jumps <= MAX_JUMPS && OnTheWay(p, start, pos, jumps, sb, endPos)
    requires 0 <= pos < |p| && p[pos] == 0
    ensures IsName(p, start, sb, if endPos == -1 then pos + 1 else endPos)
  {
    ReadFacts(p, start, ReadName(p, start, MAX_JUMPS).value);
  }

  /** The name at start is name, and end is the position after it. */
  ghost predicate IsName(p: seq<byte>, start: int, name: seq<byte>, end: int)
  {
    var r := ReadName(p, start, MAX_JUMPS);
    && r.Some? && name == JoinDots(LabelsOf(r.value)) && end == EndOf(start, r.value)
    && 0 <= start < end <= |p| && |name| <= 33 * |p|
  }

  /** Reads the name at start, following at most MAX_JUMPS compression pointers. */
  method DecodeName(p: seq<byte>, start: int) returns (name: seq<byte>, end: int, ok: bool)
    ensures ok ==> IsName(p, start, name, end)
    ensures !ok ==> ReadName(p, start, MAX_JUMPS).None? && name == [] && end == 0
  {
    var sb: seq<byte> := [];
    var pos, endPos, jumps := start, -1, 0;
    while true
      invariant 0 <= jumps <= MAX_JUMPS && (endPos == -1 || 0 <= endPos)
      invariant OnTheWay(p, start, pos, jumps, sb, endPos)
      decreases MAX_JUMPS - jumps, |p| - pos
    {
      if pos < 0 || pos >= |p| {
        return [], 0, false;
      }
      var b := p[pos];
      if b == 0 {
        WayEnds(p, start, pos, jumps, sb, endPos);
        pos := pos + 1;
        if endPos == -1 {
          endPos := pos;
        }
        break;
      }
      if b >= 0xC0 {
        if pos + 1 >= |p| {
          return [], 0, false;
        }
        ghost var noted := endPos;
        if endPos == -1 {
          endPos := pos + 2;
        }
        if jumps + 1 > MAX_JUMPS {
          return [], 0, false;
        }
        WayFollows(p, start, pos, jumps, sb, noted);
        jumps := jumps + 1;
        pos := PointerTarget(p[pos], p[pos + 1]);
        continue;
      }
      pos := pos + 1;
      if pos + b > |p| {
        return [], 0, false;
      }
      WayTakes(p, start, pos - 1, jumps, sb, endPos);
      SubIsSlice(p, pos, b);
      if |sb| > 0 {
        sb := sb + [DOT];
      }
      sb := sb + p[pos..pos + b];
      pos := pos + b;
    }
    return sb, endPos, true;
  }

  // ------------------------------------------------------- reserved length octets

  /** A reader that takes length octets from 64 to 191 as reserved, as section 4.1.4 of RFC 1035 does. */
  function ReadReserving(p: seq<byte>, pos: int, budget: nat): (r: Option<Walk>)
    decreases budget, |p| - pos
  {
    if pos < 0 || pos >= |p| then None
    else if p[pos] == 0 then Some(Root)
    else if p[pos] >= 0xC0 then
      if pos + 1 >= |p| || budget == 0 then None
      else
        var target := PointerTarget(p[pos], p[pos + 1]);
        match ReadReserving(p, target, budget - 1)
        case None => None
        case Some(onward) => Some(Follow(target, onward))
    else if p[pos] >= 64 then None
    else
      var next := pos + 1 + p[pos];
      if next > |p| then None
      else
        match ReadReserving(p, next, budget)
        case None => None
        case Some(onward) => Some(Take(Sub(p, pos + 1, p[pos]), onward))
  }

  predicate Short(ls: Labels)
  {
    ls.Cons? ==> |ls.text| < 64 && Short(ls.rest)
  }

  /** The decoder agrees with that reader exactly on the names of labels shorter than 64 octets, and the
      reader refuses every other name. */
  lemma {:induction false} ReservedRefused(p: seq<byte>, pos: int, budget: nat)
    ensures ReadReserving(p, pos, budget) ==
      match ReadName(p, pos, budget)
      case None => None
      case Some(w) => if Short(LabelsOf(w)) then Some(w) else None
    decreases budget, |p| - pos
  {
    if 0 <= pos < |p| && p[pos] != 0 {
      if p[pos] >= 0xC0 {
        if pos + 1 < |p| && budget > 0 {
          ReservedRefused(p, PointerTarget(p[pos], p[pos + 1]), budget - 1);
        }
      } else if pos + 1 + p[pos] <= |p| {
        ReservedRefused(p, pos + 1 + p[pos], budget);
      }
    }
  }

  /** For one: a label of 64 octets is read, and a reader that reserves its length refuses it. */
  lemma LongLabelRead(text: seq<byte>)
    requires |text| == 64
    ensures var p := [64] + text + [0];
      ReadName(p, 0, MAX_JUMPS) == Some(Take(text, Root)) && ReadReserving(p, 0, MAX_JUMPS) == None
  {
    var p: seq<byte> := [64] + text + [0];
    SubIsSlice(p, 1, 64);
    assert p[1..65] == text;
    assert p[0] == 64 && p[65] == 0 && |p| == 66;
    assert ReadName(p, 65, MAX_JUMPS) == Some(Root);
  }
}
