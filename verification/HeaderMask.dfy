/** In-place masking of credential-bearing HTTP header values in captured plaintext. */
module HeaderMask {
  import opened Bytes

  const LF: byte := 10
  const CR: byte := 13
  const COLON: byte := 58
  const STAR: byte := 42

  const SENSITIVE: seq<seq<byte>> := [
    Ascii("authorization:"),
    Ascii("cookie:"),
    Ascii("set-cookie:"),
    Ascii("x-api-key:"),
    Ascii("x-auth-token:"),
    Ascii("x-amz-security-token:"),
    Ascii("proxy-authorization:")
  ]

  function Lower(b: byte): byte
  {
    if 65 <= b <= 90 then b + 32 else b
  }

  /** The bytes of buf from s spell the listed prefix p, ignoring ASCII case. */
  ghost predicate HasPrefix(buf: seq<byte>, s: int, p: seq<byte>)
  {
    0 <= s && s + |p| <= |buf| && forall j :: 0 <= j < |p| ==> Lower(buf[s + j]) == p[j]
  }

  /** [s, e) is a line of buf that ends with the LF at e. */
  ghost predicate LineAt(buf: seq<byte>, s: int, e: int)
  {
    0 <= s <= e < |buf| && buf[e] == LF && (s == 0 || buf[s - 1] == LF) && NoLF(buf, s, e)
  }

  ghost predicate NoLF(buf: seq<byte>, s: int, e: int)
    requires 0 <= s <= e <= |buf|
  {
    forall j :: s <= j < e ==> buf[j] != LF
  }

  /** Line [s, e) starts with listed prefix n and position i lies after it. */
  ghost predicate InValueOf(buf: seq<byte>, i: int, s: int, e: int, n: int)
  {
    0 <= n < |SENSITIVE| && LineAt(buf, s, e) && s + |SENSITIVE[n]| <= i < e && HasPrefix(buf, s, SENSITIVE[n])
  }

  ghost predicate InValueOnLine(buf: seq<byte>, i: int, s: int, e: int)
  {
    exists n :: InValueOf(buf, i, s, e, n)
  }

  /** Position i belongs to the value of a sensitive header on a terminated line. */
  ghost predicate InValue(buf: seq<byte>, i: int)
  {
    exists s, e :: InValueOnLine(buf, i, s, e)
  }

  /** The line-wise specification: non-CR value bytes become '*', nothing else moves. */
  ghost function Masked(buf: seq<byte>): (out: seq<byte>)
    ensures |out| == |buf|
    ensures forall i :: 0 <= i < |buf| ==> out[i] == if InValue(buf, i) && buf[i] != CR then STAR else buf[i]
  {
    seq(|buf|, i requires 0 <= i < |buf| => if InValue(buf, i) && buf[i] != CR then STAR else buf[i])
  }

  /** A listed prefix ends with its only colon. */
  ghost predicate HeaderName(p: seq<byte>)
  {
    |p| > 0 && p[|p| - 1] == COLON && forall j :: 0 <= j < |p| - 1 ==> p[j] != COLON
  }

  lemma FirstNames(n: int)
    requires 0 <= n < 4
    ensures HeaderName(SENSITIVE[n])
  {
    match n {
      case 0 => assert HeaderName(Ascii("authorization:"));
      case 1 => assert HeaderName(Ascii("cookie:"));
      case 2 => assert HeaderName(Ascii("set-cookie:"));
      case _ => assert HeaderName(Ascii("x-api-key:"));
    }
  }

  lemma LastNames(n: int)
    requires 4 <= n < |SENSITIVE|
    ensures HeaderName(SENSITIVE[n])
  {
    match n {
      case 4 => assert HeaderName(Ascii("x-auth-token:"));
      case 5 => assert HeaderName(Ascii("x-amz-security-token:"));
      case _ => assert HeaderName(Ascii("proxy-authorization:"));
    }
  }

  lemma ListedNames(n: int)
    requires 0 <= n < |SENSITIVE|
    ensures HeaderName(SENSITIVE[n])
  {
    if n < 4 {
      FirstNames(n);
    } else {
      LastNames(n);
    }
  }

  lemma PrefixNotLonger(buf: seq<byte>, s: int, p: seq<byte>, q: seq<byte>)
    requires HeaderName(p) && HeaderName(q) && HasPrefix(buf, s, p) && HasPrefix(buf, s, q)
    ensures |q| <= |p|
  {
    forall k | s <= k < s + |q| - 1
      ensures Lower(buf[k]) != COLON
    {
      assert Lower(buf[s + (k - s)]) == q[k - s];
    }
    assert Lower(buf[s + (|p| - 1)]) == COLON;
  }

  /** No line starts with two of the listed prefixes, so the order of the list is immaterial. */
  lemma PrefixUnique(buf: seq<byte>, s: int, m: int, n: int)
    requires 0 <= m < |SENSITIVE| && 0 <= n < |SENSITIVE|
    requires HasPrefix(buf, s, SENSITIVE[m]) && HasPrefix(buf, s, SENSITIVE[n])
    ensures SENSITIVE[m] == SENSITIVE[n]
  {
    ListedNames(m);
    ListedNames(n);
    PrefixNotLonger(buf, s, SENSITIVE[m], SENSITIVE[n]);
    PrefixNotLonger(buf, s, SENSITIVE[n], SENSITIVE[m]);
    SamePrefix(buf, s, SENSITIVE[m], SENSITIVE[n]);
  }

  lemma SamePrefix(buf: seq<byte>, s: int, p: seq<byte>, q: seq<byte>)
    requires HasPrefix(buf, s, p) && HasPrefix(buf, s, q) && |p| == |q|
    ensures p == q
  {
    forall j | 0 <= j < |p|
      ensures p[j] == q[j]
    {
      assert p[j] == Lower(buf[s + j]) && Lower(buf[s + j]) == q[j];
    }
  }

  lemma LineUnique(buf: seq<byte>, i: int, s: int, e: int, s': int, e': int)
    requires LineAt(buf, s, e) && LineAt(buf, s', e') && s <= i <= e && s' <= i <= e'
    ensures s == s' && e == e'
  {
    assert buf[e] == LF && buf[e'] == LF;
    assert s == 0 || buf[s - 1] == LF;
    assert s' == 0 || buf[s' - 1] == LF;
  }

  /** On a given line, membership in a value is decided by that line's own prefix. */
  lemma ValueOnLine(buf: seq<byte>, i: int, s: int, e: int)
    requires LineAt(buf, s, e) && s <= i <= e
    ensures InValue(buf, i) <==> InValueOnLine(buf, i, s, e)
  {
    if InValue(buf, i) {
      var s', e' :| InValueOnLine(buf, i, s', e');
      LineUnique(buf, i, s, e, s', e');
    }
  }

  /** Values depend on the bytes of their own line only. */
  lemma SameLineSameValue(a: seq<byte>, b: seq<byte>, i: int, s: int, e: int)
    requires |a| == |b| && LineAt(a, s, e) && LineAt(b, s, e)
    requires forall j :: s <= j <= e ==> a[j] == b[j]
    ensures InValueOnLine(a, i, s, e) <==> InValueOnLine(b, i, s, e)
  {
    if n :| InValueOf(a, i, s, e, n) {
      assert InValueOf(b, i, s, e, n);
    }
    if n :| InValueOf(b, i, s, e, n) {
      assert InValueOf(a, i, s, e, n);
    }
  }

  /** Compares the lower-cased start of a line with one listed prefix. */
  method MatchesPrefix(buf: array<byte>, start: int, prefix: seq<byte>) returns (same: bool)
    requires 0 <= start && start + |prefix| <= buf.Length
    ensures same <==> HasPrefix(buf[..], start, prefix)
  {
    same := true;
    for j := 0 to |prefix|
      invariant same <==> forall k :: 0 <= k < j ==> Lower(buf[start + k]) == prefix[k]
    {
      if Lower(buf[start + j]) != prefix[j] {
        same := false;
      }
    }
  }

  /** Overwrites the non-CR bytes of [from, to). */
  method Overwrite(buf: array<byte>, from: int, to: int)
    requires 0 <= from <= to <= buf.Length
    modifies buf
    ensures forall i :: 0 <= i < buf.Length ==>
      buf[i] == if from <= i < to && old(buf[i]) != CR then STAR else old(buf[i])
  {
    for k := from to to
      invariant forall i :: 0 <= i < buf.Length ==>
        buf[i] == if from <= i < k && old(buf[i]) != CR then STAR else old(buf[i])
    {
      if buf[k] != CR {
        buf[k] := STAR;
      }
    }
  }

  /** Masks one terminated line [start, i) in place. */
  method MaskLine(buf: array<byte>, start: int, i: int)
    requires LineAt(buf[..], start, i)
    modifies buf
    ensures forall k :: 0 <= k < buf.Length ==>
      buf[k] == if InValueOnLine(old(buf[..]), k, start, i) && old(buf[k]) != CR then STAR else old(buf[k])
  {
    ghost var was := buf[..];
    var len := i - start;
    if len > 0 && buf[i - 1] == CR {
      len := len - 1;
    }
    var n := 0;
    while n < |SENSITIVE|
      invariant 0 <= n <= |SENSITIVE|
      invariant buf[..] == was
      invariant forall k, m :: 0 <= m < n && InValueOf(was, k, start, i, m) ==> was[k] == CR
    {
      var prefix := SENSITIVE[n];
      if len > |prefix| {
        var same := MatchesPrefix(buf, start, prefix);
        if same {
          Overwrite(buf, start + |prefix|, i);
          forall k | 0 <= k < buf.Length
            ensures InValueOnLine(was, k, start, i) <==> start + |prefix| <= k < i
          {
            if start + |prefix| <= k < i {
              assert InValueOf(was, k, start, i, n);
            }
            if m :| InValueOf(was, k, start, i, m) {
              PrefixUnique(was, start, m, n);
            }
          }
          return;
        }
      }
      n := n + 1;
    }
  }

  /** Masks every terminated line of the buffer in place. */
  method MaskSensitiveHeaders(buf: array<byte>)
    modifies buf
    ensures buf[..] == Masked(old(buf[..]))
  {
    ghost var was := buf[..];
    var start := 0;
    for i := 0 to buf.Length
      invariant 0 <= start <= i
      invariant start == 0 || was[start - 1] == LF
      invariant NoLF(was, start, i)
      invariant forall k :: start <= k < buf.Length ==> buf[k] == was[k]
      invariant forall k :: 0 <= k < start ==>
        buf[k] == if InValue(was, k) && was[k] != CR then STAR else was[k]
    {
      if buf[i] != LF {
        continue;
      }
      ghost var before := buf[..];
      assert LineAt(before, start, i) && LineAt(was, start, i);
      MaskLine(buf, start, i);
      forall k | start <= k <= i
        ensures InValueOnLine(before, k, start, i) <==> InValue(was, k)
      {
        SameLineSameValue(was, before, k, start, i);
        ValueOnLine(was, k, start, i);
      }
      start := i + 1;
    }
  }

  /** b differs from a in the secret bytes only: value bytes of a, none of them a line break in either buffer. */
  ghost predicate DifferInSecrets(a: seq<byte>, b: seq<byte>)
  {
    |a| == |b| &&
    forall i :: 0 <= i < |a| ==>
      a[i] == b[i] || (InValue(a, i) && a[i] != CR && a[i] != LF && b[i] != CR && b[i] != LF)
  }

  lemma SecretsKeepLines(a: seq<byte>, b: seq<byte>, s: int, e: int)
    requires DifferInSecrets(a, b)
    ensures LineAt(a, s, e) <==> LineAt(b, s, e)
  {
    assert forall i :: 0 <= i < |a| ==> (a[i] == LF <==> b[i] == LF);
  }

  lemma SecretsKeepPrefix(a: seq<byte>, b: seq<byte>, s: int, e: int, n: int)
    requires DifferInSecrets(a, b) && LineAt(a, s, e) && 0 <= n < |SENSITIVE|
    requires s + |SENSITIVE[n]| <= e && HasPrefix(a, s, SENSITIVE[n])
    ensures HasPrefix(b, s, SENSITIVE[n])
  {
    var p := SENSITIVE[n];
    forall j | 0 <= j < |p|
      ensures Lower(b[s + j]) == p[j]
    {
      var k := s + j;
      ValueOnLine(a, k, s, e);
      if m :| InValueOf(a, k, s, e, m) {
        PrefixUnique(a, s, m, n);
      }
      assert Lower(a[s + j]) == p[j];
    }
  }

  lemma SecretsKeepValues(a: seq<byte>, b: seq<byte>, i: int, s: int, e: int)
    requires DifferInSecrets(a, b) && LineAt(a, s, e) && LineAt(b, s, e) && s <= i < e
    ensures InValueOnLine(a, i, s, e) <==> InValueOnLine(b, i, s, e)
  {
    if n :| 0 <= n < |SENSITIVE| && s + |SENSITIVE[n]| <= e && HasPrefix(a, s, SENSITIVE[n]) {
      SecretsKeepPrefix(a, b, s, e, n);
      assert i >= s + |SENSITIVE[n]| ==> InValueOf(a, i, s, e, n) && InValueOf(b, i, s, e, n);
      if m :| InValueOf(b, i, s, e, m) {
        PrefixUnique(b, s, m, n);
      }
      if m :| InValueOf(a, i, s, e, m) {
        PrefixUnique(a, s, m, n);
      }
    } else {
      forall j | s <= j <= e
        ensures a[j] == b[j]
      {
        ValueOnLine(a, j, s, e);
      }
      SameLineSameValue(a, b, i, s, e);
    }
  }

  /** Non-interference: the masked buffer does not depend on the secret bytes. */
  lemma SecretsDoNotPropagate(a: seq<byte>, b: seq<byte>)
    requires DifferInSecrets(a, b)
    ensures Masked(a) == Masked(b)
  {
    forall i | 0 <= i < |a|
      ensures InValue(a, i) <==> InValue(b, i)
    {
      if s, e :| InValueOnLine(a, i, s, e) {
        SecretsKeepLines(a, b, s, e);
        SecretsKeepValues(a, b, i, s, e);
      }
      if s, e :| InValueOnLine(b, i, s, e) {
        SecretsKeepLines(a, b, s, e);
        SecretsKeepValues(a, b, i, s, e);
      }
    }
  }

  /** Masking twice is masking once. */
  lemma MaskIdempotent(buf: seq<byte>)
    ensures Masked(Masked(buf)) == Masked(buf)
  {
    forall i | 0 <= i < |buf| && InValue(buf, i)
      ensures buf[i] != LF
    {
      var s, e :| InValueOnLine(buf, i, s, e);
    }
    SecretsDoNotPropagate(buf, Masked(buf));
  }

  /** The buffer is empty or ends with a complete line. */
  ghost predicate AtLineBoundary(buf: seq<byte>)
  {
    buf == [] || buf[|buf| - 1] == LF
  }

  lemma ValuesInFront(a: seq<byte>, b: seq<byte>, i: int)
    requires AtLineBoundary(a) && 0 <= i < |a|
    ensures InValue(a, i) <==> InValue(a + b, i)
  {
    var c := a + b;
    assert c[|a| - 1] == LF;
    if s, e, n :| InValueOf(a, i, s, e, n) {
      assert InValueOf(c, i, s, e, n);
      assert InValueOnLine(c, i, s, e);
    }
    if s, e, n :| InValueOf(c, i, s, e, n) {
      assert forall j :: s <= j < e ==> a[j] == c[j];
      assert InValueOf(a, i, s, e, n);
      assert InValueOnLine(a, i, s, e);
    }
  }

  lemma PrefixShifts(a: seq<byte>, b: seq<byte>, s: int, p: seq<byte>)
    requires 0 <= s
    ensures HasPrefix(a + b, |a| + s, p) <==> HasPrefix(b, s, p)
  {
    var c := a + b;
    if s + |p| <= |b| {
      forall j | 0 <= j < |p|
        ensures Lower(c[|a| + s + j]) == p[j] <==> Lower(b[s + j]) == p[j]
      {
        assert c[|a| + s + j] == b[s + j];
      }
    }
  }

  lemma LineShifts(a: seq<byte>, b: seq<byte>, s: int, e: int)
    requires AtLineBoundary(a) && 0 <= s
    ensures LineAt(a + b, |a| + s, |a| + e) <==> LineAt(b, s, e)
  {
    var c := a + b;
    assert forall j :: 0 <= j < |b| ==> c[|a| + j] == b[j];
    assert a != [] ==> c[|a| - 1] == LF;
    if LineAt(c, |a| + s, |a| + e) {
      forall j | s <= j < e
        ensures b[j] != LF
      {
        assert c[|a| + j] == b[j];
      }
      assert s > 0 ==> c[|a| + (s - 1)] == b[s - 1];
    }
    if LineAt(b, s, e) {
      forall j | |a| + s <= j < |a| + e
        ensures c[j] != LF
      {
        assert c[|a| + (j - |a|)] == b[j - |a|];
      }
      assert s > 0 ==> c[|a| + (s - 1)] == b[s - 1];
    }
  }

  lemma ValueShifts(a: seq<byte>, b: seq<byte>, i: int, s: int, e: int, n: int)
    requires AtLineBoundary(a) && 0 <= s
    ensures InValueOf(a + b, |a| + i, |a| + s, |a| + e, n) <==> InValueOf(b, i, s, e, n)
  {
    LineShifts(a, b, s, e);
    if 0 <= n < |SENSITIVE| {
      PrefixShifts(a, b, s, SENSITIVE[n]);
    }
  }

  /** A line that holds a position of the second part starts there. */
  lemma LineStartsBehind(a: seq<byte>, b: seq<byte>, s: int, e: int)
    requires AtLineBoundary(a) && LineAt(a + b, s, e) && e >= |a|
    ensures s >= |a|
  {
    assert a != [] ==> (a + b)[|a| - 1] == LF;
  }

  lemma ValuesBehind(a: seq<byte>, b: seq<byte>, i: int)
    requires AtLineBoundary(a) && 0 <= i < |b|
    ensures InValue(b, i) <==> InValue(a + b, |a| + i)
  {
    if s, e, n :| InValueOf(b, i, s, e, n) {
      ValueShifts(a, b, i, s, e, n);
      assert InValueOnLine(a + b, |a| + i, |a| + s, |a| + e);
    }
    var c, k := a + b, |a| + i;
    if s, e, n :| InValueOf(c, k, s, e, n) {
      LineStartsBehind(a, b, s, e);
      ValueShifts(a, b, i, s - |a|, e - |a|, n);
      assert InValueOnLine(b, i, s - |a|, e - |a|);
    }
  }

  lemma MaskedByte(a: seq<byte>, b: seq<byte>, i: int)
    requires AtLineBoundary(a) && 0 <= i < |a| + |b|
    ensures Masked(a + b)[i] == if i < |a| then Masked(a)[i] else Masked(b)[i - |a|]
  {
    if i < |a| {
      ValuesInFront(a, b, i);
      assert (a + b)[i] == a[i];
    } else {
      ValuesBehind(a, b, i - |a|);
      assert (a + b)[i] == b[i - |a|];
    }
  }

  /** Masking distributes over concatenation at a line boundary. */
  lemma MaskConcat(a: seq<byte>, b: seq<byte>)
    requires AtLineBoundary(a)
    ensures Masked(a + b) == Masked(a) + Masked(b)
  {
    var m, n := Masked(a + b), Masked(a) + Masked(b);
    assert |m| == |n|;
    forall i | 0 <= i < |m|
      ensures m[i] == n[i]
    {
      MaskedByte(a, b, i);
    }
  }

  /** A tail that no LF terminates is left as it is, header or not. */
  lemma UnterminatedTailKept(a: seq<byte>, tail: seq<byte>)
    requires AtLineBoundary(a) && NoLF(tail, 0, |tail|)
    ensures Masked(a + tail) == Masked(a) + tail
  {
    MaskConcat(a, tail);
    forall i | 0 <= i < |tail|
      ensures !InValue(tail, i)
    {
      assert forall s, e :: !LineAt(tail, s, e);
    }
    assert Masked(tail) == tail;
  }

  // ------------------------------------------------- credentials on the last line

  /** [s, |buf|) is the last line of buf, which no LF ends. */
  ghost predicate LastLine(buf: seq<byte>, s: int)
  {
    0 <= s <= |buf| && (s == 0 || buf[s - 1] == LF) && NoLF(buf, s, |buf|)
  }

  /** Position i belongs to the value of listed header n on the last line. */
  ghost predicate InLastValue(buf: seq<byte>, i: int, s: int, n: int)
  {
    0 <= n < |SENSITIVE| && LastLine(buf, s) && s + |SENSITIVE[n]| <= i < |buf| && HasPrefix(buf, s, SENSITIVE[n])
  }

  /** Position i belongs to the value of a sensitive header, on a line ended by LF or by the end of the buffer. */
  ghost predicate InCredential(buf: seq<byte>, i: int)
  {
    InValue(buf, i) || exists s, n :: InLastValue(buf, i, s, n)
  }

  /** b differs from a in credential bytes only, none of them a line break in either buffer. */
  ghost predicate DifferInCredentials(a: seq<byte>, b: seq<byte>)
  {
    |a| == |b| &&
    forall i :: 0 <= i < |a| ==>
      a[i] == b[i] || (InCredential(a, i) && a[i] != CR && a[i] != LF && b[i] != CR && b[i] != LF)
  }

  /** The buffer does not end in a sensitive header with a value that no LF ends. */
  ghost predicate NoOpenCredential(buf: seq<byte>)
  {
    forall i, s, n :: InLastValue(buf, i, s, n) ==> buf[i] == CR
  }

  /** What no LF ends is not masked. */
  lemma LastLineKept(buf: seq<byte>, i: int, s: int)
    requires LastLine(buf, s) && s <= i < |buf|
    ensures !InValue(buf, i) && Masked(buf)[i] == buf[i]
  {
    assert forall s', e :: LineAt(buf, s', e) ==> e < s;
  }

  /** An open credential byte shows in the output: another byte in its place gives another output. */
  lemma OpenCredentialShows(a: seq<byte>, i: int, s: int, n: int) returns (b: seq<byte>)
    requires InLastValue(a, i, s, n) && a[i] != CR
    ensures DifferInCredentials(a, b) && Masked(a) != Masked(b)
  {
    b := a[i := if a[i] == 0 then 1 else 0];
    assert LastLine(b, s);
    assert InCredential(a, i);
    LastLineKept(a, i, s);
    LastLineKept(b, i, s);
  }

  /** Exactly when no credential shows: the masked buffer is the same for all credential bytes if and only if
      the buffer does not end in a sensitive header with a value that no LF ends. */
  lemma CredentialsHiddenIff(a: seq<byte>)
    ensures (forall b :: DifferInCredentials(a, b) ==> Masked(a) == Masked(b)) <==> NoOpenCredential(a)
  {
    if NoOpenCredential(a) {
      forall b | DifferInCredentials(a, b)
        ensures Masked(a) == Masked(b)
      {
        assert DifferInSecrets(a, b);
        SecretsDoNotPropagate(a, b);
      }
    } else {
      var i, s, n :| InLastValue(a, i, s, n) && a[i] != CR;
      var b := OpenCredentialShows(a, i, s, n);
    }
  }

  /** For one: an unfinished cookie line is passed on as it is. */
  lemma OpenCookieShows()
    ensures !NoOpenCredential(Ascii("cookie: x")) && Masked(Ascii("cookie: x")) == Ascii("cookie: x")
  {
    var a := Ascii("cookie: x");
    assert "cookie: x"[8] == 'x';
    assert LastLine(a, 0);
    assert SENSITIVE[1] == Ascii("cookie:");
    assert HasPrefix(a, 0, SENSITIVE[1]) by {
      forall j | 0 <= j < |SENSITIVE[1]|
        ensures Lower(a[0 + j]) == SENSITIVE[1][j]
      {
        assert a[j] == "cookie: x"[j] as int && SENSITIVE[1][j] == "cookie:"[j] as int;
      }
    }
    assert InLastValue(a, 8, 0, 1);
    forall i | 0 <= i < |a|
      ensures Masked(a)[i] == a[i]
    {
      LastLineKept(a, i, 0);
    }
  }

  // ------------------------------------------------------------- headers in any case

  /** Lower-casing takes each of the 26 capitals to its small letter and leaves everything else. */
  lemma LowerIsAscii(b: byte)
    ensures 'A' as int <= b <= 'Z' as int ==> Lower(b) as int - 'a' as int == b as int - 'A' as int
    ensures b < 'A' as int || b > 'Z' as int ==> Lower(b) == b
  {
  }

  /** The bytes spell p, each letter in either case. */
  ghost predicate Spells(bs: seq<byte>, p: seq<byte>)
  {
    |bs| == |p| && forall j :: 0 <= j < |p| ==>
      (bs[j] == p[j] && !('A' as int <= bs[j] <= 'Z' as int)) || ('A' as int <= bs[j] <= 'Z' as int && bs[j] + 32 == p[j] as int)
  }

  /** A value with every byte but CR replaced by an asterisk. */
  function Starred(value: seq<byte>): (r: seq<byte>)
    ensures |r| == |value|
  {
    seq(|value|, i requires 0 <= i < |value| => if value[i] == '\r' as int then '\r' as int else '*' as int)
  }

  /** A line with a listed header in any case keeps its name and its end and loses its value. */
  lemma HeaderLineMasked(n: int, name: seq<byte>, value: seq<byte>)
    requires 0 <= n < |SENSITIVE| && Spells(name, SENSITIVE[n])
    requires '\n' as int !in name && '\n' as int !in value
    ensures Masked(name + value + ['\n' as int]) == name + Starred(value) + ['\n' as int]
  {
    var buf, e := name + value + ['\n' as int], |name| + |value|;
    HeaderLine(n, name, value);
    var out := name + Starred(value) + ['\n' as int];
    forall i | 0 <= i < |buf|
      ensures Masked(buf)[i] == out[i]
    {
      ValueOnLine(buf, i, 0, e);
      if i < |name| {
        assert buf[i] == name[i];
        NotInName(n, buf, i, e);
      } else if i < e {
        assert InValueOf(buf, i, 0, e, n);
        assert buf[i] == value[i - |name|];
      }
    }
  }

  lemma HeaderLine(n: int, name: seq<byte>, value: seq<byte>)
    requires 0 <= n < |SENSITIVE| && Spells(name, SENSITIVE[n])
    requires '\n' as int !in name && '\n' as int !in value
    ensures var buf := name + value + ['\n' as int];
      LineAt(buf, 0, |name| + |value|) && HasPrefix(buf, 0, SENSITIVE[n])
  {
    var buf := name + value + ['\n' as int];
    forall j | 0 <= j < |name| + |value|
      ensures buf[j] != LF
    {
      assert buf[j] == if j < |name| then name[j] else value[j - |name|];
    }
    forall j | 0 <= j < |name|
      ensures Lower(buf[0 + j]) == SENSITIVE[n][j]
    {
      assert buf[j] == name[j];
    }
  }

  lemma NotInName(n: int, buf: seq<byte>, i: int, e: int)
    requires 0 <= n < |SENSITIVE| && LineAt(buf, 0, e) && HasPrefix(buf, 0, SENSITIVE[n]) && 0 <= i < |SENSITIVE[n]|
    ensures !InValueOnLine(buf, i, 0, e)
  {
    if m :| InValueOf(buf, i, 0, e, m) {
      PrefixUnique(buf, 0, m, n);
    }
  }

  /** The headers whose values are masked: the first four. */
  lemma FirstListed(name: string)
    requires name == "authorization:" || name == "cookie:" || name == "set-cookie:" || name == "x-api-key:"
    ensures Ascii(name) in SENSITIVE
  {
    assert SENSITIVE[0] in SENSITIVE && SENSITIVE[1] in SENSITIVE && SENSITIVE[2] in SENSITIVE && SENSITIVE[3] in SENSITIVE;
  }

  /** And the last three. */
  lemma LastListed(name: string)
    requires name == "x-auth-token:" || name == "x-amz-security-token:" || name == "proxy-authorization:"
    ensures Ascii(name) in SENSITIVE && |SENSITIVE| == 7
  {
    assert SENSITIVE[4] in SENSITIVE && SENSITIVE[5] in SENSITIVE && SENSITIVE[6] in SENSITIVE;
  }

  /** For one: an authorization header in mixed case. */
  lemma AuthorizationMasked()
    ensures Masked(Ascii("Authorization:") + Ascii(" x\r") + ['\n' as int]) ==
      Ascii("Authorization:") + Ascii("**\r") + ['\n' as int]
  {
    var name, value := Ascii("Authorization:"), Ascii(" x\r");
    assert SENSITIVE[0] == Ascii("authorization:");
    forall j | 0 <= j < |name|
      ensures name[j] == "Authorization:"[j] as int && SENSITIVE[0][j] == "authorization:"[j] as int
    {
    }
    assert value == [' ' as int, 'x' as int, '\r' as int];
    assert Starred(value) == Ascii("**\r");
    HeaderLineMasked(0, name, value);
  }
}
