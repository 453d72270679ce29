/** The composite key alerts are aggregated under, and the path prefix that goes into it. */
module AggregationKey {

  const BAR: char := '|'
  const MAX_DEPTH: nat := 2

  /** The five components of a key. */
  datatype Parts = Parts(ruleID: string, comm: string, path: string, namespace: string, pod: string)

  function KeyOf(p: Parts): (key: string)
  {
    p.ruleID + [BAR] + (p.comm + [BAR] + (p.path + [BAR] + (p.namespace + [BAR] + p.pod)))
  }

  predicate BarFree(p: Parts)
  {
    BAR !in p.ruleID && BAR !in p.comm && BAR !in p.path && BAR !in p.namespace && BAR !in p.pod
  }

  function Bars(s: string): (n: nat)
  {
    if s == [] then 0 else (if s[0] == BAR then 1 else 0) + Bars(s[1..])
  }

  lemma {:induction false} BarsConcat(a: string, b: string)
    ensures Bars(a + b) == Bars(a) + Bars(b)
  {
    if a == [] {
      assert a + b == b;
    } else {
      assert (a + b)[1..] == a[1..] + b;
      BarsConcat(a[1..], b);
    }
  }

  lemma {:induction false} NoBars(s: string)
    ensures Bars(s) == 0 <==> BAR !in s
  {
    if s != [] {
      NoBars(s[1..]);
      assert s == [s[0]] + s[1..];
    }
  }

  lemma FieldBars(a: string, rest: string)
    ensures Bars(a + [BAR] + rest) == Bars(a) + 1 + Bars(rest)
  {
    BarsConcat(a + [BAR], rest);
    BarsConcat(a, [BAR]);
    assert Bars([BAR]) == 1;
  }

  lemma KeyBars(p: Parts)
    ensures Bars(KeyOf(p)) == 4 + Bars(p.ruleID) + Bars(p.comm) + Bars(p.path) + Bars(p.namespace) + Bars(p.pod)
  {
    var d := p.namespace + [BAR] + p.pod;
    var c := p.path + [BAR] + d;
    FieldBars(p.namespace, p.pod);
    FieldBars(p.path, d);
    FieldBars(p.comm, c);
    FieldBars(p.ruleID, p.comm + [BAR] + c);
  }

  lemma BarFreeIffNoBars(p: Parts)
    ensures BarFree(p) <==> Bars(KeyOf(p)) == 4
  {
    KeyBars(p);
    NoBars(p.ruleID);
    NoBars(p.comm);
    NoBars(p.path);
    NoBars(p.namespace);
    NoBars(p.pod);
  }

  lemma FirstField(a: string, x: string, b: string, y: string)
    requires BAR !in a && BAR !in b && a + [BAR] + x == b + [BAR] + y
    ensures a == b && x == y
  {
    var s := a + [BAR] + x;
    assert s[|a|] == BAR && s[|b|] == BAR;
    assert forall i :: 0 <= i < |a| ==> s[i] == a[i];
    assert forall i :: 0 <= i < |b| ==> s[i] == b[i];
    assert |a| == |b|;
    assert a == s[..|a|] && b == s[..|b|];
    assert x == s[|a| + 1..] && y == s[|b| + 1..];
  }

  /** Two component lists without a bar give the same key only if they are the same. */
  lemma KeyInjective(p: Parts, q: Parts)
    requires BarFree(p) && BarFree(q) && KeyOf(p) == KeyOf(q)
    ensures p == q
  {
    var pd, qd := p.namespace + [BAR] + p.pod, q.namespace + [BAR] + q.pod;
    var pc, qc := p.path + [BAR] + pd, q.path + [BAR] + qd;
    FirstField(p.ruleID, p.comm + [BAR] + pc, q.ruleID, q.comm + [BAR] + qc);
    FirstField(p.comm, pc, q.comm, qc);
    FirstField(p.path, pd, q.path, qd);
    FirstField(p.namespace, p.pod, q.namespace, q.pod);
  }

  /** No other component list has the key of p. */
  ghost predicate Unambiguous(p: Parts)
  {
    forall q :: KeyOf(q) == KeyOf(p) ==> q == p
  }

  lemma BarAt(s: string) returns (i: nat)
    requires BAR in s
    ensures i < |s| && s == s[..i] + [BAR] + s[i + 1..]
  {
    i :| 0 <= i < |s| && s[i] == BAR;
  }

  /** The boundary between two components may sit at either of two bars. */
  lemma MoveBoundary(a: string, b: string, rest: string)
    ensures (a + [BAR] + b) + [BAR] + rest == a + [BAR] + (b + [BAR] + rest)
  {
  }

  /** A bar in a component lets the boundary move: some other component list has the same key. */
  lemma Collision(p: Parts) returns (q: Parts)
    requires !BarFree(p)
    ensures q != p && KeyOf(q) == KeyOf(p)
    ensures !BarsInPathOnly(p) ==> q.path == p.path
  {
    var tail := p.path + [BAR] + (p.namespace + [BAR] + p.pod);
    if BAR in p.ruleID {
      var i := BarAt(p.ruleID);
      var a, b := p.ruleID[..i], p.ruleID[i + 1..];
      q := p.(ruleID := a, comm := b + [BAR] + p.comm);
      MoveBoundary(a, b, p.comm + [BAR] + tail);
      MoveBoundary(b, p.comm, tail);
    } else if BAR in p.comm {
      var i := BarAt(p.comm);
      var a, b := p.comm[..i], p.comm[i + 1..];
      q := p.(ruleID := p.ruleID + [BAR] + a, comm := b);
      MoveBoundary(p.ruleID, a, b + [BAR] + tail);
      MoveBoundary(a, b, tail);
    } else if BAR in p.namespace {
      var i := BarAt(p.namespace);
      var a, b := p.namespace[..i], p.namespace[i + 1..];
      q := p.(namespace := a, pod := b + [BAR] + p.pod);
      MoveBoundary(a, b, p.pod);
    } else if BAR in p.pod {
      var i := BarAt(p.pod);
      var a, b := p.pod[..i], p.pod[i + 1..];
      q := p.(namespace := p.namespace + [BAR] + a, pod := b);
      MoveBoundary(p.namespace, a, b);
    } else {
      var i := BarAt(p.path);
      var a, b := p.path[..i], p.path[i + 1..];
      q := p.(path := a, namespace := b + [BAR] + p.namespace);
      MoveBoundary(a, b, p.namespace + [BAR] + p.pod);
      MoveBoundary(b, p.namespace, p.pod);
    }
  }

  /** As a format over lists of five strings: no other list has the key exactly when no string contains the separator. */
  lemma UnambiguousIffBarFree(p: Parts)
    ensures Unambiguous(p) <==> BarFree(p)
  {
    if BarFree(p) {
      forall q | KeyOf(q) == KeyOf(p)
        ensures q == p
      {
        BarFreeIffNoBars(p);
        BarFreeIffNoBars(q);
        KeyInjective(p, q);
      }
    } else {
      var q := Collision(p);
    }
  }

  // -------------------------------------------------------- other ways to cut a key

  /** No bar outside the path. */
  ghost predicate BarsInPathOnly(p: Parts)
  {
    BAR !in p.ruleID && BAR !in p.comm && BAR !in p.namespace && BAR !in p.pod
  }

  ghost predicate EndsAtBar(s: string)
  {
    s == [] || s[|s| - 1] == BAR
  }

  ghost predicate BeginsAtBar(s: string)
  {
    s == [] || s[0] == BAR
  }

  /** t is what is left of s after taking pre and post off, both at bars, and not all of s. */
  ghost predicate Stretch(s: string, pre: string, t: string, post: string)
  {
    s == pre + t + post && EndsAtBar(pre) && BeginsAtBar(post) && pre + post != []
  }

  /** A first field without a bar is the start of any other first field. */
  lemma PeelFront(a: string, x: string, b: string, y: string) returns (pre: string)
    requires BAR !in a && a + [BAR] + x == b + [BAR] + y
    ensures x == pre + y && EndsAtBar(pre) && (pre == [] ==> b == a)
  {
    var s := a + [BAR] + x;
    assert s[|b|] == BAR;
    assert forall i :: 0 <= i < |a| ==> s[i] == a[i];
    assert x == s[|a| + 1..] && y == s[|b| + 1..];
    pre := x[..|b| - |a|];
    assert |b| > |a| ==> pre[|b| - |a| - 1] == s[|b|];
    assert |b| == |a| ==> a == s[..|a|] && b == s[..|b|];
  }

  /** A last field without a bar is the end of any other last field. */
  lemma PeelBack(x: string, a: string, y: string, b: string) returns (post: string)
    requires BAR !in a && x + [BAR] + a == y + [BAR] + b
    ensures x == y + post && BeginsAtBar(post) && (post == [] ==> b == a)
  {
    var s := x + [BAR] + a;
    assert s[|y|] == BAR;
    assert forall i :: |x| < i < |s| ==> s[i] == a[i - |x| - 1];
    assert |y| <= |x|;
    assert x == s[..|x|] && y == s[..|y|];
    post := x[|y|..];
    assert |y| < |x| ==> post[0] == s[|y|];
    assert |y| == |x| ==> a == s[|x| + 1..] && b == s[|y| + 1..];
  }

  lemma PeelTwo(a: string, b: string, x: string, c: string, d: string, y: string) returns (pre: string)
    requires BAR !in a && BAR !in b && a + [BAR] + (b + [BAR] + x) == c + [BAR] + (d + [BAR] + y)
    ensures x == pre + y && EndsAtBar(pre) && (pre == [] ==> c == a && d == b)
  {
    var pre1 := PeelFront(a, b + [BAR] + x, c, d + [BAR] + y);
    assert b + [BAR] + x == (pre1 + d) + [BAR] + y;
    pre := PeelFront(b, x, pre1 + d, y);
    assert pre1 != [] ==> (pre1 + d)[|pre1| - 1] == BAR;
  }

  lemma PeelLastTwo(x: string, a: string, b: string, y: string, c: string, d: string) returns (post: string)
    requires BAR !in a && BAR !in b && x + [BAR] + a + [BAR] + b == y + [BAR] + c + [BAR] + d
    ensures x == y + post && BeginsAtBar(post) && (post == [] ==> c == a && d == b)
  {
    var post1 := PeelBack(x + [BAR] + a, b, y + [BAR] + c, d);
    assert x + [BAR] + a == y + [BAR] + (c + post1);
    post := PeelBack(x, a, y, c + post1);
    assert post1 != [] ==> (c + post1)[|c|] == BAR;
  }

  /** If only the path has bars, any other list with the same key has a stretch of the path for its path. */
  lemma OtherCut(p: Parts, q: Parts) returns (pre: string, post: string)
    requires KeyOf(p) == KeyOf(q) && p != q && BarsInPathOnly(p)
    ensures Stretch(p.path, pre, q.path, post)
  {
    var x, y := p.path + [BAR] + (p.namespace + [BAR] + p.pod), q.path + [BAR] + (q.namespace + [BAR] + q.pod);
    pre := PeelTwo(p.ruleID, p.comm, x, q.ruleID, q.comm, y);
    assert x == p.path + [BAR] + p.namespace + [BAR] + p.pod;
    assert pre + y == (pre + q.path) + [BAR] + q.namespace + [BAR] + q.pod;
    post := PeelLastTwo(p.path, p.namespace, p.pod, pre + q.path, q.namespace, q.pod);
  }

  /** Every stretch of the path is the path of another list with the same key. */
  lemma StretchIsCut(p: Parts, pre: string, t: string, post: string) returns (q: Parts)
    requires Stretch(p.path, pre, t, post)
    ensures KeyOf(q) == KeyOf(p) && q.path == t
  {
    var comm := FrontWidens(p.comm, pre);
    var namespace := BackWidens(t, post, p.namespace, p.pod);
    q := p.(comm := comm, path := t, namespace := namespace);
    var rest, tail := t + [BAR] + (namespace + [BAR] + p.pod), p.namespace + [BAR] + p.pod;
    assert rest == (t + post) + [BAR] + tail;
    assert comm + [BAR] + rest == p.comm + [BAR] + pre + rest;
    assert pre + rest == p.path + [BAR] + tail;
    assert p.comm + [BAR] + pre + rest == p.comm + [BAR] + (pre + rest);
  }

  lemma FrontWidens(comm: string, pre: string) returns (wider: string)
    requires EndsAtBar(pre)
    ensures wider + [BAR] == comm + [BAR] + pre
  {
    wider := if pre == [] then comm else comm + [BAR] + pre[..|pre| - 1];
  }

  lemma BackWidens(t: string, post: string, ns: string, pod: string) returns (wider: string)
    requires BeginsAtBar(post)
    ensures t + [BAR] + (wider + [BAR] + pod) == (t + post) + [BAR] + (ns + [BAR] + pod)
  {
    wider := if post == [] then ns else post[1..] + [BAR] + ns;
    assert [BAR] + wider == post + [BAR] + ns;
    assert t + [BAR] + (wider + [BAR] + pod) == t + ([BAR] + wider) + [BAR] + pod;
    assert (t + post) + [BAR] + (ns + [BAR] + pod) == t + (post + [BAR] + ns) + [BAR] + pod;
  }

  // -------------------------------------------------------------- path prefixes

  /** The slash-separated segments of a string, empty ones included. */
  function Split(s: string): (segs: seq<string>)
    ensures |segs| > 0
  {
    if s == [] then [[]]
    else if s[0] == '/' then [[]] + Split(s[1..])
    else var rest := Split(s[1..]); [[s[0]] + rest[0]] + rest[1..]
  }

  function Join(segs: seq<string>): (s: string)
  {
    if segs == [] then [] else if |segs| == 1 then segs[0] else segs[0] + ['/'] + Join(segs[1..])
  }

  predicate IsNumericSpec(s: string)
  {
    s != [] && forall i :: 0 <= i < |s| ==> '0' <= s[i] <= '9'
  }

  method IsNumeric(s: string) returns (r: bool)
    ensures r <==> IsNumericSpec(s)
  {
    if s == [] {
      return false;
    }
    for i := 0 to |s|
      invariant forall j :: 0 <= j < i ==> '0' <= s[j] <= '9'
    {
      if s[i] < '0' || s[i] > '9' {
        return false;
      }
    }
    return true;
  }

  /** A segment as it appears in a key: identifiers made of digits are all alike. */
  function Canonical(seg: string): (r: string)
  {
    if IsNumericSpec(seg) then "*" else seg
  }

  /** The first room non-empty segments, in canonical form. */
  function Kept(segs: seq<string>, room: nat): (r: seq<string>)
    ensures |r| <= room && |r| <= |segs|
  {
    if segs == [] || room == 0 then []
    else if segs[0] == [] then Kept(segs[1..], room)
    else [Canonical(segs[0])] + Kept(segs[1..], room - 1)
  }

  lemma KeptDrop(segs: seq<string>, i: nat, room: nat)
    requires i < |segs| && room > 0
    ensures Kept(segs[i..], room) ==
      if segs[i] == [] then Kept(segs[i + 1..], room) else [Canonical(segs[i])] + Kept(segs[i + 1..], room - 1)
  {
    assert segs[i..][1..] == segs[i + 1..];
  }

  function Normalized(path: string): (r: string)
  {
    if path == [] then [] else ['/'] + Join(Kept(Split(path), MAX_DEPTH))
  }

  /** Reduces a path to at most MAX_DEPTH canonical segments. */
  method NormalizePathPrefix(path: string) returns (r: string)
    ensures r == Normalized(path)
  {
    if path == [] {
      return [];
    }
    var segs := Split(path);
    var kept: seq<string> := [];
    var i := 0;
    while i < |segs|
      invariant 0 <= i <= |segs| && |kept| < MAX_DEPTH
      invariant kept + Kept(segs[i..], MAX_DEPTH - |kept|) == Kept(segs, MAX_DEPTH)
    {
      var s := segs[i];
      KeptDrop(segs, i, MAX_DEPTH - |kept|);
      i := i + 1;
      if s == [] {
        continue;
      }
      var numeric := IsNumeric(s);
      if numeric {
        s := "*";
      }
      ghost var rest := Kept(segs[i..], MAX_DEPTH - |kept| - 1);
      assert kept + ([s] + rest) == kept + [s] + rest;
      kept := kept + [s];
      if |kept| >= MAX_DEPTH {
        assert rest == [];
        break;
      }
    }
    assert kept == Kept(segs, MAX_DEPTH);
    return ['/'] + Join(kept);
  }

  /** A segment that a normalised path may hold. */
  predicate PlainSegment(s: string)
  {
    s != [] && '/' !in s && !IsNumericSpec(s)
  }

  predicate Plain(segs: seq<string>)
  {
    forall i :: 0 <= i < |segs| ==> PlainSegment(segs[i])
  }

  lemma {:induction false} SplitFirst(a: string, rest: string)
    requires '/' !in a
    ensures Split(a) == [a]
    ensures Split(a + ['/'] + rest) == [a] + Split(rest)
  {
    if a == [] {
      assert a + ['/'] + rest == ['/'] + rest;
    } else {
      SplitFirst(a[1..], rest);
      assert (a + ['/'] + rest)[1..] == a[1..] + ['/'] + rest;
      assert a == [a[0]] + a[1..];
    }
  }

  lemma {:induction false} SplitJoin(segs: seq<string>)
    requires Plain(segs) && segs != []
    ensures Split(Join(segs)) == segs
  {
    SplitFirst(segs[0], Join(segs[1..]));
    if |segs| > 1 {
      SplitJoin(segs[1..]);
    }
  }

  lemma {:induction false} KeptPlain(segs: seq<string>, room: nat)
    requires Plain(segs) && |segs| <= room
    ensures Kept(segs, room) == segs
  {
    if segs != [] {
      KeptPlain(segs[1..], room - 1);
    }
  }

  lemma {:induction false} SplitIsSlashFree(s: string)
    ensures forall i :: 0 <= i < |Split(s)| ==> '/' !in Split(s)[i]
  {
    if s != [] {
      SplitIsSlashFree(s[1..]);
    }
  }

  lemma {:induction false} KeptIsPlain(segs: seq<string>, room: nat)
    requires forall i :: 0 <= i < |segs| ==> '/' !in segs[i]
    ensures Plain(Kept(segs, room))
  {
    if segs != [] && room > 0 {
      assert "*"[0] == '*';
      assert PlainSegment("*");
      if segs[0] == [] {
        KeptIsPlain(segs[1..], room);
      } else {
        KeptIsPlain(segs[1..], room - 1);
      }
    }
  }

  /** Normal form: empty, or a slash and at most MAX_DEPTH plain segments. */
  ghost predicate NormalPath(r: string)
  {
    r == [] || exists segs :: Plain(segs) && |segs| <= MAX_DEPTH && r == ['/'] + Join(segs)
  }

  lemma JoinedIsFixed(segs: seq<string>)
    requires Plain(segs) && |segs| <= MAX_DEPTH
    ensures Normalized(['/'] + Join(segs)) == ['/'] + Join(segs)
  {
    var r := ['/'] + Join(segs);
    assert r[1..] == Join(segs);
    assert Split(r) == [[]] + Split(Join(segs));
    assert Split(r)[1..] == Split(Join(segs));
    if segs == [] {
      assert Split(r)[1..] == [[]];
      assert Kept([[]], MAX_DEPTH) == Kept([[]][1..], MAX_DEPTH) == [];
    } else {
      SplitJoin(segs);
      KeptPlain(segs, MAX_DEPTH);
    }
  }

  /** The normal forms are exactly the paths that normalisation leaves alone. */
  lemma NormalIffFixed(r: string)
    ensures NormalPath(r) <==> Normalized(r) == r
  {
    if r != [] {
      SplitIsSlashFree(r);
      KeptIsPlain(Split(r), MAX_DEPTH);
      if segs :| Plain(segs) && |segs| <= MAX_DEPTH && r == ['/'] + Join(segs) {
        JoinedIsFixed(segs);
      }
    }
  }

  /** Normalising twice is normalising once. */
  lemma NormalizeIdempotent(path: string)
    ensures Normalized(Normalized(path)) == Normalized(path)
  {
    if path != [] {
      SplitIsSlashFree(path);
      KeptIsPlain(Split(path), MAX_DEPTH);
      JoinedIsFixed(Kept(Split(path), MAX_DEPTH));
    }
  }

  lemma JoinInjective(a: seq<string>, b: seq<string>)
    requires Plain(a) && Plain(b) && Join(a) == Join(b)
    ensures a == b
  {
    if a != [] && b != [] {
      SplitJoin(a);
      SplitJoin(b);
    }
  }

  /** Two paths give the same prefix exactly when their first two non-empty segments agree, identifiers made
      of digits being alike: two files of one top-level directory stay apart. */
  lemma SamePrefixIff(p: string, q: string)
    ensures Normalized(p) == Normalized(q) <==>
      (p == [] <==> q == []) && Kept(Split(p), MAX_DEPTH) == Kept(Split(q), MAX_DEPTH)
  {
    var a, b := Kept(Split(p), MAX_DEPTH), Kept(Split(q), MAX_DEPTH);
    SplitIsSlashFree(p);
    SplitIsSlashFree(q);
    KeptIsPlain(Split(p), MAX_DEPTH);
    KeptIsPlain(Split(q), MAX_DEPTH);
    if p != [] && q != [] && Normalized(p) == Normalized(q) {
      assert Join(a) == Normalized(p)[1..] && Join(b) == Normalized(q)[1..];
      JoinInjective(a, b);
    }
  }

  /** For one: the two files a comment names as sharing a prefix do not. */
  lemma PasswdAndShadowApart()
    ensures Normalized("/etc/passwd") != Normalized("/etc/shadow")
  {
    var a, b := ["etc", "passwd"], ["etc", "shadow"];
    assert Plain(a) by { PlainWord("etc", 'e'); PlainWord("passwd", 'p'); }
    assert Plain(b) by { PlainWord("etc", 'e'); PlainWord("shadow", 's'); }
    assert a[1..] == ["passwd"] && b[1..] == ["shadow"];
    assert "/etc/passwd" == ['/'] + Join(a) && "/etc/shadow" == ['/'] + Join(b);
    JoinedIsFixed(a);
    JoinedIsFixed(b);
    assert "/etc/passwd"[5] != "/etc/shadow"[5];
  }

  lemma PlainWord(s: string, c: char)
    requires s != [] && s[0] == c && c > '9' && '/' !in s
    ensures PlainSegment(s)
  {
  }

  /** What a path gives, from its first two segments alone: identifiers made of digits become an asterisk, other
      segments stay, and everything behind is dropped. */
  lemma TwoSegments(a: string, b: string, rest: string)
    requires a != [] && b != [] && '/' !in a && '/' !in b
    ensures var prefix := ['/'] + Starred(a) + ['/'] + Starred(b);
      Normalized(['/'] + a + ['/'] + b) == prefix && Normalized(['/'] + a + ['/'] + b + ['/'] + rest) == prefix
  {
    SplitTwo(a, b, rest);
    KeepsTwo(a, b, []);
    KeepsTwo(a, b, Split(rest));
    JoinsTwo(Starred(a), Starred(b));
    assert [[]] + [a] + [b] + [] == [[]] + [a] + [b];
  }

  lemma SplitTwo(a: string, b: string, rest: string)
    requires '/' !in a && '/' !in b
    ensures Split(['/'] + a + ['/'] + b) == [[]] + [a] + [b]
    ensures Split(['/'] + a + ['/'] + b + ['/'] + rest) == [[]] + [a] + [b] + Split(rest)
  {
    SplitFirst(b, rest);
    SplitBehind(a, b);
    SplitBehind(a, b + ['/'] + rest);
    Regrouped(['/'] + a + ['/'], b, ['/'], rest);
    Regrouped([[]], [a], [b], Split(rest));
  }

  lemma SplitBehind(a: string, rest: string)
    requires '/' !in a
    ensures Split(['/'] + a + ['/'] + rest) == [[]] + [a] + Split(rest)
  {
    SplitFirst(a, rest);
    SplitRooted(a + ['/'] + rest);
    Regrouped(['/'], a, ['/'], rest);
    Regrouped([[]], [a], Split(rest), []);
  }

  lemma Regrouped<T>(a: seq<T>, b: seq<T>, c: seq<T>, d: seq<T>)
    ensures a + (b + c + d) == a + b + c + d && a + b + (c + d) == a + b + c + d
    ensures a + (b + c) == a + b + c
  {
  }

  lemma SplitRooted(s: string)
    ensures Split(['/'] + s) == [[]] + Split(s)
  {
    assert (['/'] + s)[1..] == s;
  }

  lemma JoinsTwo(a: string, b: string)
    ensures ['/'] + Join([a, b]) == ['/'] + a + ['/'] + b
  {
    assert [a, b][1..] == [b];
  }

  function Starred(seg: string): (r: string)
  {
    if seg != [] && (forall i :: 0 <= i < |seg| ==> '0' <= seg[i] <= '9') then "*" else seg
  }

  lemma KeepsTwo(a: string, b: string, more: seq<string>)
    requires a != [] && b != []
    ensures Kept([[]] + [a] + [b] + more, MAX_DEPTH) == [Starred(a), Starred(b)]
  {
    var segs := [[]] + [a] + [b] + more;
    assert segs[1..] == [a] + [b] + more;
    assert ([a] + [b] + more)[1..] == [b] + more;
    assert ([b] + more)[1..] == more;
    assert Kept([b] + more, 1) == [Starred(b)] + Kept(more, 0);
  }
}
