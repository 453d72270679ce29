/** Replacement of attached programs by those of a new collection, rolled back on partial failure. */
module LiveUpdate {
  import opened Wrappers

  type Name = string

  type Program = nat

  /** A loaded collection; id tells collections apart. */
  datatype Collection = Collection(id: nat, programs: map<Name, Program>)

  /** The program behind each registered link, the active collection, the open collections and the two counters. */
  datatype State = State(
    links: map<Name, Program>, current: Option<Collection>, open: set<nat>, updates: nat, errors: nat)

  /** What the environment decides during one call: the load result, whether the staging directory
      could be made, the order in which the links are visited, and which link updates fail. */
  datatype Attempt = Attempt(
    loaded: Option<Collection>, staged: bool, order: seq<Name>, swapFails: set<Name>, rollbackFails: set<Name>)

  datatype Swaps = Swaps(links: map<Name, Program>, swapped: seq<Name>, failed: bool)

  function SwapOne(r: Swaps, next: map<Name, Program>, name: Name, fails: set<Name>): (r': Swaps)
  {
    if r.failed || name !in next then r
    else if name in fails then r.(failed := true)
    else Swaps(r.links[name := next[name]], r.swapped + [name], false)
  }

  /** The swap loop over the links in the given order, up to its first failure. */
  function SwapAll(links: map<Name, Program>, next: map<Name, Program>, order: seq<Name>, fails: set<Name>): (r: Swaps)
  {
    if order == [] then Swaps(links, [], false)
    else SwapOne(SwapAll(links, next, order[..|order| - 1], fails), next, order[|order| - 1], fails)
  }

  /** The program a link has after rollback was tried on it. */
  function RolledBack(now: Program, name: Name, current: Option<Collection>, fails: set<Name>): (p: Program)
  {
    if current.Some? && name in current.value.programs && name !in fails then current.value.programs[name] else now
  }

  function RollbackAll(links: map<Name, Program>, swapped: seq<Name>, current: Option<Collection>, fails: set<Name>): (r: map<Name, Program>)
  {
    if swapped == [] then links
    else
      var before := RollbackAll(links, swapped[..|swapped| - 1], current, fails);
      var name := swapped[|swapped| - 1];
      if name in before then before[name := RolledBack(before[name], name, current, fails)] else before
  }

  function Open(open: set<nat>, c: Option<Collection>): (r: set<nat>)
  {
    if c.Some? then open + {c.value.id} else open
  }

  function Close(open: set<nat>, c: Option<Collection>): (r: set<nat>)
  {
    if c.Some? then open - {c.value.id} else open
  }

  predicate Succeeds(s: State, a: Attempt)
  {
    a.loaded.Some? && a.staged && !SwapAll(s.links, a.loaded.value.programs, a.order, a.swapFails).failed
  }

  /** One LiveUpdate call. */
  function Apply(s: State, a: Attempt): (r: State)
  {
    if a.loaded.None? then s.(errors := s.errors + 1)
    else if !a.staged then s.(open := s.open + {a.loaded.value.id} - {a.loaded.value.id}, errors := s.errors + 1)
    else
      Finish(s, a.loaded.value, SwapAll(s.links, a.loaded.value.programs, a.order, a.swapFails), a.rollbackFails)
  }

  /** What follows the swap loop: rollback and release of the new collection, or release of the old one. */
  function Finish(s: State, next: Collection, swaps: Swaps, rollbackFails: set<Name>): (r: State)
  {
    if swaps.failed then
      State(RollbackAll(swaps.links, swaps.swapped, s.current, rollbackFails),
            s.current, s.open + {next.id} - {next.id}, s.updates, s.errors + 1)
    else
      State(swaps.links, Some(next), Close(s.open + {next.id}, s.current), s.updates + 1, s.errors)
  }

  ghost predicate Enumerates(order: seq<Name>, names: set<Name>)
  {
    (forall n :: n in order <==> n in names) && forall i, j :: 0 <= i < j < |order| ==> order[i] != order[j]
  }

  /** The call visits every registered link once and loads a collection that is not open yet. */
  ghost predicate Possible(s: State, a: Attempt)
  {
    Enumerates(a.order, s.links.Keys) && (a.loaded.Some? ==> a.loaded.value.id !in s.open)
  }

  // -------------------------------------------------------------- the updater itself

  class Link {
    var prog: Program

    constructor (prog: Program)
      ensures this.prog == prog
    {
      this.prog := prog;
    }

    /** The kernel either replaces the program or leaves it. */
    method Update(prog: Program, fails: bool) returns (ok: bool)
      modifies this
      ensures ok == !fails
      ensures this.prog == if fails then old(this.prog) else prog
    {
      if !fails {
        this.prog := prog;
      }
      return !fails;
    }
  }

  class LiveUpdater {
    var attachedLinks: map<Name, Link>
    var currentColl: Option<Collection>
    var openColls: set<nat>
    var updates: nat
    var errors: nat

    /** No link is registered under two names. */
    ghost predicate Valid()
      reads this
    {
      forall m, n :: m in attachedLinks && n in attachedLinks && m != n ==> attachedLinks[m] != attachedLinks[n]
    }

    ghost function Programs(): (r: map<Name, Program>)
      reads this`attachedLinks, attachedLinks.Values
      ensures r.Keys == attachedLinks.Keys
    {
      map n | n in attachedLinks :: attachedLinks[n].prog
    }

    ghost function View(): (s: State)
      reads this, attachedLinks.Values
    {
      State(Programs(), currentColl, openColls, updates, errors)
    }

    constructor ()
      ensures Valid() && View() == State(map[], None, {}, 0, 0)
    {
      attachedLinks, currentColl, openColls := map[], None, {};
      updates, errors := 0, 0;
    }

    method RegisterLink(name: Name, link: Link)
      requires Valid()
      requires forall n :: n in attachedLinks && n != name ==> attachedLinks[n] != link
      modifies this
      ensures Valid() && attachedLinks == old(attachedLinks)[name := link]
      ensures View() == old(View()).(links := old(Programs())[name := link.prog])
    {
      attachedLinks := attachedLinks[name := link];
    }

    /** Makes a collection, or none, the active one; the one before stays open. */
    method SetCurrentCollection(coll: Option<Collection>)
      requires Valid()
      modifies this
      ensures Valid() && attachedLinks == old(attachedLinks)
      ensures View() == old(View()).(current := coll, open := Open(old(openColls), coll))
    {
      currentColl := coll;
      if coll.Some? {
        openColls := openColls + {coll.value.id};
      }
    }

    /** Updates one attached link and nothing else. */
    method UpdateLink(name: Name, prog: Program, fails: bool) returns (ok: bool)
      requires Valid() && name in attachedLinks
      modifies attachedLinks.Values
      ensures ok == !fails
      ensures Programs() == if fails then old(Programs()) else old(Programs())[name := prog]
    {
      assert attachedLinks[name] in attachedLinks.Values;
      ok := attachedLinks[name].Update(prog, fails);
    }

    /** Visits the links in some order and swaps in the new programs until one update fails. */
    method SwapLinks(next: map<Name, Program>, swapFails: set<Name>)
      returns (swapped: seq<Name>, failed: bool, ghost order: seq<Name>)
      requires Valid()
      modifies attachedLinks.Values
      ensures Enumerates(order, attachedLinks.Keys)
      ensures SwapAll(old(Programs()), next, order, swapFails) == Swaps(Programs(), swapped, failed)
    {
      swapped, failed, order := [], false, [];
      ghost var was := Programs();
      var todo := attachedLinks.Keys;
      while todo != {}
        invariant todo <= attachedLinks.Keys
        invariant Enumerates(order, attachedLinks.Keys - todo)
        invariant SwapAll(was, next, order, swapFails) == Swaps(Programs(), swapped, false)
      {
        var name :| name in todo;
        ghost var visited := order;
        EnumeratesNext(order, attachedLinks.Keys, todo, name);
        todo := todo - {name};
        order := order + [name];
        assert order[..|order| - 1] == visited;
        if name !in next {
          continue;
        }
        var ok := UpdateLink(name, next[name], name in swapFails);
        if !ok {
          failed := true;
          order := FailedOrder(was, next, order, attachedLinks.Keys, todo, swapFails);
          return;
        }
        swapped := swapped + [name];
      }
    }

    /** Puts the active collection's programs back on the swapped links. */
    method Rollback(swapped: seq<Name>, rollbackFails: set<Name>)
      requires Valid()
      modifies attachedLinks.Values
      ensures Programs() == RollbackAll(old(Programs()), swapped, currentColl, rollbackFails)
    {
      if currentColl.None? {
        RollbackWithout(Programs(), swapped, rollbackFails);
        return;
      }
      ghost var was := Programs();
      for i := 0 to |swapped|
        invariant Programs() == RollbackAll(was, swapped[..i], currentColl, rollbackFails)
      {
        var name := swapped[i];
        assert swapped[..i + 1][..i] == swapped[..i];
        if name !in currentColl.value.programs {
          continue;
        }
        if name in attachedLinks {
          var _ := UpdateLink(name, currentColl.value.programs[name], name in rollbackFails);
        }
      }
      assert swapped[..|swapped|] == swapped;
    }

    /** Swaps all links, or rolls back those already swapped. */
    method SwapOrRollback(next: map<Name, Program>, swapFails: set<Name>, rollbackFails: set<Name>)
      returns (ok: bool, ghost order: seq<Name>)
      requires Valid()
      modifies attachedLinks.Values
      ensures Enumerates(order, attachedLinks.Keys)
      ensures var r := SwapAll(old(Programs()), next, order, swapFails);
        ok == !r.failed &&
        Programs() == if ok then r.links else RollbackAll(r.links, r.swapped, currentColl, rollbackFails)
    {
      var swapped, failed;
      swapped, failed, order := SwapLinks(next, swapFails);
      if failed {
        Rollback(swapped, rollbackFails);
      }
      ok := !failed;
    }

    /** Releases the new collection or the old one, and counts the call. */
    method Settle(next: Collection, ok: bool)
      modifies this`currentColl, this`openColls, this`updates, this`errors
      ensures currentColl == if ok then Some(next) else old(currentColl)
      ensures openColls == if ok then Close(old(openColls) + {next.id}, old(currentColl)) else old(openColls) + {next.id} - {next.id}
      ensures updates == old(updates) + (if ok then 1 else 0) && errors == old(errors) + (if ok then 0 else 1)
    {
      openColls := openColls + {next.id};
      if ok {
        if currentColl.Some? {
          openColls := openColls - {currentColl.value.id};
        }
        currentColl := Some(next);
        updates := updates + 1;
      } else {
        openColls := openColls - {next.id};
        errors := errors + 1;
      }
    }

    /** From a staged collection on: swap, then settle. */
    method Replace(next: Collection, swapFails: set<Name>, rollbackFails: set<Name>)
      returns (ok: bool, ghost order: seq<Name>)
      requires Valid()
      modifies this, attachedLinks.Values
      ensures Valid() && attachedLinks == old(attachedLinks)
      ensures Enumerates(order, attachedLinks.Keys)
      ensures View() == Apply(old(View()), Attempt(Some(next), true, order, swapFails, rollbackFails))
      ensures ok == Succeeds(old(View()), Attempt(Some(next), true, order, swapFails, rollbackFails))
    {
      ok, order := SwapOrRollback(next.programs, swapFails, rollbackFails);
      ghost var swaps := SwapAll(old(Programs()), next.programs, order, swapFails);
      Settle(next, ok);
      assert View() == Finish(old(View()), next, swaps, rollbackFails);
    }

    /** Loads, stages, swaps; on failure rolls back and releases the new collection. */
    method LiveUpdate(loaded: Option<Collection>, staged: bool, swapFails: set<Name>, rollbackFails: set<Name>)
      returns (ok: bool, ghost order: seq<Name>)
      requires Valid()
      modifies this, attachedLinks.Values
      ensures Valid() && attachedLinks == old(attachedLinks)
      ensures Enumerates(order, attachedLinks.Keys)
      ensures View() == Apply(old(View()), Attempt(loaded, staged, order, swapFails, rollbackFails))
      ensures ok == Succeeds(old(View()), Attempt(loaded, staged, order, swapFails, rollbackFails))
    {
      if loaded.Some? && staged {
        ok, order := Replace(loaded.value, swapFails, rollbackFails);
        return;
      }
      order, ok := SomeOrder(attachedLinks.Keys), false;
      if loaded.Some? {
        openColls := openColls + {loaded.value.id} - {loaded.value.id};
      }
      errors := errors + 1;
      assert Programs() == old(Programs());
    }
  }

  lemma {:induction false} RollbackWithout(links: map<Name, Program>, swapped: seq<Name>, fails: set<Name>)
    ensures RollbackAll(links, swapped, None, fails) == links
  {
    if swapped != [] {
      RollbackWithout(links, swapped[..|swapped| - 1], fails);
    }
  }

  lemma EnumeratesMore(a: seq<Name>, done: set<Name>, b: seq<Name>, more: set<Name>)
    requires Enumerates(a, done) && Enumerates(b, more) && done !! more
    ensures Enumerates(a + b, done + more)
  {
    assert forall i :: 0 <= i < |a| ==> a[i] in done;
    assert forall i :: 0 <= i < |b| ==> b[i] in more;
  }

  lemma EnumeratesNext(order: seq<Name>, names: set<Name>, todo: set<Name>, name: Name)
    requires Enumerates(order, names - todo) && todo <= names && name in todo
    ensures Enumerates(order + [name], names - (todo - {name}))
  {
    EnumeratesMore(order, names - todo, [name], {name});
    assert names - (todo - {name}) == (names - todo) + {name};
  }

  /** After a failure any order of the other names gives the same swaps. */
  lemma FailedOrder(links: map<Name, Program>, next: map<Name, Program>, visited: seq<Name>, names: set<Name>,
      todo: set<Name>, fails: set<Name>) returns (order: seq<Name>)
    requires Enumerates(visited, names - todo) && todo <= names && SwapAll(links, next, visited, fails).failed
    ensures Enumerates(order, names)
    ensures SwapAll(links, next, order, fails) == SwapAll(links, next, visited, fails)
  {
    order := visited + SomeOrder(todo);
    FailedSwaps(links, next, visited, SomeOrder(todo), fails);
    EnumeratesMore(visited, names - todo, SomeOrder(todo), todo);
    assert names - todo + todo == names;
  }

  /** A finite set of names can be listed. */
  ghost function SomeOrder(names: set<Name>): (order: seq<Name>)
    ensures Enumerates(order, names)
  {
    if names == {} then []
    else
      var n :| n in names;
      var front := SomeOrder(names - {n});
      front + [n]
  }

  // ------------------------------------------------------------------ all or nothing

  /** What the swap loop did: every swapped link has its new program and every other link is as before;
      a failure leaves a link of the new collection unswapped. */
  lemma {:induction false} SwapEffect(links: map<Name, Program>, next: map<Name, Program>, order: seq<Name>, fails: set<Name>)
    requires forall i :: 0 <= i < |order| ==> order[i] in links
    requires forall i, j :: 0 <= i < j < |order| ==> order[i] != order[j]
    ensures var r := SwapAll(links, next, order, fails);
      && r.links.Keys == links.Keys
      && (forall n :: n in links ==> r.links[n] == if n in r.swapped then SwapTarget(next, n, links[n]) else links[n])
      && (forall n :: n in r.swapped ==> n in order && n in next && n !in fails)
      && (r.failed ==> exists m :: m in order && m in next && m !in r.swapped)
      && (!r.failed ==> forall n :: n in order && n in next ==> n in r.swapped)
  {
    if order != [] {
      var front, name := order[..|order| - 1], order[|order| - 1];
      SwapEffect(links, next, front, fails);
      var r := SwapAll(links, next, front, fails);
      assert order == front + [name] && name !in front;
      if r.failed {
        var m :| m in front && m in next && m !in r.swapped;
        assert m in order;
      } else if name in next && name in fails {
        assert name in order;
      }
    }
  }

  /** Position f of the order holds the first name whose update is due and fails; f is past the end if there is none. */
  ghost predicate StopsAt(order: seq<Name>, next: map<Name, Program>, fails: set<Name>, f: nat)
  {
    && f <= |order|
    && (f < |order| ==> order[f] in next && order[f] in fails)
    && forall i :: 0 <= i < f ==> order[i] !in next || order[i] !in fails
  }

  /** The swap loop fails exactly if some update that is due fails, and the links it swapped are exactly those due
      before the first such update. */
  lemma {:induction false} SwapStops(links: map<Name, Program>, next: map<Name, Program>, order: seq<Name>, fails: set<Name>)
    returns (f: nat)
    ensures StopsAt(order, next, fails, f)
    ensures SwapAll(links, next, order, fails).failed <==> f < |order|
    ensures forall n :: n in SwapAll(links, next, order, fails).swapped <==> n in next && n in order[..f]
    decreases |order|
  {
    if order == [] {
      f := 0;
    } else {
      var front, name := order[..|order| - 1], order[|order| - 1];
      var g := SwapStops(links, next, front, fails);
      assert order == front + [name];
      if g < |front| {
        f := g;
        assert order[..f] == front[..f];
      } else {
        assert front[..g] == front;
        f := if name in next && name in fails then |front| else |order|;
        assert order[..|front|] == front && order[..|order|] == order;
      }
    }
  }

  /** Exactly when a call succeeds: the collection loads, the staging directory is there, and no update of a link that
      the collection has a program for fails. */
  lemma SucceedsIff(s: State, a: Attempt)
    requires Possible(s, a)
    ensures Succeeds(s, a) <==>
      && a.loaded.Some? && a.staged
      && forall n :: n in s.links && n in a.loaded.value.programs ==> n !in a.swapFails
  {
    if a.loaded.Some? && a.staged {
      var next := a.loaded.value.programs;
      var f := SwapStops(s.links, next, a.order, a.swapFails);
      if f < |a.order| {
        assert a.order[f] in s.links;
      } else {
        forall n | n in s.links && n in next
          ensures n !in a.swapFails
        {
          assert n in a.order;
          var i :| 0 <= i < |a.order| && a.order[i] == n;
        }
      }
    }
  }

  /** What every link runs after a call that got to the swap loop: with f the place of the first failing update, a link
      that is not due or not before f keeps its program; one before f has the new program, unless there was a
      failure and the active collection put its own program back. */
  lemma CallLeaves(s: State, a: Attempt) returns (f: nat)
    requires Possible(s, a) && a.loaded.Some? && a.staged
    ensures StopsAt(a.order, a.loaded.value.programs, a.swapFails, f) && (Succeeds(s, a) <==> f == |a.order|)
    ensures Apply(s, a).links.Keys == s.links.Keys
    ensures forall n :: n in s.links ==>
      Apply(s, a).links[n] ==
        if n !in a.loaded.value.programs || n !in a.order[..f] then s.links[n]
        else if f < |a.order| && s.current.Some? && n in s.current.value.programs && n !in a.rollbackFails
        then s.current.value.programs[n]
        else a.loaded.value.programs[n]
  {
    var next := a.loaded.value.programs;
    var r := SwapAll(s.links, next, a.order, a.swapFails);
    f := SwapStops(s.links, next, a.order, a.swapFails);
    SwapEffect(s.links, next, a.order, a.swapFails);
    RollbackEffect(r.links, r.swapped, s.current, a.rollbackFails);
  }

  /** A call that does not get there changes no link. */
  lemma CallWithoutSwaps(s: State, a: Attempt)
    requires a.loaded.None? || !a.staged
    ensures !Succeeds(s, a) && Apply(s, a).links == s.links && Apply(s, a).current == s.current
  {
  }

  function SwapTarget(next: map<Name, Program>, n: Name, now: Program): (p: Program)
  {
    if n in next then next[n] else now
  }

  lemma {:induction false} RollbackEffect(links: map<Name, Program>, swapped: seq<Name>, current: Option<Collection>, fails: set<Name>)
    ensures var r := RollbackAll(links, swapped, current, fails);
      && r.Keys == links.Keys
      && forall n :: n in links ==> r[n] == if n in swapped then RolledBack(links[n], n, current, fails) else links[n]
  {
    if swapped != [] {
      var front, name := swapped[..|swapped| - 1], swapped[|swapped| - 1];
      RollbackEffect(links, front, current, fails);
      assert swapped == front + [name];
    }
  }

  /** The registered links that a collection has a program for. */
  function Matching(s: State, next: Collection): (r: set<Name>)
  {
    set n | n in s.links && n in next.programs
  }

  /** After a successful rollback of link n, it runs what it ran before the call. */
  predicate Restores(s: State, next: Collection, n: Name)
    requires n in s.links && n in next.programs
  {
    RolledBack(next.programs[n], n, s.current, {}) == s.links[n]
  }

  /** A call that failed, with every rollback update succeeding, left every link on its old program. */
  ghost predicate Undone(s: State, a: Attempt)
  {
    !Succeeds(s, a) ==> Apply(s, a).links == s.links
  }

  /** What a failed call leaves: the swapped links after their rollback, and all others as before; some link of the
      new collection was not swapped. */
  lemma FailedLinks(s: State, a: Attempt) returns (swapped: seq<Name>, m: Name)
    requires Possible(s, a) && a.loaded.Some? && a.staged && !Succeeds(s, a)
    ensures var next := a.loaded.value.programs;
      && m in s.links && m in next && m !in swapped
      && (forall n :: n in swapped ==> n in s.links && n in next)
      && Apply(s, a).links.Keys == s.links.Keys
      && forall n :: n in s.links ==>
        Apply(s, a).links[n] == if n in swapped && n in next then RolledBack(next[n], n, s.current, a.rollbackFails) else s.links[n]
  {
    var next := a.loaded.value.programs;
    var r := SwapAll(s.links, next, a.order, a.swapFails);
    SwapEffect(s.links, next, a.order, a.swapFails);
    RollbackEffect(r.links, r.swapped, s.current, a.rollbackFails);
    swapped := r.swapped;
    m :| m in a.order && m in next && m !in swapped;
  }

  /** If the collection concerns at most one link, or rollback gives each concerned link its program back, a failed
      call changes no link. */
  ghost predicate Recovers(s: State, next: Collection)
  {
    |Matching(s, next)| <= 1 || forall n :: n in Matching(s, next) ==> Restores(s, next, n)
  }

  lemma UndoneWhenRestoring(s: State, a: Attempt)
    requires Possible(s, a) && a.rollbackFails == {} && a.loaded.Some? && Recovers(s, a.loaded.value)
    ensures Undone(s, a)
  {
    if a.staged && !Succeeds(s, a) {
      var next := a.loaded.value;
      var swapped, m := FailedLinks(s, a);
      forall n | n in swapped
        ensures Restores(s, next, n)
      {
        TwoElements(Matching(s, next), m, n);
      }
    }
  }

  lemma TwoElements<T>(s: set<T>, a: T, b: T)
    requires a in s && b in s && a != b
    ensures |s| >= 2
  {
    assert |{a, b}| == 2;
    assert s == {a, b} + (s - {a, b});
  }

  lemma OneThenFail(links: map<Name, Program>, next: map<Name, Program>, n: Name, m: Name)
    requires n in next && m in next && n != m
    ensures SwapAll(links, next, [n, m], {m}) == Swaps(links[n := next[n]], [n], true)
  {
    assert [n, m][..1] == [n] && [n][..0] == [];
    assert SwapAll(links, next, [n], {m}) == SwapOne(Swaps(links, [], false), next, n, {m});
  }

  /** If link n would not be restored and another link m can fail, some call leaves n on the new program. */
  lemma NotUndone(s: State, next: Collection, n: Name, m: Name) returns (a: Attempt)
    requires next.id !in s.open && n in Matching(s, next) && m in Matching(s, next) && n != m
    requires !Restores(s, next, n)
    ensures Possible(s, a) && a.loaded == Some(next) && a.rollbackFails == {} && !Undone(s, a)
  {
    var rest := SomeOrder(s.links.Keys - {n, m});
    var order := [n, m] + rest;
    a := Attempt(Some(next), true, order, {m}, {});
    OneThenFail(s.links, next.programs, n, m);
    FailedSwaps(s.links, next.programs, [n, m], rest, {m});
    var r := Swaps(s.links[n := next.programs[n]], [n], true);
    RollbackEffect(r.links, r.swapped, s.current, {});
  }

  /** Nothing is swapped after the first failure. */
  lemma {:induction false} FailedSwaps(links: map<Name, Program>, next: map<Name, Program>, a: seq<Name>, b: seq<Name>, fails: set<Name>)
    requires SwapAll(links, next, a, fails).failed
    ensures SwapAll(links, next, a + b, fails) == SwapAll(links, next, a, fails)
    decreases |b|
  {
    if b == [] {
      assert a + b == a;
    } else {
      assert (a + b)[..|a + b| - 1] == a + b[..|b| - 1];
      FailedSwaps(links, next, a, b[..|b| - 1], fails);
    }
  }

  /** Exactly when LiveUpdate is all-or-nothing for a collection, over every visiting order and failure point:
      at most one link is concerned, or the active collection holds the program each concerned link runs. */
  lemma AllOrNothingIff(s: State, next: Collection)
    requires next.id !in s.open
    ensures (forall a :: Possible(s, a) && a.loaded == Some(next) && a.rollbackFails == {} ==> Undone(s, a)) <==>
      Recovers(s, next)
  {
    if Recovers(s, next) {
      forall a | Possible(s, a) && a.loaded == Some(next) && a.rollbackFails == {}
        ensures Undone(s, a)
      {
        UndoneWhenRestoring(s, a);
      }
    } else {
      var n :| n in Matching(s, next) && !Restores(s, next, n);
      assert Matching(s, next) - {n} != {} by {
        assert |Matching(s, next) - {n}| == |Matching(s, next)| - 1;
      }
      var m :| m in Matching(s, next) - {n};
      var a := NotUndone(s, next, n, m);
    }
  }

  // ---------------------------------------------------------------------------- runs

  /** Every link runs the active collection's program of its name, and nothing else is open. */
  ghost predicate Consistent(s: State)
  {
    s.current.Some? && s.open == {s.current.value.id} &&
    forall n :: n in s.links ==> n in s.current.value.programs && s.links[n] == s.current.value.programs[n]
  }

  /** An error return from a consistent state changes nothing but the error counter, if rollback updates succeed. */
  lemma ErrorChangesNothing(s: State, a: Attempt)
    requires Consistent(s) && Possible(s, a) && a.rollbackFails == {} && !Succeeds(s, a)
    ensures Apply(s, a) == s.(errors := s.errors + 1)
  {
    if a.loaded.Some? {
      UndoneWhenRestoring(s, a);
    }
  }

  /** Only the active collection is open. */
  ghost predicate Tidy(s: State)
  {
    s.open == Open({}, s.current)
  }

  /** After a success, whatever the links ran before, all of them run the new collection exactly when it has a
      program for each of them. */
  lemma SuccessUniformIff(s: State, a: Attempt)
    requires Tidy(s) && Possible(s, a) && Succeeds(s, a)
    ensures Consistent(Apply(s, a)) <==> s.links.Keys <= a.loaded.value.programs.Keys
    ensures Apply(s, a).updates == s.updates + 1 && Apply(s, a).errors == s.errors
    ensures Apply(s, a).open == {a.loaded.value.id}
  {
    SwapEffect(s.links, a.loaded.value.programs, a.order, a.swapFails);
  }

  datatype Op = Register(name: Name, prog: Program) | Activate(coll: Option<Collection>) | Update(attempt: Attempt)

  /** A link is registered running some program, a collection or none is made the active one, or a call is made. */
  function ApplyOp(s: State, o: Op): (r: State)
  {
    match o
    case Register(n, p) => s.(links := s.links[n := p])
    case Activate(c) => s.(current := c, open := Open(s.open, c))
    case Update(a) => Apply(s, a)
  }

  function Run(s: State, ops: seq<Op>): (r: State)
  {
    if ops == [] then s else ApplyOp(Run(s, ops[..|ops| - 1]), ops[|ops| - 1])
  }

  /** Each call is possible where it happens. */
  ghost predicate PossibleRun(s: State, ops: seq<Op>)
  {
    ops != [] ==>
      var front, o := ops[..|ops| - 1], ops[|ops| - 1];
      PossibleRun(s, front) && (o.Update? ==> Possible(Run(s, front), o.attempt))
  }

  function Calls(ops: seq<Op>): (n: nat)
  {
    if ops == [] then 0 else Calls(ops[..|ops| - 1]) + if ops[|ops| - 1].Update? then 1 else 0
  }

  /** Over every run each call is counted once, as an update or as an error. */
  lemma {:induction false} CallsCounted(s: State, ops: seq<Op>)
    ensures Run(s, ops).updates + Run(s, ops).errors == s.updates + s.errors + Calls(ops)
    decreases |ops|
  {
    if ops != [] {
      CallsCounted(s, ops[..|ops| - 1]);
    }
  }

  lemma CallStaysTidy(s: State, a: Attempt)
    requires Tidy(s) && Possible(s, a)
    ensures Tidy(Apply(s, a))
  {
  }

  /** Over every possible run without activation by hand, with collections that cover any of the links and any
      failing updates and rollback updates, only the active collection is open. */
  lemma {:induction false} OnlyActiveOpen(s: State, ops: seq<Op>)
    requires Tidy(s) && PossibleRun(s, ops) && forall i :: 0 <= i < |ops| ==> !ops[i].Activate?
    ensures Tidy(Run(s, ops))
    decreases |ops|
  {
    if ops != [] {
      var front, o := ops[..|ops| - 1], ops[|ops| - 1];
      OnlyActiveOpen(s, front);
      if o.Update? {
        CallStaysTidy(Run(s, front), o.attempt);
      }
    }
  }

  /** Links are registered running the active program of their name, no collection is made active by hand, the
      rollback updates of each call succeed and its collection covers the links. */
  ghost predicate Covered(s: State, ops: seq<Op>)
  {
    ops != [] ==>
      var front, o := ops[..|ops| - 1], ops[|ops| - 1];
      var before := Run(s, front);
      && Covered(s, front)
      && match o
         case Register(n, p) => before.current.Some? && n in before.current.value.programs && p == before.current.value.programs[n]
         case Activate(_) => false
         case Update(a) =>
           a.rollbackFails == {} && (a.loaded.Some? ==> before.links.Keys <= a.loaded.value.programs.Keys)
  }

  /** Over every covered run all links run one collection, and only that one is open. */
  lemma {:induction false} RunStaysConsistent(s: State, ops: seq<Op>)
    requires Consistent(s) && PossibleRun(s, ops) && Covered(s, ops)
    ensures Consistent(Run(s, ops))
    decreases |ops|
  {
    if ops != [] {
      var front, o := ops[..|ops| - 1], ops[|ops| - 1];
      RunStaysConsistent(s, front);
      var before := Run(s, front);
      if o.Update? {
        if Succeeds(before, o.attempt) {
          SuccessUniformIff(before, o.attempt);
        } else {
          ErrorChangesNothing(before, o.attempt);
        }
      }
    }
  }

  // ------------------------------------------------- collections that do not cover

  /** Every call of the run that failed left every link on its old program. */
  ghost predicate Recovering(s: State, ops: seq<Op>)
  {
    ops != [] ==>
      var front, o := ops[..|ops| - 1], ops[|ops| - 1];
      Recovering(s, front) && (o.Update? ==> Undone(Run(s, front), o.attempt))
  }

  /** The program of the last successful collection that has the name of a link, or the one the link was registered
      with since. */
  ghost function LastProgram(s: State, ops: seq<Op>, n: Name): (p: Option<Program>)
  {
    if ops == [] then if n in s.links then Some(s.links[n]) else None
    else
      var front, o := ops[..|ops| - 1], ops[|ops| - 1];
      var last := LastProgram(s, front, n);
      match o
      case Register(m, p) => if m == n then Some(p) else last
      case Activate(_) => last
      case Update(a) =>
        if Succeeds(Run(s, front), a) && last.Some? && n in a.loaded.value.programs
        then Some(a.loaded.value.programs[n]) else last
  }

  /** A link runs a program, or is not registered. */
  function RunsOn(s: State, n: Name): (p: Option<Program>)
  {
    if n in s.links then Some(s.links[n]) else None
  }

  lemma SuccessRuns(s: State, a: Attempt, n: Name)
    requires Possible(s, a) && Succeeds(s, a)
    ensures var next := a.loaded.value.programs;
      RunsOn(Apply(s, a), n) == if n in s.links && n in next then Some(next[n]) else RunsOn(s, n)
  {
    SwapEffect(s.links, a.loaded.value.programs, a.order, a.swapFails);
  }

  /** Over every run of registrations, activations and calls, with collections that cover any of the links and any
      failures that are undone, each link runs the program of the last successful collection that has its name. */
  lemma {:induction false} LinksFollowCollections(s: State, ops: seq<Op>, n: Name)
    requires PossibleRun(s, ops) && Recovering(s, ops)
    ensures RunsOn(Run(s, ops), n) == LastProgram(s, ops, n)
    decreases |ops|
  {
    if ops != [] {
      var front, o := ops[..|ops| - 1], ops[|ops| - 1];
      LinksFollowCollections(s, front, n);
      if o.Update? && Succeeds(Run(s, front), o.attempt) {
        SuccessRuns(Run(s, front), o.attempt, n);
      }
    }
  }

  /** After each step of the run, every link runs the program of the last successful collection that has its name. */
  ghost predicate FollowsThroughout(s: State, ops: seq<Op>)
  {
    ops != [] ==>
      FollowsThroughout(s, ops[..|ops| - 1]) && forall n :: RunsOn(Run(s, ops), n) == LastProgram(s, ops, n)
  }

  lemma SameRunsOn(s: State, t: State)
    requires forall n :: RunsOn(s, n) == RunsOn(t, n)
    ensures s.links == t.links
  {
    forall n
      ensures n in s.links <==> n in t.links
      ensures n in s.links ==> s.links[n] == t.links[n]
    {
      assert RunsOn(s, n) == RunsOn(t, n);
    }
  }

  lemma FollowsFront(s: State, ops: seq<Op>, n: Name)
    requires FollowsThroughout(s, ops)
    ensures RunsOn(Run(s, ops), n) == LastProgram(s, ops, n)
  {
  }

  /** And that is exact: links follow throughout a possible run if and only if each of its failed calls is undone. */
  lemma {:induction false} LinksFollowIff(s: State, ops: seq<Op>)
    requires PossibleRun(s, ops)
    ensures FollowsThroughout(s, ops) <==> Recovering(s, ops)
    decreases |ops|
  {
    if ops != [] {
      var front, o := ops[..|ops| - 1], ops[|ops| - 1];
      LinksFollowIff(s, front);
      if Recovering(s, ops) {
        forall n
          ensures RunsOn(Run(s, ops), n) == LastProgram(s, ops, n)
        {
          LinksFollowCollections(s, ops, n);
        }
      }
      if FollowsThroughout(s, ops) && o.Update? && !Succeeds(Run(s, front), o.attempt) {
        forall n
          ensures RunsOn(Run(s, ops), n) == RunsOn(Run(s, front), n)
        {
          FollowsFront(s, front, n);
          FollowsFront(s, ops, n);
        }
        SameRunsOn(Run(s, ops), Run(s, front));
      }
    }
  }

  /** The active collection has the program that a link last got, or it lacks the name and the new collection has
      that program. */
  ghost predicate Keeps(s: State, ops: seq<Op>, next: Collection, n: Name)
    requires n in next.programs
  {
    var current := Run(s, ops).current;
    LastProgram(s, ops, n) == Some(
      if current.Some? && n in current.value.programs then current.value.programs[n] else next.programs[n])
  }

  /** After every such run, exactly when the next call is all-or-nothing again: it concerns at most one link, or for
      each concerned link the active collection has the program of the last successful collection with its name,
      or lacks the name and the new collection has that program. */
  lemma NextCallIff(s: State, ops: seq<Op>, next: Collection)
    requires PossibleRun(s, ops) && Recovering(s, ops) && next.id !in Run(s, ops).open
    ensures var r := Run(s, ops);
      (forall a :: Possible(r, a) && a.loaded == Some(next) && a.rollbackFails == {} ==> Undone(r, a)) <==>
      (|Matching(r, next)| <= 1 || forall n :: n in Matching(r, next) ==> Keeps(s, ops, next, n))
  {
    var r := Run(s, ops);
    AllOrNothingIff(r, next);
    forall n | n in Matching(r, next)
      ensures Restores(r, next, n) <==> Keeps(s, ops, next, n)
    {
      LinksFollowCollections(s, ops, n);
    }
  }
}
