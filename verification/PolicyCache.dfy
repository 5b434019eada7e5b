/**
 The cached, watched view of the emission policy (event/policy.go). The cache is trusted while the queue of
 the watch on Events is empty; every claim here is about any interleaving with other programs' commits.
 */
module PolicyCache {
  import opened Wrappers
  import opened Watch
  import opened Registry
  import opened Policy

  const CACHE_MAX := 4096
  /** One second, in the clock's nanoseconds. */
  const TTL := 1_000_000_000

  // --- time passing ----------------------------------------------------

  /** `v` is a later world than `w`, whatever handles were opened and closed in between. */
  ghost predicate After(w: World, v: World)
    ensures After(w, v) ==> Inv(w) && Inv(v)
  {
    && Inv(w) && Inv(v) && w.nextFd <= v.nextFd
    && w.clock <= v.clock && w.commits <= v.commits && (w.commits == v.commits ==> w.tree == v.tree)
    && Aged(w.tree, v.tree) && |v.future| <= |w.future|
  }

  lemma AfterThen(a: World, b: World, c: World)
    requires After(a, b) && After(b, c)
    ensures After(a, c)
  {
    hide Inv, Aged;
    AgedThen(a.tree, b.tree, c.tree);
  }

  lemma TickAfter(w: World)
    requires Inv(w)
    ensures After(w, Tick(w).0) && Tick(w).0.open == w.open && Tick(w).0.armed.Keys == w.armed.Keys
  {
    hide Inv, Tick, Aged;
    TickElapses(w);
  }

  /** The subtree watch at `path` on `fd` still holds, and an empty queue still proves that nothing changed. */
  ghost predicate Undisturbed(w: World, v: World, fd: nat, path: Path)
    ensures Undisturbed(w, v, fd, path) ==> Watching(w, fd, path) && Watching(v, fd, path)
  {
    && Watching(w, fd, path) && Watching(v, fd, path)
    && w.armed[fd].key == v.armed[fd].key && Quiet(w, v, fd, path)
  }

  lemma UndisturbedThen(a: World, b: World, c: World, fd: nat, path: Path)
    requires Undisturbed(a, b, fd, path) && Undisturbed(b, c, fd, path)
    ensures Undisturbed(a, c, fd, path)
  {
    hide Lookup, SameBelow;
    if c.armed[fd].queue == [] {
      SameBelowThen(a.tree, b.tree, c.tree, a.armed[fd].key);
    }
  }

  lemma TickUndisturbed(w: World, fd: nat, path: Path)
    requires Inv(w) && Watching(w, fd, path)
    ensures Undisturbed(w, Tick(w).0, fd, path)
  {
    hide Tick, Lookup, SameBelow;
    TickKeepsWatching(w, fd, path);
    TickKeepsKey(w, fd);
  }

  lemma TickKeepsKey(w: World, fd: nat)
    requires Inv(w) && fd in w.armed
    ensures fd in Tick(w).0.armed && Tick(w).0.armed[fd].key == w.armed[fd].key
  {
    hide Tick;
    TickElapses(w);
  }

  /** Opening or closing another handle disturbs nothing. */
  lemma SameWatch(w: World, v: World, fd: nat, path: Path)
    requires Watching(w, fd, path) && v.tree == w.tree && fd in v.armed && v.armed[fd] == w.armed[fd]
    ensures Undisturbed(w, v, fd, path)
  {
    hide Lookup;
    SameBelowSelf(w.tree, w.armed[fd].key);
  }

  // --- the walk --------------------------------------------------------

  /** What a walk may do to the world: time passes, and if `watched` the root's watch stays good. */
  ghost predicate Walked(w: World, v: World, root: nat, watched: bool)
    ensures Walked(w, v, root, watched) ==> Inv(v) && v.armed.Keys == w.armed.Keys
    ensures Walked(w, v, root, watched) && watched ==> Watching(v, root, EVENTS_PATH)
  {
    && After(w, v) && v.armed.Keys == w.armed.Keys
    && (watched ==> Undisturbed(w, v, root, EVENTS_PATH))
  }

  lemma WalkedThen(a: World, b: World, c: World, root: nat, watched: bool)
    requires Walked(a, b, root, watched) && Walked(b, c, root, watched)
    ensures Walked(a, c, root, watched)
  {
    hide After, Undisturbed;
    AfterThen(a, b, c);
    if watched {
      UndisturbedThen(a, b, c, root, EVENTS_PATH);
    }
  }

  lemma TickWalks(w: World, root: nat, watched: bool)
    requires Inv(w) && (watched ==> Watching(w, root, EVENTS_PATH))
    ensures Walked(w, Tick(w).0, root, watched) && Tick(w).0.open == w.open
  {
    hide Tick, Undisturbed, Watching;
    TickAfter(w);
    if watched {
      TickUndisturbed(w, root, EVENTS_PATH);
    }
  }

  /** liveTree.enabled. */
  method Enabled(base: Kernel, key: nat, ghost root: nat, ghost watched: bool) returns (s: Setting)
    requires Inv(base.w) && key in base.w.open && (watched ==> Watching(base.w, root, EVENTS_PATH))
    modifies base
    ensures Walked(old(base.w), base.w, root, watched) && base.w.open == old(base.w.open)
    ensures s == SettingAt(base.w.tree, base.w.open[key])
  {
    hide Inv, Tick, Walked, Watching;
    TickWalks(base.w, root, watched);
    var v := base.QueryValue(key);
    s := SettingOf(v);
  }

  /** liveTree.child. */
  method Child(base: Kernel, key: nat, name: Name, ghost root: nat, ghost watched: bool) returns (r: Option<nat>)
    requires Inv(base.w) && key in base.w.open && (watched ==> Watching(base.w, root, EVENTS_PATH))
    modifies base
    ensures Walked(old(base.w), base.w, root, watched)
    ensures key in base.w.open && base.w.open[key] == old(base.w.open)[key]
    ensures r.None? ==> base.w.open == old(base.w.open) && Next(base.w.tree, base.w.open[key], name) == None
    ensures r.Some? ==> r.value !in old(base.w.open) && r.value in base.w.open
    ensures r.Some? ==> base.w.open == old(base.w.open)[r.value := base.w.open[r.value]]
    ensures r.Some? ==> Next(base.w.tree, base.w.open[key], name) == Some(base.w.open[r.value])
  {
    hide Tick, Watching, Walked, Lookup;
    TickWalks(base.w, root, watched);
    ghost var v := Tick(base.w).0;
    r := base.OpenSubkey(key, name);
    HandlesWalk(v, base.w, root, watched);
    WalkedThen(old(base.w), v, base.w, root, watched);
  }

  /** Opening or closing a handle is no disturbance. */
  lemma HandlesWalk(w: World, v: World, root: nat, watched: bool)
    requires Inv(w) && Inv(v) && v.tree == w.tree && v.armed == w.armed && v.nextFd >= w.nextFd
    requires v.clock == w.clock && v.commits == w.commits && v.future == w.future
    requires watched ==> Watching(w, root, EVENTS_PATH)
    ensures Walked(w, v, root, watched)
  {
    hide Inv, Lookup, Aged;
    AgedItself(w.tree);
    if watched {
      SameWatch(w, v, root, EVENTS_PATH);
    }
  }

  /** The moments at which a key's value was read and then its child sought. */
  datatype Visit = Visit(value: World, child: World)

  /** Resolve, when every look sees the tree of its own moment; None if the visits end too soon. */
  ghost function ResolveOver(visits: seq<Visit>, k: nat, segs: Path): Option<Setting>
    decreases |segs|
  {
    if visits == [] then None
    else
      var here := SettingAt(visits[0].value.tree, k);
      if segs == [] then Some(here)
      else
        match Next(visits[0].child.tree, k, segs[0])
        case None => Some(here)
        case Some(x) => Better(here, ResolveOver(visits[1..], x, segs[1..]))
  }

  function Better(found: Setting, deeper: Option<Setting>): Option<Setting> {
    match deeper case None => None case Some(s) => Some(Over(found, s))
  }

  /** All of it happened between `w` and `v`. */
  ghost predicate Visited(w: World, visits: seq<Visit>, v: World, root: nat, watched: bool) {
    forall i :: 0 <= i < |visits| ==>
      && Walked(w, visits[i].value, root, watched) && Walked(visits[i].value, visits[i].child, root, watched)
      && Walked(visits[i].child, v, root, watched)
  }

  lemma VisitedLater(w: World, visits: seq<Visit>, v: World, u: World, root: nat, watched: bool)
    requires Visited(w, visits, v, root, watched) && Walked(v, u, root, watched)
    ensures Visited(w, visits, u, root, watched)
  {
    hide Walked;
    forall i | 0 <= i < |visits|
      ensures Walked(visits[i].child, u, root, watched)
    {
      WalkedThen(visits[i].child, v, u, root, watched);
    }
  }

  lemma VisitedMore(w: World, visits: seq<Visit>, v: World, visit: Visit, u: World, root: nat, watched: bool)
    requires Visited(w, visits, v, root, watched) && Walked(w, v, root, watched) && Walked(v, visit.value, root, watched)
    requires Walked(visit.value, visit.child, root, watched) && Walked(visit.child, u, root, watched)
    ensures Visited(w, visits + [visit], u, root, watched)
  {
    hide Walked;
    WalkedThen(w, v, visit.value, root, watched);
    WalkedThen(v, visit.value, visit.child, root, watched);
    WalkedThen(v, visit.child, u, root, watched);
    VisitedLater(w, visits, v, u, root, watched);
  }

  /** What is known halfway: whatever the visits to come, the result is what was found, or better from `key` on. */
  ghost predicate Ahead(visits: seq<Visit>, start: nat, segs: Path, depth: nat, key: Option<nat>, found: Setting) {
    && depth <= |segs|
    && match key
       case None => ResolveOver(visits, start, segs) == Some(found)
       case Some(k) =>
         forall more: seq<Visit> ::
           ResolveOver(visits + more, start, segs) == Better(found, ResolveOver(more, k, segs[depth..]))
  }

  lemma AheadStart(k: nat, segs: Path)
    ensures Ahead([], k, segs, 0, Some(k), Unset)
  {
    assert segs[0..] == segs;
    forall more: seq<Visit>
      ensures ResolveOver([] + more, k, segs) == Better(Unset, ResolveOver(more, k, segs))
    {
      assert [] + more == more;
    }
  }

  /** Reading a key and going on to the next one, or stopping, keeps the walk on course. */
  lemma AheadStep(visits: seq<Visit>, start: nat, segs: Path, depth: nat, k: nat, found: Setting, visit: Visit)
    requires Ahead(visits, start, segs, depth, Some(k), found)
    ensures var better := Over(found, SettingAt(visit.value.tree, k));
            if depth == |segs| then Ahead(visits + [visit], start, segs, depth, None, better)
            else Ahead(visits + [visit], start, segs, depth + 1, Next(visit.child.tree, k, segs[depth]), better)
  {
    hide SettingAt, Next;
    forall more: seq<Visit>
      ensures ResolveOver(visits + [visit] + more, start, segs) == Better(found, ResolveOver([visit] + more, k, segs[depth..]))
    {
      assert visits + [visit] + more == visits + ([visit] + more);
    }
    assert visits + [visit] + [] == visits + [visit] && [visit] + [] == [visit];
    if depth < |segs| {
      assert segs[depth..][0] == segs[depth] && segs[depth..][1..] == segs[depth + 1..];
      forall more: seq<Visit>
        ensures ([visit] + more)[1..] == more
      {
      }
    }
  }

  /** Visits that all see the same below `k` find what one tree says. */
  lemma {:induction false} SameVisits(t: Tree, visits: seq<Visit>, k: nat, segs: Path)
    requires forall i :: 0 <= i < |visits| ==> SameBelow(t, visits[i].value.tree, k) && SameBelow(t, visits[i].child.tree, k)
    ensures ResolveOver(visits, k, segs).Some? ==> ResolveOver(visits, k, segs) == Some(Resolve(t, k, segs))
    decreases |segs|
  {
    hide SettingAt, Next, SameBelow;
    if visits != [] {
      SameBelowHere(t, visits[0].value.tree, k);
      if segs != [] {
        SameBelowNext(t, visits[0].child.tree, k, segs[0]);
        if Next(t, k, segs[0]).Some? {
          var x, rest := Next(t, k, segs[0]).value, visits[1..];
          forall i | 0 <= i < |rest|
            ensures SameBelow(t, rest[i].value.tree, x) && SameBelow(t, rest[i].child.tree, x)
          {
            assert rest[i] == visits[i + 1];
            SameBelowNext(t, visits[i + 1].value.tree, k, segs[0]);
            SameBelowNext(t, visits[i + 1].child.tree, k, segs[0]);
          }
          SameVisits(t, rest, x, segs[1..]);
        }
      }
    }
  }

  /** If nothing below the root changed meanwhile, a walk finds what the tree says. */
  lemma VisitsInCalm(w: World, visits: seq<Visit>, v: World, root: nat, watched: bool, segs: Path)
    requires Visited(w, visits, v, root, watched) && Walked(w, v, root, watched) && Still(w, v, root, watched)
    requires root in w.open && ResolveOver(visits, w.open[root], segs).Some?
    ensures ResolveOver(visits, w.open[root], segs) == Some(Resolve(v.tree, w.open[root], segs))
  {
    hide Walked, Still, ResolveOver, Resolve, SameBelow;
    var k := w.open[root];
    forall i | 0 <= i < |visits|
      ensures SameBelow(w.tree, visits[i].value.tree, k) && SameBelow(w.tree, visits[i].child.tree, k)
    {
      WalkedThen(w, visits[i].value, visits[i].child, root, watched);
      WalkedThen(visits[i].value, visits[i].child, v, root, watched);
      StillBefore(w, visits[i].value, v, root, watched);
      StillBefore(w, visits[i].child, v, root, watched);
      StillMeans(w, visits[i].value, root, watched);
      StillMeans(w, visits[i].child, root, watched);
    }
    SameVisits(w.tree, visits, k, segs);
    StillMeans(w, v, root, watched);
    ResolveSame(w.tree, v.tree, k, segs);
  }

  /**
   resolve, over the live registry: one key per segment, the deepest setting kept, every handle but the
   root's released. Whatever is committed between its reads, it finds what they saw; if the root is watched
   and its queue is empty at the end, no commit touched the walk, and that is what the tree says.
   */
  method Walk(base: Kernel, root: nat, segs: Path, ghost watched: bool) returns (found: Setting, ghost visits: seq<Visit>)
    requires Inv(base.w) && root in base.w.open && (watched ==> Watching(base.w, root, EVENTS_PATH))
    modifies base
    ensures Walked(old(base.w), base.w, root, watched) && base.w.open == old(base.w.open)
    ensures Visited(old(base.w), visits, base.w, root, watched)
    ensures ResolveOver(visits, base.w.open[root], segs) == Some(found)
    ensures Still(old(base.w), base.w, root, watched) ==> found == Resolve(base.w.tree, base.w.open[root], segs)
  {
    hide Inv, Tick, Walked, Watching, Resolve, ResolveOver, SettingAt, Next, Lookup, Ahead, Visited, Still;
    found, visits := Unset, [];
    var key := Some(root);
    var depth := 0;
    ghost var w0, start := base.w, base.w.open[root];
    HandlesWalk(w0, w0, root, watched);
    ArmedAreOpen(w0);
    AheadStart(start, segs);
    NothingVisited(w0, root, watched);
    while key.Some?
      invariant Walked(w0, base.w, root, watched) && depth <= |segs|
      invariant root in base.w.open && base.w.open[root] == start
      invariant key.None? || key.value == root ==> base.w.open == w0.open
      invariant key.Some? ==> key.value in base.w.open && base.w.open == w0.open[key.value := base.w.open[key.value]]
      invariant key.Some? && key.value != root ==> key.value !in w0.open
      invariant Visited(w0, visits, base.w, root, watched)
      invariant Ahead(visits, start, segs, depth, if key.Some? then Some(base.w.open[key.value]) else None, found)
      decreases if key.Some? then |segs| - depth + 1 else 0
    {
      ghost var wa := base.w;
      var s := Enabled(base, key.value, root, watched);
      ghost var wb, k := base.w, base.w.open[key.value];
      ghost var d, wasFound := depth, found;
      if s != Unset {
        found := s;
      }
      var next: Option<nat> := None;
      if depth < |segs| {
        next := Child(base, key.value, segs[depth], root, watched);
        depth := depth + 1;
      } else {
        HandlesWalk(wb, wb, root, watched);
      }
      ghost var wc := base.w;
      AheadStep(visits, start, segs, d, k, wasFound, Visit(wb, wc));
      HandlesWalk(wc, wc, root, watched);
      VisitedMore(w0, visits, wa, Visit(wb, wc), wc, root, watched);
      visits := visits + [Visit(wb, wc)];
      WalkedThen(w0, wa, wb, root, watched);
      WalkedThen(w0, wb, wc, root, watched);
      if key.value != root {
        ClosesWell(wc, key.value, root, watched);
        base.Close(key.value);
        WalkedThen(w0, wc, base.w, root, watched);
        VisitedLater(w0, visits, wc, base.w, root, watched);
      }
      key := next;
    }
    AheadEnd(visits, start, segs, depth, found);
    if Still(w0, base.w, root, watched) {
      VisitsInCalm(w0, visits, base.w, root, watched, segs);
    }
  }

  lemma NothingVisited(w: World, root: nat, watched: bool)
    ensures Visited(w, [], w, root, watched)
  {
  }

  lemma AheadEnd(visits: seq<Visit>, start: nat, segs: Path, depth: nat, found: Setting)
    requires Ahead(visits, start, segs, depth, None, found)
    ensures ResolveOver(visits, start, segs) == Some(found)
  {
  }

  lemma ArmedAreOpen(w: World)
    requires Inv(w)
    ensures forall fd :: fd in w.armed.Keys ==> fd in w.open
  {
  }

  /** Releasing a handle that has no watch. */
  lemma ClosesWell(w: World, fd: nat, root: nat, watched: bool)
    requires Inv(w) && fd !in w.armed && (watched ==> Watching(w, root, EVENTS_PATH))
    ensures Inv(WithoutHandle(w, fd)) && Walked(w, WithoutHandle(w, fd), root, watched)
    ensures WithoutHandle(w, fd).armed == w.armed
  {
    assert w.armed - {fd} == w.armed;
    HandlesWalk(w, WithoutHandle(w, fd), root, watched);
  }

  /** An armed watch with nothing to tell. */
  ghost predicate Calm(w: World, fd: nat) {
    fd in w.armed && w.armed[fd].queue == []
  }

  lemma CalmBefore(w: World, v: World, root: nat)
    requires Walked(w, v, root, true) && Calm(v, root)
    ensures Calm(w, root) && SameBelow(w.tree, v.tree, w.armed[root].key)
    ensures root in w.open && w.open[root] == w.armed[root].key
  {
    hide Lookup, SameBelow;
  }

  /** No commit can have touched what lies below the root since `w`: none was made, or the watch says so. */
  ghost predicate Still(w: World, v: World, root: nat, watched: bool) {
    v.commits == w.commits || (watched && Calm(v, root))
  }

  lemma StillMeans(w: World, v: World, root: nat, watched: bool)
    requires Walked(w, v, root, watched) && Still(w, v, root, watched) && root in w.open
    ensures SameBelow(w.tree, v.tree, w.open[root])
  {
    hide Lookup, SameBelow, Watching, Undisturbed;
    if v.commits == w.commits {
      SameBelowSelf(w.tree, w.open[root]);
    } else {
      CalmBefore(w, v, root);
    }
  }

  lemma StillBefore(w0: World, w: World, v: World, root: nat, watched: bool)
    requires Walked(w0, w, root, watched) && Walked(w, v, root, watched) && Still(w0, v, root, watched)
    ensures Still(w0, w, root, watched)
  {
    hide Lookup, SameBelow, Watching, Undisturbed;
    if v.commits != w0.commits {
      CalmBefore(w, v, root);
    }
  }

  // --- draining --------------------------------------------------------

  /** The watch a policy relies on: on Events and all below it, or on the children of an ancestor. */
  ghost predicate Heeds(w: World, fd: nat, path: Path, deep: bool)
    ensures Heeds(w, fd, path, deep) ==> fd in w.armed
  {
    if deep then Watching(w, fd, path) else Waiting(w, fd, path)
  }

  /** The child an ancestor is watched for. */
  function Awaited(path: Path): Name {
    if path == GENERIC_PATH then EVENTS else GENERIC
  }

  /** Such a watch still holds, and an empty queue still proves that nothing it is for has happened. */
  ghost predicate Heeded(w: World, v: World, fd: nat, path: Path, deep: bool)
    ensures Heeded(w, v, fd, path, deep) ==> Heeds(w, fd, path, deep) && Heeds(v, fd, path, deep)
  {
    && Heeds(w, fd, path, deep) && Heeds(v, fd, path, deep) && v.armed[fd].key == w.armed[fd].key
    && if deep then Quiet(w, v, fd, path) else QuietChildren(w, v, fd, path, Awaited(path))
  }

  lemma HeededThen(a: World, b: World, c: World, fd: nat, path: Path, deep: bool)
    requires Heeded(a, b, fd, path, deep) && Heeded(b, c, fd, path, deep)
    ensures Heeded(a, c, fd, path, deep)
  {
    hide Lookup, SameBelow, ChildOf;
    if deep {
      UndisturbedThen(a, b, c, fd, path);
    }
  }

  lemma TickHeeded(w: World, fd: nat, path: Path, deep: bool)
    requires Inv(w) && Heeds(w, fd, path, deep)
    ensures Heeded(w, Tick(w).0, fd, path, deep)
  {
    hide Tick, Lookup, SameBelow, ChildOf;
    TickKeepsKey(w, fd);
    if deep {
      TickKeepsWatching(w, fd, path);
    } else {
      TickKeepsWaiting(w, fd, path, Awaited(path));
    }
  }

  /** Other handles may come and go. */
  lemma HandlesHeeded(w: World, v: World, fd: nat, path: Path, deep: bool)
    requires Heeds(w, fd, path, deep) && v.tree == w.tree && fd in v.armed && v.armed[fd] == w.armed[fd]
    ensures Heeded(w, v, fd, path, deep)
  {
    hide Lookup;
    SameBelowSelf(w.tree, w.armed[fd].key);
  }

  /** Records taken off the front: either they told of the deletion, or what is left still would. */
  lemma TakenRecords(queue: seq<Record>, k: nat)
    requires 1 <= k <= |queue| && AllEncodable(queue)
    ensures NewsOf(EncodeAll(queue[..k])) == News(true, AnyDeletion(queue[..k]))
    ensures AnyDeletion(queue) ==> AnyDeletion(queue[..k]) || AnyDeletion(queue[k..])
  {
    hide Encodable, IsDeletion, EncodeAll, NewsOf, Frame, Events, EventsOf;
    ParsersAgree(queue[..k]);
    if AnyDeletion(queue) {
      var i :| 0 <= i < |queue| && IsDeletion(queue[i]);
      if i < k {
        assert queue[..k][i] == queue[i];
      } else {
        assert queue[k..][i - k] == queue[i];
      }
    }
  }

  lemma QueueIsEncodable(w: World, fd: nat)
    requires Inv(w) && fd in w.armed
    ensures AllEncodable(w.armed[fd].queue)
  {
  }

  /** The world after a read that took records. */
  function Drained(w: World, fd: nat, queue: seq<Record>): World
    requires fd in w.armed
  {
    w.(armed := w.armed[fd := w.armed[fd].(queue := queue)])
  }

  lemma DrainedHeeds(w: World, fd: nat, path: Path, deep: bool, k: nat)
    requires Inv(w) && Heeds(w, fd, path, deep) && 1 <= k <= |w.armed[fd].queue|
    requires !AnyDeletion(w.armed[fd].queue[..k])
    ensures Heeds(Drained(w, fd, w.armed[fd].queue[k..]), fd, path, deep)
  {
    hide Lookup, AnyDeletion;
    QueueIsEncodable(w, fd);
    TakenRecords(w.armed[fd].queue, k);
  }

  lemma DrainedAfter(w: World, fd: nat, queue: seq<Record>)
    requires fd in w.armed && Inv(w) && Inv(Drained(w, fd, queue))
    ensures After(w, Drained(w, fd, queue)) && Drained(w, fd, queue).armed.Keys == w.armed.Keys
  {
    hide Inv, Aged;
    AgedItself(w.tree);
  }

  /**
   drain, on the watched descriptor: read until nothing is waiting. Unless the watch turns out to be lost,
   at the end its queue is empty; and if nothing was read, nothing it is for has happened since the start.
   */
  method Drain(base: Kernel, fd: nat, ghost path: Path, ghost deep: bool) returns (n: News)
    requires Inv(base.w) && Heeds(base.w, fd, path, deep)
    modifies base
    ensures After(old(base.w), base.w) && base.w.open == old(base.w.open) && base.w.armed.Keys == old(base.w.armed.Keys)
    ensures !n.gone ==> Heeds(base.w, fd, path, deep) && Calm(base.w, fd)
    ensures !n.gone && !n.changed ==> Heeded(old(base.w), base.w, fd, path, deep)
  {
    hide Inv, Tick, After, Heeds, Heeded, NewsOf, AnyDeletion;
    n := News(false, false);
    ghost var w0 := base.w;
    AfterItself(w0);
    HandlesHeeded(w0, w0, fd, path, deep);
    while true
      invariant After(w0, base.w) && base.w.open == w0.open && base.w.armed.Keys == w0.armed.Keys && !n.gone
      invariant Heeds(base.w, fd, path, deep)
      invariant !n.changed ==> Heeded(w0, base.w, fd, path, deep)
      decreases |base.w.future|, |base.w.armed[fd].queue|
    {
      ghost var wa := base.w;
      TickAfter(wa);
      TickShrinks(wa);
      TickHeeded(wa, fd, path, deep);
      ghost var wb := Tick(wa).0;
      AfterThen(w0, wa, wb);
      if !n.changed {
        HeededThen(w0, wa, wb, fd, path, deep);
      }
      var r := base.Read(fd);
      match r {
        case Bytes(b) =>
          ghost var k := |wb.armed[fd].queue| - |base.w.armed[fd].queue|;
          QueueIsEncodable(wb, fd);
          TakenRecords(wb.armed[fd].queue, k);
          DrainedAfter(wb, fd, wb.armed[fd].queue[k..]);
          AfterThen(w0, wb, base.w);
          var got := ClassifyRecords(b);
          n := News(n.changed || got.changed, n.gone || got.gone);
          if n.gone {
            return;
          }
          DrainedHeeds(wb, fd, path, deep, k);
        case Interrupted =>
        case Again => return;
        case Failed =>
          n := News(true, true);
          return;
      }
    }
  }

  lemma AfterItself(w: World)
    requires Inv(w)
    ensures After(w, w)
  {
    AgedItself(w.tree);
  }

  /** Every call uses up one burst of the future, while there is one. */
  lemma TickShrinks(w: World)
    requires Inv(w)
    ensures w.future != [] ==> |Tick(w).0.future| < |w.future|
    ensures w.future == [] ==> Tick(w) == (w, Fits(1))
  {
    hide Inv, Tick;
    TickElapses(w);
  }
}
