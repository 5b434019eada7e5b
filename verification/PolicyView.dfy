/** The policy object: establish, refresh, setting and Enabled (event/policy.go). */
module PolicyView {
  import opened Wrappers
  import opened Bytes
  import opened Watch
  import opened Registry
  import opened Policy
  import opened PolicyCache

  type Cache = map<seq<byte>, Setting>

  /** Every cached setting is what a walk from the Events key would find. */
  ghost predicate Agrees(t: Tree, k: nat, cache: Cache) {
    EventsKey(t) == Some(k)
    && forall ty :: ty in cache ==> Segments(ty).Some? && cache[ty] == Resolve(t, k, Segments(ty).value)
  }

  /**
   What a watch on the children of `path` can tell of: of Events coming and going under Generic, or of Generic
   under Machine. It is `blind` if Machine is watched while Generic exists: nothing under Generic will be told.
   */
  ghost predicate Blindness(t: Tree, path: Path, blind: bool) {
    || (path == GENERIC_PATH && !blind)
    || (path == MACHINE_PATH && (blind <==> Lookup(t, 0, GENERIC_PATH).Some?))
  }

  /** Why there is nothing to resolve: there is no Events to open in Generic, or, unless blind, no Generic. */
  ghost predicate NothingThere(t: Tree, path: Path, blind: bool) {
    Blindness(t, path, blind) && (path == GENERIC_PATH ==> EventsKey(t) == None)
  }

  function Held(root: Option<nat>, ancestor: Option<nat>): set<nat> {
    (if root.Some? then {root.value} else {}) + (if ancestor.Some? then {ancestor.value} else {})
  }

  /** What holds between calls, whatever other programs commit. */
  ghost predicate Sound(w: World, root: Option<nat>, rootWatched: bool, ancestor: Option<nat>, path: Path, blind: bool,
                        cache: Cache)
    ensures Sound(w, root, rootWatched, ancestor, path, blind, cache) ==>
              && Inv(w) && w.open.Keys == Held(root, ancestor) && |cache| <= CACHE_MAX
              && (root.None? ==> cache == map[] && !rootWatched) && (root.None? || ancestor.None?)
              && (rootWatched ==> Heeds(w, root.value, EVENTS_PATH, true))
              && (ancestor.Some? ==> Heeds(w, ancestor.value, path, false))
  {
    && Inv(w) && w.open.Keys == Held(root, ancestor) && |cache| <= CACHE_MAX
    && (root.None? ==> cache == map[] && !rootWatched) && (root.None? || ancestor.None?)
    && (rootWatched ==>
          && Heeds(w, root.value, EVENTS_PATH, true) && root.value in w.open
          && (Calm(w, root.value) ==> Agrees(w.tree, w.open[root.value], cache)))
    && (ancestor.Some? ==>
          && Heeds(w, ancestor.value, path, false)
          && (Calm(w, ancestor.value) ==> NothingThere(w.tree, path, blind)))
  }

  /** The key a root handle is open on. */
  function KeyOf(root: Option<nat>, w: World): Option<nat> {
    if root.Some? && root.value in w.open then Some(w.open[root.value]) else None
  }

  /** Reads all made since the clock said `since`. */
  ghost predicate ReadSince(visits: seq<Visit>, since: nat, w: World) {
    forall i :: 0 <= i < |visits| ==>
      since <= visits[i].value.clock && After(visits[i].value, visits[i].child) && After(visits[i].child, w)
  }

  /** A setting is what reads since then found, from key `k` on. */
  ghost predicate Backed(ty: seq<byte>, s: Setting, k: Option<nat>, visits: seq<Visit>, since: nat, w: World) {
    && ReadSince(visits, since, w) && k.Some? && Segments(ty).Some?
    && ResolveOver(visits, k.value, Segments(ty).value) == Some(s)
  }

  /**
   When what a policy goes by was read: it began to look for Events at `soughtAt`, saw whether Events could be
   opened at `seen`, sampled the clock at `sampledAt`, and found the cached settings by `visits`.
   */
  datatype Dating = Dating(soughtAt: nat, sampledAt: nat, seen: World, visits: map<seq<byte>, seq<Visit>>)

  /**
   With nothing watched, `retryAt` is a TTL after the clock was sampled; the root is what Events was at a moment
   of the look before, or missing if it could not be opened then; and every cached setting was read since.
   */
  ghost predicate Timed(unwatched: bool, retryAt: nat, root: Option<nat>, w: World, cache: Cache, d: Dating) {
    unwatched ==>
      && retryAt == d.sampledAt + TTL && d.soughtAt <= d.seen.clock <= d.sampledAt <= w.clock
      && EventsKey(d.seen.tree) == KeyOf(root, w) && After(d.seen, w)
      && AllBacked(cache, KeyOf(root, w), d, w)
  }

  ghost predicate AllBacked(cache: Cache, k: Option<nat>, d: Dating, w: World) {
    forall ty :: ty in cache ==> ty in d.visits && Backed(ty, cache[ty], k, d.visits[ty], d.sampledAt, w)
  }

  lemma ReadBefore(visits: seq<Visit>, since: nat, w: World, v: World)
    requires ReadSince(visits, since, w) && After(w, v)
    ensures ReadSince(visits, since, v)
  {
    hide After;
    forall i | 0 <= i < |visits|
      ensures After(visits[i].child, v)
    {
      AfterThen(visits[i].child, w, v);
    }
  }

  lemma BackedLater(cache: Cache, k: Option<nat>, d: Dating, w: World, v: World)
    requires AllBacked(cache, k, d, w) && After(w, v)
    ensures AllBacked(cache, k, d, v)
  {
    hide After, ReadSince, ResolveOver, Segments;
    forall ty | ty in cache
      ensures Backed(ty, cache[ty], k, d.visits[ty], d.sampledAt, v)
    {
      ReadBefore(d.visits[ty], d.sampledAt, w, v);
    }
  }

  lemma TimedLater(unwatched: bool, retryAt: nat, root: Option<nat>, w: World, v: World, cache: Cache, d: Dating)
    requires Timed(unwatched, retryAt, root, w, cache, d) && After(w, v) && v.open == w.open
    ensures Timed(unwatched, retryAt, root, v, cache, d)
  {
    hide AllBacked, EventsKey, After;
    if unwatched {
      AfterThen(d.seen, w, v);
      ClockGrows(w, v);
      BackedLater(cache, KeyOf(root, w), d, w, v);
    }
  }

  // --- why it keeps holding --------------------------------------------

  lemma AgreesSame(t: Tree, u: Tree, k: nat, cache: Cache)
    requires Agrees(t, k, cache) && SameBelow(t, u, k) && Lookup(u, 0, EVENTS_PATH) == Lookup(t, 0, EVENTS_PATH)
    ensures Agrees(u, k, cache)
  {
    hide Resolve, Segments;
    assert Node(t, k, []) == Node(u, k, []);
    forall ty | ty in cache
      ensures Segments(ty).Some? && cache[ty] == Resolve(u, k, Segments(ty).value)
    {
      ResolveSame(t, u, k, Segments(ty).value);
    }
  }

  lemma BlindnessSame(t: Tree, u: Tree, path: Path, blind: bool)
    requires Blindness(t, path, blind) && ChildOf(u, path, Awaited(path)) == ChildOf(t, path, Awaited(path))
    ensures Blindness(u, path, blind)
  {
    assert MACHINE_PATH + [GENERIC] == GENERIC_PATH;
  }

  lemma NothingSame(t: Tree, u: Tree, path: Path, blind: bool)
    requires NothingThere(t, path, blind) && ChildOf(u, path, Awaited(path)) == ChildOf(t, path, Awaited(path))
    ensures NothingThere(u, path, blind)
  {
    BlindnessSame(t, u, path, blind);
    assert GENERIC_PATH + [EVENTS] == EVENTS_PATH;
  }

  /** The coherence theorem: time passing, with any commits at all, keeps the state sound. */
  lemma SoundLater(w: World, v: World, root: Option<nat>, rootWatched: bool, ancestor: Option<nat>, path: Path, blind: bool,
                   cache: Cache)
    requires Sound(w, root, rootWatched, ancestor, path, blind, cache) && Inv(v) && v.open == w.open
    requires rootWatched ==> Heeded(w, v, root.value, EVENTS_PATH, true)
    requires ancestor.Some? ==> Heeded(w, v, ancestor.value, path, false)
    ensures Sound(v, root, rootWatched, ancestor, path, blind, cache)
  {
    hide Inv, Resolve, Segments, SameBelow, Lookup, Agrees, NothingThere, ChildOf;
    if rootWatched && Calm(v, root.value) {
      KeyOfWatch(w, root.value);
      AgreesSame(w.tree, v.tree, w.open[root.value], cache);
    }
    if ancestor.Some? && Calm(v, ancestor.value) {
      NothingSame(w.tree, v.tree, path, blind);
    }
  }

  lemma KeyOfWatch(w: World, fd: nat)
    requires Inv(w) && fd in w.armed
    ensures fd in w.open && w.open[fd] == w.armed[fd].key
  {
  }

  // --- exits of establish ----------------------------------------------

  /** An ancestor just armed: nothing waits. */
  ghost predicate JustArmed(w: World, fd: nat, path: Path, blind: bool)
    ensures JustArmed(w, fd, path, blind) ==> Heeds(w, fd, path, false)
  {
    Heeds(w, fd, path, false) && Calm(w, fd) && Blindness(w.tree, path, blind)
  }

  /** Which ancestor is to be armed: Generic if it can be opened, otherwise Machine if that can. */
  ghost predicate Nearest(t: Tree, ancestor: Option<nat>, path: Path, blind: bool) {
    && (ancestor.Some? <==> Openable(t, GENERIC_PATH).Some? || Openable(t, MACHINE_PATH).Some?)
    && (ancestor.Some? ==>
          Blindness(t, path, blind) && (path == GENERIC_PATH <==> Openable(t, GENERIC_PATH).Some?))
  }

  /** That one is armed, if no commit came between; and Generic is whenever it could be opened and outlived the call. */
  ghost predicate ArmedNearest(before: World, w: World, ancestor: Option<nat>, path: Path, blind: bool) {
    && (w.commits == before.commits ==> Nearest(w.tree, ancestor, path, blind))
    && (Lives(before.tree, w.tree, GENERIC_PATH) ==> ancestor.Some? && path == GENERIC_PATH && !blind)
  }

  /** The same of a whole look, which arms nothing when Events exists but cannot be opened. */
  ghost predicate Found(before: World, w: World, ancestor: Option<nat>, path: Path, blind: bool) {
    && (w.commits == before.commits ==>
          if Lookup(w.tree, 0, EVENTS_PATH).Some? then ancestor == None else Nearest(w.tree, ancestor, path, blind))
    && (ancestor.Some? && Lives(before.tree, w.tree, GENERIC_PATH) ==> path == GENERIC_PATH && !blind)
  }

  lemma FoundFrom(before: World, m: World, v: World, ancestor: Option<nat>, path: Path, blind: bool)
    requires After(before, m) && After(m, v) && ArmedNearest(m, v, ancestor, path, blind)
    requires Lookup(m.tree, 0, EVENTS_PATH) == None
    ensures Found(before, v, ancestor, path, blind)
  {
    hide Lookup, Aged, Nearest;
    if Lives(before.tree, v.tree, GENERIC_PATH) {
      LivesBetween(before.tree, m.tree, v.tree, GENERIC_PATH);
    }
  }

  lemma FoundLater(before: World, m: World, v: World, ancestor: Option<nat>, path: Path, blind: bool)
    requires After(before, m) && After(m, v) && Found(before, m, ancestor, path, blind)
    ensures Found(before, v, ancestor, path, blind)
  {
    hide Lookup, Aged, Nearest;
    if Lives(before.tree, v.tree, GENERIC_PATH) {
      LivesBetween(before.tree, m.tree, v.tree, GENERIC_PATH);
    }
  }

  lemma ArmedWaits(w: World, fd: nat, path: Path, deep: bool)
    requires Inv(w) && fd in w.open && w.open[fd] in w.tree.keys && Placed(w.tree, w.open[fd], path)
    ensures var v := w.(armed := w.armed[fd := Armed(w.open[fd], deep, deep, [])]);
            Heeds(v, fd, path, deep) && Calm(v, fd) && w.open[fd] !in w.tree.sealed && Lookup(v.tree, 0, path) == Some(w.open[fd])
  {
    hide Lookup;
  }

  lemma OpenedIsPlaced(w: World, k: nat, path: Path)
    requires Inv(w) && Lookup(w.tree, 0, path) == Some(k) && k !in w.tree.sealed
    ensures Placed(w.tree, k, path)
  {
    LookupIsLive(w.tree, 0, path);
    hide Lookup;
  }

  /** The second look failed: the ancestor is relied on from now on. */
  lemma AncestorIsSound(w: World, v: World, fd: nat, path: Path, blind: bool)
    requires JustArmed(w, fd, path, blind) && Heeded(w, v, fd, path, false) && Inv(v)
    requires v.open.Keys == {fd} && EventsKey(v.tree) == None
    ensures Sound(v, None, false, Some(fd), path, blind, map[])
  {
    hide Inv, Lookup, Waiting, Blindness, ChildOf, EventsKey;
    if Calm(v, fd) {
      BlindnessSame(w.tree, v.tree, path, blind);
    }
  }

  lemma RootIsSound(w: World, fd: nat, watched: bool)
    requires Inv(w) && w.open.Keys == {fd}
    requires watched ==> Heeds(w, fd, EVENTS_PATH, true) && EventsKey(w.tree) == Some(w.open[fd])
    ensures Sound(w, Some(fd), watched, None, [], false, map[])
  {
    hide Inv, Lookup, Watching;
  }

  /** Between passes: an ancestor held is one just armed. */
  ghost predicate Looking(before: World, w: World, ancestor: Option<nat>, path: Path, blind: bool) {
    && After(before, w) && w.open.Keys == Held(None, ancestor)
    && (ancestor.Some? ==> JustArmed(w, ancestor.value, path, blind) && Found(before, w, ancestor, path, blind))
  }

  /** What the passes leave behind, having started in `before`: the root is what Events was when `seen`. */
  ghost predicate Settled(before: World, w: World, root: Option<nat>, rootWatched: bool, ancestor: Option<nat>, path: Path,
                          blind: bool, seen: World)
  {
    && After(before, w) && Sound(w, root, rootWatched, ancestor, path, blind, map[])
    && (rootWatched ==> root.Some? && root.value in w.open && EventsKey(w.tree) == Some(w.open[root.value]))
    && EventsKey(seen.tree) == KeyOf(root, w) && After(before, seen) && After(seen, w)
    && (root == None ==> Found(before, w, ancestor, path, blind) && (ancestor.Some? ==> EventsKey(w.tree) == None))
    && (w.commits == before.commits && root.Some? ==> rootWatched)
  }

  // --- the object ------------------------------------------------------

  /** A policy over the calls of `base`, whose only client it is. Ghost fields date its reads. */
  class EventPolicy {
    const base: Kernel
    var root: Option<nat>
    var rootWatched: bool
    var ancestor: Option<nat>
    var retryAt: nat
    var cache: Cache
    var closed: bool
    ghost var path: Path
    ghost var blind: bool
    ghost var dating: Dating

    constructor (base: Kernel)
      ensures this.base == base && root == None && !rootWatched && ancestor == None && cache == map[] && !closed
    {
      this.base := base;
      root, rootWatched, ancestor, retryAt, cache, closed := None, false, None, 0, map[], false;
      path, blind, dating := [], false, Dating(0, 0, base.w, map[]);
    }

    predicate Unwatched()
      reads this
    {
      !rootWatched && ancestor.None?
    }

    /** Nothing is watched, and it is time to look again. */
    predicate Expired()
      reads this, base
    {
      Unwatched() && !closed && retryAt <= base.w.clock
    }

    /** Nothing is watched still, and what was found is relied on as before. */
    predicate Kept(root: Option<nat>, cache: Cache, retryAt: nat)
      reads this
    {
      Unwatched() && this.root == root && this.cache == cache && this.retryAt == retryAt
    }

    /** Something is watched that would tell of any change that matters. */
    ghost predicate Watched()
      reads this
    {
      rootWatched || (ancestor.Some? && !blind)
    }

    ghost predicate Valid()
      reads this, base
    {
      && Sound(base.w, root, rootWatched, ancestor, path, blind, cache)
      && (closed ==> root.None? && ancestor.None?)
      && Timed(Unwatched() && !closed, retryAt, root, base.w, cache, dating)
    }

    /** What the policy relies on is how things are at this moment. */
    ghost predicate Current()
      reads this, base
    {
      && (rootWatched ==>
            root.Some? && root.value in base.w.open && Agrees(base.w.tree, base.w.open[root.value], cache))
      && (ancestor.Some? && !blind ==> EventsKey(base.w.tree) == None)
    }

    method Teardown()
      requires Inv(base.w) && base.w.open.Keys == Held(root, ancestor)
      modifies this, base
      ensures root == None && !rootWatched && ancestor == None && cache == map[] && closed == old(closed)
      ensures After(old(base.w), base.w) && base.w.open.Keys == {} && base.w.tree == old(base.w.tree)
      ensures base.w.commits == old(base.w.commits)
    {
      ghost var w0 := base.w;
      if root.Some? {
        base.Close(root.value);
      }
      if ancestor.Some? {
        base.Close(ancestor.value);
      }
      root, ancestor, rootWatched := None, None, false;
      cache := map[];
      ClosedAfter(w0, base.w);
    }

    /** Opening and arming one ancestor. */
    method TryArm(at: Path) returns (fd: Option<nat>)
      requires Inv(base.w) && base.w.open.Keys == {}
      modifies base
      ensures After(old(base.w), base.w) && base.w.open.Keys == Held(None, fd)
      ensures fd.Some? ==> Heeds(base.w, fd.value, at, false) && Calm(base.w, fd.value)
      ensures Lives(old(base.w.tree), base.w.tree, at) ==> fd.Some?
      ensures base.w.commits == old(base.w.commits) ==> (fd.Some? <==> Openable(base.w.tree, at).Some?)
    {
      hide Inv, Tick, Lookup, After, Heeds, Placed, Aged;
      ghost var wa := base.w;
      TickAfter(wa);
      var r := base.Open(at);
      ghost var wb := base.w;
      OpenAfter(wa, wb);
      fd := None;
      if r.Opened? {
        OpenedIsPlaced(wb, wb.open[r.fd], at);
        TickAfter(wb);
        ghost var wc := Tick(wb).0;
        AgedKeepsPlaced(wb, wc, wb.open[r.fd], at);
        var ok := base.Arm(r.fd, false, false);
        if ok {
          ArmedWaits(wc, r.fd, at, false);
          ArmedAfter(wc, base.w);
          fd := Some(r.fd);
        } else {
          base.Close(r.fd);
          ClosedAfter(wc, base.w);
          assert base.w.open.Keys == {};
        }
        SameThrough(wb, wc, base.w);
      } else {
        AfterItself(wb);
      }
      SameThrough(wa, wb, base.w);
      TriedToArm(wa, wb, base.w, at, if r.Opened? then Some(wb.open[r.fd]) else None, fd);
    }

    /** The nearest ancestor that can be opened and armed. */
    method WatchAncestor()
      requires Inv(base.w) && base.w.open.Keys == {} && root == None && ancestor == None && !rootWatched && cache == map[]
      modifies this`ancestor, this`path, this`blind, base
      ensures After(old(base.w), base.w) && base.w.open.Keys == Held(None, ancestor)
      ensures ancestor.Some? ==> JustArmed(base.w, ancestor.value, path, blind)
      ensures ArmedNearest(old(base.w), base.w, ancestor, path, blind)
    {
      hide Inv, Tick, Lookup, After, Heeds, Calm, Openable, Lives;
      ghost var w0 := base.w;
      AfterItself(w0);
      var paths := [GENERIC_PATH, MACHINE_PATH];
      assert GENERIC_PATH != MACHINE_PATH;
      for i := 0 to 2
        invariant After(w0, base.w) && base.w.open.Keys == {} && ancestor == None
        invariant i > 0 ==> !Lives(w0.tree, base.w.tree, GENERIC_PATH)
        invariant base.w.commits == w0.commits && i > 0 ==> Openable(base.w.tree, GENERIC_PATH) == None
        invariant base.w.commits == w0.commits && i > 1 ==> Openable(base.w.tree, MACHINE_PATH) == None
      {
        ghost var wa := base.w;
        var fd := TryArm(paths[i]);
        SameThrough(w0, wa, base.w);
        LivesThrough(w0, wa, base.w, GENERIC_PATH);
        if fd.Some? {
          ancestor, path := fd, paths[i];
          blind := path == MACHINE_PATH && Lookup(base.w.tree, 0, GENERIC_PATH).Some?;
          return;
        }
      }
    }

    /**
     Events, just opened, is the root; it is watched unless it was deleted before it could be armed. An
     ancestor armed on the way is let go.
     */
    method TakeRoot(fd: nat)
      requires Inv(base.w) && root == None && !rootWatched && cache == map[] && fd in base.w.open
      requires base.w.open.Keys == {fd} + Held(None, ancestor) && ancestor != Some(fd)
      requires EventsKey(base.w.tree) == Some(base.w.open[fd])
      modifies this`root, this`rootWatched, this`ancestor, base
      ensures After(old(base.w), base.w) && root == Some(fd) && ancestor == None
      ensures fd in base.w.open && base.w.open[fd] == old(base.w.open[fd])
      ensures Sound(base.w, root, rootWatched, None, [], false, map[])
      ensures rootWatched ==> EventsKey(base.w.tree) == Some(base.w.open[fd])
      ensures base.w.commits == old(base.w.commits) ==> rootWatched
    {
      hide Inv, Tick, Lookup, After, Heeds, Sound, EventsKey;
      ghost var w0 := base.w;
      if ancestor.Some? {
        base.Close(ancestor.value);
        ancestor := None;
      }
      ClosedAfter(w0, base.w);
      root := Some(fd);
      ghost var wa := base.w;
      ArmRoot(fd);
      AfterThen(w0, wa, base.w);
    }

    /** Arming the root's watch. */
    method ArmRoot(fd: nat)
      requires Inv(base.w) && !rootWatched && base.w.open.Keys == {fd} && EventsKey(base.w.tree) == Some(base.w.open[fd])
      modifies this`rootWatched, base
      ensures After(old(base.w), base.w) && Sound(base.w, Some(fd), rootWatched, None, [], false, map[])
      ensures fd in base.w.open && base.w.open[fd] == old(base.w.open[fd])
      ensures rootWatched ==> EventsKey(base.w.tree) == Some(base.w.open[fd])
      ensures base.w.commits == old(base.w.commits) ==> rootWatched
    {
      hide Inv, Tick, Lookup, After, Heeds, Placed, Sound, EventsKey;
      ghost var wa := base.w;
      ghost var k := wa.open[fd];
      EventsKeyIsPlaced(wa);
      TickAfter(wa);
      ghost var wb := Tick(wa).0;
      AgedKeepsPlaced(wa, wb, k, EVENTS_PATH);
      rootWatched := base.Arm(fd, true, true);
      if rootWatched {
        ArmedWaits(wb, fd, EVENTS_PATH, true);
        PlacedIsEvents(wb.tree, k);
        ArmedAfter(wb, base.w);
        AfterThen(wa, wb, base.w);
      } else if base.w.commits == wa.commits {
        SameTree(wa, wb);
        assert false;
      }
      RootIsSound(base.w, fd, rootWatched);
    }

    /** One pass: take Events if it can be had; if it is missing and nothing is armed yet, arm an ancestor and look again. */
    method Pass(ghost before: World) returns (done: bool)
      requires Looking(before, base.w, ancestor, path, blind) && root == None && !rootWatched && cache == map[]
      modifies this`root, this`rootWatched, this`ancestor, this`path, this`blind, this`dating, base
      ensures done ==> Settled(before, base.w, root, rootWatched, ancestor, path, blind, dating.seen)
      ensures !done ==> Looking(before, base.w, ancestor, path, blind) && root == None && !rootWatched
      ensures !done ==> old(ancestor) == None && ancestor.Some?
    {
      hide Inv, Tick, Lookup, After, Heeds, Sound, EventsKey, JustArmed, Heeded, Found, Settled;
      ghost var wa := base.w;
      var found, fd := SeeEvents(path);
      SameThrough(before, wa, base.w);
      dating := dating.(seen := base.w);
      if fd.Some? {
        Accept(fd.value, before);
        return true;
      }
      if found || ancestor.Some? {
        SettlesDown(before, wa, base.w, ancestor, path, blind);
        return true;
      }
      done := FallBack(before);
    }

    method Accept(fd: nat, ghost before: World)
      requires After(before, base.w) && root == None && !rootWatched && cache == map[] && fd in base.w.open
      requires base.w.open.Keys == {fd} + Held(None, ancestor) && ancestor != Some(fd)
      requires EventsKey(base.w.tree) == Some(base.w.open[fd]) && dating.seen == base.w
      modifies this`root, this`rootWatched, this`ancestor, this`path, this`blind, base
      ensures Settled(before, base.w, root, rootWatched, ancestor, path, blind, dating.seen)
    {
      hide Inv, Tick, Lookup, After, Heeds, Sound, EventsKey, Found;
      ghost var w := base.w;
      TakeRoot(fd);
      SameThrough(before, w, base.w);
      path, blind := [], false;
    }

    method FallBack(ghost before: World) returns (done: bool)
      requires After(before, base.w) && base.w.open.Keys == {} && Lookup(base.w.tree, 0, EVENTS_PATH) == None
      requires dating.seen == base.w
      requires root == None && ancestor == None && !rootWatched && cache == map[]
      modifies this`ancestor, this`path, this`blind, base
      ensures done ==> Settled(before, base.w, root, rootWatched, ancestor, path, blind, dating.seen)
      ensures !done ==> Looking(before, base.w, ancestor, path, blind) && ancestor.Some?
    {
      hide Inv, Tick, Lookup, After, Heeds, Sound, JustArmed, Found, ArmedNearest;
      ghost var w := base.w;
      WatchAncestor();
      SameThrough(before, w, base.w);
      FoundFrom(before, w, base.w, ancestor, path, blind);
      done := ancestor.None?;
      if done {
        NothingIsSound(base.w, path, blind);
      }
    }

    /**
     The passes of establish: at most two looks at Events, the second in case it appeared while an ancestor
     was being armed. A third is never needed.
     */
    method Look()
      requires Inv(base.w) && base.w.open.Keys == {}
      requires root == None && ancestor == None && !rootWatched && cache == map[]
      modifies this`root, this`rootWatched, this`ancestor, this`path, this`blind, this`dating, base
      ensures Settled(old(base.w), base.w, root, rootWatched, ancestor, path, blind, dating.seen)
    {
      hide Inv, Tick, Lookup, After, Heeds, Sound, EventsKey, JustArmed, Heeded, Found;
      ghost var w0 := base.w;
      AfterItself(w0);
      for pass := 0 to 2
        invariant pass < 2 && Looking(w0, base.w, ancestor, path, blind)
        invariant root == None && !rootWatched && (pass == 0 <==> ancestor == None)
      {
        var done := Pass(w0);
        if done {
          break;
        }
      }
    }

    /** Opening Events: whether the key is there, and the handle if it can be had. */
    method SeeEvents(ghost watchedPath: Path) returns (found: bool, fd: Option<nat>)
      requires Inv(base.w) && base.w.open.Keys == Held(root, ancestor)
      requires ancestor.Some? ==> Heeds(base.w, ancestor.value, watchedPath, false)
      modifies base
      ensures After(old(base.w), base.w) && (found <==> Lookup(base.w.tree, 0, EVENTS_PATH).Some?)
      ensures fd.None? ==> base.w.open == old(base.w.open) && EventsKey(base.w.tree) == None
      ensures fd.Some? ==> fd.value !in old(base.w.open) && base.w.open.Keys == old(base.w.open).Keys + {fd.value}
      ensures fd.Some? ==> EventsKey(base.w.tree) == Some(base.w.open[fd.value])
      ensures ancestor.Some? ==> Heeded(old(base.w), base.w, ancestor.value, watchedPath, false)
    {
      hide Inv, Tick, Lookup, After, Heeds, Heeded;
      ghost var w0 := base.w;
      TickAfter(w0);
      ghost var v := Tick(w0).0;
      if ancestor.Some? {
        TickHeeded(w0, ancestor.value, watchedPath, false);
      }
      FreshHandle(v);
      var r := base.Open(EVENTS_PATH);
      OpenAfter(w0, base.w);
      if ancestor.Some? {
        HandlesHeeded(v, base.w, ancestor.value, watchedPath, false);
        HeededThen(w0, v, base.w, ancestor.value, watchedPath, false);
      }
      found := !r.Missing?;
      fd := if r.Opened? then Some(r.fd) else None;
    }

    /**
     establish: open and watch what exists, leaving the cache empty. With no commit meanwhile, what is
     watched is Events if it can be opened, and otherwise, if it does not exist, its nearest ancestor.
     */
    method Establish()
      requires Inv(base.w) && base.w.open.Keys == Held(root, ancestor) && !closed
      modifies this, base
      ensures Valid() && Current() && After(old(base.w), base.w) && !closed && cache == map[]
      ensures root == None ==> Found(old(base.w), base.w, ancestor, path, blind)
      ensures base.w.commits == old(base.w.commits) && root == None ==> EventsKey(base.w.tree) == None
      ensures base.w.commits == old(base.w.commits) && root.Some? ==> rootWatched
      ensures dating.soughtAt == old(base.w.clock) && (Unwatched() ==> old(base.w.clock) <= dating.sampledAt)
    {
      hide Inv, Tick, Lookup, After, Heeds, Sound, EventsKey, Found, Settled, Agrees, Timed, Held;
      ghost var w0 := base.w;
      Teardown();
      ghost var wa := base.w;
      Look();
      dating := dating.(soughtAt := w0.clock);
      SettledSince(w0, wa, base.w, root, rootWatched, ancestor, path, blind, dating.seen);
      if !rootWatched && ancestor.None? {
        SampleClock(w0);
      } else {
        WatchedIsTimed(retryAt, root, base.w, cache, dating);
      }
      SettledMeans(w0, base.w, root, rootWatched, ancestor, path, blind, dating.seen);
    }

    /** drain, on whichever descriptor is watched. */
    method DrainWatched() returns (n: News)
      requires Valid() && !Unwatched()
      modifies base
      ensures After(old(base.w), base.w) && base.w.open.Keys == Held(root, ancestor)
      ensures !n.gone && rootWatched ==> Heeds(base.w, root.value, EVENTS_PATH, true) && Calm(base.w, root.value)
      ensures !n.gone && !n.changed ==>
                Valid() && Current() && (ancestor.Some? ==> Blindness(base.w.tree, path, blind))
    {
      hide Inv, Tick, Lookup, Heeds, Heeded, Agrees, Blindness, EventsKey, After, Calm;
      ghost var w0 := base.w;
      if rootWatched {
        n := Drain(base, root.value, EVENTS_PATH, true);
        if !n.gone && !n.changed {
          SoundLater(w0, base.w, root, rootWatched, ancestor, path, blind, cache);
        }
      } else {
        n := Drain(base, ancestor.value, path, false);
        if !n.gone && !n.changed {
          SoundLater(w0, base.w, root, rootWatched, ancestor, path, blind, cache);
          if !blind {
            NothingMeansNoEvents(base.w.tree, path, blind);
          }
        }
      }
    }

    /**
     refresh: bring the cache up to date before a decision. With no commit during the call, a policy that was
     watching, and not blind, when it began, or whose TTL had run out, now watches Events if it can be opened,
     or knows that it cannot; and whether it is blind is exact. With nothing watched, `checked` is the clock it
     read, and unless nothing was watched before and the TTL had not run out, it has looked again.
     */
    method Refresh() returns (ghost checked: nat)
      requires Valid()
      modifies this, base
      ensures Valid() && Current() && After(old(base.w), base.w) && closed == old(closed)
      ensures base.w.commits == old(base.w.commits) && old(Watched() || Expired()) ==>
                rootWatched || (root == None && EventsKey(base.w.tree) == None)
      ensures base.w.commits == old(base.w.commits) && ancestor.Some? ==> Blindness(base.w.tree, path, blind)
      ensures Unwatched() && !closed ==>
                old(base.w.clock) <= checked <= base.w.clock && dating.sampledAt <= checked < dating.sampledAt + TTL
      ensures Unwatched() && !closed && old(!Unwatched() || Expired()) ==> old(base.w.clock) <= dating.soughtAt
      ensures old(Unwatched()) && base.w.clock < old(retryAt) ==> Kept(old(root), old(cache), old(retryAt))
    {
      hide Inv, Tick, Lookup, Heeds, Heeded, Agrees, Blindness, EventsKey, After, Sound;
      ghost var w0 := base.w;
      checked := 0;
      if Unwatched() {
        if !closed {
          checked := RefreshUnwatched();
        } else {
          AfterItself(w0);
        }
        return;
      }
      var n := DrainWatched();
      ghost var wa := base.w;
      if n.gone || (n.changed && ancestor.Some?) {
        Establish();
        SameThrough(w0, wa, base.w);
        FoundIsExact(wa, base.w, ancestor, path, blind);
        ClockGrows(w0, wa);
        checked := dating.sampledAt;
      } else if n.changed {
        cache := map[];
        WatchedIsSound(base.w, root.value, path, blind);
      }
    }

    /** Nothing is watched: look again once the TTL has run out, and not before. */
    method RefreshUnwatched() returns (ghost checked: nat)
      requires Valid() && Unwatched() && !closed
      modifies this, base
      ensures Valid() && Current() && After(old(base.w), base.w) && !closed
      ensures base.w.commits == old(base.w.commits) && old(Expired()) ==>
                rootWatched || (root == None && EventsKey(base.w.tree) == None)
      ensures base.w.commits == old(base.w.commits) && ancestor.Some? ==> Blindness(base.w.tree, path, blind)
      ensures Unwatched() ==>
                old(base.w.clock) <= checked <= base.w.clock && dating.sampledAt <= checked < dating.sampledAt + TTL
      ensures Unwatched() && old(Expired()) ==> old(base.w.clock) <= dating.soughtAt
      ensures base.w.clock < old(retryAt) ==> Kept(old(root), old(cache), old(retryAt))
    {
      hide Inv, Tick, Lookup, Heeds, Heeded, Agrees, Blindness, EventsKey, After, Sound, Timed;
      ghost var w0 := base.w;
      TickAfter(w0);
      var now := base.Now();
      ghost var wa := base.w;
      SoundLater(w0, wa, root, rootWatched, ancestor, path, blind, cache);
      TimedLater(true, retryAt, root, w0, wa, cache, dating);
      TimedIf(true, retryAt, root, wa, cache, dating);
      checked := now;
      ClockGrows(w0, wa);
      if now >= retryAt {
        Establish();
        SameThrough(w0, wa, base.w);
        ClockGrows(wa, base.w);
        FoundIsExact(wa, base.w, ancestor, path, blind);
        checked := if Unwatched() then dating.sampledAt else now;
        TimedIf(Unwatched(), retryAt, root, base.w, cache, dating);
      }
    }

    /**
     With something watched that tells of every change: the answer is that of a fresh walk at a moment `mid`
     of the call, or what reads made since then found below the key that is Events at that moment.
     */
    ghost predicate InStep(eventType: seq<byte>, segs: Path, s: Policy.Setting, before: World, mid: World)
      reads this, base
    {
      && After(before, mid) && After(mid, base.w)
      && (s == Fresh(mid.tree, segs)
          || (EventsKey(mid.tree) == KeyOf(root, base.w) && eventType in dating.visits
              && Backed(eventType, s, KeyOf(root, base.w), dating.visits[eventType], mid.clock, base.w)))
    }

    lemma InStepSince(eventType: seq<byte>, segs: Path, s: Policy.Setting, before: World, mid: World)
      requires InStep(eventType, segs, s, mid, mid) && After(before, mid)
      ensures InStep(eventType, segs, s, before, mid)
    {
    }

    /**
     setting: the cached answer for a type, or a walk's, which is then cached. What a walk found is what its
     reads saw, whatever was committed between them; with no commit, it is what the tree says.
     */
    method Setting(eventType: seq<byte>, segs: Path) returns (s: Policy.Setting)
      requires Valid() && Segments(eventType) == Some(segs)
      modifies this`cache, this`dating, base
      ensures Valid() && After(old(base.w), base.w)
      ensures dating == old(dating).(visits := dating.visits) && base.w.open == old(base.w.open)
      ensures root.None? ==> s == Unset
      ensures root.Some? && eventType in old(cache) ==>
                s == old(cache)[eventType] && base.w == old(base.w) && cache == old(cache)
      ensures root.Some? && eventType !in old(cache) ==>
                && eventType in cache && cache[eventType] == s && eventType in dating.visits
                && Backed(eventType, s, KeyOf(root, base.w), dating.visits[eventType], old(base.w.clock), base.w)
      ensures root.Some? && eventType !in old(cache) && base.w.commits == old(base.w.commits) ==>
                root.value in base.w.open && s == Resolve(base.w.tree, base.w.open[root.value], segs)
      ensures Watched() && old(Current()) && base.w.commits == old(base.w.commits) ==> s == Fresh(base.w.tree, segs)
      ensures Watched() && old(Current()) ==> InStep(eventType, segs, s, old(base.w), old(base.w))
    {
      hide Inv, Tick, Lookup, Heeds, Heeded, EventsKey, After, Resolve, Segments, Walked, Watching, Fresh, Still;
      hide ResolveOver, ReadSince, Visited, Timed;
      AfterItself(base.w);
      FreshIsResolved(base.w.tree, segs);
      if root.None? {
        return Unset;
      }
      ghost var k := base.w.open[root.value];
      if eventType in cache {
        s := cache[eventType];
        return;
      }
      ghost var w0 := base.w;
      HeedsIsWatching(w0, root.value);
      ghost var visits;
      s, visits := Walk(base, root.value, segs, rootWatched);
      WalkedIsHeeded(w0, base.w, root.value, rootWatched);
      SoundLater(w0, base.w, root, rootWatched, ancestor, path, blind, cache);
      TimedLater(Unwatched() && !closed, retryAt, root, w0, base.w, cache, dating);
      StillWhen(w0, base.w, root.value, rootWatched);
      VisitedIsRead(w0, visits, base.w, root.value, rootWatched);
      if base.w.commits == w0.commits {
        SameTree(w0, base.w);
        FreshIsResolved(base.w.tree, segs);
      }
      TimedIf(Unwatched() && !closed, retryAt, root, w0, cache, dating);
      Remember(eventType, segs, s, visits, w0.clock);
    }

    /** The cache takes one more answer, walked for since `since`; a full one is emptied first. */
    method Remember(eventType: seq<byte>, segs: Path, s: Policy.Setting, ghost visits: seq<Visit>, ghost since: nat)
      requires Valid() && root.Some? && root.value in base.w.open && Segments(eventType) == Some(segs)
      requires rootWatched && Calm(base.w, root.value) ==> s == Resolve(base.w.tree, base.w.open[root.value], segs)
      requires Backed(eventType, s, KeyOf(root, base.w), visits, since, base.w)
      requires Unwatched() && !closed ==> dating.sampledAt <= since
      modifies this`cache, this`dating
      ensures Valid() && eventType in cache && cache[eventType] == s
      ensures forall ty :: ty in cache && ty != eventType ==> ty in old(cache) && cache[ty] == old(cache)[ty]
      ensures dating == old(dating).(visits := old(dating.visits)[eventType := visits])
    {
      hide Inv, Resolve, Segments, Sound, Timed, Backed;
      ghost var before := cache;
      if |cache| >= CACHE_MAX {
        cache := map[];
      }
      SoundWith(base.w, root.value, rootWatched, path, blind, before, cache, eventType, s);
      TimedWith(Unwatched() && !closed, retryAt, root, base.w, before, cache, dating, eventType, s, visits, since);
      cache := cache[eventType := s];
      dating := dating.(visits := dating.visits[eventType := visits]);
    }

    /** The part of Enabled under the lock: refresh, then setting. */
    method RefreshedSetting(eventType: seq<byte>, segs: Path)
      returns (s: Policy.Setting, ghost mid: World, ghost checked: nat)
      requires Valid() && Segments(eventType) == Some(segs)
      modifies this, base
      ensures Valid() && After(old(base.w), base.w) && closed == old(closed)
      ensures root == None ==> s == Unset
      ensures (old(Watched() || Expired()) || Watched()) && base.w.commits == old(base.w.commits) ==> s == Fresh(base.w.tree, segs)
      ensures ancestor.Some? && base.w.commits == old(base.w.commits) ==> Blindness(base.w.tree, path, blind)
      ensures Watched() ==> InStep(eventType, segs, s, old(base.w), mid)
      ensures Unwatched() && !closed ==> InTime(eventType, segs, s, old(base.w.clock), checked)
      ensures Unwatched() && !closed && old(!Unwatched() || Expired()) ==> old(base.w.clock) <= dating.soughtAt
    {
      hide Inv, Tick, Lookup, Heeds, EventsKey, After, Resolve, Segments, Sound, Fresh, Blindness, Timed, Backed, Current, KeyOf, InStep;
      ghost var w0 := base.w;
      checked := Refresh();
      mid := base.w;
      s := Setting(eventType, segs);
      SameThrough(w0, mid, base.w);
      ClockGrows(mid, base.w);
      if Watched() {
        InStepSince(eventType, segs, s, w0, mid);
      }
      FreshIsResolved(base.w.tree, segs);
      FreshIsResolved(dating.seen.tree, segs);
      TimedIf(Unwatched() && !closed, retryAt, root, base.w, cache, dating);
    }

    /**
     With nothing watched: Events was looked for, and `dating.seen` is a moment of that look, after which the
     clock was sampled, less than a TTL before `checked`. Without a root the answer is that of a fresh walk at
     that moment; with one, the root is what Events was then, and the answer is what reads made since the
     sample found below it.
     */
    ghost predicate InTime(eventType: seq<byte>, segs: Path, s: Policy.Setting, since: nat, checked: nat)
      reads this, base
    {
      && since <= checked <= base.w.clock
      && dating.soughtAt <= dating.seen.clock <= dating.sampledAt <= checked < dating.sampledAt + TTL
      && EventsKey(dating.seen.tree) == KeyOf(root, base.w) && After(dating.seen, base.w)
      && (root.None? ==> s == Fresh(dating.seen.tree, segs))
      && (root.Some? ==>
            && eventType in dating.visits
            && Backed(eventType, s, KeyOf(root, base.w), dating.visits[eventType], dating.sampledAt, base.w))
    }

    /**
     Enabled: whether events of this type at this tier are switched on; None is the caller's error. With no
     commit during the call, and the policy watching something that tells of any change that matters, before
     or after it, or its TTL having run out before it, the answer is that of a fresh walk. Whatever is
     committed, it was read in step with the watch or, with nothing watched, in time; `checked` is a clock
     reading made during the call.
     */
    method Enabled(eventType: seq<byte>, tier: nat)
      returns (r: Option<bool>, ghost s: Policy.Setting, ghost mid: World, ghost checked: nat)
      requires Valid()
      modifies this, base
      ensures Valid() && After(old(base.w), base.w) && closed == old(closed)
      ensures r == None <==> Segments(eventType) == None || tier > DEBUG_TIER
      ensures r.Some? && tier == ESSENTIAL ==> r == Some(true) && base.w == old(base.w)
      ensures r.Some? && tier != ESSENTIAL && s == On ==> r == Some(true)
      ensures r.Some? && tier != ESSENTIAL && s == Off ==> r == Some(false)
      ensures r.Some? && tier != ESSENTIAL && s == Unset ==> r == Some(tier == STANDARD)
      ensures r.Some? && tier != ESSENTIAL && root == None ==> s == Unset
      ensures root == None && tier == STANDARD && r.Some? ==> r == Some(true)
      ensures root == None && (tier == VERBOSE || tier == DEBUG_TIER) && r.Some? ==> r == Some(false)
      ensures r.Some? && tier != ESSENTIAL && (old(Watched() || Expired()) || Watched()) && base.w.commits == old(base.w.commits) ==>
                s == Fresh(base.w.tree, Segments(eventType).value)
      ensures r.Some? && tier != ESSENTIAL && ancestor.Some? && base.w.commits == old(base.w.commits) ==>
                Blindness(base.w.tree, path, blind)
      ensures r.Some? && tier != ESSENTIAL && Watched() ==>
                InStep(eventType, Segments(eventType).value, s, old(base.w), mid)
      ensures r.Some? && tier != ESSENTIAL && Unwatched() && !closed ==>
                InTime(eventType, Segments(eventType).value, s, old(base.w.clock), checked)
      ensures r.Some? && tier != ESSENTIAL && Unwatched() && !closed && old(!Unwatched() || Expired()) ==>
                old(base.w.clock) <= dating.soughtAt
    {
      hide Inv, After, Segments, Sound, Fresh, Blindness, Timed;
      AfterItself(base.w);
      s, mid, checked := Unset, base.w, 0;
      var segs := PolicySegments(eventType);
      if segs.None? || tier > DEBUG_TIER {
        return None, s, mid, checked;
      }
      if tier == ESSENTIAL {
        return Some(true), s, mid, checked;
      }
      var found;
      found, mid, checked := RefreshedSetting(eventType, segs.value);
      r, s := Some(Decide(tier, found)), found;
    }

    /** Close: a closed policy decides by tier. */
    method Close()
      requires Valid()
      modifies this, base
      ensures Valid() && closed && root == None && ancestor == None && base.w.open.Keys == {}
    {
      hide Inv, Sound, After;
      Teardown();
      closed := true;
      NothingIsSound(base.w, path, blind);
    }

    /** With nothing to watch, what is read from now on is good for one TTL. */
    method SampleClock(ghost before: World)
      requires Settled(before, base.w, root, rootWatched, ancestor, path, blind, dating.seen) && Unwatched()
      requires cache == map[] && dating.soughtAt == before.clock
      modifies this`retryAt, this`dating, base
      ensures Settled(before, base.w, root, rootWatched, ancestor, path, blind, dating.seen)
      ensures Timed(true, retryAt, root, base.w, cache, dating) && before.clock <= dating.sampledAt
      ensures base.w == Tick(old(base.w)).0 && dating == old(dating).(sampledAt := base.w.clock)
    {
      hide Inv, Tick, Lookup, Sound, Heeds, Heeded, After, EventsKey, Settled;
      ghost var w0 := base.w;
      SettledMeans(before, w0, root, rootWatched, ancestor, path, blind, dating.seen);
      TickAfter(w0);
      var now := base.Now();
      SettledLater(before, w0, base.w, root, path, blind, dating.seen);
      retryAt := now + TTL;
      dating := dating.(sampledAt := now);
    }
  }

  lemma WatchedIsTimed(retryAt: nat, root: Option<nat>, w: World, cache: Cache, d: Dating)
    ensures Timed(false, retryAt, root, w, cache, d)
  {
  }

  lemma TimedIf(unwatched: bool, retryAt: nat, root: Option<nat>, w: World, cache: Cache, d: Dating)
    requires Timed(unwatched, retryAt, root, w, cache, d)
    ensures unwatched ==> retryAt == d.sampledAt + TTL && d.soughtAt <= d.seen.clock <= d.sampledAt <= w.clock
    ensures unwatched ==> EventsKey(d.seen.tree) == KeyOf(root, w) && After(d.seen, w)
    ensures unwatched && root.None? ==> EventsKey(d.seen.tree) == None
    ensures unwatched ==>
              forall ty :: ty in cache ==> ty in d.visits && Backed(ty, cache[ty], KeyOf(root, w), d.visits[ty], d.sampledAt, w)
  {
    hide Backed, EventsKey, After;
  }

  /** Letting go of handles is no time at all. */
  lemma SettledSince(before: World, m: World, w: World, root: Option<nat>, rootWatched: bool, ancestor: Option<nat>,
                     path: Path, blind: bool, seen: World)
    requires After(before, m) && m.tree == before.tree && m.commits == before.commits
    requires Settled(m, w, root, rootWatched, ancestor, path, blind, seen)
    ensures Settled(before, w, root, rootWatched, ancestor, path, blind, seen)
  {
    hide Inv, Lookup, After, EventsKey, Sound, Nearest, Lives;
    AfterThen(before, m, w);
    AfterThen(before, m, seen);
  }

  /** With nothing watched, time changes nothing of what was settled. */
  lemma SettledLater(before: World, w: World, v: World, root: Option<nat>, path: Path, blind: bool, seen: World)
    requires Settled(before, w, root, false, None, path, blind, seen)
    requires After(w, v) && Inv(v) && v.open == w.open
    ensures Settled(before, v, root, false, None, path, blind, seen)
    ensures EventsKey(seen.tree) == KeyOf(root, v) && After(seen, v) && before.clock <= seen.clock <= v.clock
  {
    hide Inv, Lookup, After, EventsKey, Sound, Found;
    SameThrough(before, w, v);
    AfterThen(seen, w, v);
    ClockGrows(before, seen);
    ClockGrows(seen, v);
    SoundLater(w, v, root, false, None, path, blind, map[]);
    if root == None {
      FoundLater(before, w, v, None, path, blind);
    }
  }

  lemma SettledMeans(before: World, w: World, root: Option<nat>, rootWatched: bool, ancestor: Option<nat>, path: Path,
                     blind: bool, seen: World)
    requires Settled(before, w, root, rootWatched, ancestor, path, blind, seen)
    ensures After(before, w) && Sound(w, root, rootWatched, ancestor, path, blind, map[])
    ensures root == None ==> Found(before, w, ancestor, path, blind) && (ancestor.Some? ==> EventsKey(w.tree) == None)
    ensures rootWatched ==> root.Some? && root.value in w.open && Agrees(w.tree, w.open[root.value], map[])
    ensures w.commits == before.commits ==> if root == None then EventsKey(w.tree) == None else rootWatched
  {
    hide Inv, Lookup, After, EventsKey, Sound, Found;
    if root == None {
      SameThrough(before, seen, w);
    }
  }

  lemma NothingMeansNoEvents(t: Tree, path: Path, blind: bool)
    requires NothingThere(t, path, blind) && !blind
    ensures EventsKey(t) == None
  {
    if path != GENERIC_PATH {
      assert GENERIC_PATH + [EVENTS] == EVENTS_PATH;
      LookupThrough(t, 0, GENERIC_PATH, [EVENTS]);
    }
  }

  /** A drained watch on Events, with the cache dropped. */
  lemma WatchedIsSound(w: World, fd: nat, path: Path, blind: bool)
    requires Inv(w) && w.open.Keys == {fd} && Heeds(w, fd, EVENTS_PATH, true) && Calm(w, fd)
    ensures Sound(w, Some(fd), true, None, path, blind, map[]) && Agrees(w.tree, w.open[fd], map[])
  {
    KeyOfWatch(w, fd);
    hide Inv, Lookup;
  }

  lemma CacheGrows(cache: Cache, ty: seq<byte>, s: Policy.Setting)
    ensures |cache[ty := s]| <= |cache| + 1
  {
    assert cache[ty := s].Keys == cache.Keys + {ty};
    assert |cache.Keys + {ty}| <= |cache.Keys| + 1;
    assert |cache[ty := s]| == |cache[ty := s].Keys| && |cache| == |cache.Keys|;
  }

  /** One more true answer keeps the cache true, whether or not the rest of it was kept. */
  lemma SoundWith(w: World, root: nat, rootWatched: bool, path: Path, blind: bool, before: Cache, kept: Cache,
                  ty: seq<byte>, s: Policy.Setting)
    requires Sound(w, Some(root), rootWatched, None, path, blind, before) && Segments(ty).Some? && root in w.open
    requires (kept == before || kept == map[]) && |kept| < CACHE_MAX
    requires rootWatched && Calm(w, root) ==> s == Resolve(w.tree, w.open[root], Segments(ty).value)
    ensures Sound(w, Some(root), rootWatched, None, path, blind, kept[ty := s])
  {
    hide Inv, Heeds, EventsKey, Resolve, Segments, NothingThere, Lookup;
    CacheGrows(kept, ty, s);
  }

  lemma TimedWith(unwatched: bool, retryAt: nat, root: Option<nat>, w: World, before: Cache, kept: Cache, d: Dating,
                  ty: seq<byte>, s: Policy.Setting, visits: seq<Visit>, since: nat)
    requires Timed(unwatched, retryAt, root, w, before, d) && Backed(ty, s, KeyOf(root, w), visits, since, w)
    requires (kept == before || kept == map[]) && (unwatched ==> d.sampledAt <= since)
    ensures Timed(unwatched, retryAt, root, w, kept[ty := s], d.(visits := d.visits[ty := visits]))
  {
    hide After, EventsKey, ResolveOver, Segments;
  }

  /** A walk's reads were made since it began. */
  lemma VisitedIsRead(w: World, visits: seq<Visit>, v: World, root: nat, watched: bool)
    requires Visited(w, visits, v, root, watched)
    ensures ReadSince(visits, w.clock, v)
  {
    hide Inv, Aged, Undisturbed;
  }

  lemma HeedsIsWatching(w: World, fd: nat)
    ensures Heeds(w, fd, EVENTS_PATH, true) <==> Watching(w, fd, EVENTS_PATH)
  {
  }

  lemma WalkedIsHeeded(w: World, v: World, fd: nat, watched: bool)
    requires Walked(w, v, fd, watched)
    ensures After(w, v) && (watched ==> Heeded(w, v, fd, EVENTS_PATH, true))
  {
    hide Inv, Lookup, SameBelow;
  }

  lemma StillWhen(w: World, v: World, root: nat, watched: bool)
    ensures v.commits == w.commits ==> Still(w, v, root, watched)
    ensures watched && Calm(v, root) ==> Still(w, v, root, watched)
  {
  }

  lemma FreshIsResolved(t: Tree, segs: Path)
    ensures EventsKey(t).Some? ==> Fresh(t, segs) == Resolve(t, EventsKey(t).value, segs)
    ensures EventsKey(t).None? ==> Fresh(t, segs) == Unset
  {
    hide Lookup, Resolve;
  }

  lemma ClockGrows(w: World, v: World)
    requires After(w, v)
    ensures w.clock <= v.clock
  {
  }

  lemma SameThrough(w: World, m: World, v: World)
    requires After(w, m) && After(m, v)
    ensures After(w, v) && (v.commits == w.commits ==> m.commits == w.commits && v.tree == m.tree && m.tree == w.tree)
  {
    AfterThen(w, m, v);
    hide Inv, Aged;
  }

  /** The last look at Events failed: what is held then is what is relied on. */
  lemma SettlesDown(before: World, m: World, v: World, ancestor: Option<nat>, path: Path, blind: bool)
    requires Looking(before, m, ancestor, path, blind) && After(m, v) && v.open.Keys == Held(None, ancestor)
    requires EventsKey(v.tree) == None && (ancestor.None? ==> Lookup(v.tree, 0, EVENTS_PATH).Some?)
    requires ancestor.Some? ==> Heeded(m, v, ancestor.value, path, false)
    ensures Settled(before, v, None, false, ancestor, path, blind, v)
  {
    SameThrough(before, m, v);
    AfterItself(v);
    hide Inv, Sound, After, Lookup, JustArmed, Heeded, EventsKey, Found;
    if ancestor.Some? {
      AncestorIsSound(m, v, ancestor.value, path, blind);
      FoundLater(before, m, v, ancestor, path, blind);
    } else {
      NothingIsSound(v, path, blind);
      NothingFound(before, v, path, blind);
    }
  }

  /** Events is there, but could not be opened: nothing is armed. */
  lemma NothingFound(before: World, w: World, path: Path, blind: bool)
    requires After(before, w) && Lookup(w.tree, 0, EVENTS_PATH).Some?
    ensures Found(before, w, None, path, blind)
  {
    hide Lookup, Aged;
  }

  lemma FoundIsExact(before: World, w: World, ancestor: Option<nat>, path: Path, blind: bool)
    ensures Found(before, w, ancestor, path, blind) && w.commits == before.commits && ancestor.Some? ==>
              Blindness(w.tree, path, blind)
  {
    hide Lookup, Blindness;
  }

  lemma AgedKeepsPlaced(w: World, v: World, k: nat, path: Path)
    requires After(w, v) && Placed(w.tree, k, path)
    ensures Placed(v.tree, k, path)
  {
    hide Inv, Placed;
  }

  /** An attempt fails exactly for a reason: the key could not be opened, or was deleted before it was armed. */
  lemma TriedToArm(w: World, m: World, v: World, at: Path, had: Option<nat>, fd: Option<nat>)
    requires After(w, m) && After(m, v) && had == Openable(m.tree, at) && (fd.Some? ==> had.Some?)
    requires had.Some? && fd.None? ==> had.value !in v.tree.keys
    ensures Lives(w.tree, v.tree, at) ==> fd.Some?
    ensures v.commits == w.commits ==> (fd.Some? <==> Openable(v.tree, at).Some?)
  {
    hide Aged, Lookup;
    if Lives(w.tree, v.tree, at) {
      LivesBetween(w.tree, m.tree, v.tree, at);
    }
    if v.commits == w.commits && Openable(v.tree, at).Some? {
      LookupIsLive(v.tree, 0, at);
    }
  }

  lemma LivesThrough(w: World, m: World, v: World, at: Path)
    requires After(w, m) && After(m, v)
    ensures Lives(w.tree, v.tree, at) ==> Lives(w.tree, m.tree, at) && Lives(m.tree, v.tree, at)
  {
    hide Aged, Lookup;
    if Lives(w.tree, v.tree, at) {
      LivesBetween(w.tree, m.tree, v.tree, at);
    }
  }

  lemma FreshHandle(w: World)
    requires Inv(w)
    ensures w.nextFd !in w.open
  {
  }

  lemma SameTree(w: World, v: World)
    requires After(w, v) && w.commits == v.commits
    ensures w.tree == v.tree
  {
  }

  lemma EventsKeyIsPlaced(w: World)
    requires Inv(w) && EventsKey(w.tree).Some?
    ensures Placed(w.tree, EventsKey(w.tree).value, EVENTS_PATH) && EventsKey(w.tree).value in w.tree.keys
  {
    OpenedIsPlaced(w, EventsKey(w.tree).value, EVENTS_PATH);
    LookupIsLive(w.tree, 0, EVENTS_PATH);
  }

  lemma PlacedIsEvents(t: Tree, k: nat)
    requires Placed(t, k, EVENTS_PATH) && k in t.keys
    ensures EventsKey(t) == Some(k)
  {
  }

  lemma NothingIsSound(w: World, path: Path, blind: bool)
    requires Inv(w) && w.open.Keys == {}
    ensures Sound(w, None, false, None, path, blind, map[])
  {
    hide Inv;
  }

  lemma ClosedAfter(w: World, v: World)
    requires Inv(w) && Inv(v) && v.tree == w.tree && v.clock == w.clock && v.commits == w.commits
    requires v.future == w.future && v.nextFd == w.nextFd
    ensures After(w, v)
  {
    hide Inv, Aged;
    AgedItself(w.tree);
  }

  lemma ArmedAfter(w: World, v: World)
    requires Inv(w) && Inv(v) && v == w.(armed := v.armed)
    ensures After(w, v)
  {
    hide Inv, Aged;
    AgedItself(w.tree);
  }

  /** The world after a call that may have opened a handle. */
  lemma OpenAfter(w: World, v: World)
    requires Inv(w) && Inv(v) && (v == Tick(w).0 || exists k :: v == WithHandle(Tick(w).0, k))
    ensures After(w, v)
  {
    hide Inv, Tick, Aged;
    TickAfter(w);
  }

  /**
   Why the look for Events may be older than a TTL when it is relied on: the clock is sampled only after it, and
   any time may pass in between. The bound is a TTL and what establish took, from `soughtAt` to `sampledAt`.
   */
  method LookMayBeOld(p: EventPolicy, ghost before: World)
    requires Settled(before, p.base.w, p.root, p.rootWatched, p.ancestor, p.path, p.blind, p.dating.seen)
    requires p.Unwatched() && p.cache == map[] && p.dating.soughtAt == before.clock
    requires p.base.w.future == [Burst([Wait(TTL + 1)], Signal)]
    modifies p`retryAt, p`dating, p.base
    ensures Timed(true, p.retryAt, p.root, p.base.w, p.cache, p.dating) && p.dating.seen == old(p.dating.seen)
    ensures p.dating.seen.clock + TTL < p.dating.sampledAt
  {
    hide Inv, Sound, After, EventsKey, Found, Take;
    ghost var w := p.base.w;
    ClockGrows(p.dating.seen, w);
    hide Settled, Timed;
    RunOfOne(w, Wait(TTL + 1));
    WaitTakesTime(w, TTL + 1);
    p.SampleClock(before);
  }

  lemma WaitTakesTime(w: World, d: nat)
    ensures Take(w, Wait(d)).clock == w.clock + d
  {
  }

  /** OpenPolicy. */
  method OpenPolicy(base: Kernel) returns (p: EventPolicy)
    requires Inv(base.w) && base.w.open.Keys == {}
    modifies base
    ensures fresh(p) && p.base == base && p.Valid() && p.Current() && !p.closed && p.cache == map[]
  {
    hide Inv, Sound, After, Timed;
    p := new EventPolicy(base);
    p.Establish();
  }

  /**
   A watch that is not blind tells of Events: whatever other programs commit, once Events can be opened a record
   is waiting, and the next decision looks again.
   */
  lemma CreationTold(w: World, steps: seq<Step>, fd: nat, path: Path)
    requires Sound(w, None, false, Some(fd), path, false, map[]) && EventsKey(Run(w, steps).tree).Some?
    ensures fd in Run(w, steps).armed && Run(w, steps).armed[fd].queue != []
  {
    hide Inv, Run, Lookup, Waiting, NothingThere, EventsKey, ChildOf;
    var v := Run(w, steps);
    RunElapses(w, steps);
    RunKeepsWaiting(w, steps, fd, path, Awaited(path));
    RunKeepsKey(w, steps, fd);
    SoundLater(w, v, None, false, Some(fd), path, false, map[]);
    if Calm(v, fd) {
      NothingMeansNoEvents(v.tree, path, false);
    }
  }

  lemma {:induction false} RunKeepsKey(w: World, steps: seq<Step>, fd: nat)
    requires fd in w.armed
    ensures fd in Run(w, steps).armed && Run(w, steps).armed[fd].key == w.armed[fd].key
    decreases |steps|
  {
    hide Take;
    if steps != [] {
      StepKeepsKey(w, steps[0], fd);
      RunKeepsKey(Take(w, steps[0]), steps[1..], fd);
    }
  }

  /** While only Machine is watched but Generic exists, Events can be created without a word to the watch. */
  lemma CreationUnseen(w: World, fd: nat, note: Watch.Record, g: nat)
    requires Inv(w) && Waiting(w, fd, MACHINE_PATH) && Lookup(w.tree, 0, MACHINE_PATH) == Some(w.armed[fd].key)
    requires Lookup(w.tree, 0, GENERIC_PATH) == Some(g) && (g, EVENTS) !in w.tree.child && Calm(w, fd)
    ensures var v := Take(w, Commit(CreateKey(GENERIC_PATH, EVENTS, false), note));
            Calm(v, fd) && EventsKey(v.tree).Some?
  {
    var e := CreateKey(GENERIC_PATH, EVENTS, false);
    assert MACHINE_PATH != GENERIC_PATH;
    if Lookup(w.tree, 0, MACHINE_PATH) == Lookup(w.tree, 0, GENERIC_PATH) {
      UniquePath(w.tree, MACHINE_PATH, GENERIC_PATH);
    }
    PlaceUnchanged(w.tree, e, GENERIC_PATH);
    LookupMore(Edited(w.tree, e), 0, GENERIC_PATH, EVENTS);
    assert GENERIC_PATH + [EVENTS] == EVENTS_PATH;
  }

  /**
   When the creation of Events is noticed: with nothing waiting and no Events, every run of other programs'
   steps that lets Events be opened leaves a record if and only if Generic is watched or does not exist.
   */
  lemma CreationNoticed(w: World, fd: nat, path: Path, blind: bool)
    requires Sound(w, None, false, Some(fd), path, blind, map[]) && Calm(w, fd) && Lookup(w.tree, 0, EVENTS_PATH) == None
    ensures (forall steps :: EventsKey(Run(w, steps).tree).Some? ==> !Calm(Run(w, steps), fd)) <==>
            path == GENERIC_PATH || Lookup(w.tree, 0, GENERIC_PATH) == None
  {
    hide Inv, Run, Lookup, Waiting, EventsKey, Take;
    if blind {
      BlindToCreation(w, fd, path);
    } else {
      forall steps | EventsKey(Run(w, steps).tree).Some?
        ensures !Calm(Run(w, steps), fd)
      {
        CreationTold(w, steps, fd, path);
      }
    }
  }

  lemma BlindToCreation(w: World, fd: nat, path: Path)
    requires Sound(w, None, false, Some(fd), path, true, map[]) && Calm(w, fd) && Lookup(w.tree, 0, EVENTS_PATH) == None
    ensures path == MACHINE_PATH && Lookup(w.tree, 0, GENERIC_PATH).Some?
    ensures exists steps :: EventsKey(Run(w, steps).tree).Some? && Calm(Run(w, steps), fd)
  {
    hide Inv, Lookup, Run, Take, EventsKey;
    assert GENERIC_PATH + [EVENTS] == EVENTS_PATH;
    LookupMore(w.tree, 0, GENERIC_PATH, EVENTS);
    CreationUnseen(w, fd, BARE_DELETION, Lookup(w.tree, 0, GENERIC_PATH).value);
    var step := Commit(CreateKey(GENERIC_PATH, EVENTS, false), BARE_DELETION);
    RunOfOne(w, step);
    assert EventsKey(Run(w, [step]).tree).Some?;
  }

  lemma RunOfOne(w: World, step: Step)
    ensures Run(w, [step]) == Take(w, step)
  {
    hide Take;
    assert Run(Take(w, step), []) == Take(w, step);
  }
}
