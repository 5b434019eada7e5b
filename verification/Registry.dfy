/**
 The registry as a client sees it through system calls: a tree of keys, a queue of records for every armed
 watch, and a clock. Between any two calls other programs may commit any number of changes; `future` holds
 one burst of such steps for every call to come. Keys have identities, so a handle outlives a deletion.
 */
module Registry {
  import opened Wrappers
  import opened Bytes
  import opened Watch

  type Name = seq<byte>
  type Path = seq<Name>

  /** A stored value: its type code and bytes. */
  type Stored = (u32, seq<byte>)

  /** `enabled` is the one value the policy reads, per key; a `sealed` key cannot be opened. Key 0 is the root. */
  datatype Tree = Tree(keys: set<nat>, child: map<(nat, Name), nat>, enabled: map<nat, Stored>, sealed: set<nat>, next: nat)

  /** Every key but the root has exactly one place. */
  ghost predicate Consistent(t: Tree) {
    && 0 in t.keys && (forall k :: k in t.keys ==> k < t.next)
    && (forall e :: e in t.child ==> e.0 in t.keys && t.child[e] in t.keys && t.child[e] != 0)
    && (forall e, f :: e in t.child && f in t.child && t.child[e] == t.child[f] ==> e == f)
  }

  function Lookup(t: Tree, k: nat, path: Path): Option<nat>
    decreases |path|
  {
    if path == [] then Some(k)
    else if (k, path[0]) in t.child then Lookup(t, t.child[(k, path[0])], path[1..])
    else None
  }

  /** The key at a path, if it exists and can be opened. */
  function Openable(t: Tree, path: Path): Option<nat> {
    match Lookup(t, 0, path)
    case None => None
    case Some(k) => if k in t.sealed then None else Some(k)
  }

  lemma {:induction false} LookupMore(t: Tree, k: nat, path: Path, name: Name)
    ensures Lookup(t, k, path + [name]) ==
            match Lookup(t, k, path)
            case None => None
            case Some(x) => if (x, name) in t.child then Some(t.child[(x, name)]) else None
    decreases |path|
  {
    if path == [] {
      assert (path + [name])[1..] == [];
    } else if (k, path[0]) in t.child {
      LookupMore(t, t.child[(k, path[0])], path[1..], name);
      assert (path + [name])[1..] == path[1..] + [name];
    }
  }

  lemma {:induction false} LookupThrough(t: Tree, k: nat, a: Path, b: Path)
    ensures Lookup(t, k, a + b) == match Lookup(t, k, a) case None => None case Some(x) => Lookup(t, x, b)
    decreases |a|
  {
    if a == [] {
      assert a + b == b;
    } else if (k, a[0]) in t.child {
      LookupThrough(t, t.child[(k, a[0])], a[1..], b);
      assert (a + b)[1..] == a[1..] + b;
    }
  }

  /** A key is reached by one path only. */
  lemma {:induction false} UniquePath(t: Tree, p: Path, q: Path)
    requires Consistent(t) && Lookup(t, 0, p).Some? && Lookup(t, 0, p) == Lookup(t, 0, q)
    ensures p == q
    decreases |p| + |q|
  {
    if p != [] {
      assert p == p[..|p| - 1] + [p[|p| - 1]];
      LookupMore(t, 0, p[..|p| - 1], p[|p| - 1]);
    }
    if q != [] {
      assert q == q[..|q| - 1] + [q[|q| - 1]];
      LookupMore(t, 0, q[..|q| - 1], q[|q| - 1]);
    }
    if p != [] && q != [] {
      UniquePath(t, p[..|p| - 1], q[..|q| - 1]);
    }
  }

  // --- commits ---------------------------------------------------------

  datatype Edit =
    | SetValue(path: Path, value: Stored)
    | ClearValue(path: Path)
    | CreateKey(path: Path, name: Name, seal: bool)
    | DeleteKey(path: Path)

  predicate HasChildren(t: Tree, k: nat) {
    exists e :: e in t.child && e.0 == k
  }

  /** The tree after one committed change; a change that cannot be made changes nothing. Only a leaf can be deleted. */
  function Edited(t: Tree, e: Edit): Tree {
    match Lookup(t, 0, e.path)
    case None => t
    case Some(k) =>
      match e
      case SetValue(_, value) => t.(enabled := t.enabled[k := value])
      case ClearValue(_) => t.(enabled := t.enabled - {k})
      case CreateKey(_, name, seal) =>
        if (k, name) in t.child then t
        else t.(keys := t.keys + {t.next}, child := t.child[(k, name) := t.next], next := t.next + 1,
                sealed := if seal then t.sealed + {t.next} else t.sealed - {t.next}, enabled := t.enabled - {t.next})
      case DeleteKey(path) =>
        if path == [] || HasChildren(t, k) then t
        else
          var parent := Lookup(t, 0, path[..|path| - 1]);
          if parent.None? then t
          else t.(keys := t.keys - {k}, child := t.child - {(parent.value, path[|path| - 1])}, enabled := t.enabled - {k})
  }

  lemma DeletedEntry(t: Tree, path: Path)
    requires Consistent(t) && path != [] && Lookup(t, 0, path).Some?
    ensures var parent := Lookup(t, 0, path[..|path| - 1]);
            && parent.Some? && (parent.value, path[|path| - 1]) in t.child
            && t.child[(parent.value, path[|path| - 1])] == Lookup(t, 0, path).value
  {
    assert path == path[..|path| - 1] + [path[|path| - 1]];
    LookupMore(t, 0, path[..|path| - 1], path[|path| - 1]);
  }

  lemma {:induction false} LookupIsLive(t: Tree, k: nat, path: Path)
    requires Consistent(t) && k in t.keys && Lookup(t, k, path).Some?
    ensures Lookup(t, k, path).value in t.keys
    decreases |path|
  {
    if path != [] {
      LookupIsLive(t, t.child[(k, path[0])], path[1..]);
    }
  }

  lemma EditKeepsConsistent(t: Tree, e: Edit)
    requires Consistent(t)
    ensures Consistent(Edited(t, e))
  {
    if Lookup(t, 0, e.path).Some? {
      LookupIsLive(t, 0, e.path);
      if e.DeleteKey? && e.path != [] {
        DeletedEntry(t, e.path);
      }
    }
  }

  // --- what a commit leaves alone --------------------------------------

  /** Whether the path passes through key `k` on its way down from `from`. */
  predicate Covers(t: Tree, from: nat, k: nat, path: Path)
    decreases |path|
  {
    from == k || (path != [] && (from, path[0]) in t.child && Covers(t, t.child[(from, path[0])], k, path[1..]))
  }

  lemma {:induction false} CoversOwnPath(t: Tree, from: nat, k: nat, path: Path, rest: Path)
    requires Lookup(t, from, path) == Some(k)
    ensures Covers(t, from, k, path + rest)
    decreases |path|
  {
    if path != [] {
      CoversOwnPath(t, t.child[(from, path[0])], k, path[1..], rest);
      assert (path + rest)[1..] == path[1..] + rest;
    }
  }

  /** The setting of a key, as far as the tree goes: its stored value, if it is live and has one. */
  function ValueAt(t: Tree, k: nat): Option<Stored> {
    if k in t.keys && k in t.enabled then Some(t.enabled[k]) else None
  }

  /** What a walk sees of the key at `rel` below `k`. */
  function Node(t: Tree, k: nat, rel: Path): Option<(nat, bool, Option<Stored>)> {
    match Lookup(t, k, rel)
    case None => None
    case Some(x) => Some((x, x in t.sealed, ValueAt(t, x)))
  }

  ghost predicate SameBelow(t: Tree, u: Tree, k: nat) {
    forall rel: Path :: Node(t, k, rel) == Node(u, k, rel)
  }

  /** A key off the path of a change is not the one changed. */
  lemma NotTheTarget(t: Tree, k: nat, path: Path, rel: Path, target: Path)
    requires Consistent(t) && Lookup(t, 0, path) == Some(k) && !Covers(t, 0, k, target)
    requires Lookup(t, k, rel).Some? && Lookup(t, 0, target).Some?
    ensures Lookup(t, k, rel) != Lookup(t, 0, target)
  {
    if Lookup(t, k, rel) == Lookup(t, 0, target) {
      LookupThrough(t, 0, path, rel);
      UniquePath(t, path + rel, target);
      CoversOwnPath(t, 0, k, path, rel);
    }
  }

  /** A change whose path does not pass through `k` is invisible below `k`. */
  lemma {:induction false} NodeUnchanged(t: Tree, e: Edit, k: nat, path: Path, rel: Path)
    requires Consistent(t) && Lookup(t, 0, path) == Some(k) && !Covers(t, 0, k, e.path)
    ensures Node(Edited(t, e), k, rel) == Node(t, k, rel)
    decreases |rel|
  {
    var u := Edited(t, e);
    LookupIsLive(t, 0, path);
    if Lookup(t, 0, e.path).Some? {
      if rel != [] {
        var r, n := rel[..|rel| - 1], rel[|rel| - 1];
        assert rel == r + [n];
        NodeUnchanged(t, e, k, path, r);
        LookupMore(t, k, r, n);
        LookupMore(u, k, r, n);
        if Lookup(t, k, r).Some? {
          NotTheTarget(t, k, path, r, e.path);
          EntryUnchanged(t, e, k, path, r, n);
        }
      }
      if Lookup(t, k, rel).Some? {
        NotTheTarget(t, k, path, rel, e.path);
        LookupIsLive(t, k, rel);
        KeyUnchanged(t, e, Lookup(t, k, rel).value);
      }
    }
  }

  lemma EntryUnchanged(t: Tree, e: Edit, k: nat, path: Path, r: Path, n: Name)
    requires Consistent(t) && Lookup(t, 0, path) == Some(k) && !Covers(t, 0, k, e.path)
    requires Lookup(t, k, r).Some? && Lookup(t, 0, e.path).Some?
    requires Lookup(t, k, r) != Lookup(t, 0, e.path)
    ensures var x, u := Lookup(t, k, r).value, Edited(t, e);
            && ((x, n) in u.child <==> (x, n) in t.child)
            && ((x, n) in t.child ==> u.child[(x, n)] == t.child[(x, n)])
  {
    if e.DeleteKey? && e.path != [] {
      DeletedEntry(t, e.path);
      LookupMore(t, k, r, n);
      if Lookup(t, k, r + [n]).Some? {
        NotTheTarget(t, k, path, r + [n], e.path);
      }
    }
  }

  lemma KeyUnchanged(t: Tree, e: Edit, x: nat)
    requires Consistent(t) && x in t.keys && Lookup(t, 0, e.path).Some? && x != Lookup(t, 0, e.path).value
    ensures var u := Edited(t, e);
            ValueAt(u, x) == ValueAt(t, x) && (x in u.sealed <==> x in t.sealed) && x in u.keys
  {
    hide Lookup;
  }

  /** A change whose path does not pass through the key at `path` leaves it where it is. */
  lemma {:induction false} PlaceUnchanged(t: Tree, e: Edit, path: Path)
    requires Consistent(t) && Lookup(t, 0, path).Some? && (e.DeleteKey? ==> e.path != path)
    ensures Lookup(Edited(t, e), 0, path) == Lookup(t, 0, path)
    decreases |path|
  {
    if path != [] && Lookup(t, 0, e.path).Some? {
      var r, n := path[..|path| - 1], path[|path| - 1];
      assert path == r + [n];
      LookupMore(t, 0, r, n);
      if e.DeleteKey? && e.path == r {
        assert Lookup(t, 0, r).Some?;
        assert (Lookup(t, 0, r).value, n) in t.child;
        assert HasChildren(t, Lookup(t, 0, r).value);
        assert Edited(t, e) == t;
      } else {
        PlaceUnchanged(t, e, r);
        LookupMore(Edited(t, e), 0, r, n);
        if e.DeleteKey? && e.path != [] {
          DeletedEntry(t, e.path);
          if Lookup(t, 0, path) == Lookup(t, 0, e.path) {
            UniquePath(t, path, e.path);
          }
        }
      }
    }
  }

  // --- watches ---------------------------------------------------------

  /** An armed watch: always on subkeys, perhaps on values, perhaps on the whole subtree. */
  datatype Armed = Armed(key: nat, values: bool, subtree: bool, queue: seq<Record>)

  /** Whether a watch must be told of a change: the kernel's side of the bargain. */
  predicate InScope(t: Tree, a: Armed, e: Edit) {
    match e
    case SetValue(path, _) => a.values && (if a.subtree then Covers(t, 0, a.key, path) else Lookup(t, 0, path) == Some(a.key))
    case ClearValue(path) => a.values && (if a.subtree then Covers(t, 0, a.key, path) else Lookup(t, 0, path) == Some(a.key))
    case CreateKey(path, _, _) => if a.subtree then Covers(t, 0, a.key, path) else Lookup(t, 0, path) == Some(a.key)
    case DeleteKey(path) =>
      || Lookup(t, 0, path) == Some(a.key)
      || (if a.subtree then Covers(t, 0, a.key, path)
          else path != [] && Lookup(t, 0, path[..|path| - 1]) == Some(a.key))
  }

  const BARE_DELETION := Record(KEY_DELETED, [], None)

  /** A record that could have been delivered; what it says beyond its type is up to the kernel. */
  function Deliverable(note: Record): Record {
    if Encodable(note) then note else Record(0, [], None)
  }

  /** What a change puts in a queue: the deletion of the watched key is always told as such. */
  function Told(t: Tree, a: Armed, e: Edit, note: Record): seq<Record> {
    if e.DeleteKey? && Lookup(t, 0, e.path) == Some(a.key) then [BARE_DELETION]
    else if InScope(t, a, e) then [Deliverable(note)]
    else []
  }

  /** An overflow drops what was queued, but never the deletion of the watched key. */
  function Deletions(queue: seq<Record>): (rs: seq<Record>)
    ensures AnyDeletion(queue) ==> AnyDeletion(rs)
    ensures forall r :: r in rs ==> r in queue
  {
    if queue == [] then []
    else
      var rest := Deletions(queue[1..]);
      if IsDeletion(queue[0]) then
        assert ([queue[0]] + rest)[0] == queue[0];
        [queue[0]] + rest
      else
        assert forall i :: 0 < i < |queue| ==> queue[i] == queue[1..][i - 1];
        rest
  }

  /** What a read call finds waiting: how many records fit, a signal, or a failure. */
  datatype Hint = Fits(n: nat) | Signal | Failure

  datatype Step = Commit(e: Edit, note: Record) | Notify(fd: nat, note: Record) | Overflow(fd: nat, note: Record) | Wait(d: nat)

  datatype Burst = Burst(steps: seq<Step>, hint: Hint)

  /** `open` is what each descriptor is a handle to; `commits` counts the changes committed so far. */
  datatype World = World(tree: Tree, armed: map<nat, Armed>, open: map<nat, nat>, nextFd: nat, clock: nat,
                         commits: nat, future: seq<Burst>)

  function Take(w: World, step: Step): World {
    match step
    case Commit(e, note) =>
      w.(tree := Edited(w.tree, e), commits := w.commits + 1,
         armed := map fd | fd in w.armed :: w.armed[fd].(queue := w.armed[fd].queue + Told(w.tree, w.armed[fd], e, note)))
    case Notify(fd, note) =>
      if fd !in w.armed then w
      else w.(armed := w.armed[fd := w.armed[fd].(queue := w.armed[fd].queue + [Deliverable(note)])])
    case Overflow(fd, note) =>
      if fd !in w.armed then w
      else w.(armed := w.armed[fd := w.armed[fd].(queue := Deletions(w.armed[fd].queue) + [Deliverable(note)])])
    case Wait(d) => w.(clock := w.clock + d)
  }

  predicate AllEncodable(queue: seq<Record>) {
    forall i :: 0 <= i < |queue| ==> Encodable(queue[i])
  }

  ghost predicate Inv(w: World) {
    && Consistent(w.tree)
    && (forall fd :: fd in w.open ==> fd < w.nextFd && w.open[fd] < w.tree.next)
    && (forall fd :: fd in w.armed ==> fd in w.open && w.open[fd] == w.armed[fd].key && AllEncodable(w.armed[fd].queue))
  }

  lemma DeletionsAreEncodable(queue: seq<Record>)
    requires AllEncodable(queue)
    ensures AllEncodable(Deletions(queue))
  {
    forall i | 0 <= i < |Deletions(queue)|
      ensures Encodable(Deletions(queue)[i])
    {
      assert Deletions(queue)[i] in Deletions(queue);
    }
  }

  lemma AnyDeletionOfMore(queue: seq<Record>, r: Record)
    requires AnyDeletion(queue)
    ensures AnyDeletion(queue + [r])
  {
    var i :| 0 <= i < |queue| && IsDeletion(queue[i]);
    assert (queue + [r])[i] == queue[i];
  }

  lemma StepKeepsInv(w: World, step: Step)
    requires Inv(w)
    ensures Inv(Take(w, step))
  {
    hide Consistent, Deletions, Edited, Lookup, Covers, InScope;
    match step {
      case Commit(e, note) =>
        EditKeepsConsistent(w.tree, e);
        NextGrows(w.tree, e);
      case Notify(fd, note) =>
      case Overflow(fd, note) =>
        if fd in w.armed {
          DeletionsAreEncodable(w.armed[fd].queue);
        }
      case Wait(_) =>
    }
  }

  lemma NextGrows(t: Tree, e: Edit)
    ensures t.next <= Edited(t, e).next
  {
  }

  // --- what an empty queue proves --------------------------------------

  /**
   The kernel's promise to a subtree watch, proved of every step: as long as the queue is empty, nothing a
   walk below the watched key could see has changed, and the key is where it was.
   */
  ghost predicate Quiet(w: World, v: World, fd: nat, path: Path)
    requires fd in w.armed && fd in v.armed
  {
    v.armed[fd].queue == [] ==>
      && w.armed[fd].queue == [] && SameBelow(w.tree, v.tree, w.armed[fd].key)
      && Lookup(v.tree, 0, path) == Lookup(w.tree, 0, path)
  }

  lemma SameBelowSelf(t: Tree, k: nat)
    ensures SameBelow(t, t, k)
  {
  }

  lemma CommitIsQuiet(w: World, e: Edit, note: Record, fd: nat, path: Path)
    requires Inv(w) && fd in w.armed && w.armed[fd].subtree && w.armed[fd].values
    requires Lookup(w.tree, 0, path) == Some(w.armed[fd].key)
    ensures Quiet(w, Take(w, Commit(e, note)), fd, path)
  {
    var t, k := w.tree, w.armed[fd].key;
    if !InScope(t, w.armed[fd], e) {
      CoversOwnPath(t, 0, k, path, []);
      assert path + [] == path;
      forall rel: Path
        ensures Node(t, k, rel) == Node(Edited(t, e), k, rel)
      {
        NodeUnchanged(t, e, k, path, rel);
      }
      PlaceUnchanged(t, e, path);
    }
  }

  /** A subtree watch on the key at `path`, which is still there unless the queue says otherwise. */
  ghost predicate Watching(w: World, fd: nat, path: Path) {
    && fd in w.armed && w.armed[fd].subtree && w.armed[fd].values && w.armed[fd].key !in w.tree.sealed
    && (Lookup(w.tree, 0, path) == Some(w.armed[fd].key) || AnyDeletion(w.armed[fd].queue))
  }

  /** A key stays as open to its holder as it was when it was made. */
  lemma SealStays(t: Tree, e: Edit, k: nat)
    requires k < t.next && k !in t.sealed
    ensures k !in Edited(t, e).sealed
  {
    hide Lookup;
  }

  lemma ArmedKeyIsOld(w: World, fd: nat)
    requires Inv(w) && fd in w.armed
    ensures w.armed[fd].key < w.tree.next
  {
  }

  /** A watch on the children of the key at `path`, which is still there unless the queue says otherwise. */
  ghost predicate Waiting(w: World, fd: nat, path: Path) {
    && fd in w.armed && !w.armed[fd].subtree
    && (Lookup(w.tree, 0, path) == Some(w.armed[fd].key) || AnyDeletion(w.armed[fd].queue))
  }

  lemma StepKeepsWatching(w: World, step: Step, fd: nat, path: Path)
    requires Inv(w) && Watching(w, fd, path)
    ensures Watching(Take(w, step), fd, path) && Quiet(w, Take(w, step), fd, path)
  {
    hide Told, Deletions, Edited, Lookup, Covers, InScope, SameBelow;
    var a := w.armed[fd];
    if step.Commit? {
      if Lookup(w.tree, 0, path) == Some(a.key) {
        CommitIsQuiet(w, step.e, step.note, fd, path);
      }
      CommitKeepsPlace(w.tree, a, step.e, step.note, path);
      ArmedKeyIsOld(w, fd);
      SealStays(w.tree, step.e, a.key);
    } else {
      SameBelowSelf(w.tree, a.key);
      QueueGrows(a.queue, if step.Wait? then BARE_DELETION else Deliverable(step.note));
    }
  }

  lemma QueueGrows(queue: seq<Record>, r: Record)
    ensures AnyDeletion(queue) ==> AnyDeletion(queue + [r]) && AnyDeletion(Deletions(queue) + [r])
  {
    if AnyDeletion(queue) {
      AnyDeletionOfMore(queue, r);
      AnyDeletionOfMore(Deletions(queue), r);
    }
  }

  /** After a commit the watched key is where it was, or its deletion has been told. */
  lemma CommitKeepsPlace(t: Tree, a: Armed, e: Edit, note: Record, path: Path)
    requires Consistent(t) && (Lookup(t, 0, path) == Some(a.key) || AnyDeletion(a.queue))
    ensures Lookup(Edited(t, e), 0, path) == Some(a.key) || AnyDeletion(a.queue + Told(t, a, e, note))
  {
    var more := a.queue + Told(t, a, e, note);
    if AnyDeletion(a.queue) {
      var i :| 0 <= i < |a.queue| && IsDeletion(a.queue[i]);
      assert IsDeletion(more[i]);
    } else if e.DeleteKey? && e.path == path {
      assert IsDeletion(more[|a.queue|]);
    } else {
      PlaceUnchanged(t, e, path);
    }
  }

  /** The child `name` of the key at `path`: which key it is and whether it can be opened. */
  function ChildOf(t: Tree, path: Path, name: Name): Option<(nat, bool)> {
    match Lookup(t, 0, path + [name])
    case None => None
    case Some(x) => Some((x, x in t.sealed))
  }

  /** The same promise to a watch on children: as long as the queue is empty, no child has come or gone. */
  ghost predicate QuietChildren(w: World, v: World, fd: nat, path: Path, name: Name)
    requires fd in w.armed && fd in v.armed
  {
    v.armed[fd].queue == [] ==> w.armed[fd].queue == [] && ChildOf(v.tree, path, name) == ChildOf(w.tree, path, name)
  }

  lemma CommitIsQuietOnChildren(w: World, e: Edit, note: Record, fd: nat, path: Path, name: Name)
    requires Inv(w) && fd in w.armed && !w.armed[fd].subtree && Lookup(w.tree, 0, path) == Some(w.armed[fd].key)
    ensures QuietChildren(w, Take(w, Commit(e, note)), fd, path, name)
  {
    var t, k, u := w.tree, w.armed[fd].key, Edited(w.tree, e);
    if !InScope(t, w.armed[fd], e) {
      PlaceUnchanged(t, e, path);
      LookupMore(t, 0, path, name);
      LookupMore(u, 0, path, name);
      if Lookup(t, 0, e.path).Some? {
        LookupIsLive(t, 0, e.path);
        ChildEntryUnchanged(t, e, k, name);
      }
    }
  }

  lemma ChildEntryUnchanged(t: Tree, e: Edit, k: nat, name: Name)
    requires Consistent(t) && Lookup(t, 0, e.path).Some?
    requires e.CreateKey? ==> Lookup(t, 0, e.path) != Some(k)
    requires e.DeleteKey? && e.path != [] ==> Lookup(t, 0, e.path[..|e.path| - 1]) != Some(k)
    ensures var u := Edited(t, e);
            && ((k, name) in u.child <==> (k, name) in t.child)
            && ((k, name) in t.child ==> u.child[(k, name)] == t.child[(k, name)])
            && ((k, name) in t.child ==> (t.child[(k, name)] in u.sealed <==> t.child[(k, name)] in t.sealed))
  {
    hide Lookup;
  }

  lemma StepKeepsWaiting(w: World, step: Step, fd: nat, path: Path, name: Name)
    requires Inv(w) && Waiting(w, fd, path)
    ensures Waiting(Take(w, step), fd, path) && QuietChildren(w, Take(w, step), fd, path, name)
  {
    hide Told, Deletions, Edited, Lookup, Covers, InScope;
    var a := w.armed[fd];
    if step.Commit? {
      if Lookup(w.tree, 0, path) == Some(a.key) {
        CommitIsQuietOnChildren(w, step.e, step.note, fd, path, name);
      }
      CommitKeepsPlace(w.tree, a, step.e, step.note, path);
    } else {
      QueueGrows(a.queue, if step.Wait? then BARE_DELETION else Deliverable(step.note));
    }
  }

  // --- runs ------------------------------------------------------------

  function Run(w: World, steps: seq<Step>): World
    decreases |steps|
  {
    if steps == [] then w else Run(Take(w, steps[0]), steps[1..])
  }

  /** The next burst happens; what it finds waiting comes with it. */
  function Tick(w: World): (World, Hint) {
    if w.future == [] then (w, Fits(1))
    else (Run(w, w.future[0].steps).(future := w.future[1..]), w.future[0].hint)
  }

  /** `v` is what `w` may become while a client does nothing. */
  ghost predicate Elapsed(w: World, v: World) {
    && Inv(w) && Inv(v) && v.open == w.open && v.nextFd == w.nextFd
    && v.armed.Keys == w.armed.Keys
    && w.clock <= v.clock && w.commits <= v.commits && (w.commits == v.commits ==> w.tree == v.tree)
    && Aged(w.tree, v.tree) && |v.future| <= |w.future|
  }

  lemma StepElapses(w: World, step: Step)
    requires Inv(w)
    ensures Elapsed(w, Take(w, step))
  {
    StepKeepsInv(w, step);
    if step.Commit? {
      EditAges(w.tree, step.e);
    } else {
      AgedItself(w.tree);
    }
    hide Inv, Edited, Told, Deletions, Aged;
  }

  lemma {:induction false} RunElapses(w: World, steps: seq<Step>)
    requires Inv(w)
    ensures Elapsed(w, Run(w, steps)) && Run(w, steps).future == w.future
    decreases |steps|
  {
    hide Inv, Take, Aged;
    if steps == [] {
      AgedItself(w.tree);
    } else {
      StepElapses(w, steps[0]);
      StepKeepsFuture(w, steps[0]);
      RunElapses(Take(w, steps[0]), steps[1..]);
      AgedThen(w.tree, Take(w, steps[0]).tree, Run(w, steps).tree);
    }
  }

  lemma StepKeepsFuture(w: World, step: Step)
    ensures Take(w, step).future == w.future
  {
  }

  lemma {:induction false} RunKeepsWatching(w: World, steps: seq<Step>, fd: nat, path: Path)
    requires Inv(w) && Watching(w, fd, path)
    ensures Watching(Run(w, steps), fd, path) && Quiet(w, Run(w, steps), fd, path)
    decreases |steps|
  {
    hide Inv, Take, Lookup, Node;
    if steps == [] {
      SameBelowSelf(w.tree, w.armed[fd].key);
    } else {
      StepKeepsWatching(w, steps[0], fd, path);
      StepKeepsInv(w, steps[0]);
      StepKeepsKey(w, steps[0], fd);
      RunKeepsWatching(Take(w, steps[0]), steps[1..], fd, path);
    }
  }

  lemma StepKeepsKey(w: World, step: Step, fd: nat)
    requires fd in w.armed
    ensures fd in Take(w, step).armed && Take(w, step).armed[fd].key == w.armed[fd].key
  {
  }

  lemma {:induction false} RunKeepsWaiting(w: World, steps: seq<Step>, fd: nat, path: Path, name: Name)
    requires Inv(w) && Waiting(w, fd, path)
    ensures Waiting(Run(w, steps), fd, path) && QuietChildren(w, Run(w, steps), fd, path, name)
    decreases |steps|
  {
    hide Inv, Take, Lookup, ChildOf;
    if steps != [] {
      StepKeepsWaiting(w, steps[0], fd, path, name);
      StepKeepsInv(w, steps[0]);
      RunKeepsWaiting(Take(w, steps[0]), steps[1..], fd, path, name);
    }
  }

  lemma TickElapses(w: World)
    requires Inv(w)
    ensures Elapsed(w, Tick(w).0)
    ensures w.future != [] ==> |Tick(w).0.future| < |w.future|
    ensures w.future == [] ==> Tick(w) == (w, Fits(1))
  {
    hide Run, Aged;
    if w.future == [] {
      AgedItself(w.tree);
    } else {
      RunElapses(w, w.future[0].steps);
      InvIgnoresFuture(Run(w, w.future[0].steps), w.future[1..]);
    }
  }

  lemma InvIgnoresFuture(w: World, future: seq<Burst>)
    requires Inv(w)
    ensures Inv(w.(future := future))
  {
  }

  lemma TickKeepsWatching(w: World, fd: nat, path: Path)
    requires Inv(w) && Watching(w, fd, path)
    ensures Watching(Tick(w).0, fd, path) && Quiet(w, Tick(w).0, fd, path)
  {
    hide Inv, Lookup, Node;
    if w.future == [] {
      SameBelowSelf(w.tree, w.armed[fd].key);
    } else {
      RunKeepsWatching(w, w.future[0].steps, fd, path);
    }
  }

  lemma TickKeepsWaiting(w: World, fd: nat, path: Path, name: Name)
    requires Inv(w) && Waiting(w, fd, path)
    ensures Waiting(Tick(w).0, fd, path) && QuietChildren(w, Tick(w).0, fd, path, name)
  {
    hide Inv, Lookup, ChildOf;
    if w.future != [] {
      RunKeepsWaiting(w, w.future[0].steps, fd, path, name);
    }
  }

  // --- keys over time --------------------------------------------------

  /** Key `k`, once opened at `path`, is there still or has been deleted; identities are not reused. */
  ghost predicate Placed(t: Tree, k: nat, path: Path) {
    k < t.next && (k in t.keys ==> Lookup(t, 0, path) == Some(k) && k !in t.sealed)
  }

  /** What any commits do to a key: it stays where it is until it is deleted, and never comes back. */
  ghost predicate Aged(t: Tree, u: Tree) {
    && t.next <= u.next && (forall k :: k < t.next && k in u.keys ==> k in t.keys)
    && (forall k, path {:trigger Placed(u, k, path)} {:trigger Placed(t, k, path)} :: Placed(t, k, path) ==> Placed(u, k, path))
  }

  lemma AgedItself(t: Tree)
    ensures Aged(t, t)
  {
  }

  lemma AgedThen(t: Tree, u: Tree, v: Tree)
    requires Aged(t, u) && Aged(u, v)
    ensures Aged(t, v)
  {
    hide Placed;
    forall k, path | Placed(t, k, path)
      ensures Placed(v, k, path)
    {
      assert Placed(u, k, path);
    }
  }

  lemma EditKeepsPlaced(t: Tree, e: Edit, k: nat, path: Path)
    requires Consistent(t) && Placed(t, k, path)
    ensures Placed(Edited(t, e), k, path)
  {
    NextGrows(t, e);
    if k in t.keys && !(e.DeleteKey? && e.path == path) {
      PlaceUnchanged(t, e, path);
    }
  }

  lemma EditAges(t: Tree, e: Edit)
    requires Consistent(t)
    ensures Aged(t, Edited(t, e))
  {
    hide Placed, Lookup;
    forall k, path | Placed(t, k, path)
      ensures Placed(Edited(t, e), k, path)
    {
      EditKeepsPlaced(t, e, k, path);
    }
  }

  /** The key that could be opened at `path` in `t` is alive in `u`. */
  predicate Lives(t: Tree, u: Tree, path: Path) {
    Openable(t, path).Some? && Openable(t, path).value in u.keys
  }

  /** Then it could be opened there at any moment between. */
  lemma LivesBetween(t: Tree, u: Tree, v: Tree, path: Path)
    requires Consistent(t) && Aged(t, u) && Aged(u, v) && Lives(t, v, path)
    ensures Openable(u, path) == Openable(t, path) && Lives(t, u, path) && Lives(u, v, path)
  {
    LookupIsLive(t, 0, path);
    hide Lookup;
    assert Placed(t, Openable(t, path).value, path);
    assert Placed(u, Openable(t, path).value, path);
  }

  // --- system calls ----------------------------------------------------

  datatype Opened = Opened(fd: nat) | Missing | Denied

  datatype ReadResult = Bytes(b: seq<byte>) | Again | Interrupted | Failed

  /** How many of the waiting records one read returns: at least one. */
  function Taken(n: nat, queue: seq<Record>): (k: nat)
    requires queue != []
    ensures 1 <= k <= |queue|
  {
    if n == 0 then 1 else if n > |queue| then |queue| else n
  }

  function WithHandle(w: World, k: nat): World {
    w.(open := w.open[w.nextFd := k], nextFd := w.nextFd + 1)
  }

  function WithoutHandle(w: World, fd: nat): World {
    w.(open := w.open - {fd}, armed := w.armed - {fd})
  }

  /** The calls the policy makes. Other programs run before each of them. */
  class Kernel {
    var w: World

    constructor (w: World)
      requires Inv(w)
      ensures this.w == w
    {
      this.w := w;
    }

    /** Opening a key by its path. */
    method Open(path: Path) returns (r: Opened)
      requires Inv(w)
      modifies this
      ensures Inv(w) && var v := Tick(old(w)).0;
              match Lookup(v.tree, 0, path)
              case None => r == Missing && w == v
              case Some(k) => if k in v.tree.sealed then r == Denied && w == v
                              else r == Opened(v.nextFd) && w == WithHandle(v, k)
    {
      TickElapses(w);
      hide Tick;
      w := Tick(w).0;
      match Lookup(w.tree, 0, path) {
        case None => r := Missing;
        case Some(k) =>
          LookupIsLive(w.tree, 0, path);
          if k in w.tree.sealed {
            r := Denied;
          } else {
            HandleKeepsInv(w, k);
            r := Opened(w.nextFd);
            w := WithHandle(w, k);
          }
      }
    }

    /** Opening a child of an open key. */
    method OpenSubkey(fd: nat, name: Name) returns (r: Option<nat>)
      requires Inv(w) && fd in w.open
      modifies this
      ensures Inv(w) && var v := Tick(old(w)).0;
              && fd in v.open
              && match Lookup(v.tree, v.open[fd], [name])
                 case None => r == None && w == v
                 case Some(k) => if k in v.tree.sealed then r == None && w == v
                                 else r == Some(v.nextFd) && w == WithHandle(v, k)
    {
      TickElapses(w);
      hide Tick, Lookup;
      w := Tick(w).0;
      match Lookup(w.tree, w.open[fd], [name]) {
        case None => r := None;
        case Some(k) =>
          ChildIsLive(w.tree, w.open[fd], name);
          if k in w.tree.sealed {
            r := None;
          } else {
            HandleKeepsInv(w, k);
            r := Some(w.nextFd);
            w := WithHandle(w, k);
          }
      }
    }

    /** Reading the stored value of an open key; a deleted key has none. */
    method QueryValue(fd: nat) returns (r: Option<Stored>)
      requires Inv(w) && fd in w.open
      modifies this
      ensures Inv(w) && w == Tick(old(w)).0 && fd in w.open && r == ValueAt(w.tree, w.open[fd])
    {
      TickElapses(w);
      hide Tick;
      w := Tick(w).0;
      r := ValueAt(w.tree, w.open[fd]);
    }

    /** Arming a watch; it fails on a key that has been deleted. */
    method Arm(fd: nat, values: bool, subtree: bool) returns (ok: bool)
      requires Inv(w) && fd in w.open
      modifies this
      ensures Inv(w) && var v := Tick(old(w)).0;
              && fd in v.open && (ok <==> v.open[fd] in v.tree.keys)
              && w == if ok then v.(armed := v.armed[fd := Armed(v.open[fd], values, subtree, [])]) else v
    {
      TickElapses(w);
      hide Tick;
      w := Tick(w).0;
      ok := w.open[fd] in w.tree.keys;
      if ok {
        w := w.(armed := w.armed[fd := Armed(w.open[fd], values, subtree, [])]);
      }
    }

    /** A non-blocking read of waiting records. */
    method Read(fd: nat) returns (r: ReadResult)
      requires Inv(w) && fd in w.armed
      modifies this
      ensures Inv(w) && var (v, hint) := Tick(old(w));
              && fd in v.armed
              && var queue := v.armed[fd].queue;
              match hint
              case Signal => r == Interrupted && w == v
              case Failure => r == Failed && w == v
              case Fits(n) =>
                if queue == [] then r == Again && w == v
                else
                  && r == Bytes(EncodeAll(queue[..Taken(n, queue)]))
                  && w == v.(armed := v.armed[fd := v.armed[fd].(queue := queue[Taken(n, queue)..])])
    {
      TickElapses(w);
      hide Tick;
      var (v, hint) := Tick(w);
      w := v;
      var queue := v.armed[fd].queue;
      match hint {
        case Signal => r := Interrupted;
        case Failure => r := Failed;
        case Fits(n) =>
          if queue == [] {
            r := Again;
          } else {
            var k := Taken(n, queue);
            r := Bytes(EncodeAll(queue[..k]));
            w := v.(armed := v.armed[fd := v.armed[fd].(queue := queue[k..])]);
          }
      }
    }

    method Close(fd: nat)
      requires Inv(w)
      modifies this
      ensures Inv(w) && w == WithoutHandle(old(w), fd)
    {
      w := WithoutHandle(w, fd);
    }

    method Now() returns (t: nat)
      requires Inv(w)
      modifies this
      ensures Inv(w) && w == Tick(old(w)).0 && t == w.clock
    {
      TickElapses(w);
      hide Tick;
      w := Tick(w).0;
      t := w.clock;
    }
  }

  lemma ChildIsLive(t: Tree, k: nat, name: Name)
    requires Consistent(t) && Lookup(t, k, [name]).Some?
    ensures Lookup(t, k, [name]).value in t.keys
  {
  }

  lemma HandleKeepsInv(w: World, k: nat)
    requires Inv(w) && k in w.tree.keys
    ensures Inv(WithHandle(w, k))
  {
  }
}
