/**
 Reading a ring buffer while its producer runs (event/ring.go). Before every load, and before every
 single byte of a header, the producer may take any number of steps: `future` holds one burst of steps
 for each load to come, and since it is arbitrary, what holds of every future holds of every interleaving.
 Loads are sequentially consistent and positions do not wrap.
 */
module Mapping {
  import opened Bytes
  import opened Events
  import opened Producer

  datatype World = World(shared: Shared, future: seq<seq<Step>>)

  /** The next burst happens. */
  function Tick(w: World): (t: World)
    requires Inv(w.shared)
  {
    if w.future == [] then w else World(Run(w.shared, w.future[0]), w.future[1..])
  }

  /** How many steps the producer has left to take. */
  function Budget(future: seq<seq<Step>>): nat {
    if future == [] then 0 else |future[0]| + Budget(future[1..])
  }

  /** `b` is what `a` may become: a later state, whose evictions are paid for by steps taken. */
  ghost predicate Elapsed(a: World, b: World) {
    && Inv(a.shared) && Inv(b.shared) && Later(a.shared, b.shared)
    && Budget(b.future) + (b.shared.oldest - a.shared.oldest) <= Budget(a.future)
  }

  lemma TickElapses(w: World)
    requires Inv(w.shared)
    ensures Elapsed(w, Tick(w))
  {
    hide Inv;
    if w.future != [] {
      RunKeepsInv(w.shared, w.future[0]);
    }
  }

  lemma ElapsedNothing(w: World)
    requires Inv(w.shared)
    ensures Elapsed(w, w)
  {
    hide Inv;
  }

  lemma ElapsedThen(a: World, b: World, c: World)
    requires Elapsed(a, b) && Elapsed(b, c)
    ensures Elapsed(a, c)
  {
    hide Inv, Budget;
  }

  // --- the mapped memory -----------------------------------------------

  /** The mapping: metadata words, and a data region mapped twice in a row. */
  class Mapped {
    var w: World

    constructor (w: World)
      requires Inv(w.shared)
      ensures this.w == w && Valid()
    {
      this.w := w;
    }

    ghost predicate Valid()
      reads this
    {
      Inv(w.shared)
    }

    method LoadWritePos() returns (v: nat)
      requires Valid()
      modifies this
      ensures Valid() && w == Tick(old(w)) && v == WritePos(w.shared)
    {
      hide Inv;
      TickElapses(w);
      w := Tick(w);
      v := WritePos(w.shared);
    }

    method LoadTailPos() returns (v: nat)
      requires Valid()
      modifies this
      ensures Valid() && w == Tick(old(w)) && v == TailPos(w.shared)
    {
      TickElapses(w);
      hide Tick;
      w := Tick(w);
      v := TailPos(w.shared);
    }

    method LoadGeneration() returns (v: nat)
      requires Valid()
      modifies this
      ensures Valid() && w == Tick(old(w)) && v == w.shared.generation
    {
      hide Inv;
      TickElapses(w);
      w := Tick(w);
      v := w.shared.generation;
    }

    /** A byte of the data region; index `i` and index `i + cap` are the same memory. */
    method LoadByte(i: nat) returns (b: byte)
      requires Valid() && i < 2 * w.shared.cap
      modifies this
      ensures Valid() && w == Tick(old(w)) && b == w.shared.mem[i % w.shared.cap]
    {
      TickElapses(w);
      hide Tick;
      w := Tick(w);
      b := w.shared.mem[i % w.shared.cap];
    }
  }

  lemma AddMod(p: nat, q: nat, j: nat, cap: nat)
    requires cap > 0 && p % cap == q % cap
    ensures (p + j) % cap == (q + j) % cap
  {
    ModOfSum(p, j, cap);
    ModOfSum(q, j, cap);
  }

  lemma ModOfSum(p: nat, j: nat, cap: nat)
    requires cap > 0
    ensures (p + j) % cap == (p % cap + j) % cap
  {
    var k := p / cap;
    assert p + j == cap * k + (p % cap + j);
    ModOfMultiple(p % cap + j, k, cap);
  }

  lemma {:induction false} ModOfMultiple(r: nat, k: nat, cap: nat)
    requires cap > 0
    ensures (cap * k + r) % cap == r % cap
  {
    if k > 0 {
      ModOfMultiple(r, k - 1, cap);
      assert cap * k + r == cap * (k - 1) + r + cap;
      ModOfNext(cap * (k - 1) + r, cap);
    }
  }

  lemma ModOfNext(n: nat, cap: nat)
    requires cap > 0
    ensures (n + cap) % cap == n % cap
  {
    var q, r := n / cap, n % cap;
    assert n + cap == cap * (q + 1) + r;
    QuotientIsUnique(n + cap, cap, q + 1, r);
  }

  /** Bytes loaded from index `i` on, with a burst of the producer before each; and the world after. */
  ghost function Loaded(w: World, i: nat, n: nat): (r: (seq<byte>, World))
    requires Inv(w.shared)
    ensures Inv(r.1.shared) && |r.0| == n
  {
    hide Inv;
    if n == 0 then ([], w)
    else
      var (b, v) := Loaded(w, i, n - 1);
      TickElapses(v);
      (b + [Tick(v).shared.mem[(i + n - 1) % Tick(v).shared.cap]], Tick(v))
  }

  /**
   Bytes read one at a time. If at the end the tail has not passed position `p`, they are the stream's:
   whatever the producer did meanwhile, it did not do to them.
   */
  method LoadBytes(m: Mapped, i: nat, n: nat, ghost p: nat) returns (b: seq<byte>)
    requires m.Valid() && i + n <= 2 * m.w.shared.cap && i % m.w.shared.cap == p % m.w.shared.cap
    requires p + n <= WritePos(m.w.shared)
    modifies m
    ensures Elapsed(old(m.w), m.w) && |b| == n
    ensures p + n <= WritePos(m.w.shared)
    ensures TailPos(m.w.shared) <= p ==> b == Stream(m.w.shared.log)[p..p + n]
    ensures (b, m.w) == Loaded(old(m.w), i, n)
  {
    hide Inv, Budget, Stream, Tick, Start;
    b := [];
    ghost var w0 := m.w;
    for j := 0 to n
      invariant Elapsed(w0, m.w) && |b| == j && p + n <= WritePos(m.w.shared)
      invariant TailPos(m.w.shared) <= p ==> b == Stream(m.w.shared.log)[p..p + j]
      invariant (b, m.w) == Loaded(w0, i, j)
    {
      ghost var before := m.w;
      var x := m.LoadByte(i + j);
      TickElapses(before);
      ElapsedThen(w0, before, m.w);
      OneMoreByte(before.shared, m.w.shared, i, j, p, b, x);
      b := b + [x];
    }
  }

  lemma CapStays(s: Shared, t: Shared)
    requires Later(s, t)
    ensures s.cap == t.cap
  {
  }

  lemma OneMoreByte(s: Shared, t: Shared, i: nat, j: nat, p: nat, b: seq<byte>, x: byte)
    requires Inv(s) && Inv(t) && Later(s, t)
    requires i % t.cap == p % t.cap && p + j < WritePos(s) && |b| == j
    requires TailPos(s) <= p ==> b == Stream(s.log)[p..p + j]
    requires x == t.mem[(i + j) % t.cap]
    ensures WritePos(s) <= WritePos(t)
    ensures TailPos(t) <= p ==> b + [x] == Stream(t.log)[p..p + j + 1]
  {
    hide Inv, Stream, Start, Later;
    assert s.cap == t.cap by { CapStays(s, t); }
    TailGrows(s, t);
    if TailPos(t) <= p {
      AddMod(i, p, j, t.cap);
      PublishedByte(t, p + j);
      assert Stream(t.log)[p..p + j] == Stream(s.log)[p..p + j];
    }
  }

  /** Bytes [lo, hi) of event `k`, read from the window at `off`. */
  method LoadField(m: Mapped, off: nat, lo: nat, hi: nat, ghost k: nat) returns (b: seq<byte>)
    requires m.Valid() && k < |m.w.shared.log| && off == Start(m.w.shared.log, k) % m.w.shared.cap
    requires lo <= hi <= Size(m.w.shared.log[k]) <= m.w.shared.cap
    modifies m
    ensures Elapsed(old(m.w), m.w) && |b| == hi - lo
    ensures k < |m.w.shared.log| && hi <= Size(m.w.shared.log[k])
    ensures Start(m.w.shared.log, k) == Start(old(m.w.shared.log), k)
    ensures TailPos(m.w.shared) <= Start(m.w.shared.log, k) ==> b == Encode(m.w.shared.log[k])[lo..hi]
    ensures (b, m.w) == Loaded(old(m.w), off + lo, hi - lo)
  {
    hide Inv, Budget, Stream, Start, Encode, Tick, Loaded;
    ghost var log := m.w.shared.log;
    ghost var p := Start(log, k);
    EventAt(log, k);
    ModOfSum(p, lo, m.w.shared.cap);
    b := LoadBytes(m, off + lo, hi - lo, p + lo);
    StartsAgree(log, m.w.shared.log, k);
    EventAt(m.w.shared.log, k);
    FieldOfStream(Stream(m.w.shared.log), p, Encode(m.w.shared.log[k]), lo, hi);
  }

  lemma FieldOfStream(stream: seq<byte>, p: nat, e: seq<byte>, lo: nat, hi: nat)
    requires p + |e| <= |stream| && stream[p..p + |e|] == e && lo <= hi <= |e|
    ensures stream[p + lo..p + hi] == e[lo..hi]
  {
    forall i | 0 <= i < hi - lo
      ensures stream[p + lo..p + hi][i] == e[lo..hi][i]
    {
      assert stream[p..p + |e|][lo + i] == e[lo + i];
    }
  }

  // --- a producer that acts at once ------------------------------------

  /** Bytes that are what the memory holds at index `i`. */
  predicate Holds(s: Shared, i: nat, b: seq<byte>)
    requires |s.mem| == s.cap > 0
  {
    forall j :: 0 <= j < |b| ==> b[j] == s.mem[(i + j) % s.cap]
  }

  lemma HoldsMore(s: Shared, i: nat, b: seq<byte>, x: byte)
    requires |s.mem| == s.cap > 0 && Holds(s, i, b) && x == s.mem[(i + |b|) % s.cap]
    ensures Holds(s, i, b + [x])
  {
  }

  lemma TickSettles(w: World)
    requires Inv(w.shared)
    ensures |w.future| <= 1 ==> Inv(Tick(w).shared) && Tick(w).future == [] && Tick(Tick(w)) == Tick(w)
  {
    TickElapses(w);
    hide Inv, Run;
  }

  /** If all that is still to come comes in one burst, what is loaded is what that leaves in memory. */
  lemma {:induction false} LoadedAtOnce(w: World, i: nat, n: nat)
    requires Inv(w.shared) && |w.future| <= 1
    ensures var (b, v) := Loaded(w, i, n); v == (if n == 0 then w else Tick(w)) && Holds(v.shared, i, b)
    decreases n
  {
    hide Inv, Tick;
    if n > 0 {
      LoadedAtOnce(w, i, n - 1);
      TickSettles(w);
      var b := Loaded(w, i, n - 1).0;
      if n > 1 {
        HoldsMore(Tick(w).shared, i, b, Tick(w).shared.mem[(i + n - 1) % Tick(w).shared.cap]);
      }
    }
  }
}
