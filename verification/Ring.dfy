/** The KMES ring consumer (event/ring.go). */
module Ring {
  import opened Wrappers
  import opened Bytes
  import opened Events
  import opened Producer
  import opened Mapping

  // --- the cursor mask -------------------------------------------------

  /** Bitwise and. */
  function And(a: nat, b: nat): nat {
    if a == 0 || b == 0 then 0 else 2 * And(a / 2, b / 2) + (a % 2) * (b % 2)
  }

  /** For a power of two, masking a position with capacity - 1 is taking it modulo the capacity. */
  lemma {:induction false} MaskIsModulo(a: nat, k: nat)
    ensures And(a, Pow2(k) - 1) == a % Pow2(k)
    decreases k
  {
    if k > 0 {
      hide And;
      var m := Pow2(k - 1);
      MaskIsModulo(a / 2, k - 1);
      AndOfOdd(a, m - 1);
      HalfOf(a, m);
    } else {
      assert And(a, 0) == 0;
    }
  }

  lemma HalfOf(a: nat, m: nat)
    requires m > 0
    ensures a % (2 * m) == 2 * (a / 2 % m) + a % 2
  {
    assert a / 2 == m * (a / 2 / m) + a / 2 % m;
    Halving(a, m, a / 2 / m, a / 2 % m);
  }

  lemma AndOfOdd(a: nat, half: nat)
    ensures And(a, 2 * half + 1) == 2 * And(a / 2, half) + a % 2
  {
    assert (2 * half + 1) / 2 == half && (2 * half + 1) % 2 == 1;
  }

  lemma Halving(a: nat, m: nat, q: nat, r: nat)
    requires m > 0 && a / 2 == m * q + r && r < m
    ensures a % (2 * m) == 2 * r + a % 2
  {
    assert 2 * m * q == 2 * (m * q);
    QuotientIsUnique(a, 2 * m, q, 2 * r + a % 2);
  }

  // --- history ---------------------------------------------------------

  predicate Ascending(yielded: seq<nat>, bound: nat) {
    && (forall i :: 0 <= i < |yielded| ==> yielded[i] < bound)
    && forall i, j :: 0 <= i < j < |yielded| ==> yielded[i] < yielded[j]
  }

  /**
   What the counters say of the log indices yielded so far: the last sequence is the last event's, and
   events yielded and events counted lost together span the sequence numbers from first to last.
   */
  predicate Accounted(log: seq<Record>, yielded: seq<nat>, lastSeq: nat, lostEvents: nat) {
    && Ascending(yielded, |log|)
    && if yielded == [] then lastSeq == 0 && lostEvents == 0
       else
         && lastSeq == log[yielded[|yielded| - 1]].sequence
         && |yielded| + lostEvents == lastSeq - log[yielded[0]].sequence + 1
  }

  /** Gap detection: yielding event `at` keeps the account. */
  lemma AccountNext(log: seq<Record>, yielded: seq<nat>, lastSeq: nat, lostEvents: nat, at: nat)
    requires Increasing(log) && Accounted(log, yielded, lastSeq, lostEvents)
    requires at < |log| && Ascending(yielded, at)
    ensures var seqNo := log[at].sequence;
            var lost := if lastSeq != 0 && seqNo > lastSeq + 1 then lostEvents + (seqNo - lastSeq - 1) else lostEvents;
            Accounted(log, yielded + [at], seqNo, lost)
    ensures lastSeq < log[at].sequence
  {
    if yielded != [] {
      var last := yielded[|yielded| - 1];
      assert log[last].sequence < log[at].sequence;
      assert log[0].sequence >= 1;
      assert last == 0 || log[0].sequence < log[last].sequence;
      assert (yielded + [at])[0] == yielded[0];
    } else if at > 0 {
      assert log[0].sequence < log[at].sequence;
    }
  }

  lemma AccountLater(log: seq<Record>, longer: seq<Record>, yielded: seq<nat>, lastSeq: nat, lostEvents: nat)
    requires log <= longer && Accounted(log, yielded, lastSeq, lostEvents)
    ensures Accounted(longer, yielded, lastSeq, lostEvents)
  {
  }

  // --- parsing in place ------------------------------------------------

  /** Event `k` has not been given up. */
  ghost predicate Kept(w: World, k: nat)
    requires Inv(w.shared) && k <= |w.shared.log|
  {
    TailPos(w.shared) <= Start(w.shared.log, k)
  }

  /** An event kept until later was kept before. */
  lemma KeptBefore(a: World, b: World, k: nat)
    requires Elapsed(a, b) && k <= |a.shared.log| && Kept(b, k)
    ensures Kept(a, k)
  {
    hide Stream, Start, Inv, Budget;
    TailGrows(a.shared, b.shared);
    StartsAgree(a.shared.log, b.shared.log, k);
  }

  /** The window of event `k` starts at `off`. */
  ghost predicate At(w: World, off: nat, k: nat)
    requires Inv(w.shared)
  {
    k < |w.shared.log| && off == Start(w.shared.log, k) % w.shared.cap && Size(w.shared.log[k]) <= w.shared.cap
  }

  method LoadSizes(m: Mapped, off: nat, ghost k: nat) returns (size: nat, header: nat, typeLen: nat)
    requires m.Valid() && At(m.w, off, k) && Emittable(m.w.shared.log[k])
    modifies m
    ensures Elapsed(old(m.w), m.w) && At(m.w, off, k)
    ensures Kept(m.w, k) ==> var r := m.w.shared.log[k]; size == Size(r) && header == HeaderSize(r) && typeLen == |r.kind|
  {
    hide Tick, Budget, Stream, Start, Encode, Inv, Word16, Word32, Size, HeaderSize;
    ghost var w0 := m.w;
    FieldsOfEncoded(m.w.shared.log[k]);
    var a := LoadField(m, off, SIZE_OFF, SIZE_OFF + 4, k);
    ghost var w1 := m.w;
    var b := LoadField(m, off, HEADER_OFF, HEADER_OFF + 4, k);
    ghost var w2 := m.w;
    var c := LoadField(m, off, TYPE_LEN_OFF, TYPE_LEN_OFF + 2, k);
    size, header, typeLen := Word32(a), Word32(b), Word16(c);
    ElapsedThen(w0, w1, w2);
    ElapsedThen(w0, w2, m.w);
    if Kept(m.w, k) {
      KeptBefore(w2, m.w, k);
      KeptBefore(w1, w2, k);
    }
  }

  method LoadScalars(m: Mapped, off: nat, ghost k: nat) returns (timestamp: nat, sequence: nat, cpu: nat, origin: byte)
    requires m.Valid() && At(m.w, off, k) && Emittable(m.w.shared.log[k])
    modifies m
    ensures Elapsed(old(m.w), m.w) && At(m.w, off, k)
    ensures Kept(m.w, k) ==> var r := m.w.shared.log[k]; timestamp == r.timestamp && sequence == r.sequence && cpu == r.cpu && origin == r.origin
  {
    hide Tick, Budget, Stream, Start, Encode, Inv, Word16, Word64, Size, HeaderSize;
    ghost var w0 := m.w;
    FieldsOfEncoded(m.w.shared.log[k]);
    var a := LoadField(m, off, TIMESTAMP_OFF, TIMESTAMP_OFF + 8, k);
    ghost var w1 := m.w;
    var b := LoadField(m, off, SEQUENCE_OFF, SEQUENCE_OFF + 8, k);
    ghost var w2 := m.w;
    var c := LoadField(m, off, CPU_OFF, CPU_OFF + 2, k);
    ghost var w3 := m.w;
    var d := LoadField(m, off, ORIGIN_OFF, ORIGIN_OFF + 1, k);
    timestamp, sequence, cpu, origin := Word64(a), Word64(b), Word16(c), d[0];
    ElapsedThen(w0, w1, w2);
    ElapsedThen(w0, w2, w3);
    ElapsedThen(w0, w3, m.w);
    if Kept(m.w, k) {
      KeptBefore(w3, m.w, k);
      KeptBefore(w2, w3, k);
      KeptBefore(w1, w2, k);
    }
  }

  /**
   wire.ParseEvent on the window at `off`, one byte at a time. If at the end the tail has not passed
   event `k`, which starts there, the view is that event's, whatever happened in between.
   */
  method ParseShared(m: Mapped, off: nat, ghost k: nat) returns (v: Option<View>)
    requires m.Valid() && At(m.w, off, k) && Emittable(m.w.shared.log[k])
    modifies m
    ensures Elapsed(old(m.w), m.w) && At(m.w, off, k)
    ensures Kept(m.w, k) ==> v == Some(ViewOf(m.w.shared.log[k]))
  {
    hide Tick, Budget, Stream, Start, Inv;
    var size, header, typeLen := LoadSizes(m, off, k);
    var room := m.w.shared.cap;
    if !Structural(size, header, typeLen, room) {
      return None;
    }
    ghost var w1 := m.w;
    var timestamp, sequence, cpu, origin := LoadScalars(m, off, k);
    v := Some(View(size, header, timestamp, sequence, cpu, origin, typeLen));
    ElapsedThen(old(m.w), w1, m.w);
    if Kept(m.w, k) {
      KeptBefore(w1, m.w, k);
    }
  }

  /** The event assembled from the window at `off`, field after field. */
  ghost function Copied(w: World, off: nat, view: View): (Event, World)
    requires Inv(w.shared) && HEADER_BASE + view.typeLen <= view.header <= view.size
  {
    hide Inv;
    var (effective, w1) := Loaded(w, off + EFFECTIVE_OFF, 16);
    var (trueToken, w2) := Loaded(w1, off + TRUE_OFF, 16);
    var (process, w3) := Loaded(w2, off + PROCESS_OFF, 16);
    var (kind, w4) := Loaded(w3, off + HEADER_BASE, view.typeLen);
    var (payload, w5) := Loaded(w4, off + view.header, view.size - view.header);
    (Event(view, effective, trueToken, process, kind, payload), w5)
  }

  /** With all that is to come in one burst, the payload copied is what that leaves in memory. */
  lemma CopiedAtOnce(w: World, off: nat, view: View)
    requires Inv(w.shared) && |w.future| <= 1 && HEADER_BASE + view.typeLen <= view.header <= view.size
    ensures var (e, v) := Copied(w, off, view);
            && v == Tick(w) && Inv(v.shared) && |e.payload| == view.size - view.header
            && Holds(v.shared, off + view.header, e.payload)
  {
    hide Inv, Tick, Loaded, Holds;
    TickElapses(w);
    TickSettles(w);
    LoadedAtOnce(w, off + EFFECTIVE_OFF, 16);
    LoadedAtOnce(Tick(w), off + TRUE_OFF, 16);
    LoadedAtOnce(Tick(w), off + PROCESS_OFF, 16);
    LoadedAtOnce(Tick(w), off + HEADER_BASE, view.typeLen);
    LoadedAtOnce(Tick(w), off + view.header, view.size - view.header);
  }

  // --- the consumer ----------------------------------------------------

  /** `readPos` is where event `at` starts, or will start when it is published. */
  ghost predicate Cursor(s: Shared, at: nat, readPos: nat) {
    at <= |s.log| && readPos == Start(s.log, at)
  }

  lemma CursorLater(s: Shared, t: Shared, at: nat, readPos: nat)
    requires Cursor(s, at, readPos) && Later(s, t)
    ensures Cursor(t, at, readPos)
  {
    hide Stream, Start;
    StartsAgree(s.log, t.log, at);
  }

  /** The cursor's event is published exactly when the cursor is below the write position. */
  lemma CursorBelow(s: Shared, at: nat, readPos: nat)
    requires Cursor(s, at, readPos)
    ensures readPos <= WritePos(s) && (readPos < WritePos(s) <==> at < |s.log|)
    ensures s.oldest <= |s.log| ==> (readPos < TailPos(s) <==> at < s.oldest)
  {
    hide Stream;
    StartOrder(s.log, at, 0);
    if s.oldest <= |s.log| {
      StartOrder(s.log, at, s.oldest);
    }
  }

  /** What a retry uses up: evictions to come, and being behind the tail. */
  ghost function Measure(w: World, at: nat): nat {
    2 * Budget(w.future) + (if at < w.shared.oldest then 1 else 0)
  }

  datatype Outcome = Yielded(view: View) | Empty | Resized

  /** How many retries were made, and how the cursor moved: every retry is paid for by an eviction, but for one. */
  ghost predicate Progress(s0: Shared, s: Shared, first: nat, at: nat, torn: nat, lapped: nat) {
    && first <= at && s0.oldest <= s.oldest
    && (lapped == 0 <==> at == first)
    && torn <= s.oldest - s0.oldest
    && (lapped > 0 ==> s0.oldest <= at <= s.oldest && lapped <= at - s0.oldest + 1)
  }

  /** Consecutive indices from `start`. */
  predicate Stretch(indices: seq<nat>, start: nat) {
    forall i :: 0 <= i < |indices| ==> indices[i] == start + i
  }

  /** What the history says once the cursor has moved without yielding. */
  ghost predicate Tracks(log: seq<Record>, yielded: seq<nat>, lastSeq: nat, lostEvents: nat, start: nat, due: nat, laps: nat) {
    && Accounted(log, yielded, lastSeq, lostEvents) && Ascending(yielded, due)
    && (laps == 0 ==> start + |yielded| == due && Stretch(yielded, start))
  }

  lemma TracksLater(log: seq<Record>, longer: seq<Record>, yielded: seq<nat>, lastSeq: nat, lostEvents: nat,
                    start: nat, due: nat, laps: nat)
    requires log <= longer && Tracks(log, yielded, lastSeq, lostEvents, start, due, laps)
    ensures Tracks(longer, yielded, lastSeq, lostEvents, start, due, laps)
  {
    AccountLater(log, longer, yielded, lastSeq, lostEvents);
  }

  lemma TracksNothing(log: seq<Record>, at: nat)
    ensures Tracks(log, [], 0, 0, at, at, 0)
  {
  }

  lemma TracksLapped(log: seq<Record>, yielded: seq<nat>, lastSeq: nat, lostEvents: nat,
                     start: nat, due: nat, laps: nat, due': nat)
    requires Tracks(log, yielded, lastSeq, lostEvents, start, due, laps) && due <= due'
    ensures Tracks(log, yielded, lastSeq, lostEvents, start, due', laps + 1)
  {
  }

  lemma TracksYield(log: seq<Record>, yielded: seq<nat>, lastSeq: nat, lostEvents: nat, start: nat, at: nat, laps: nat)
    requires Increasing(log) && at < |log| && Tracks(log, yielded, lastSeq, lostEvents, start, at, laps)
    ensures var seqNo := log[at].sequence;
            var lost := if lastSeq != 0 && seqNo > lastSeq + 1 then lostEvents + (seqNo - lastSeq - 1) else lostEvents;
            Tracks(log, yielded + [at], seqNo, lost, start, at + 1, laps)
  {
    AccountNext(log, yielded, lastSeq, lostEvents, at);
  }

  /** A consumer attached to a mapping; ghost fields say which log events its cursor and counters stand for. */
  class Consumer {
    const base: Mapped
    var capacity: nat
    var generation: nat
    var readPos: nat
    var pending: nat
    var lastSeq: nat
    var lostEvents: nat
    ghost var at: nat
    ghost var start: nat
    ghost var yielded: seq<nat>
    ghost var laps: nat

    /** The log index the next call looks at first. */
    ghost function Due(): nat
      reads this
    {
      if pending != 0 then at + 1 else at
    }

    /**
     The cursor is an event boundary at or below the write position; `pending` is the size of the event
     there when it has been yielded; the counters account for the events yielded; and as long as the
     cursor was never lapped, those are the log from `start` on, in order.
     */
    ghost predicate Valid()
      reads this, base
    {
      && base.Valid()
      && capacity == base.w.shared.cap && (exists k :: capacity == Pow2(k))
      && Cursor(base.w.shared, at, readPos)
      && (pending != 0 ==> at < |base.w.shared.log| && pending == Size(base.w.shared.log[at]))
      && Tracks(base.w.shared.log, yielded, lastSeq, lostEvents, start, Due(), laps)
    }

    /** mapRing, once it has sampled the generation and then the tail: reading starts at the oldest event. */
    constructor (base: Mapped, generation: nat, readPos: nat, ghost k: nat)
      requires base.Valid() && base.w.shared.cap == Pow2(k) && readPos == TailPos(base.w.shared)
      ensures this.base == base && this.generation == generation && Valid()
      ensures at == start == base.w.shared.oldest && yielded == [] && laps == 0 && pending == 0 && lastSeq == 0
    {
      hide Inv, Tick, Budget, Stream, Start, Tracks, Pow2;
      this.base, this.generation, this.readPos := base, generation, readPos;
      capacity := base.w.shared.cap;
      pending, lastSeq, lostEvents := 0, 0, 0;
      at, start := base.w.shared.oldest, base.w.shared.oldest;
      yielded, laps := [], 0;
      TracksNothing(base.w.shared.log, base.w.shared.oldest);
    }

    /** The event yielded by the previous call is stepped over. */
    method StepOver()
      requires Valid()
      modifies this`readPos, this`pending, this`at
      ensures Valid() && pending == 0 && at == old(Due())
    {
      hide Inv, Stream, Tracks;
      if pending != 0 {
        EventAt(base.w.shared.log, at);
        readPos := readPos + pending;
        at := at + 1;
        pending := 0;
      }
    }

    /**
     The body of Next's loop once the cursor is known to be below the write position. None is a retry:
     the cursor was lapped and has moved up to the tail, or the tail passed it during the parse.
     An event that was not torn always parses, so the source's parse-error exit is never taken.
     */
    method TryEvent(mask: nat) returns (v: Option<View>)
      requires base.Valid() && mask == capacity - 1 && capacity == base.w.shared.cap && exists k :: capacity == Pow2(k)
      requires Cursor(base.w.shared, at, readPos) && at < |base.w.shared.log|
      modifies this`readPos, this`at, base
      ensures Elapsed(old(base.w), base.w) && Cursor(base.w.shared, at, readPos) && at < |base.w.shared.log| + 1
      ensures v.Some? ==> at == old(at) < |base.w.shared.log| && v.value == ViewOf(base.w.shared.log[at])
      ensures v.None? ==> Measure(base.w, at) < Measure(old(base.w), old(at))
      ensures v.None? && at == old(at) ==> old(base.w.shared.oldest) < base.w.shared.oldest
      ensures v.None? && at != old(at) ==> old(at) < at && old(base.w.shared.oldest) <= at <= base.w.shared.oldest
    {
      hide Inv, Tick, Budget, Stream, Start;
      ghost var w0 := base.w;
      TickElapses(w0);
      var savedTail := base.LoadTailPos();
      ghost var w1 := base.w;
      CursorLater(w0.shared, w1.shared, at, readPos);
      CursorBelow(w1.shared, at, readPos);
      if readPos < savedTail {
        readPos := savedTail;
        at := w1.shared.oldest;
        return None;
      }
      var off := And(readPos, mask);
      ghost var k :| capacity == Pow2(k);
      MaskIsModulo(readPos, k);
      EventFits(w1.shared, at);
      v := ParseShared(base, off, at);
      ghost var w2 := base.w;
      TickElapses(w2);
      var tailAfter := base.LoadTailPos();
      ElapsedThen(w0, w1, w2);
      ElapsedThen(w0, w2, base.w);
      ElapsedThen(w1, w2, base.w);
      CursorLater(w1.shared, base.w.shared, at, readPos);
      CursorBelow(base.w.shared, at, readPos);
      TailGrows(w1.shared, base.w.shared);
      if tailAfter > savedTail && readPos < tailAfter {
        return None;
      }
      KeptBefore(w2, base.w, at);
      assert v.Some?;
    }

    /** The write position, seen from the cursor. */
    method Poll() returns (writePos: nat)
      requires base.Valid() && Cursor(base.w.shared, at, readPos)
      modifies base
      ensures Elapsed(old(base.w), base.w) && Cursor(base.w.shared, at, readPos)
      ensures readPos < writePos <==> at < |base.w.shared.log|
      ensures Measure(base.w, at) <= Measure(old(base.w), at)
    {
      hide Inv, Tick, Budget, Stream, Start;
      TickElapses(base.w);
      writePos := base.LoadWritePos();
      CursorLater(old(base.w.shared), base.w.shared, at, readPos);
      CursorBelow(base.w.shared, at, readPos);
    }

    /** Only once the buffer is drained does a resize count. */
    method Drained() returns (r: Outcome)
      requires base.Valid()
      modifies base
      ensures base.Valid() && base.w == Tick(old(base.w)) && Elapsed(old(base.w), base.w)
      ensures r == if base.w.shared.generation != generation then Resized else Empty
    {
      hide Inv, Tick, Budget;
      TickElapses(base.w);
      var gen := base.LoadGeneration();
      r := if gen != generation then Resized else Empty;
    }

    /** The event at the cursor is handed out: gap detection, and what to step over next. */
    method Account(view: View)
      requires Valid() && pending == 0 && at < |base.w.shared.log| && view == ViewOf(base.w.shared.log[at])
      modifies this`pending, this`lastSeq, this`lostEvents, this`yielded
      ensures Valid() && pending == view.size && lastSeq == view.sequence && yielded == old(yielded) + [at]
    {
      hide Inv, Stream, Start, Tracks, Pow2;
      EventFits(base.w.shared, at);
      TracksYield(base.w.shared.log, yielded, lastSeq, lostEvents, start, at, laps);
      if lastSeq != 0 && view.sequence > lastSeq + 1 {
        lostEvents := lostEvents + (view.sequence - lastSeq - 1);
      }
      lastSeq := view.sequence;
      pending := view.size;
      yielded := yielded + [at];
    }

    /**
     What the counters mean: yielded sequence numbers strictly increase, every number from the first to
     the last is either yielded or counted lost, and a cursor never lapped has yielded a stretch of the
     log, event by event.
     */
    lemma History()
      requires Valid() && yielded != []
      ensures forall i, j :: 0 <= i < j < |yielded| ==>
                base.w.shared.log[yielded[i]].sequence < base.w.shared.log[yielded[j]].sequence
      ensures |yielded| + lostEvents
           == base.w.shared.log[yielded[|yielded| - 1]].sequence - base.w.shared.log[yielded[0]].sequence + 1
      ensures laps == 0 ==> start + |yielded| <= |base.w.shared.log| && Stretch(yielded, start)
    {
      hide Stream, Start, Intact, NextOk, AllFit;
      assert yielded[|yielded| - 1] < |base.w.shared.log|;
    }

    /**
     ownedFrom, for the event just yielded: the slices are copied byte by byte while the producer runs on.
     The copy is the event if the tail still has not passed it when the copy ends; in any case it is what the
     loads find.
     */
    method CopyOut(view: View) returns (e: Event)
      requires Valid() && pending != 0 && view == ViewOf(base.w.shared.log[at])
      modifies base
      ensures Valid() && Elapsed(old(base.w), base.w)
      ensures Kept(base.w, at) ==> e == EventOf(base.w.shared.log[at])
      ensures (e, base.w) == Copied(old(base.w), readPos % capacity, view)
    {
      hide Inv, Tick, Budget, Stream, Start, Tracks, Pow2, Encode, Loaded;
      ghost var w0 := base.w;
      ghost var rec := base.w.shared.log[at];
      ghost var k :| capacity == Pow2(k);
      var off := And(readPos, capacity - 1);
      MaskIsModulo(readPos, k);
      EventFits(w0.shared, at);
      SlicesOfEncoded(rec);
      var effective := LoadField(base, off, EFFECTIVE_OFF, TRUE_OFF, at);
      ghost var w1 := base.w;
      var trueToken := LoadField(base, off, TRUE_OFF, PROCESS_OFF, at);
      ghost var w2 := base.w;
      var process := LoadField(base, off, PROCESS_OFF, TYPE_LEN_OFF, at);
      ghost var w3 := base.w;
      var kind := LoadField(base, off, HEADER_BASE, HEADER_BASE + view.typeLen, at);
      ghost var w4 := base.w;
      var payload := LoadField(base, off, view.header, view.size, at);
      e := Event(view, effective, trueToken, process, kind, payload);
      ElapsedThen(w0, w1, w2);
      ElapsedThen(w0, w2, w3);
      ElapsedThen(w0, w3, w4);
      ElapsedThen(w0, w4, base.w);
      CursorLater(w0.shared, base.w.shared, at, readPos);
      TracksLater(w0.shared.log, base.w.shared.log, yielded, lastSeq, lostEvents, start, at + 1, laps);
      if Kept(base.w, at) {
        KeptBefore(w4, base.w, at);
        KeptBefore(w3, w4, at);
        KeptBefore(w2, w3, at);
        KeptBefore(w1, w2, at);
      }
    }

    /**
     Next: the next event, or why there is none. `seen` is how much of the log had been published when
     the write position was last loaded, and `iterations` counts the passes of the loop.
     */
    method Next() returns (r: Outcome, ghost seen: nat, ghost iterations: nat)
      requires Valid()
      modifies this, base
      ensures Valid() && Elapsed(old(base.w), base.w)
      ensures start == old(start) && generation == old(generation)
      ensures |old(base.w.shared.log)| <= seen <= |base.w.shared.log|
      ensures r.Yielded? ==> old(Due()) <= at < seen && r.view == ViewOf(base.w.shared.log[at])
      ensures r.Yielded? ==> yielded == old(yielded) + [at] && pending == r.view.size && lastSeq == r.view.sequence
      ensures !r.Yielded? ==> yielded == old(yielded) && lastSeq == old(lastSeq) && lostEvents == old(lostEvents)
      ensures !r.Yielded? ==> pending == 0 && at == seen && (r == Resized <==> base.w.shared.generation != generation)
      ensures !r.Yielded? ==> (readPos == WritePos(base.w.shared) <==> |base.w.shared.log| == seen)
      ensures base.w.shared.oldest <= old(Due()) ==> at == old(Due()) && laps == old(laps)
      ensures iterations <= 2 * (base.w.shared.oldest - old(base.w.shared.oldest)) + 2
    {
      hide Inv, Tick, Budget, Stream, Start, Tracks;
      StepOver();
      var mask := capacity - 1;
      ghost var w0, first, laps0 := base.w, at, laps;
      ghost var torn, lapped := 0, 0;
      var view: View;
      while true
        modifies this`readPos, this`at, this`laps, base
        invariant Elapsed(w0, base.w) && Cursor(base.w.shared, at, readPos)
        invariant Progress(w0.shared, base.w.shared, first, at, torn, lapped)
        invariant laps == laps0 + lapped
        invariant Tracks(base.w.shared.log, yielded, lastSeq, lostEvents, start, at, laps)
        decreases Measure(base.w, at)
      {
        ghost var wa, before := base.w, at;
        var writePos := Poll();
        ghost var wb := base.w;
        ElapsedThen(w0, wa, wb);
        TracksLater(wa.shared.log, wb.shared.log, yielded, lastSeq, lostEvents, start, at, laps);
        if readPos >= writePos {
          r := Drained();
          ElapsedThen(w0, wb, base.w);
          CursorLater(wb.shared, base.w.shared, at, readPos);
          CursorBelow(base.w.shared, at, readPos);
          TracksLater(wb.shared.log, base.w.shared.log, yielded, lastSeq, lostEvents, start, at, laps);
          return r, |wb.shared.log|, torn + lapped + 1;
        }
        var v := TryEvent(mask);
        seen := |wb.shared.log|;
        ElapsedThen(w0, wb, base.w);
        TracksLater(wb.shared.log, base.w.shared.log, yielded, lastSeq, lostEvents, start, before, laps);
        if v.Some? {
          view := v.value;
          break;
        }
        if at == before {
          torn := torn + 1;
        } else {
          TracksLapped(base.w.shared.log, yielded, lastSeq, lostEvents, start, before, laps, at);
          lapped, laps := lapped + 1, laps + 1;
        }
      }
      Account(view);
      r, iterations := Yielded(view), torn + lapped + 1;
    }

    /**
     A whole run of calls, up to `n` events: the views are those of the events yielded, in log order. If the
     tail never passed where the run began, they are the log from there on without a gap, and a run that
     stopped early has yielded everything published before it began.
     */
    method ReadRun(n: nat) returns (views: seq<View>)
      requires Valid()
      modifies this, base
      ensures Valid() && Elapsed(old(base.w), base.w) && |views| <= n
      ensures |yielded| == |old(yielded)| + |views| && old(yielded) <= yielded
      ensures forall i :: 0 <= i < |views| ==> Seen(base.w.shared.log, yielded, |old(yielded)| + i, views[i])
      ensures base.w.shared.oldest <= old(Due()) ==> Stretch(yielded[|old(yielded)|..], old(Due()))
      ensures base.w.shared.oldest <= old(Due()) && |views| < n ==> |old(base.w.shared.log)| <= old(Due()) + |views|
    {
      hide Inv, Tick, Budget, Stream, Start, Tracks, Pow2;
      views := [];
      ghost var w0, due, before := base.w, Due(), yielded;
      ElapsedNothing(w0);
      while |views| < n
        invariant Valid() && Elapsed(w0, base.w) && |views| <= n
        invariant |yielded| == |before| + |views| && before <= yielded
        invariant forall i :: 0 <= i < |views| ==> Seen(base.w.shared.log, yielded, |before| + i, views[i])
        invariant base.w.shared.oldest <= due ==> Due() == due + |views|
        invariant base.w.shared.oldest <= due ==> Stretch(yielded[|before|..], due)
        decreases n - |views|
      {
        ghost var wa := base.w;
        var r, _, _ := Next();
        ElapsedThen(w0, wa, base.w);
        if !r.Yielded? {
          return;
        }
        views := views + [r.view];
      }
    }
  }

  /** The `i`th event yielded is in the log and `view` is its view. */
  ghost predicate Seen(log: seq<Record>, yielded: seq<nat>, i: nat, view: View) {
    i < |yielded| && yielded[i] < |log| && view == ViewOf(log[yielded[i]])
  }

  /** A published event fits the buffer and its window starts at its position modulo the capacity. */
  lemma EventFits(s: Shared, k: nat)
    requires Inv(s) && k < |s.log|
    ensures Emittable(s.log[k]) && Size(s.log[k]) <= s.cap && Increasing(s.log)
  {
    hide Stream, Intact;
  }

  /** mapRing's sampling of a mapping: the generation, then the oldest surviving position. */
  method Attach(base: Mapped, ghost k: nat) returns (c: Consumer)
    requires base.Valid() && base.w.shared.cap == Pow2(k)
    modifies base
    ensures c.base == base && c.Valid() && fresh(c) && Elapsed(old(base.w), base.w)
    ensures c.at == c.start == base.w.shared.oldest && c.yielded == [] && c.laps == 0 && c.pending == 0
    ensures c.generation <= base.w.shared.generation
  {
    hide Inv, Tick, Budget, Stream, Start, Tracks, Pow2;
    ghost var w0 := base.w;
    TickElapses(w0);
    var generation := base.LoadGeneration();
    ghost var w1 := base.w;
    TickElapses(w1);
    var readPos := base.LoadTailPos();
    ElapsedThen(w0, w1, base.w);
    c := new Consumer(base, generation, readPos, k);
  }

  /**
   Why a resize is not proof of a drained buffer: the consumer's cursor is at the end of the log when the
   write position is loaded, and before the generation is loaded the producer publishes one more event and
   resizes. The verdict is Resized, with that event unread.
   */
  method ResizeOvertakesEvent(c: Consumer, r: Record) returns (verdict: Outcome)
    requires c.Valid() && c.pending == 0 && c.at == |c.base.w.shared.log|
    requires c.generation == c.base.w.shared.generation && c.base.w.shared.next.None?
    requires Emittable(r) && Size(r) <= c.capacity && LastSequence(c.base.w.shared.log) < r.sequence
    requires WritePos(c.base.w.shared) + Size(r) <= TailPos(c.base.w.shared) + c.capacity
    requires c.base.w.future == [[], EmitSteps(r) + [Resize]]
    modifies c.base
    ensures verdict == Resized && c.base.Valid()
    ensures c.base.w.shared.log == old(c.base.w.shared.log) + [r] && c.at < |c.base.w.shared.log|
  {
    hide Inv, Stream, Start, Take, Tracks, Pow2, EmitSteps;
    ghost var s := c.base.w.shared;
    EmitPublishes(s, r);
    RunAppend(s, EmitSteps(r), [Resize]);
    OneStep(Run(s, EmitSteps(r)), Resize);
    ResizeOnly(Run(s, EmitSteps(r)));
    CursorBelow(s, c.at, c.readPos);
    var writePos := c.base.LoadWritePos();
    assert c.readPos >= writePos;
    verdict := c.Drained();
  }

  /**
   Why the copy of an event may not be the event: the buffer is full, the oldest event has just been yielded,
   and before its copy begins the producer gives it up and publishes another of the same shape in its place.
   The copy has the other's payload under the yielded event's name.
   */
  method CopyTakesAnother(c: Consumer, view: View, r: Record) returns (e: Event)
    requires c.Valid() && c.pending != 0 && view == ViewOf(c.base.w.shared.log[c.at])
    requires Replaceable(c.base.w.shared, c.at, r) && r.payload != c.base.w.shared.log[c.at].payload
    requires c.base.w.future == [[Evict] + EmitSteps(r)]
    modifies c.base
    ensures c.Valid() && c.base.w.shared.log == old(c.base.w.shared.log) + [r] && !Kept(c.base.w, c.at)
    ensures e.payload == r.payload && e != EventOf(c.base.w.shared.log[c.at])
  {
    hide Inv, Stream, Start, Take, Tracks, Pow2, EmitSteps, Encode, Holds, Copied;
    ghost var s := c.base.w.shared;
    Replaced(s, c.at, r);
    CopiedAtOnce(c.base.w, c.readPos % c.capacity, view);
    e := c.CopyOut(view);
    StartsAgree(s.log, c.base.w.shared.log, c.at);
    StartOrder(c.base.w.shared.log, c.at, c.at + 1);
    PayloadHeld(c.base.w.shared, c.readPos % c.capacity, r, e.payload);
  }

  /** A full buffer whose oldest event makes way for one of its own shape. */
  ghost predicate Replaceable(s: Shared, k: nat, r: Record)
    requires Inv(s)
  {
    && k == s.oldest < |s.log| && s.next.None? && WritePos(s) == TailPos(s) + s.cap
    && Emittable(r) && LastSequence(s.log) < r.sequence
    && HeaderSize(r) == HeaderSize(s.log[k]) && Size(r) == Size(s.log[k])
  }

  lemma Replaced(s: Shared, k: nat, r: Record)
    requires Inv(s) && Replaceable(s, k, r)
    ensures var t := Run(s, [Evict] + EmitSteps(r));
            Inv(t) && t.log == s.log + [r] && t.oldest == k + 1 && t.cap == s.cap
            && Holds(t, Start(s.log, k) % s.cap, Encode(r))
  {
    hide Inv, Stream, Encode, EmitSteps, Start, Size, HeaderSize;
    EventFits(s, k);
    EventAt(s.log, k);
    OneStep(s, Evict);
    StepKeepsInv(s, Evict);
    RunAppend(s, [Evict], EmitSteps(r));
    EmitPublishes(Take(s, Evict), r);
    RunKeepsInv(s, [Evict] + EmitSteps(r));
    var t := Run(s, [Evict] + EmitSteps(r));
    StreamOfMore(s.log, r);
    StartsAgree(s.log, t.log, k + 1);
    LapLater(Start(s.log, k), s.cap);
    WindowOfLast(t, WritePos(s), Start(s.log, k) % s.cap, Encode(r));
  }

  /** The event written last, at a window that was another's a lap ago. */
  lemma WindowOfLast(t: Shared, at: nat, off: nat, b: seq<byte>)
    requires Inv(t) && at % t.cap == off % t.cap && TailPos(t) <= at && WritePos(t) == at + |b|
    requires Stream(t.log)[at..] == b
    ensures Holds(t, off, b)
  {
    hide Inv, Stream, Start;
    forall j | 0 <= j < |b|
      ensures b[j] == t.mem[(off + j) % t.cap]
    {
      ByteOfLast(t, at, off, j);
      assert Stream(t.log)[at..][j] == Stream(t.log)[at + j];
    }
  }

  lemma LapLater(before: nat, cap: nat)
    requires cap > 0
    ensures (before + cap) % cap == before % cap == (before % cap) % cap
  {
    ModOfNext(before, cap);
    ModOfMultiple(before % cap, 0, cap);
  }

  lemma ByteOfLast(t: Shared, at: nat, off: nat, j: nat)
    requires Inv(t) && at % t.cap == off % t.cap && TailPos(t) <= at && at + j < WritePos(t)
    ensures t.mem[(off + j) % t.cap] == Stream(t.log)[at + j]
  {
    hide Inv, Stream, Start;
    AddMod(at, off, j, t.cap);
    PublishedByte(t, at + j);
  }

  lemma PayloadHeld(t: Shared, off: nat, r: Record, payload: seq<byte>)
    requires |t.mem| == t.cap > 0 && Emittable(r) && Holds(t, off, Encode(r))
    requires Holds(t, off + HeaderSize(r), payload) && |payload| == Size(r) - HeaderSize(r)
    ensures payload == r.payload
  {
    SlicesOfEncoded(r);
    hide Encode;
    var b, h := Encode(r), HeaderSize(r);
    forall j | 0 <= j < |payload|
      ensures payload[j] == b[h..Size(r)][j]
    {
      assert b[h + j] == t.mem[(off + (h + j)) % t.cap];
      assert off + h + j == off + (h + j);
    }
  }

  lemma ResizeOnly(s: Shared)
    requires Inv(s)
    ensures Take(s, Resize) == s.(generation := s.generation + 1)
  {
  }
}
