/**
 The producer side of a KMES ring buffer, as far as a consumer can tell: a log of every event published,
 a position below which bytes may be overwritten, and the bytes themselves. One step is the smallest
 change a concurrent reader could observe.
 */
module Producer {
  import opened Wrappers
  import opened Bytes
  import opened Events

  /**
   `log` is every event ever published, `oldest` the index of the oldest not yet given up (its start is
   tail_pos), `next` the event being written and `head` how far writing has got.
   */
  datatype Shared = Shared(cap: nat, log: seq<Record>, oldest: nat, next: Option<Record>, head: nat,
                           mem: seq<byte>, generation: nat)

  // --- positions -------------------------------------------------------

  /** The bytes of a run of events, end to end. */
  function Stream(log: seq<Record>): seq<byte> {
    if log == [] then [] else Stream(log[..|log| - 1]) + Encode(log[|log| - 1])
  }

  /** The position at which event `k` starts. */
  function Start(log: seq<Record>, k: nat): nat
    requires k <= |log|
  {
    |Stream(log[..k])|
  }

  function WritePos(s: Shared): nat { |Stream(s.log)| }

  function TailPos(s: Shared): nat
    requires s.oldest <= |s.log|
  {
    Start(s.log, s.oldest)
  }

  lemma StreamOfMore(log: seq<Record>, r: Record)
    ensures Stream(log + [r]) == Stream(log) + Encode(r)
  {
    assert (log + [r])[..|log|] == log;
  }

  lemma {:induction false} StreamOfPrefix(log: seq<Record>, k: nat)
    requires k <= |log|
    ensures Stream(log[..k]) <= Stream(log)
    decreases |log|
  {
    if k < |log| {
      var shorter := log[..|log| - 1];
      StreamOfPrefix(shorter, k);
      assert shorter[..k] == log[..k];
    } else {
      assert log[..k] == log;
    }
  }

  /** Event `k` occupies its own stretch of the stream. */
  lemma EventAt(log: seq<Record>, k: nat)
    requires k < |log|
    ensures Start(log, k + 1) == Start(log, k) + Size(log[k]) <= |Stream(log)|
    ensures Stream(log)[Start(log, k)..Start(log, k + 1)] == Encode(log[k])
  {
    hide Stream, Encode;
    StreamOfPrefix(log, k + 1);
    assert log[..k + 1] == log[..k] + [log[k]];
    StreamOfMore(log[..k], log[k]);
    PrefixSlice(Stream(log), Stream(log[..k]), Encode(log[k]));
  }

  lemma PrefixSlice(whole: seq<byte>, a: seq<byte>, b: seq<byte>)
    requires a + b <= whole
    ensures whole[|a|..|a| + |b|] == b
  {
    assert whole[..|a| + |b|] == a + b;
  }

  /** Starts are ordered as events are, and no two coincide. */
  lemma StartsIncrease(log: seq<Record>, j: nat, k: nat)
    requires j < k <= |log|
    ensures Start(log, j) < Start(log, k) <= |Stream(log)|
  {
    hide Stream, Encode;
    EventAt(log, j);
    assert log[..k][..j + 1] == log[..j + 1];
    StreamOfPrefix(log[..k], j + 1);
    StreamOfPrefix(log, k);
  }

  lemma StartsAgree(log: seq<Record>, longer: seq<Record>, k: nat)
    requires log <= longer && k <= |log|
    ensures Start(log, k) == Start(longer, k) && Stream(log) <= Stream(longer)
  {
    assert longer[..k] == log[..k];
    assert longer[..|log|] == log;
    StreamOfPrefix(longer, |log|);
  }

  lemma StartOrder(log: seq<Record>, j: nat, k: nat)
    requires j <= |log| && k <= |log|
    ensures Start(log, j) < Start(log, k) <==> j < k
    ensures Start(log, j) <= |Stream(log)| && (Start(log, j) == |Stream(log)| <==> j == |log|)
  {
    assert log[..|log|] == log;
    if j < k {
      StartsIncrease(log, j, k);
    } else if k < j {
      StartsIncrease(log, k, j);
    }
    if j < |log| {
      StartsIncrease(log, j, |log|);
    }
  }

  // --- steps -----------------------------------------------------------

  datatype Step = Begin(r: Record) | Evict | WriteByte | Publish | Resize

  function LastSequence(log: seq<Record>): nat {
    if log == [] then 0 else log[|log| - 1].sequence
  }

  /**
   One step of the producer; a step that is not enabled changes nothing. The tail moves by whole events
   and a byte is written only where the tail has already given the old contents up.
   */
  function Take(s: Shared, step: Step): Shared
    requires Inv(s)
  {
    match step
    case Begin(r) =>
      if s.next.None? && Emittable(r) && Size(r) <= s.cap && LastSequence(s.log) < r.sequence then s.(next := Some(r))
      else s
    case Evict => if s.oldest < |s.log| then s.(oldest := s.oldest + 1) else s
    case WriteByte =>
      if s.next.Some? && WritePos(s) <= s.head < WritePos(s) + Size(s.next.value) && s.head < TailPos(s) + s.cap then
        s.(mem := s.mem[s.head % s.cap := Encode(s.next.value)[s.head - WritePos(s)]], head := s.head + 1)
      else s
    case Publish =>
      if s.next.Some? && s.head == WritePos(s) + Size(s.next.value) then
        s.(log := s.log + [s.next.value], next := None)
      else s
    case Resize => s.(generation := s.generation + 1)
  }

  predicate Increasing(log: seq<Record>) {
    && (log != [] ==> log[0].sequence >= 1)
    && forall i, j :: 0 <= i < j < |log| ==> log[i].sequence < log[j].sequence
  }

  predicate AllFit(log: seq<Record>, cap: nat) {
    forall i :: 0 <= i < |log| ==> Emittable(log[i]) && Size(log[i]) <= cap
  }

  /** The stream as far as it is being written. */
  function Written(s: Shared): seq<byte> {
    Stream(s.log) + (if s.next.Some? then Encode(s.next.value) else [])
  }

  predicate NextOk(s: Shared) {
    match s.next
    case None => s.head == WritePos(s)
    case Some(r) =>
      && WritePos(s) <= s.head <= WritePos(s) + Size(r)
      && Emittable(r) && Size(r) <= s.cap && LastSequence(s.log) < r.sequence
  }

  /** Every byte from the tail up to the writing head is the stream's. */
  ghost predicate Intact(s: Shared)
    requires s.oldest <= |s.log| && |s.mem| == s.cap > 0 && NextOk(s)
  {
    forall p :: TailPos(s) <= p < s.head ==> s.mem[p % s.cap] == Written(s)[p]
  }

  ghost predicate Inv(s: Shared)
    ensures Inv(s) ==> s.oldest <= |s.log| && |s.mem| == s.cap > 0
  {
    && s.oldest <= |s.log| && |s.mem| == s.cap > 0
    && Increasing(s.log) && AllFit(s.log, s.cap)
    && NextOk(s) && s.head <= TailPos(s) + s.cap
    && Intact(s)
  }

  /** What time does to the shared state: the log and the tail only grow. */
  predicate Later(s: Shared, t: Shared) {
    s.cap == t.cap && s.log <= t.log && s.oldest <= t.oldest && s.generation <= t.generation
  }

  /** Two positions less than a lap apart never share a byte. */
  lemma ModDistinct(p: nat, q: nat, cap: nat)
    requires p < q < p + cap
    ensures p % cap != q % cap
  {
    var k := q / cap - p / cap;
    NoMultiple(q - p, cap, k);
    assert q - p == cap * k + (q % cap - p % cap);
  }

  lemma WriteByteKeepsInv(s: Shared)
    requires Inv(s)
    ensures Inv(Take(s, WriteByte))
  {
    hide Stream, Encode;
    var t := Take(s, WriteByte);
    if t != s {
      forall p | TailPos(t) <= p < t.head
        ensures t.mem[p % t.cap] == Written(t)[p]
      {
        if p < s.head {
          ModDistinct(p, s.head, s.cap);
        }
      }
    }
  }

  lemma EvictKeepsInv(s: Shared)
    requires Inv(s)
    ensures Inv(Take(s, Evict))
  {
    hide Stream, Encode;
    if s.oldest < |s.log| {
      StartsIncrease(s.log, s.oldest, s.oldest + 1);
    }
  }

  lemma PublishKeepsInv(s: Shared)
    requires Inv(s)
    ensures Inv(Take(s, Publish))
  {
    hide Stream, Encode;
    var t := Take(s, Publish);
    if t != s {
      StreamOfMore(s.log, s.next.value);
      StartsAgree(s.log, t.log, s.oldest);
      assert Written(t) == Written(s);
    }
  }

  lemma BeginKeepsInv(s: Shared, r: Record)
    requires Inv(s)
    ensures Inv(Take(s, Begin(r)))
  {
    var t := Take(s, Begin(r));
    hide Stream, Encode;
    assert Stream(s.log) <= Written(t);
  }

  /** The safety invariant of the producer: no step disturbs a byte a consumer may still rely on. */
  lemma StepKeepsInv(s: Shared, step: Step)
    requires Inv(s)
    ensures Inv(Take(s, step)) && Later(s, Take(s, step))
  {
    hide Inv;
    StepIsLater(s, step);
    match step {
      case Begin(r) => BeginKeepsInv(s, r);
      case Evict => EvictKeepsInv(s);
      case WriteByte => WriteByteKeepsInv(s);
      case Publish => PublishKeepsInv(s);
      case Resize => ResizeKeepsInv(s);
    }
  }

  lemma StepIsLater(s: Shared, step: Step)
    requires Inv(s)
    ensures Later(s, Take(s, step)) && Take(s, step).oldest <= s.oldest + 1
  {
    hide Stream, Encode, Start;
  }

  lemma ResizeKeepsInv(s: Shared)
    requires Inv(s)
    ensures Inv(Take(s, Resize))
  {
    hide Stream, Encode;
  }

  // --- runs ------------------------------------------------------------

  function Run(s: Shared, steps: seq<Step>): Shared
    requires Inv(s)
    decreases |steps|
  {
    hide Inv, Take;
    if steps == [] then s
    else
      StepKeepsInv(s, steps[0]);
      Run(Take(s, steps[0]), steps[1..])
  }

  lemma {:induction false} RunKeepsInv(s: Shared, steps: seq<Step>)
    requires Inv(s)
    ensures Inv(Run(s, steps)) && Later(s, Run(s, steps))
    ensures Run(s, steps).oldest - s.oldest <= |steps|
    decreases |steps|
  {
    hide Inv, Take;
    if steps != [] {
      StepIsLater(s, steps[0]);
      StepKeepsInv(s, steps[0]);
      RunKeepsInv(Take(s, steps[0]), steps[1..]);
    }
  }

  lemma {:induction false} RunAppend(s: Shared, a: seq<Step>, b: seq<Step>)
    requires Inv(s)
    ensures Inv(Run(s, a)) && Run(s, a + b) == Run(Run(s, a), b)
    decreases |a|
  {
    hide Inv, Take;
    RunKeepsInv(s, a);
    if a == [] {
      assert a + b == b;
    } else {
      StepKeepsInv(s, a[0]);
      RunAppend(Take(s, a[0]), a[1..], b);
      assert (a + b)[1..] == a[1..] + b;
    }
  }

  function Repeat(step: Step, n: nat): (steps: seq<Step>)
    ensures |steps| == n
  {
    if n == 0 then [] else [step] + Repeat(step, n - 1)
  }

  /** With room before the tail, the rest of the event being written gets written. */
  lemma {:induction false} WriteAll(s: Shared, n: nat)
    requires Inv(s) && s.next.Some? && s.head + n == WritePos(s) + Size(s.next.value) <= TailPos(s) + s.cap
    ensures var t := Run(s, Repeat(WriteByte, n));
            t.log == s.log && t.oldest == s.oldest && t.next == s.next && t.head == s.head + n && t.generation == s.generation
    decreases n
  {
    hide Stream, Encode, Start;
    if n > 0 {
      StepKeepsInv(s, WriteByte);
      WriteAll(Take(s, WriteByte), n - 1);
      assert Repeat(WriteByte, n)[1..] == Repeat(WriteByte, n - 1);
    }
  }

  function EmitSteps(r: Record): seq<Step> {
    [Begin(r)] + Repeat(WriteByte, Size(r)) + [Publish]
  }

  /** An idle producer with room can publish any event that fits and comes later. */
  lemma EmitPublishes(s: Shared, r: Record)
    requires Inv(s) && s.next.None? && Emittable(r) && Size(r) <= s.cap && LastSequence(s.log) < r.sequence
    requires WritePos(s) + Size(r) <= TailPos(s) + s.cap
    ensures var t := Run(s, EmitSteps(r));
            Inv(t) && t.log == s.log + [r] && t.next == None && t.oldest == s.oldest && t.generation == s.generation
  {
    hide Stream, Encode, Start;
    var begun := Take(s, Begin(r));
    StepKeepsInv(s, Begin(r));
    WriteAll(begun, Size(r));
    var written := Run(begun, Repeat(WriteByte, Size(r)));
    RunKeepsInv(begun, Repeat(WriteByte, Size(r)));
    RunAppend(s, [Begin(r)], Repeat(WriteByte, Size(r)) + [Publish]);
    RunAppend(begun, Repeat(WriteByte, Size(r)), [Publish]);
    assert EmitSteps(r) == [Begin(r)] + (Repeat(WriteByte, Size(r)) + [Publish]);
    OneStep(s, Begin(r));
    OneStep(written, Publish);
    RunKeepsInv(s, EmitSteps(r));
  }

  lemma OneStep(s: Shared, step: Step)
    requires Inv(s)
    ensures Run(s, [step]) == Take(s, step)
  {
    hide Inv, Take;
    StepKeepsInv(s, step);
  }

  /** Time moves the tail and the stream only forward. */
  lemma TailGrows(s: Shared, t: Shared)
    requires s.oldest <= |s.log| && t.oldest <= |t.log| && Later(s, t)
    ensures TailPos(s) <= TailPos(t) && Stream(s.log) <= Stream(t.log)
  {
    hide Stream, Encode;
    StartsAgree(s.log, t.log, s.oldest);
    StartOrder(t.log, s.oldest, t.oldest);
  }

  /** A byte between the tail and the published end is the log's. */
  lemma PublishedByte(s: Shared, p: nat)
    requires Inv(s) && TailPos(s) <= p < WritePos(s)
    ensures s.mem[p % s.cap] == Stream(s.log)[p]
  {
    assert Written(s)[p] == Stream(s.log)[p];
  }
}
