/**
 The notification protocol between a consumer about to sleep and the producer (event/ring.go, wait): the
 consumer arms need_wake, checks the write position, samples the futex counter and sleeps on it; the
 producer publishes, bumps the counter, and wakes the consumer if need_wake is armed. One action is one
 load, store or system call, and any interleaving is allowed.
 */
module Wait {
  const COUNTER := 0x1_0000_0000

  /** Where the consumer is: about to arm, to check the position, to sample the counter, to sleep; asleep; done. */
  datatype Reader = Arming | Checking | Sampling | Entering | Asleep | Returned

  /** Where the producer is: between events, about to bump the counter, about to look at need_wake. */
  datatype Writer = Idle | Bumping | Waking

  datatype Action = Read | Write | Interrupt

  /**
   `bumps` counts every bump of the 32-bit counter and `sampled` is its value when sampled. The other
   numbers are history: events published when the position was checked and when the counter was sampled,
   and bumps when the counter was sampled.
   */
  datatype State = State(reader: Reader, writer: Writer, needWake: bool, published: nat, read: nat, bumps: nat,
                         sampled: nat, checkedAt: nat, sampledAt: nat)

  /** One action of the consumer. The futex call compares and sleeps in one step. */
  function ReaderStep(s: State): State {
    match s.reader
    case Arming => s.(needWake := true, reader := Checking)
    case Checking =>
      if s.published != s.read then s.(needWake := false, reader := Returned)
      else s.(reader := Sampling, checkedAt := s.published)
    case Sampling => s.(reader := Entering, sampled := s.bumps % COUNTER, sampledAt := s.bumps)
    case Entering =>
      if s.bumps % COUNTER == s.sampled then s.(reader := Asleep) else s.(needWake := false, reader := Returned)
    case Asleep => s
    case Returned => s
  }

  /** One action of the producer: publish, bump, wake. A woken consumer disarms need_wake. */
  function WriterStep(s: State): State {
    match s.writer
    case Idle => s.(published := s.published + 1, writer := Bumping)
    case Bumping => s.(bumps := s.bumps + 1, writer := Waking)
    case Waking =>
      if s.needWake && s.reader == Asleep then s.(writer := Idle, reader := Returned, needWake := false)
      else s.(writer := Idle)
  }

  /** A signal, a timeout or a spurious wake ends a sleep. */
  function Act(s: State, a: Action): State {
    match a
    case Read => ReaderStep(s)
    case Write => WriterStep(s)
    case Interrupt => if s.reader == Asleep then s.(reader := Returned, needWake := false) else s
  }

  function Run(s: State, actions: seq<Action>): State
    decreases |actions|
  {
    if actions == [] then s else Run(Act(s, actions[0]), actions[1..])
  }

  /** A call to wait: the consumer has read everything it knows of and nothing is pending. */
  ghost predicate Entered(s: State) {
    && s.reader == Arming && s.read <= s.published
    && s.bumps == s.published - (if s.writer == Bumping then 1 else 0)
  }

  ghost predicate Inv(s: State) {
    && s.read <= s.published
    && s.bumps == s.published - (if s.writer == Bumping then 1 else 0)
    && (s.reader.Checking? ==> s.needWake)
    && (s.reader.Sampling? || s.reader.Entering? || s.reader.Asleep? ==> s.needWake && s.checkedAt == s.read)
    && (s.reader.Entering? || s.reader.Asleep? ==>
          s.checkedAt - 1 <= s.sampledAt <= s.bumps && s.sampled == s.sampledAt % COUNTER)
    && (s.reader.Asleep? && s.writer != Waking ==> s.bumps % COUNTER == s.sampled)
  }

  lemma ActKeepsInv(s: State, a: Action)
    requires Inv(s)
    ensures Inv(Act(s, a))
  {
  }

  lemma {:induction false} RunKeepsInv(s: State, actions: seq<Action>)
    requires Inv(s)
    ensures Inv(Run(s, actions))
    decreases |actions|
  {
    if actions != [] {
      ActKeepsInv(s, actions[0]);
      RunKeepsInv(Act(s, actions[0]), actions[1..]);
    }
  }

  /**
   Exactly when a consumer can sleep on data. In any run from a call to wait, if it is asleep while the
   producer is between events, then there is something to read if and only if some event was published
   after the position check with its bump before the counter was sampled, or the 32-bit counter has come
   all the way round since.
   */
  lemma AsleepOnData(s: State, actions: seq<Action>)
    requires Entered(s)
    ensures var t := Run(s, actions);
            t.reader == Asleep && t.writer == Idle ==>
              && (t.published != t.read <==> t.sampledAt > t.checkedAt || t.bumps > t.sampledAt)
              && (t.bumps > t.sampledAt ==> t.bumps >= t.sampledAt + COUNTER && (t.bumps - t.sampledAt) % COUNTER == 0)
  {
    RunKeepsInv(s, actions);
    var t := Run(s, actions);
    if t.reader == Asleep && t.writer == Idle {
      SameResidue(t.bumps, t.sampledAt);
    }
  }

  lemma SameResidue(a: nat, b: nat)
    requires b <= a && a % COUNTER == b % COUNTER
    ensures (a - b) % COUNTER == 0 && (a > b ==> a >= b + COUNTER)
  {
    assert a - b == COUNTER * (a / COUNTER - b / COUNTER);
  }

  /** Any event whose handling is under way, or still to come, ends the sleep by the time it is handled. */
  lemma PublishEndsSleep(s: State)
    requires Inv(s) && s.reader == Asleep
    ensures s.writer == Waking ==> Run(s, [Write]).reader == Returned
    ensures s.writer == Bumping ==> Run(s, [Write, Write]).reader == Returned
    ensures s.writer == Idle ==> Run(s, [Write, Write, Write]).reader == Returned
  {
    var one := Act(s, Write);
    var two := Act(one, Write);
    assert [Write][1..] == [] && [Write, Write][1..] == [Write] && [Write, Write, Write][1..] == [Write, Write];
    assert Run(s, [Write]) == one;
    assert Run(s, [Write, Write]) == Run(one, [Write]) == two;
    assert Run(s, [Write, Write, Write]) == Run(one, [Write, Write]) == Run(two, [Write]) == Act(two, Write);
  }

  /** The case the protocol leaves open does occur: from any quiet call to wait, seven actions lead to it. */
  lemma SleepsOnUnreadEvent(s: State)
    requires Entered(s) && s.writer == Idle && s.published == s.read
    ensures var t := Run(s, [Read, Read, Write, Write, Write, Read, Read]);
            t.reader == Asleep && t.writer == Idle && t.published == t.read + 1
  {
    var armed := Act(s, Read);
    var checked := Act(armed, Read);
    var publishing := Act(checked, Write);
    var bumped := Act(publishing, Write);
    var idle := Act(bumped, Write);
    var sampled := Act(idle, Read);
    RunSteps(s, Read, [Read, Write, Write, Write, Read, Read]);
    RunSteps(armed, Read, [Write, Write, Write, Read, Read]);
    RunSteps(checked, Write, [Write, Write, Read, Read]);
    RunSteps(publishing, Write, [Write, Read, Read]);
    RunSteps(bumped, Write, [Read, Read]);
    RunSteps(idle, Read, [Read]);
    RunSteps(sampled, Read, []);
  }

  lemma RunSteps(s: State, a: Action, rest: seq<Action>)
    ensures Run(s, [a] + rest) == Run(Act(s, a), rest)
  {
    assert ([a] + rest)[1..] == rest;
  }

  /** A call to wait with something already published returns at once, whatever the producer does. */
  lemma {:induction false} NoSleepOnKnownData(s: State, actions: seq<Action>)
    requires (s.reader == Arming || s.reader == Checking || s.reader == Returned) && s.read < s.published
    ensures Run(s, actions).reader != Asleep
    decreases |actions|
  {
    if actions != [] {
      NoSleepOnKnownData(Act(s, actions[0]), actions[1..]);
    }
  }
}
