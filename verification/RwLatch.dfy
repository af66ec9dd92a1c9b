/** The reader-writer latch. */
module RwLatch {

  datatype Held = Nothing | Shared | Exclusive

  datatype Call = AcquireShared | TryShared | AcquireExclusive | TryExclusive | Upgrade | TryUpgrade | Downgrade

  /** Where a thread is: outside any call, about to load the counter, or holding the value it loaded. */
  datatype At = Outside | Loading(call: Call) | Loaded(call: Call, expected: int)

  datatype Thread = Thread(held: Held, at: At)

  datatype Latch = Latch(cnt: int, threads: seq<Thread>)

  const MAX16 := 32767

  /** A 16-bit signed counter. */
  function Wrap(x: int): (y: int) {
    if x > MAX16 then x - 65536 else if x < -MAX16 - 1 then x + 65536 else x
  }

  // ------------------------------------------------------------------ steps

  /** What a thread must hold to make a call. */
  predicate Allowed(held: Held, call: Call) {
    match call
    case AcquireShared => held.Nothing?
    case TryShared => held.Nothing?
    case AcquireExclusive => held.Nothing?
    case TryExclusive => held.Nothing?
    case Upgrade => held.Shared?
    case TryUpgrade => held.Shared?
    case Downgrade => held.Exclusive?
  }

  /** The loaded value that lets a call go on to its compare-and-swap. */
  predicate Guard(call: Call, expected: int) {
    match call
    case AcquireShared => expected >= 0
    case TryShared => expected >= 0
    case AcquireExclusive => expected == 0
    case TryExclusive => expected == 0
    case Upgrade => expected == 1
    case TryUpgrade => expected == 1
    case Downgrade => expected == -1
  }

  /** The value swapped in. */
  function Target(call: Call, expected: int): (x: int) {
    match call
    case AcquireShared => Wrap(expected + 1)
    case TryShared => Wrap(expected + 1)
    case Downgrade => 1
    case _ => -1
  }

  function Gains(call: Call): (held: Held) {
    if call.AcquireShared? || call.TryShared? || call.Downgrade? then Shared else Exclusive
  }

  predicate Gives(call: Call) {
    call.TryShared? || call.TryExclusive? || call.TryUpgrade?
  }

  datatype Step =
    | Begin(i: nat, call: Call)
    | Load(i: nat)
    | Swap(i: nat)
    | ReleaseShared(i: nat)
    | ReleaseExclusive(i: nat)

  predicate Enabled(s: Latch, step: Step) {
    step.i < |s.threads| &&
    var t := s.threads[step.i];
    match step
    case Begin(_, call) => t.at.Outside? && Allowed(t.held, call)
    case Load(_) => t.at.Loading?
    case Swap(_) => t.at.Loaded?
    case ReleaseShared(_) => t.at.Outside? && t.held.Shared?
    case ReleaseExclusive(_) => t.at.Outside? && t.held.Exclusive?
  }

  function Apply(s: Latch, step: Step): (s': Latch)
    requires Enabled(s, step)
  {
    var i := step.i;
    var t := s.threads[i];
    match step
    case Begin(_, call) => s.(threads := s.threads[i := t.(at := Loading(call))])
    case Load(_) => s.(threads := s.threads[i := t.(at := Loaded(t.at.call, s.cnt))])
    case Swap(_) =>
      var call, expected := t.at.call, t.at.expected;
      if !Guard(call, expected) then
        s.(threads := s.threads[i := t.(at := if Gives(call) then Outside else Loading(call))])
      else if s.cnt == expected then
        Latch(Target(call, expected), s.threads[i := Thread(Gains(call), Outside)])
      else
        s.(threads := s.threads[i := t.(at := Loading(call))])
    case ReleaseShared(_) => Latch(Wrap(s.cnt - 1), s.threads[i := Thread(Nothing, Outside)])
    case ReleaseExclusive(_) => Latch(0, s.threads[i := Thread(Nothing, Outside)])
  }

  // ------------------------------------------------------------------ the invariant

  function Count(threads: seq<Thread>, held: Held): (n: nat)
    ensures n <= |threads|
  {
    if threads == [] then 0 else (if threads[0].held == held then 1 else 0) + Count(threads[1..], held)
  }

  /** The counter is -1 exactly when one writer and no reader holds the latch; otherwise it is the number of readers. */
  predicate Safe(s: Latch) {
    var readers, writers := Count(s.threads, Shared), Count(s.threads, Exclusive);
    if s.cnt == -1 then writers == 1 && readers == 0 else writers == 0 && s.cnt == readers
  }

  /** A thread inside a call still holds what the call demands, and adding a reader to the value it loaded cannot overflow. */
  predicate Fair(t: Thread, n: nat) {
    && (t.at.Loading? ==> Allowed(t.held, t.at.call))
    && (t.at.Loaded? ==> Allowed(t.held, t.at.call) && (t.held.Nothing? ==> t.at.expected < n))
  }

  predicate Honest(s: Latch) {
    forall i | 0 <= i < |s.threads| :: Fair(s.threads[i], |s.threads|)
  }

  lemma {:induction false} CountSet(threads: seq<Thread>, i: nat, t: Thread, held: Held)
    requires i < |threads|
    ensures Count(threads[i := t], held) + (if threads[i].held == held then 1 else 0)
      == Count(threads, held) + (if t.held == held then 1 else 0)
  {
    if i > 0 {
      CountSet(threads[1..], i - 1, t, held);
      assert threads[i := t][1..] == threads[1..][i - 1 := t];
    } else {
      assert threads[0 := t][1..] == threads[1..];
    }
  }

  lemma {:induction false} CountOther(threads: seq<Thread>, i: nat, held: Held)
    requires i < |threads| && threads[i].held != held
    ensures Count(threads, held) < |threads|
  {
    if i == 0 {
    } else {
      CountOther(threads[1..], i - 1, held);
    }
  }

  lemma {:induction false} CountSome(threads: seq<Thread>, i: nat, held: Held)
    requires i < |threads| && threads[i].held == held
    ensures Count(threads, held) >= 1
  {
    if i == 0 {
    } else {
      CountSome(threads[1..], i - 1, held);
    }
  }

  lemma StepFair(s: Latch, step: Step)
    requires Safe(s) && Honest(s) && Enabled(s, step)
    ensures Honest(Apply(s, step))
  {
    hide Count;
    var t := s.threads[step.i];
    if t.held.Nothing? {
      CountOther(s.threads, step.i, Shared);
    }
    assert Fair(t, |s.threads|);
  }

  /** With at most 32767 threads every step keeps the invariant. */
  lemma StepSafe(s: Latch, step: Step)
    requires Safe(s) && Honest(s) && Enabled(s, step) && |s.threads| <= MAX16
    ensures Safe(Apply(s, step)) && Honest(Apply(s, step))
  {
    hide Count;
    var s' := Apply(s, step);
    var t, t' := s.threads[step.i], s'.threads[step.i];
    StepFair(s, step);
    assert Fair(t, |s.threads|);
    CountSet(s.threads, step.i, t', Shared);
    CountSet(s.threads, step.i, t', Exclusive);
    CountSome(s.threads, step.i, t.held);
    assert s'.threads == s.threads[step.i := t'];
  }

  // ------------------------------------------------------------------ runs

  const IDLE := Thread(Nothing, Outside)

  function Fresh(n: nat): (s: Latch) {
    Latch(0, seq(n, _ => IDLE))
  }

  /** The latch after an interleaving; a step that is not enabled does not happen. */
  function Run(s: Latch, steps: seq<Step>): (s': Latch) {
    if steps == [] then s
    else
      var s1 := Run(s, steps[..|steps| - 1]);
      if Enabled(s1, steps[|steps| - 1]) then Apply(s1, steps[|steps| - 1]) else s1
  }

  lemma {:induction false} NoneHold(n: nat, held: Held)
    ensures Count(seq(n, _ => IDLE), held) == if held.Nothing? then n else 0
  {
    if n == 0 {
    } else {
      NoneHold(n - 1, held);
      assert seq(n, _ => IDLE)[1..] == seq(n - 1, _ => IDLE);
    }
  }

  lemma {:induction false} RunSafe(n: nat, steps: seq<Step>)
    requires n <= MAX16
    ensures var s := Run(Fresh(n), steps); Safe(s) && Honest(s) && |s.threads| == n
  {
    if steps == [] {
      NoneHold(n, Shared);
      NoneHold(n, Exclusive);
    } else {
      RunSafe(n, steps[..|steps| - 1]);
      var s, step := Run(Fresh(n), steps[..|steps| - 1]), steps[|steps| - 1];
      if Enabled(s, step) {
        StepSafe(s, step);
      }
    }
  }

  // ------------------------------------------------------------------ one thread too many

  /** The first `k` of `n` threads each acquire the latch shared. */
  ghost function Readers(k: nat): (steps: seq<Step>) {
    if k == 0 then [] else Readers(k - 1) + [Begin(k - 1, AcquireShared)] + [Load(k - 1)] + [Swap(k - 1)]
  }

  lemma RunSnoc(s: Latch, steps: seq<Step>, step: Step)
    ensures Run(s, steps + [step]) == var s1 := Run(s, steps); if Enabled(s1, step) then Apply(s1, step) else s1
  {
    assert (steps + [step])[..|steps|] == steps;
  }

  ghost predicate FirstRead(s: Latch, n: nat, k: nat) {
    && |s.threads| == n && (forall i | 0 <= i < k && i < n :: s.threads[i] == Thread(Shared, Outside))
    && (forall i | k <= i < n :: s.threads[i] == IDLE)
  }

  lemma OneMoreReader(s: Latch, n: nat, k: nat, steps: seq<Step>, s0: Latch)
    requires s == Run(s0, steps) && FirstRead(s, n, k) && k < n && s.cnt == k
    ensures var s' := Run(s0, steps + [Begin(k, AcquireShared)] + [Load(k)] + [Swap(k)]);
      FirstRead(s', n, k + 1) && s'.cnt == Wrap(k + 1)
  {
    RunSnoc(s0, steps, Begin(k, AcquireShared));
    var s1 := Run(s0, steps + [Begin(k, AcquireShared)]);
    RunSnoc(s0, steps + [Begin(k, AcquireShared)], Load(k));
    var s2 := Run(s0, steps + [Begin(k, AcquireShared)] + [Load(k)]);
    RunSnoc(s0, steps + [Begin(k, AcquireShared)] + [Load(k)], Swap(k));
    assert s1.threads[k] == Thread(Nothing, Loading(AcquireShared));
    assert s2.threads[k] == Thread(Nothing, Loaded(AcquireShared, k));
  }

  lemma {:induction false} ReadersCount(n: nat, k: nat)
    requires k <= n && k <= MAX16
    ensures var s := Run(Fresh(n), Readers(k)); FirstRead(s, n, k) && s.cnt == k
  {
    if k == 0 {
    } else {
      ReadersCount(n, k - 1);
      OneMoreReader(Run(Fresh(n), Readers(k - 1)), n, k - 1, Readers(k - 1), Fresh(n));
    }
  }

  /** One reader too many wraps the counter. */
  lemma TooMany(n: nat) returns (steps: seq<Step>)
    requires n > MAX16
    ensures !Safe(Run(Fresh(n), steps))
  {
    hide Run, Count;
    ReadersCount(n, MAX16);
    OneMoreReader(Run(Fresh(n), Readers(MAX16)), n, MAX16, Readers(MAX16), Fresh(n));
    steps := Readers(MAX16) + [Begin(MAX16, AcquireShared)] + [Load(MAX16)] + [Swap(MAX16)];
  }

  /** Every interleaving is safe if and only if there are at most 32767 threads. */
  lemma SafeIff(n: nat)
    ensures (forall steps: seq<Step> :: Safe(Run(Fresh(n), steps))) <==> n <= MAX16
  {
    hide Run, Safe, Fresh;
    if n <= MAX16 {
      forall steps: seq<Step> ensures Safe(Run(Fresh(n), steps)) {
        RunSafe(n, steps);
      }
    } else {
      var steps := TooMany(n);
    }
  }
}
