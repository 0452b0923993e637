/** The single-producer, single-consumer queue of base/atomicops.h, one atomic access
    per step, under every interleaving of one producer and one consumer. Counters are
    32 bits wide and wrap; so does their sum with the capacity (`size_t` on ARM). */
module LockFreeQueue {

  const MODULUS: nat := 0x1_0000_0000

  datatype Producer<T> = PIdle | PTested(value: T) | PWritten(value: T)
  datatype Consumer<T> = CIdle | CTested(popping: bool) | CRead(value: T)

  /** Shared memory, the two program counters, and the logs of completed calls. */
  datatype State<T> = State(
    capacity: nat, slots: seq<T>, pushedCount: nat, poppedCount: nat,
    producer: Producer<T>, consumer: Consumer<T>,
    pushed: seq<T>, popped: seq<T>)

  /** One step of either thread; `Test` steps start a call. */
  datatype Action<T> =
    | PushTest(value: T) | PushWrite | PushCount
    | PeekTest | PopTest | ReadSlot | PopCount

  predicate IsFull<T>(s: State<T>) { s.pushedCount == (s.poppedCount + s.capacity) % MODULUS }

  predicate IsEmpty<T>(s: State<T>) { s.pushedCount == s.poppedCount }

  /** What `Size` computes from two counter values. */
  function Size(pushedCount: int, poppedCount: int): nat { (pushedCount - poppedCount) % MODULUS }

  predicate Sized<T>(s: State<T>) {
    |s.slots| == s.capacity && (s.producer.PTested? || s.consumer.CTested? ==> 0 < s.capacity)
  }

  /** A step that its thread is not ready for changes nothing. */
  function Step<T>(s: State<T>, a: Action<T>): (t: State<T>)
    requires Sized(s)
    ensures Sized(t) && t.capacity == s.capacity
  {
    match a
    case PushTest(v) =>
      if s.producer.PIdle? && s.capacity != 0 && !IsFull(s) then s.(producer := PTested(v)) else s
    case PushWrite =>
      if s.producer.PTested? then
        s.(slots := s.slots[s.pushedCount % s.capacity := s.producer.value],
           producer := PWritten(s.producer.value))
      else s
    case PushCount =>
      if s.producer.PWritten? then
        s.(pushedCount := (s.pushedCount + 1) % MODULUS, pushed := s.pushed + [s.producer.value],
           producer := PIdle)
      else s
    case PeekTest =>
      if s.consumer.CIdle? && s.capacity != 0 && !IsEmpty(s) then s.(consumer := CTested(false)) else s
    case PopTest =>
      if s.consumer.CIdle? && s.capacity != 0 && !IsEmpty(s) then s.(consumer := CTested(true)) else s
    case ReadSlot =>
      if s.consumer.CTested? then
        s.(consumer := if s.consumer.popping then CRead(s.slots[s.poppedCount % s.capacity]) else CIdle)
      else s
    case PopCount =>
      if s.consumer.CRead? then
        s.(poppedCount := (s.poppedCount + 1) % MODULUS, popped := s.popped + [s.consumer.value],
           consumer := CIdle)
      else s
  }

  function Start<T>(slots: seq<T>): (s: State<T>)
    ensures Sized(s)
  {
    State(|slots|, slots, 0, 0, PIdle, CIdle, [], [])
  }

  function Run<T>(s: State<T>, actions: seq<Action<T>>): (t: State<T>)
    requires Sized(s)
    ensures Sized(t) && t.capacity == s.capacity
  {
    if actions == [] then s else Step(Run(s, actions[..|actions| - 1]), actions[|actions| - 1])
  }

  lemma {:induction false} RunAppend<T>(s: State<T>, a: seq<Action<T>>, b: seq<Action<T>>)
    requires Sized(s)
    ensures Run(s, a + b) == Run(Run(s, a), b)
  {
    hide Step;
    if b == [] {
      assert a + b == a;
    } else {
      assert (a + b)[..|a + b| - 1] == a + b[..|b| - 1];
      RunAppend(s, a, b[..|b| - 1]);
    }
  }

  // ---------------------------------------------------------------------------
  // Arithmetic of wrapped slot numbers
  // ---------------------------------------------------------------------------

  /** Where the n-th pushed element goes. */
  function Slot(n: nat, capacity: nat): (k: nat)
    requires 0 < capacity
    ensures k < capacity
  {
    (n % MODULUS) % capacity
  }

  lemma ProductSign(c: int, d: int)
    requires 0 < c
    ensures 1 <= d ==> c <= c * d
    ensures d <= 0 ==> c * d <= 0
    ensures d <= -1 ==> c * d <= -c
  {
  }

  lemma RemainderUnique(n: nat, c: nat, q: int, r: nat)
    requires 0 < c && n == c * q + r && r < c
    ensures n % c == r
  {
    var d := q - n / c;
    assert n == c * (n / c) + n % c;
    assert c * d == n % c - r;
    ProductSign(c, d);
  }

  lemma AddMultiple(x: nat, c: nat, j: nat)
    requires 0 < c
    ensures (x + c * j) % c == x % c
  {
    assert x + c * j == c * (x / c + j) + x % c;
    ProductSign(c, j);
    RemainderUnique(x + c * j, c, x / c + j, x % c);
  }

  lemma SlotIsModulo(n: nat, c: nat)
    requires 0 < c
    requires n < MODULUS || MODULUS % c == 0
    ensures Slot(n, c) == n % c
  {
    if MODULUS <= n {
      var k := MODULUS / c;
      var a, b := n / MODULUS, n % MODULUS;
      assert MODULUS == c * k;
      assert n == b + (c * k) * a;
      assert (c * k) * a == c * (k * a);
      AddMultiple(b, c, k * a);
    }
  }

  lemma NearbyDiffer(n: nat, k: nat, c: nat)
    requires k < n < k + c
    ensures n % c != k % c
  {
    var q := n / c - k / c;
    assert n - k == c * q + (n % c - k % c);
    ProductSign(c, q);
  }

  lemma NextCount(n: nat)
    ensures (n % MODULUS + 1) % MODULUS == (n + 1) % MODULUS
  {
  }

  // ---------------------------------------------------------------------------
  // The invariant
  // ---------------------------------------------------------------------------

  /** The elements the queue holds, oldest first. */
  ghost function Queue<T>(s: State<T>): seq<T>
    requires |s.popped| <= |s.pushed|
  {
    s.pushed[|s.popped|..]
  }

  ghost predicate Fifo<T>(s: State<T>) { s.popped <= s.pushed }

  ghost predicate Held<T>(s: State<T>, n: nat)
    requires |s.slots| == s.capacity && 0 < s.capacity && n < |s.pushed|
  {
    s.slots[Slot(n, s.capacity)] == s.pushed[n]
  }

  ghost predicate Counts<T>(s: State<T>)
  {
    && Sized(s) && s.capacity < MODULUS
    && |s.popped| <= |s.pushed| <= |s.popped| + s.capacity
    && s.pushedCount == |s.pushed| % MODULUS && s.poppedCount == |s.popped| % MODULUS
    && (s.producer != PIdle ==> |s.pushed| < |s.popped| + s.capacity)
    && (s.consumer != CIdle ==> |s.popped| < |s.pushed|)
  }

  ghost predicate Inv<T>(s: State<T>)
  {
    && Counts(s) && Fifo(s)
    && (0 < s.capacity ==> forall n :: |s.popped| <= n < |s.pushed| ==> Held(s, n))
    && (s.producer.PWritten? ==> s.slots[Slot(|s.pushed|, s.capacity)] == s.producer.value)
    && (s.consumer.CRead? ==> s.consumer.value == s.pushed[|s.popped|])
  }

  lemma CountDifference(p: nat, c: nat, d: nat)
    requires c <= p <= c + d && d < MODULUS
    ensures p % MODULUS == c % MODULUS <==> p == c
    ensures p % MODULUS == (c % MODULUS + d) % MODULUS <==> p == c + d
    ensures Size(p % MODULUS, c % MODULUS) == p - c
  {
  }

  /** Counters never mislead the tests: a push is refused exactly when `capacity`
      elements are held, a peek or pop exactly when none is, and `Size` is the number
      held, never more than the capacity. */
  lemma TestsExact<T>(s: State<T>)
    requires Counts(s)
    ensures IsFull(s) <==> |Queue(s)| == s.capacity
    ensures IsEmpty(s) <==> Queue(s) == []
    ensures Size(s.pushedCount, s.poppedCount) == |Queue(s)| <= s.capacity
  {
    CountDifference(|s.pushed|, |s.popped|, s.capacity);
  }

  lemma CountsKept<T>(s: State<T>, a: Action<T>)
    requires Counts(s)
    ensures Counts(Step(s, a))
  {
    TestsExact(s);
    hide IsFull, IsEmpty;
    NextCount(|s.pushed|);
    NextCount(|s.popped|);
  }

  /** The queue is wrap-safe at its n-th push: counters have not wrapped, or wrapping
      does not move the slots. */
  ghost predicate WrapSafe(n: nat, capacity: nat)
    requires 0 < capacity
  {
    n < MODULUS || MODULUS % capacity == 0
  }

  /** The slot being written holds no live element, and is not the one being read. */
  lemma WriteAvoidsLive<T>(s: State<T>, n: nat)
    requires Counts(s) && s.producer.PTested? && WrapSafe(|s.pushed|, s.capacity)
    requires |s.popped| <= n < |s.pushed|
    ensures Slot(n, s.capacity) != Slot(|s.pushed|, s.capacity)
  {
    SlotIsModulo(n, s.capacity);
    SlotIsModulo(|s.pushed|, s.capacity);
    NearbyDiffer(|s.pushed|, n, s.capacity);
  }

  lemma WriteNeverMeetsRead<T>(s: State<T>)
    requires Counts(s) && s.producer.PTested? && s.consumer.CTested?
    requires WrapSafe(|s.pushed|, s.capacity)
    ensures s.pushedCount % s.capacity != s.poppedCount % s.capacity
  {
    WriteAvoidsLive(s, |s.popped|);
  }

  lemma WriteKeepsInv<T>(s: State<T>)
    requires Inv(s) && s.producer.PTested? && WrapSafe(|s.pushed|, s.capacity)
    ensures Inv(Step(s, PushWrite))
  {
    hide Slot;
    var t := Step(s, PushWrite);
    CountsKept(s, PushWrite);
    assert s.pushedCount % s.capacity == Slot(|s.pushed|, s.capacity) by { SlotOfCount(s); }
    forall n | |t.popped| <= n < |t.pushed|
      ensures Held(t, n)
    {
      assert Held(s, n);
      WriteAvoidsLive(s, n);
    }
  }

  lemma SlotOfCount<T>(s: State<T>)
    requires Counts(s) && 0 < s.capacity
    ensures s.pushedCount % s.capacity == Slot(|s.pushed|, s.capacity)
    ensures s.poppedCount % s.capacity == Slot(|s.popped|, s.capacity)
  {
  }

  lemma StepKeepsInv<T>(s: State<T>, a: Action<T>)
    requires Inv(s)
    requires s.producer.PTested? ==> WrapSafe(|s.pushed|, s.capacity)
    ensures Inv(Step(s, a))
  {
    hide Slot;
    CountsKept(s, a);
    var t := Step(s, a);
    if a == PushWrite && s.producer.PTested? {
      WriteKeepsInv(s);
    } else {
      if 0 < s.capacity {
        SlotOfCount(s);
        if s.consumer != CIdle {
          assert Held(s, |s.popped|);
        }
        forall n | |t.popped| <= n < |t.pushed|
          ensures Held(t, n)
        {
          if n < |s.pushed| { assert Held(s, n); }
        }
      }
    }
  }

  // ---------------------------------------------------------------------------
  // Whole runs
  // ---------------------------------------------------------------------------

  lemma PushedGrows<T>(s: State<T>, a: Action<T>)
    requires Sized(s)
    ensures |s.pushed| <= |Step(s, a).pushed|
  {
  }

  /** Every run, whatever the interleaving, keeps the invariant, as long as fewer than
      2^32 elements were pushed or the capacity divides 2^32. */
  lemma {:induction false} RunKeepsInv<T>(slots: seq<T>, actions: seq<Action<T>>)
    requires |slots| < MODULUS
    requires |slots| == 0 || |Run(Start(slots), actions).pushed| < MODULUS || MODULUS % |slots| == 0
    ensures Inv(Run(Start(slots), actions))
  {
    if actions != [] {
      var front := actions[..|actions| - 1];
      var s := Run(Start(slots), front);
      PushedGrows(s, actions[|actions| - 1]);
      RunKeepsInv(slots, front);
      hide Step, Inv, Fifo;
      StepKeepsInv(s, actions[|actions| - 1]);
    }
  }

  /** The run refines a FIFO queue: the only steps that change its contents are the
      counter increments, which append the pushed value and remove the oldest one; and
      the value a peek or pop reads is that oldest one. */
  lemma StepRefinesFifo<T>(s: State<T>, a: Action<T>)
    requires Inv(s)
    requires s.producer.PTested? ==> WrapSafe(|s.pushed|, s.capacity)
    ensures Inv(Step(s, a))
    ensures Queue(Step(s, a)) ==
            if a == PushCount && s.producer.PWritten? then Queue(s) + [s.producer.value]
            else if a == PopCount && s.consumer.CRead? then Queue(s)[1..]
            else Queue(s)
    ensures s.consumer.CTested? ==> Queue(s) != [] && s.slots[s.poppedCount % s.capacity] == Queue(s)[0]
    ensures a == PopCount && s.consumer.CRead? ==> Step(s, a).popped == s.popped + [Queue(s)[0]]
  {
    StepKeepsInv(s, a);
    if s.consumer.CTested? {
      SlotOfCount(s);
      assert Held(s, |s.popped|);
    }
  }

  /** `Size` called by the producer: its own counter stands still while it reads the
      other one, so it sees the number held at that moment. */
  lemma {:induction false} SizeSeenByProducer<T>(s: State<T>, actions: seq<Action<T>>)
    requires Counts(s) && forall a <- actions :: a.PeekTest? || a.PopTest? || a.ReadSlot? || a.PopCount?
    ensures var t := Run(s, actions);
            Counts(t) && t.pushedCount == s.pushedCount && |t.pushed| == |s.pushed|
            && Size(s.pushedCount, t.poppedCount) == |Queue(t)| <= s.capacity
  {
    if actions == [] {
      TestsExact(s);
    } else {
      var front, last := actions[..|actions| - 1], actions[|actions| - 1];
      assert last in actions && forall a :: a in front ==> a in actions;
      SizeSeenByProducer(s, front);
      CountsKept(Run(s, front), last);
      TestsExact(Run(s, actions));
    }
  }

  lemma {:induction false} SizeSeenByConsumer<T>(s: State<T>, actions: seq<Action<T>>)
    requires Counts(s) && forall a <- actions :: a.PushTest? || a.PushWrite? || a.PushCount?
    ensures var t := Run(s, actions);
            Counts(t) && t.poppedCount == s.poppedCount && |t.popped| == |s.popped|
            && Size(t.pushedCount, s.poppedCount) == |Queue(t)| <= s.capacity
  {
    if actions == [] {
      TestsExact(s);
    } else {
      var front, last := actions[..|actions| - 1], actions[|actions| - 1];
      assert last in actions && forall a :: a in front ==> a in actions;
      SizeSeenByConsumer(s, front);
      CountsKept(Run(s, front), last);
      TestsExact(Run(s, actions));
    }
  }

  // ---------------------------------------------------------------------------
  // The wrap-around condition is exact
  // ---------------------------------------------------------------------------

  function PushPop(v: int): seq<Action<int>>
  {
    [PushTest(v), PushWrite, PushCount, PopTest, ReadSlot, PopCount]
  }

  function Push(v: int): seq<Action<int>> { [PushTest(v), PushWrite, PushCount] }

  function Repeat(actions: seq<Action<int>>, n: nat): seq<Action<int>>
  {
    if n == 0 then [] else Repeat(actions, n - 1) + actions
  }

  function Zeros(n: nat): (s: seq<int>)
    ensures |s| == n && forall i :: 0 <= i < n ==> s[i] == 0
  {
    seq(n, _ => 0)
  }

  /** The quiet state after n zeros have gone through. */
  function Drained(c: nat, n: nat): State<int>
  {
    State(c, Zeros(c), n % MODULUS, n % MODULUS, PIdle, CIdle, Zeros(n), Zeros(n))
  }

  lemma RunNothing<T>(s: State<T>)
    requires Sized(s)
    ensures Run(s, []) == s
  {
  }

  lemma RunSnoc<T>(s: State<T>, actions: seq<Action<T>>, a: Action<T>)
    requires Sized(s)
    ensures Run(s, actions + [a]) == Step(Run(s, actions), a)
  {
    hide Step;
    assert (actions + [a])[..|actions|] == actions;
  }

  lemma RunThree<T>(s: State<T>, a: Action<T>, b: Action<T>, c: Action<T>)
    requires Sized(s)
    ensures Run(s, [a, b, c]) == Step(Step(Step(s, a), b), c)
  {
    hide Step, Run;
    RunSnoc(s, [], a);
    RunSnoc(s, [a], b);
    RunSnoc(s, [a, b], c);
    RunNothing(s);
    assert [] + [a] == [a] && [a] + [b] == [a, b] && [a, b] + [c] == [a, b, c];
  }

  lemma PushFrom(s: State<int>, v: int)
    requires Sized(s) && 0 < s.capacity && s.producer.PIdle? && !IsFull(s)
    ensures Run(s, Push(v)) ==
            s.(slots := s.slots[s.pushedCount % s.capacity := v],
               pushedCount := (s.pushedCount + 1) % MODULUS, pushed := s.pushed + [v])
  {
    RunThree(s, PushTest(v), PushWrite, PushCount);
  }

  lemma PopFrom(s: State<int>)
    requires Sized(s) && 0 < s.capacity && s.consumer.CIdle? && !IsEmpty(s)
    ensures Run(s, [PopTest, ReadSlot, PopCount]) ==
            s.(poppedCount := (s.poppedCount + 1) % MODULUS,
               popped := s.popped + [s.slots[s.poppedCount % s.capacity]])
  {
    RunThree(s, PopTest, ReadSlot, PopCount);
  }

  lemma PingPong(c: nat, n: nat)
    requires 0 < c < MODULUS
    ensures Run(Drained(c, n), PushPop(0)) == Drained(c, n + 1)
  {
    hide Step, Run;
    var s := Drained(c, n);
    assert PushPop(0) == Push(0) + [PopTest, ReadSlot, PopCount];
    RunAppend(s, Push(0), [PopTest, ReadSlot, PopCount]);
    CountDifference(n, n, c);
    PushFrom(s, 0);
    var t := Run(s, Push(0));
    assert t.slots == Zeros(c) && t.pushed == Zeros(n + 1);
    NextCount(n);
    CountDifference(n + 1, n, c);
    PopFrom(t);
    assert s.popped + [0] == Zeros(n + 1);
  }

  lemma {:induction false} PingPongs(c: nat, n: nat)
    requires 0 < c < MODULUS
    ensures Run(Start(Zeros(c)), Repeat(PushPop(0), n)) == Drained(c, n)
  {
    if n == 0 {
      assert Zeros(0) == [];
    } else {
      PingPongs(c, n - 1);
      RunAppend(Start(Zeros(c)), Repeat(PushPop(0), n - 1), PushPop(0));
      PingPong(c, n - 1);
    }
  }

  /** Counts after k further pushes of 2 on top of `n` drained elements and a 1. */
  ghost predicate Filled(s: State<int>, c: nat, n: nat, k: nat)
  {
    && Sized(s) && s.capacity == c && s.producer == PIdle && s.consumer == CIdle
    && |s.pushed| == n + 1 + k && s.pushed[n] == 1 && s.popped == Zeros(n)
    && s.pushedCount == (n + 1 + k) % MODULUS && s.poppedCount == n % MODULUS
  }

  lemma FillOne(t: State<int>, c: nat, n: nat, k: nat)
    requires k + 1 < c < MODULUS && Filled(t, c, n, k)
    ensures Filled(Run(t, Push(2)), c, n, k + 1)
    ensures Run(t, Push(2)).slots[(n + k + 1) % MODULUS % c] == 2
  {
    hide Step, Run, Push;
    CountDifference(n + k + 1, n, c);
    PushFrom(t, 2);
    NextCount(n + k + 1);
  }

  lemma {:induction false} Fill(c: nat, n: nat, k: nat)
    requires 0 < c < MODULUS && k < c
    ensures Filled(Run(Drained(c, n), Push(1) + Repeat(Push(2), k)), c, n, k)
  {
    hide Step, Run;
    var s := Drained(c, n);
    if k == 0 {
      assert Push(1) + [] == Push(1);
      CountDifference(n, n, c);
      PushFrom(s, 1);
      NextCount(n);
    } else {
      Fill(c, n, k - 1);
      var before := Push(1) + Repeat(Push(2), k - 1);
      assert Push(1) + Repeat(Push(2), k) == before + Push(2);
      RunAppend(s, before, Push(2));
      FillOne(Run(s, before), c, n, k - 1);
    }
  }

  /** With a capacity that does not divide 2^32, the 2^32-nd push lands on a live slot:
      the element pushed r = 2^32 mod capacity pushes earlier is overwritten. */
  function BreakingRun(c: nat): seq<Action<int>>
    requires 0 < c
  {
    var r := MODULUS % c;
    Repeat(PushPop(0), MODULUS - r) + (Push(1) + Repeat(Push(2), r)) + [PopTest, ReadSlot, PopCount]
  }

  lemma LastPushOverwrites(c: nat, n: nat, k: nat)
    requires 0 < k < c < MODULUS && n % c == 0 && n + k == MODULUS
    ensures var t := Run(Drained(c, n), Push(1) + Repeat(Push(2), k));
            Filled(t, c, n, k) && t.slots[0] == 2
  {
    hide Step, Run;
    Fill(c, n, k - 1);
    var before := Push(1) + Repeat(Push(2), k - 1);
    assert Push(1) + Repeat(Push(2), k) == before + Push(2);
    RunAppend(Drained(c, n), before, Push(2));
    FillOne(Run(Drained(c, n), before), c, n, k - 1);
  }

  lemma NotFifo(c: nat)
    requires 0 < c < MODULUS && MODULUS % c != 0
    ensures !Fifo(Run(Start(Zeros(c)), BreakingRun(c)))
  {
    hide Step;
    var r := MODULUS % c;
    var n := MODULUS - r;
    var s := Drained(c, n);
    var fill := Push(1) + Repeat(Push(2), r);
    assert n == c * (MODULUS / c);
    AddMultiple(0, c, MODULUS / c);
    PingPongs(c, n);
    RunAppend(Start(Zeros(c)), Repeat(PushPop(0), n), fill);
    RunAppend(Start(Zeros(c)), Repeat(PushPop(0), n) + fill, [PopTest, ReadSlot, PopCount]);
    LastPushOverwrites(c, n, r);
    var t := Run(s, fill);
    CountDifference(n + 1 + r, n, c);
    PopFrom(t);
    assert (t.popped + [2])[n] == 2 && t.pushed[n] == 1;
  }

  /** Unbounded runs: first in, first out under every interleaving, for all time, if
      and only if the capacity divides 2^32. */
  lemma FifoForeverIff(c: nat)
    requires 0 < c < MODULUS
    ensures (forall actions :: Fifo(Run(Start(Zeros(c)), actions))) <==> MODULUS % c == 0
  {
    hide Step;
    if MODULUS % c == 0 {
      forall actions
        ensures Fifo(Run(Start(Zeros(c)), actions))
      {
        RunKeepsInv(Zeros(c), actions);
      }
    } else {
      NotFifo(c);
    }
  }

  // ---------------------------------------------------------------------------
  // `Size` called by a thread that is neither producer nor consumer
  // ---------------------------------------------------------------------------

  lemma {:induction false} RunKeepsCounts<T>(s: State<T>, actions: seq<Action<T>>)
    requires Counts(s)
    ensures var t := Run(s, actions);
            Counts(t) && t.capacity == s.capacity && |s.pushed| <= |t.pushed| && |s.popped| <= |t.popped|
  {
    if actions != [] {
      var front, last := actions[..|actions| - 1], actions[|actions| - 1];
      RunKeepsCounts(s, front);
      CountsKept(Run(s, front), last);
      BothGrow(Run(s, front), last);
      hide Step;
    }
  }

  lemma BothGrow<T>(s: State<T>, a: Action<T>)
    requires Sized(s)
    ensures |s.pushed| <= |Step(s, a).pushed| && |s.popped| <= |Step(s, a).popped|
  {
  }

  lemma DifferenceOfRemainders(p: nat, q: nat)
    ensures (p % MODULUS - q % MODULUS) % MODULUS == (p - q) % MODULUS
  {
  }

  lemma InRangeIff(d: int, c: nat)
    requires 0 <= d + c && c < MODULUS
    ensures (-d) % MODULUS <= c <==> d <= 0 || d % MODULUS == 0 || MODULUS - c <= d % MODULUS
    ensures d < MODULUS - c ==> ((-d) % MODULUS <= c <==> d <= 0)
  {
  }

  /** `pushed_count_` is read first, `popped_count_` after any steps of the two others:
      the promised range holds if and only if what was popped meanwhile had been pushed
      before the first read (or the overtaking happens to wrap around into the range). */
  lemma SizePushedFirstIff<T>(s: State<T>, actions: seq<Action<T>>)
    requires Counts(s)
    ensures var t := Run(s, actions);
            var ahead := |t.popped| - |s.pushed|;
            && (Size(s.pushedCount, t.poppedCount) <= s.capacity
                <==> ahead <= 0 || ahead % MODULUS == 0 || MODULUS - s.capacity <= ahead % MODULUS)
            && (ahead < MODULUS - s.capacity ==>
                (Size(s.pushedCount, t.poppedCount) <= s.capacity <==> |t.popped| <= |s.pushed|))
  {
    hide Step, Run;
    RunKeepsCounts(s, actions);
    var t := Run(s, actions);
    DifferenceOfRemainders(|s.pushed|, |t.popped|);
    InRangeIff(|t.popped| - |s.pushed|, s.capacity);
  }

  /** `popped_count_` is read first: the range holds if and only if no more was pushed
      since than fits behind the element then oldest, modulo 2^32. */
  lemma SizePoppedFirstIff<T>(s: State<T>, actions: seq<Action<T>>)
    requires Counts(s)
    ensures var t := Run(s, actions);
            && (Size(t.pushedCount, s.poppedCount) <= s.capacity
                <==> (|t.pushed| - |s.popped|) % MODULUS <= s.capacity)
            && (|t.pushed| - |s.popped| < MODULUS ==>
                (Size(t.pushedCount, s.poppedCount) <= s.capacity <==> |t.pushed| <= |s.popped| + s.capacity))
  {
    hide Step, Run;
    RunKeepsCounts(s, actions);
    var t := Run(s, actions);
    DifferenceOfRemainders(|t.pushed|, |s.popped|);
    SmallRemainder(|t.pushed| - |s.popped|);
  }

  lemma SmallRemainder(n: int)
    requires 0 <= n
    ensures n < MODULUS ==> n % MODULUS == n
  {
  }

  /** Both orders do fail: one element going through a queue of capacity 1 between the
      two reads shows a size of 2^32 - 1, two elements show a size of 2. */
  lemma SizeSeenByOutsider(s: State<int>)
    requires s == Drained(1, 0)
    ensures var t := Run(s, PushPop(0)); Size(s.pushedCount, t.poppedCount) > s.capacity
    ensures var t := Run(s, PushPop(0) + PushPop(0)); Size(t.pushedCount, s.poppedCount) > s.capacity
  {
    hide Step, Run;
    PingPong(1, 0);
    PingPong(1, 1);
    RunAppend(s, PushPop(0), PushPop(0));
  }
}
