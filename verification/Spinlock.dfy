/** kern/spinlock.c as atomic steps of any number of processors: each read, each write and each xchg is one step,
    and steps interleave in any order. The debug checks are part of the code. */
module Spinlock {
  import opened Options

  /** `cpu` is the recorded holder, null or a processor; `traced` says whether pcs[] is in use. */
  datatype Lock = Lock(locked: bool, cpu: Option<nat>, traced: bool)

  /** Where a processor is. Its bracketed program calls spin_lock outside and spin_unlock inside. */
  datatype Pc =
    | Outside
    | CheckLocked     // spin_lock: holding() is about to read `locked`
    | CheckCpu        // ... and then `cpu`
    | Spinning        // about to xchg(&locked, 1)
    | Acquired        // about to write `cpu`
    | Recorded        // about to fill pcs[]
    | Inside
    | LeaveLocked     // spin_unlock: holding() is about to read `locked`
    | LeaveCpu        // ... and then `cpu`
    | Untrace         // about to write pcs[0]
    | Unrecord        // about to clear `cpu`
    | Release         // about to xchg(&locked, 0)
    | Panicked

  datatype State = State(lock: Lock, pcs: seq<Pc>)

  function Init(cpus: nat): State {
    State(Lock(false, None, false), seq(cpus, c => Outside))
  }

  /** Processor `c` takes its next step. */
  function Step(s: State, c: nat): State
    requires c < |s.pcs|
  {
    var l := s.lock;
    match s.pcs[c]
    case Outside => Goto(s, c, CheckLocked, l)
    case CheckLocked => Goto(s, c, if l.locked then CheckCpu else Spinning, l)
    case CheckCpu => Goto(s, c, if l.cpu == Some(c) then Panicked else Spinning, l)
    case Spinning => Goto(s, c, if l.locked then Spinning else Acquired, l.(locked := true))
    case Acquired => Goto(s, c, Recorded, l.(cpu := Some(c)))
    case Recorded => Goto(s, c, Inside, l.(traced := true))
    case Inside => Goto(s, c, LeaveLocked, l)
    case LeaveLocked => Goto(s, c, if l.locked then LeaveCpu else Panicked, l)
    case LeaveCpu => Goto(s, c, if l.cpu == Some(c) then Untrace else Panicked, l)
    case Untrace => Goto(s, c, Unrecord, l.(traced := false))
    case Unrecord => Goto(s, c, Release, l.(cpu := None))
    case Release => Goto(s, c, Outside, l.(locked := false))
    case Panicked => s
  }

  function Goto(s: State, c: nat, pc: Pc, lock: Lock): State
    requires c < |s.pcs|
  {
    State(lock, s.pcs[c := pc])
  }

  /** Between the xchg that took the lock and the xchg that gives it back. */
  predicate Holds(pc: Pc) {
    pc.Acquired? || pc.Recorded? || pc.Inside? || pc.LeaveLocked? || pc.LeaveCpu? || pc.Untrace? || pc.Unrecord? || pc.Release?
  }

  /** Between the two writes of `cpu`. */
  predicate Marked(pc: Pc) {
    Holds(pc) && !pc.Acquired? && !pc.Release?
  }

  ghost predicate Exclusive(s: State) {
    forall c, c' :: 0 <= c < |s.pcs| && 0 <= c' < |s.pcs| && Holds(s.pcs[c]) && Holds(s.pcs[c']) ==> c == c'
  }

  /** The holder has filled pcs[] and not cleared it yet. */
  predicate Traced(pc: Pc) {
    pc.Inside? || pc.LeaveLocked? || pc.LeaveCpu? || pc.Untrace?
  }

  /** `lk->cpu` is null or the holder, and it is the holder exactly between the two writes; pcs[] is in use exactly while
      a holder has it filled. */
  ghost predicate CpuExact(s: State) {
    && (s.lock.traced <==> s.lock.cpu.Some? && s.lock.cpu.value < |s.pcs| && Traced(s.pcs[s.lock.cpu.value]))
    && (s.lock.cpu.Some? ==> s.lock.cpu.value < |s.pcs| && Marked(s.pcs[s.lock.cpu.value]))
    && (forall c :: 0 <= c < |s.pcs| && Marked(s.pcs[c]) ==> s.lock.cpu == Some(c))
  }

  ghost predicate Inv(s: State) {
    && Exclusive(s) && CpuExact(s)
    && (s.lock.locked <==> exists c :: 0 <= c < |s.pcs| && Holds(s.pcs[c]))
    && (forall c :: 0 <= c < |s.pcs| ==> s.pcs[c] != Panicked)
  }

  /** The step's effect on who holds the lock. */
  lemma StepHolds(s: State, c: nat)
    requires Inv(s) && c < |s.pcs|
    ensures var s' := Step(s, c);
      && (forall d :: 0 <= d < |s.pcs| && d != c ==> s'.pcs[d] == s.pcs[d])
      && (Holds(s'.pcs[c]) ==> Holds(s.pcs[c]) || (!s.lock.locked && s'.lock.locked))
      && (Holds(s.pcs[c]) && !Holds(s'.pcs[c]) ==> !s'.lock.locked)
      && (s'.lock.locked <==> if Holds(s.pcs[c]) then Holds(s'.pcs[c]) else s.lock.locked || Holds(s'.pcs[c]))
      && s'.pcs[c] != Panicked
  {
    hide Exclusive;
    if Holds(s.pcs[c]) {
      assert s.lock.locked;
    }
  }

  lemma StepExclusive(s: State, c: nat)
    requires Inv(s) && c < |s.pcs|
    ensures Exclusive(Step(s, c))
    ensures Step(s, c).lock.locked <==> exists d :: 0 <= d < |s.pcs| && Holds(Step(s, c).pcs[d])
  {
    var s' := Step(s, c);
    StepHolds(s, c);
    hide CpuExact, Step, Holds;
    assert |s'.pcs| == |s.pcs|;
    if d :| 0 <= d < |s.pcs| && d != c && Holds(s.pcs[d]) {
      assert Holds(s'.pcs[d]) && s.lock.locked;
    }
    if d :| 0 <= d < |s.pcs| && Holds(s'.pcs[d]) {
      assert d != c ==> Holds(s.pcs[d]);
    }
  }

  lemma StepCpu(s: State, c: nat)
    requires Inv(s) && c < |s.pcs|
    ensures CpuExact(Step(s, c)) && |Step(s, c).pcs| == |s.pcs|
  {
    var s' := Step(s, c);
    assert forall d :: 0 <= d < |s.pcs| && d != c ==> s'.pcs[d] == s.pcs[d];
    if Holds(s.pcs[c]) {
      assert forall d :: 0 <= d < |s.pcs| && Holds(s.pcs[d]) ==> d == c;
    }
  }

  lemma StepKeeps(s: State, c: nat)
    requires Inv(s) && c < |s.pcs|
    ensures Inv(Step(s, c))
  {
    StepHolds(s, c);
    StepExclusive(s, c);
    StepCpu(s, c);
    hide Exclusive, CpuExact, Step;
  }

  /** Mutual exclusion and the absence of both debug panics, over every run of any number of processors. */
  lemma {:induction false} RunsAreExclusive(ss: seq<State>, cs: seq<nat>, cpus: nat)
    requires |ss| == |cs| + 1 && ss[0] == Init(cpus)
    requires forall i :: 0 <= i < |cs| ==> cs[i] < |ss[i].pcs| && ss[i + 1] == Step(ss[i], cs[i])
    ensures forall i :: 0 <= i < |ss| ==> Inv(ss[i])
  {
    if cs == [] {
      assert forall c :: 0 <= c < cpus ==> ss[0].pcs[c] == Outside;
    } else {
      var n := |cs| - 1;
      RunsAreExclusive(ss[..n + 1], cs[..n], cpus);
      assert ss[..n + 1][n] == ss[n];
      StepKeeps(ss[n], cs[n]);
    }
  }

  /** holding(), on processor `c`. */
  predicate Holding(l: Lock, c: nat) {
    l.locked && l.cpu == Some(c)
  }

  /** The debug check tells each processor, in every reachable state, whether it is the one between the two writes
      of `cpu`: a second spin_lock inside, or a spin_unlock outside, would panic. */
  lemma HoldingExact(s: State, c: nat)
    requires Inv(s) && c < |s.pcs|
    ensures Holding(s.lock, c) <==> Marked(s.pcs[c])
  {
  }

  /** The check's two reads may be apart: no step of another processor changes what either of them says to `c`. */
  lemma HoldingStable(s: State, c: nat, d: nat)
    requires Inv(s) && c < |s.pcs| && d < |s.pcs| && d != c
    ensures Holding(Step(s, d).lock, c) <==> Holding(s.lock, c)
    ensures (Step(s, d).lock.cpu == Some(c)) <==> (s.lock.cpu == Some(c))
    ensures Holds(s.pcs[c]) ==> Step(s, d).lock == s.lock
  {
    if Holds(s.pcs[c]) {
      assert s.lock.locked;
    }
  }

  // ----- progress -----

  /** Processor `c` takes `n` steps and nobody else any. */
  function Alone(s: State, c: nat, n: nat): (s': State)
    requires c < |s.pcs|
    ensures |s'.pcs| == |s.pcs| && forall d :: 0 <= d < |s.pcs| && d != c ==> s'.pcs[d] == s.pcs[d]
  {
    if n == 0 then s else Step(Alone(s, c, n - 1), c)
  }

  ghost predicate Taken(s: State) {
    exists c :: 0 <= c < |s.pcs| && Holds(s.pcs[c])
  }

  /** When nobody is between acquire and release, spin_lock gets a processor inside in five steps of its own, with the lock
      taken in its name. */
  lemma AcquiresAlone(s: State, c: nat)
    requires Inv(s) && c < |s.pcs| && s.pcs[c] == Outside && !Taken(s)
    ensures Alone(s, c, 5).pcs[c] == Inside && Alone(s, c, 5).lock == Lock(true, Some(c), true)
  {
    assert Alone(s, c, 1).pcs[c] == CheckLocked;
    assert Alone(s, c, 2).pcs[c] == Spinning;
    assert Alone(s, c, 3).pcs[c] == Acquired;
    assert Alone(s, c, 4).pcs[c] == Recorded;
  }

  /** From inside, spin_unlock gets it out in six, with the lock as spin_initlock left it. */
  lemma ReleasesAlone(s: State, c: nat)
    requires Inv(s) && c < |s.pcs| && s.pcs[c] == Inside
    ensures s.lock == Lock(true, Some(c), true)
    ensures Alone(s, c, 6).pcs[c] == Outside && Alone(s, c, 6).lock == Lock(false, None, false)
  {
    assert Holds(s.pcs[c]) && Marked(s.pcs[c]) && Traced(s.pcs[c]);
    assert Alone(s, c, 1).pcs[c] == LeaveLocked;
    assert Alone(s, c, 2).pcs[c] == LeaveCpu;
    assert Alone(s, c, 3).pcs[c] == Untrace;
    assert Alone(s, c, 4).pcs[c] == Unrecord;
    assert Alone(s, c, 5).pcs[c] == Release;
  }

  /** A spinning processor's xchg takes the lock exactly if nobody holds it, and otherwise leaves everything as it is. */
  lemma SpinnerTakesIff(s: State, c: nat)
    requires Inv(s) && c < |s.pcs| && s.pcs[c] == Spinning
    ensures Holds(Step(s, c).pcs[c]) <==> !Taken(s)
    ensures if Taken(s) then Step(s, c) == s else Step(s, c).pcs[c] == Acquired && Step(s, c).lock.locked
  {
    if Taken(s) {
      assert s.pcs[c := Spinning] == s.pcs;
    }
  }

  /** How many of its own steps a processor is from having released the lock. */
  function StepsToRelease(pc: Pc): nat {
    match pc
    case Acquired => 8
    case Recorded => 7
    case Inside => 6
    case LeaveLocked => 5
    case LeaveCpu => 4
    case Untrace => 3
    case Unrecord => 2
    case Release => 1
    case _ => 0
  }

  /** Each own step brings a holder one nearer, and the last one frees the lock; other processors' steps do not matter. */
  lemma HolderAdvances(s: State, c: nat, d: nat)
    requires Inv(s) && c < |s.pcs| && d < |s.pcs| && Holds(s.pcs[c])
    ensures var s' := Step(s, d);
      if d != c then s'.pcs[c] == s.pcs[c]
      else if s.pcs[c].Release? then s'.pcs[c] == Outside && !s'.lock.locked
      else Holds(s'.pcs[c]) && StepsToRelease(s'.pcs[c]) == StepsToRelease(s.pcs[c]) - 1
  {
    assert s.lock.locked;
  }

  function OwnSteps(cs: seq<nat>, c: nat): nat {
    if cs == [] then 0 else (if cs[0] == c then 1 else 0) + OwnSteps(cs[1..], c)
  }

  /** In every run, however the steps interleave, a holder that takes that many steps of its own has released the lock
      on the way. */
  lemma {:induction false} HolderReleases(ss: seq<State>, cs: seq<nat>, c: nat)
    requires |ss| == |cs| + 1 && Inv(ss[0]) && c < |ss[0].pcs| && Holds(ss[0].pcs[c])
    requires forall i :: 0 <= i < |cs| ==> cs[i] < |ss[i].pcs| && ss[i + 1] == Step(ss[i], cs[i])
    requires OwnSteps(cs, c) >= StepsToRelease(ss[0].pcs[c])
    ensures exists i :: 0 <= i < |ss| && c < |ss[i].pcs| && ss[i].pcs[c] == Outside && !ss[i].lock.locked
  {
    if cs != [] {
      StepKeeps(ss[0], cs[0]);
      HolderAdvances(ss[0], c, cs[0]);
      hide Inv, Step;
      if cs[0] == c && ss[0].pcs[c].Release? {
        assert ss[1].pcs[c] == Outside && !ss[1].lock.locked;
      } else {
        HolderReleases(ss[1..], cs[1..], c);
        var i :| 0 <= i < |ss[1..]| && c < |ss[1..][i].pcs| && ss[1..][i].pcs[c] == Outside && !ss[1..][i].lock.locked;
        assert ss[1..][i] == ss[i + 1];
      }
    }
  }

  /** So nobody spins forever for want of steps: from any reachable state with a processor spinning, the holder's own steps,
      at most eight, and then one of the spinner's hand it the lock. */
  lemma Handoff(s: State, c: nat, h: nat)
    requires Inv(s) && c < |s.pcs| && s.pcs[c] == Spinning && h < |s.pcs| && Holds(s.pcs[h])
    ensures var s' := Alone(s, h, StepsToRelease(s.pcs[h]));
      s'.pcs[h] == Outside && !s'.lock.locked && s'.pcs[c] == Spinning && Step(s', c).pcs[c] == Acquired
  {
    ReleasesByItself(s, h);
  }

  lemma {:induction false} AloneShift(s: State, c: nat, n: nat)
    requires c < |s.pcs|
    ensures Alone(s, c, n + 1) == Alone(Step(s, c), c, n)
  {
    if n > 0 {
      AloneShift(s, c, n - 1);
    }
  }

  lemma {:induction false} ReleasesByItself(s: State, h: nat)
    requires Inv(s) && h < |s.pcs| && Holds(s.pcs[h])
    ensures var s' := Alone(s, h, StepsToRelease(s.pcs[h])); s'.pcs[h] == Outside && !s'.lock.locked
    decreases StepsToRelease(s.pcs[h])
  {
    HolderAdvances(s, h, h);
    StepKeeps(s, h);
    AloneShift(s, h, StepsToRelease(s.pcs[h]) - 1);
    if !s.pcs[h].Release? {
      ReleasesByItself(Step(s, h), h);
    }
  }

  // ----- what the debug checks catch -----

  /** In any state at all, spin_lock by the processor between the two writes of `cpu` ends in its panic, and by any other
      goes on to spin. */
  lemma LockPanicsIff(s: State, c: nat)
    requires c < |s.pcs| && s.pcs[c] == CheckLocked
    ensures Alone(s, c, if s.lock.locked then 2 else 1).pcs[c] == if Holding(s.lock, c) then Panicked else Spinning
  {
    assert Alone(s, c, 1) == Step(s, c);
    assert Alone(s, c, 2) == Step(Step(s, c), c);
  }

  /** And spin_unlock by anybody else ends in its. */
  lemma UnlockPanicsIff(s: State, c: nat)
    requires c < |s.pcs| && s.pcs[c] == LeaveLocked
    ensures Alone(s, c, if s.lock.locked then 2 else 1).pcs[c] == if Holding(s.lock, c) then Untrace else Panicked
  {
    assert Alone(s, c, 1) == Step(s, c);
    assert Alone(s, c, 2) == Step(Step(s, c), c);
  }
}
