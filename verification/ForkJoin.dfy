/** The fork-join product of VerifyProof: one goroutine per challenged block computes a
    power and multiplies it into a shared accumulator under a mutex, while the caller
    counts goroutines in a WaitGroup and waits for the counter to drop to zero.

    The multiplication is modelled as a separate load and store, so the mutex matters.
    A goroutine whose hash is missing panics, which ends the whole process. */
module ForkJoin {

  import opened Wrappers

  /** `powers` holds one value for every hash supplied; `n` goroutines are started. */
  datatype Job = Job(n: nat, powers: seq<nat>) {
    ghost predicate Complete() { n <= |powers| }
  }

  datatype Phase =
    | Spawned          // go statement executed
    | Powed            // power computed
    | Locked           // mutex taken
    | Loaded(seen: nat) // accumulator read
    | Stored           // accumulator written
    | Unlocked         // mutex released
    | Finished         // wg.Done executed
  {
    predicate Counted() { Stored? || Unlocked? || Finished? }
    predicate HoldsLock() { Locked? || Loaded? || Stored? }
  }

  /** `phases[t]` exists once goroutine t has been started; `joined` means wg.Wait returned. */
  datatype State = State(
    phases: seq<Phase>, holder: Option<nat>, multiply: nat, wg: nat, joined: bool, crashed: bool)

  datatype Action =
    | Spawn | Join
    | Compute(t: nat) | Lock(t: nat) | Load(t: nat) | Store(t: nat) | Unlock(t: nat) | Done(t: nat)

  function Init(): State {
    State([], None, 1, 0, false, false)
  }

  predicate At(s: State, t: nat, p: Phase) {
    t < |s.phases| && s.phases[t] == p
  }

  predicate Enabled(job: Job, s: State, a: Action) {
    && !s.crashed && !s.joined
    && match a
       case Spawn => |s.phases| < job.n
       case Join => |s.phases| >= job.n && s.wg == 0
       case Compute(t) => At(s, t, Spawned)
       case Lock(t) => At(s, t, Powed) && s.holder == None
       case Load(t) => At(s, t, Locked)
       case Store(t) => t < |s.phases| && s.phases[t].Loaded? && t < |job.powers|
       case Unlock(t) => At(s, t, Stored)
       case Done(t) => At(s, t, Unlocked) && s.wg > 0
  }

  function Move(s: State, t: nat, p: Phase): State
    requires t < |s.phases|
  {
    s.(phases := s.phases[t := p])
  }

  function Apply(job: Job, s: State, a: Action): State
    requires Enabled(job, s, a)
  {
    match a
    case Spawn => s.(phases := s.phases + [Spawned], wg := s.wg + 1)
    case Join => s.(joined := true)
    case Compute(t) => if t < |job.powers| then Move(s, t, Powed) else s.(crashed := true)
    case Lock(t) => Move(s, t, Locked).(holder := Some(t))
    case Load(t) => Move(s, t, Loaded(s.multiply))
    case Store(t) => Move(s, t, Stored).(multiply := s.phases[t].seen * job.powers[t])
    case Unlock(t) => Move(s, t, Unlocked).(holder := None)
    case Done(t) => Move(s, t, Finished).(wg := s.wg - 1)
  }

  /** The state after a schedule, or None if some step of it was not possible. */
  function Exec(job: Job, schedule: seq<Action>): Option<State> {
    if schedule == [] then Some(Init())
    else
      var before := Exec(job, schedule[..|schedule| - 1]);
      var a := schedule[|schedule| - 1];
      if before.Some? && Enabled(job, before.value, a) then Some(Apply(job, before.value, a)) else None
  }

  // ----- products and counts over the goroutines

  function Product(xs: seq<nat>): nat {
    if xs == [] then 1 else Product(xs[..|xs| - 1]) * xs[|xs| - 1]
  }

  /** The product of the powers that have already been multiplied in. */
  function Collected(phases: seq<Phase>, powers: seq<nat>): nat {
    if phases == [] then 1
    else
      var k := |phases| - 1;
      Collected(phases[..k], powers) * (if k < |powers| && phases[k].Counted() then powers[k] else 1)
  }

  function Active(phases: seq<Phase>): nat {
    if phases == [] then 0
    else
      var k := |phases| - 1;
      Active(phases[..k]) + (if phases[k].Finished? then 0 else 1)
  }

  lemma {:induction false} CollectedUpdate(phases: seq<Phase>, powers: seq<nat>, t: nat, p: Phase)
    requires t < |phases| && t < |powers|
    ensures phases[t].Counted() == p.Counted() ==>
              Collected(phases[t := p], powers) == Collected(phases, powers)
    ensures !phases[t].Counted() && p.Counted() ==>
              Collected(phases[t := p], powers) == Collected(phases, powers) * powers[t]
    decreases |phases|
  {
    var k := |phases| - 1;
    var phases' := phases[t := p];
    if t == k {
      assert phases'[..k] == phases[..k];
    } else {
      assert phases'[..k] == phases[..k][t := p];
      CollectedUpdate(phases[..k], powers, t, p);
      SwapFactors(Collected(phases[..k], powers), powers[t],
                  if k < |powers| && phases[k].Counted() then powers[k] else 1);
    }
  }

  lemma SwapFactors(c: nat, p: nat, w: nat)
    ensures (c * p) * w == (c * w) * p
  {
  }

  lemma {:induction false} CollectedAppend(phases: seq<Phase>, powers: seq<nat>)
    ensures Collected(phases + [Spawned], powers) == Collected(phases, powers)
    ensures Active(phases + [Spawned]) == Active(phases) + 1
  {
    assert (phases + [Spawned])[..|phases|] == phases;
  }

  lemma {:induction false} ActiveUpdate(phases: seq<Phase>, t: nat, p: Phase)
    requires t < |phases| && !phases[t].Finished?
    ensures Active(phases[t := p]) == Active(phases) - (if p.Finished? then 1 else 0)
    decreases |phases|
  {
    var k := |phases| - 1;
    var phases' := phases[t := p];
    if t == k {
      assert phases'[..k] == phases[..k];
    } else {
      assert phases'[..k] == phases[..k][t := p];
      ActiveUpdate(phases[..k], t, p);
    }
  }

  lemma {:induction false} NoneActive(phases: seq<Phase>)
    requires Active(phases) == 0
    ensures forall t :: 0 <= t < |phases| ==> phases[t].Finished?
    decreases |phases|
  {
    if phases != [] {
      NoneActive(phases[..|phases| - 1]);
      assert forall t :: 0 <= t < |phases| - 1 ==> phases[t] == phases[..|phases| - 1][t];
    }
  }

  lemma {:induction false} SomeActive(phases: seq<Phase>) returns (t: nat)
    requires Active(phases) > 0
    ensures t < |phases| && !phases[t].Finished?
    decreases |phases|
  {
    var k := |phases| - 1;
    if phases[k].Finished? {
      t := SomeActive(phases[..k]);
    } else {
      t := k;
    }
  }

  lemma {:induction false} AllCollected(phases: seq<Phase>, powers: seq<nat>)
    requires |phases| <= |powers| && forall t :: 0 <= t < |phases| ==> phases[t].Finished?
    ensures Collected(phases, powers) == Product(powers[..|phases|])
    decreases |phases|
  {
    if phases != [] {
      var k := |phases| - 1;
      AllCollected(phases[..k], powers);
      assert powers[..|phases|][..k] == powers[..k];
    }
  }

  // ----- the invariant

  ghost predicate Inv(job: Job, s: State) {
    && |s.phases| <= job.n
    && s.multiply == Collected(s.phases, job.powers)
    && s.wg == Active(s.phases)
    && (forall t :: 0 <= t < |s.phases| && !s.phases[t].Spawned? ==> t < |job.powers|)
    && (forall t :: 0 <= t < |s.phases| && s.phases[t].HoldsLock() ==> s.holder == Some(t))
    && (s.holder.Some? ==> s.holder.value < |s.phases| && s.phases[s.holder.value].HoldsLock())
    && (forall t :: 0 <= t < |s.phases| && s.phases[t].Loaded? ==> s.phases[t].seen == s.multiply)
    && (s.joined ==> |s.phases| == job.n && Active(s.phases) == 0)
    && (s.crashed ==> !job.Complete())
  }

  lemma InvStep(job: Job, s: State, a: Action)
    requires Inv(job, s) && Enabled(job, s, a)
    ensures Inv(job, Apply(job, s, a))
  {
    match a
    case Spawn => CollectedAppend(s.phases, job.powers);
    case Join =>
    case Compute(t) => if t < |job.powers| { InvCompute(job, s, t); }
    case Lock(t) => InvLock(job, s, t);
    case Load(t) => InvLoad(job, s, t);
    case Store(t) => InvStore(job, s, t);
    case Unlock(t) => InvUnlock(job, s, t);
    case Done(t) => InvDone(job, s, t);
  }

  lemma InvCompute(job: Job, s: State, t: nat)
    requires Inv(job, s) && Enabled(job, s, Compute(t)) && t < |job.powers|
    ensures Inv(job, Apply(job, s, Compute(t)))
  {
    InvMove(job, s, t, Powed);
  }

  lemma InvDone(job: Job, s: State, t: nat)
    requires Inv(job, s) && Enabled(job, s, Done(t))
    ensures Inv(job, Apply(job, s, Done(t)))
  {
    InvMove(job, s, t, Finished);
  }

  lemma InvLock(job: Job, s: State, t: nat)
    requires Inv(job, s) && Enabled(job, s, Lock(t))
    ensures Inv(job, Apply(job, s, Lock(t)))
  {
    InvMove(job, s, t, Locked);
  }

  lemma InvLoad(job: Job, s: State, t: nat)
    requires Inv(job, s) && Enabled(job, s, Load(t))
    ensures Inv(job, Apply(job, s, Load(t)))
  {
    InvMove(job, s, t, Loaded(s.multiply));
  }

  lemma InvStore(job: Job, s: State, t: nat)
    requires Inv(job, s) && Enabled(job, s, Store(t))
    ensures Inv(job, Apply(job, s, Store(t)))
  {
    InvMove(job, s, t, Stored);
  }

  lemma InvUnlock(job: Job, s: State, t: nat)
    requires Inv(job, s) && Enabled(job, s, Unlock(t))
    ensures Inv(job, Apply(job, s, Unlock(t)))
  {
    InvMove(job, s, t, Unlocked);
  }

  lemma InvMove(job: Job, s: State, t: nat, p: Phase)
    requires t < |s.phases| && !s.phases[t].Finished?
    ensures t < |job.powers| && s.phases[t].Counted() == p.Counted() ==>
              Collected(s.phases[t := p], job.powers) == Collected(s.phases, job.powers)
    ensures t < |job.powers| && !s.phases[t].Counted() && p.Counted() ==>
              Collected(s.phases[t := p], job.powers) == Collected(s.phases, job.powers) * job.powers[t]
    ensures Active(s.phases[t := p]) == Active(s.phases) - (if p.Finished? then 1 else 0)
  {
    if t < |job.powers| {
      CollectedUpdate(s.phases, job.powers, t, p);
    }
    ActiveUpdate(s.phases, t, p);
  }

  /** Every schedule keeps the invariant: in particular the accumulator is the product
      over the goroutines that have stored, and at most one goroutine holds the mutex. */
  lemma {:induction false} InvAlways(job: Job, schedule: seq<Action>)
    ensures var s := Exec(job, schedule); s.Some? ==> Inv(job, s.value)
    decreases |schedule|
  {
    if schedule != [] {
      var init := schedule[..|schedule| - 1];
      InvAlways(job, init);
      if Exec(job, schedule).Some? {
        InvStep(job, Exec(job, init).value, schedule[|schedule| - 1]);
      }
    }
  }

  // ----- progress

  function Left(p: Phase): nat {
    match p
    case Spawned => 6
    case Powed => 5
    case Locked => 4
    case Loaded(_) => 3
    case Stored => 2
    case Unlocked => 1
    case Finished => 0
  }

  function LeftAll(phases: seq<Phase>): nat {
    if phases == [] then 0 else LeftAll(phases[..|phases| - 1]) + Left(phases[|phases| - 1])
  }

  /** The number of steps still to be taken before wg.Wait returns. */
  function StepsLeft(job: Job, s: State): int {
    LeftAll(s.phases) + 7 * (job.n - |s.phases|) + (if s.joined then 0 else 1)
  }

  lemma {:induction false} LeftUpdate(phases: seq<Phase>, t: nat, p: Phase)
    requires t < |phases|
    ensures LeftAll(phases[t := p]) == LeftAll(phases) - Left(phases[t]) + Left(p)
    decreases |phases|
  {
    var k := |phases| - 1;
    var phases' := phases[t := p];
    if t == k {
      assert phases'[..k] == phases[..k];
    } else {
      assert phases'[..k] == phases[..k][t := p];
      LeftUpdate(phases[..k], t, p);
    }
  }

  lemma StepCosts(job: Job, s: State, a: Action)
    requires Enabled(job, s, a)
    ensures var s' := Apply(job, s, a); !s'.crashed ==> StepsLeft(job, s') == StepsLeft(job, s) - 1
  {
    match a
    case Spawn => assert (s.phases + [Spawned])[..|s.phases|] == s.phases;
    case Join =>
    case Compute(t) => LeftUpdate(s.phases, t, Powed);
    case Lock(t) => LeftUpdate(s.phases, t, Locked);
    case Load(t) => LeftUpdate(s.phases, t, Loaded(s.multiply));
    case Store(t) => LeftUpdate(s.phases, t, Stored);
    case Unlock(t) => LeftUpdate(s.phases, t, Unlocked);
    case Done(t) => LeftUpdate(s.phases, t, Finished);
  }

  /** Neither the mutex nor the WaitGroup can block everybody: unless the caller has
      passed wg.Wait or the process has crashed, some step is possible. */
  lemma NoDeadlock(job: Job, s: State) returns (a: Action)
    requires Inv(job, s) && !s.joined && !s.crashed
    ensures Enabled(job, s, a)
  {
    if |s.phases| < job.n {
      a := Spawn;
    } else if s.wg == 0 {
      a := Join;
    } else {
      var t := if s.holder.Some? then s.holder.value else 0;
      if s.holder == None {
        t := SomeActive(s.phases);
      }
      a := match s.phases[t]
           case Spawned => Compute(t)
           case Powed => Lock(t)
           case Locked => Load(t)
           case Loaded(_) => Store(t)
           case Stored => Unlock(t)
           case Unlocked => Done(t)
           case Finished => Join;
    }
  }

  /** Schedule independence. With a hash for every challenge, every schedule has the same
      length once nothing more can happen, nothing crashes, and the accumulator the caller
      then reads is the product a sequential loop computes. */
  lemma EveryScheduleJoins(job: Job, schedule: seq<Action>)
    requires job.Complete()
    requires Exec(job, schedule).Some?
    requires forall a :: !Enabled(job, Exec(job, schedule).value, a)
    ensures var s := Exec(job, schedule).value;
            && s.joined && !s.crashed
            && s.multiply == Product(job.powers[..job.n])
            && |schedule| == 7 * job.n + 1
  {
    var s := Exec(job, schedule).value;
    InvAlways(job, schedule);
    if !s.joined {
      var a := NoDeadlock(job, s);
    }
    NoneActive(s.phases);
    AllCollected(s.phases, job.powers);
    ScheduleLength(job, schedule);
    NothingLeft(s.phases);
  }

  lemma LastFinished(job: Job, s: State)
    requires Inv(job, s) && |s.phases| == job.n && forall t :: 0 <= t < |s.phases| ==> s.phases[t].Finished?
    ensures job.Complete()
  {
    if job.n > 0 {
      assert s.phases[job.n - 1].Finished?;
    }
  }

  /** With a hash missing, no schedule ever gets past wg.Wait. */
  lemma MissingHashNeverJoins(job: Job, schedule: seq<Action>)
    requires !job.Complete() && Exec(job, schedule).Some?
    ensures !Exec(job, schedule).value.joined
  {
    var s := Exec(job, schedule).value;
    InvAlways(job, schedule);
    if s.joined {
      NoneActive(s.phases);
      LastFinished(job, s);
    }
  }

  lemma {:induction false} NothingLeft(phases: seq<Phase>)
    requires forall t :: 0 <= t < |phases| ==> phases[t].Finished?
    ensures LeftAll(phases) == 0
    decreases |phases|
  {
    if phases != [] {
      NothingLeft(phases[..|phases| - 1]);
    }
  }

  lemma {:induction false} ScheduleLength(job: Job, schedule: seq<Action>)
    requires Exec(job, schedule).Some? && !Exec(job, schedule).value.crashed
    ensures |schedule| + StepsLeft(job, Exec(job, schedule).value) == 7 * job.n + 1
    decreases |schedule|
  {
    if schedule != [] {
      var init := schedule[..|schedule| - 1];
      ScheduleLength(job, init);
      InvAlways(job, init);
      StepCosts(job, Exec(job, init).value, schedule[|schedule| - 1]);
    }
  }
}
