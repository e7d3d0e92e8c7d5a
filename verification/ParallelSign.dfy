/** SigGen's goroutines: each signs one block into its own slot of Phi and sends a token on
    a channel with room for n; the caller starts all n, then receives n tokens.
    A goroutine without a block to sign panics, which ends the whole process. */
module ParallelSign {
  import opened Wrappers

  /** `signatures[i]` is what signing block i gives; there are as many as blocks. */
  datatype Signing = Signing(n: nat, signatures: seq<nat>) {
    ghost predicate Complete() { n <= |signatures| }
  }

  datatype Signer = Started | Filled | Sent

  datatype SignState = SignState(
    signers: seq<Signer>, phi: seq<Option<nat>>, tokens: nat, received: nat, crashed: bool)

  datatype SignAction = Start | Fill(t: nat) | Send(t: nat) | Receive

  function SignInit(job: Signing): SignState {
    SignState([], seq(job.n, _ => None), 0, 0, false)
  }

  predicate CanSign(job: Signing, s: SignState, a: SignAction) {
    && !s.crashed
    && match a
       case Start => |s.signers| < job.n
       case Fill(t) => t < |s.signers| && s.signers[t] == Started && t < |s.phi|
       case Send(t) => t < |s.signers| && s.signers[t] == Filled && s.tokens < job.n
       case Receive => |s.signers| >= job.n && s.received < job.n && s.tokens > 0
  }

  function Sign(job: Signing, s: SignState, a: SignAction): SignState
    requires CanSign(job, s, a)
  {
    match a
    case Start => s.(signers := s.signers + [Started])
    case Fill(t) =>
      if t < |job.signatures|
      then s.(signers := s.signers[t := Filled], phi := s.phi[t := Some(job.signatures[t])])
      else s.(crashed := true)
    case Send(t) => s.(signers := s.signers[t := Sent], tokens := s.tokens + 1)
    case Receive => s.(tokens := s.tokens - 1, received := s.received + 1)
  }

  /** The caller has all its tokens and answers. */
  predicate Responds(job: Signing, s: SignState) {
    !s.crashed && |s.signers| >= job.n && s.received >= job.n
  }

  function SignRun(job: Signing, schedule: seq<SignAction>): Option<SignState> {
    if schedule == [] then Some(SignInit(job))
    else
      var before := SignRun(job, schedule[..|schedule| - 1]);
      var a := schedule[|schedule| - 1];
      if before.Some? && CanSign(job, before.value, a) then Some(Sign(job, before.value, a)) else None
  }

  // ----- counting tokens

  function Count(signers: seq<Signer>): nat {
    if signers == [] then 0
    else Count(signers[..|signers| - 1]) + (if signers[|signers| - 1] == Sent then 1 else 0)
  }

  lemma {:induction false} CountUpdate(signers: seq<Signer>, t: nat, p: Signer)
    requires t < |signers| && signers[t] != Sent
    ensures Count(signers[t := p]) == Count(signers) + (if p == Sent then 1 else 0)
    decreases |signers|
  {
    var k := |signers| - 1;
    if t == k {
      assert signers[t := p][..k] == signers[..k];
    } else {
      assert signers[t := p][..k] == signers[..k][t := p];
      CountUpdate(signers[..k], t, p);
    }
  }

  lemma {:induction false} CountBound(signers: seq<Signer>)
    ensures Count(signers) <= |signers|
    ensures Count(signers) == |signers| <==> forall t :: 0 <= t < |signers| ==> signers[t] == Sent
    decreases |signers|
  {
    if signers != [] {
      CountBound(signers[..|signers| - 1]);
      assert forall t :: 0 <= t < |signers| - 1 ==> signers[t] == signers[..|signers| - 1][t];
    }
  }

  // ----- the invariant

  ghost predicate SignInv(job: Signing, s: SignState) {
    && |s.signers| <= job.n == |s.phi|
    && s.tokens + s.received == Count(s.signers)
    && (forall t :: 0 <= t < |s.phi| ==>
          if t < |s.signers| && s.signers[t] != Started
          then t < |job.signatures| && s.phi[t] == Some(job.signatures[t])
          else s.phi[t] == None)
    && (s.crashed ==> !job.Complete())
  }

  lemma SignInvStep(job: Signing, s: SignState, a: SignAction)
    requires SignInv(job, s) && CanSign(job, s, a)
    ensures SignInv(job, Sign(job, s, a))
  {
    match a
    case Start => assert (s.signers + [Started])[..|s.signers|] == s.signers;
    case Fill(t) => CountUpdate(s.signers, t, Filled);
    case Send(t) => CountUpdate(s.signers, t, Sent);
    case Receive =>
  }

  lemma {:induction false} SignInvAlways(job: Signing, schedule: seq<SignAction>)
    ensures var s := SignRun(job, schedule); s.Some? ==> SignInv(job, s.value)
    decreases |schedule|
  {
    if schedule != [] {
      var init := schedule[..|schedule| - 1];
      SignInvAlways(job, init);
      if SignRun(job, schedule).Some? {
        SignInvStep(job, SignRun(job, init).value, schedule[|schedule| - 1]);
      }
    }
  }

  /** The token channel never fills up under a goroutine that has a token to send. */
  lemma SendNeverBlocks(job: Signing, schedule: seq<SignAction>, t: nat)
    requires SignRun(job, schedule).Some? && !SignRun(job, schedule).value.crashed
    requires t < |SignRun(job, schedule).value.signers| && SignRun(job, schedule).value.signers[t] == Filled
    ensures CanSign(job, SignRun(job, schedule).value, Send(t))
  {
    SignInvAlways(job, schedule);
    CountBound(SignRun(job, schedule).value.signers);
  }

  lemma SignerProgress(job: Signing, s: SignState) returns (a: SignAction)
    requires SignInv(job, s) && !s.crashed && !Responds(job, s)
    ensures CanSign(job, s, a)
  {
    CountBound(s.signers);
    if |s.signers| < job.n {
      a := Start;
    } else if s.tokens > 0 {
      a := Receive;
    } else {
      var t :| 0 <= t < |s.signers| && s.signers[t] != Sent;
      a := if s.signers[t] == Started then Fill(t) else Send(t);
    }
  }

  function Pending(p: Signer): nat {
    match p
    case Started => 2
    case Filled => 1
    case Sent => 0
  }

  function PendingAll(signers: seq<Signer>): nat {
    if signers == [] then 0 else PendingAll(signers[..|signers| - 1]) + Pending(signers[|signers| - 1])
  }

  /** Steps the signing still needs before the caller answers. */
  function SignStepsLeft(job: Signing, s: SignState): int {
    PendingAll(s.signers) + 3 * (job.n - |s.signers|) + job.n - s.received
  }

  lemma {:induction false} PendingUpdate(signers: seq<Signer>, t: nat, p: Signer)
    requires t < |signers|
    ensures PendingAll(signers[t := p]) == PendingAll(signers) - Pending(signers[t]) + Pending(p)
    decreases |signers|
  {
    var k := |signers| - 1;
    if t == k {
      assert signers[t := p][..k] == signers[..k];
    } else {
      assert signers[t := p][..k] == signers[..k][t := p];
      PendingUpdate(signers[..k], t, p);
    }
  }

  lemma SignStepCosts(job: Signing, s: SignState, a: SignAction)
    requires SignInv(job, s) && CanSign(job, s, a)
    ensures var s' := Sign(job, s, a);
            !s'.crashed ==> 0 <= SignStepsLeft(job, s') == SignStepsLeft(job, s) - 1
  {
    SignInvStep(job, s, a);
    CountBound(Sign(job, s, a).signers);
    match a
    case Start => assert (s.signers + [Started])[..|s.signers|] == s.signers;
    case Fill(t) => PendingUpdate(s.signers, t, Filled);
    case Send(t) => PendingUpdate(s.signers, t, Sent);
    case Receive =>
  }

  /** When the caller answers, every slot holds its block's signature, in any schedule. */
  lemma AllSlotsFilled(job: Signing, s: SignState)
    requires SignInv(job, s) && Responds(job, s)
    ensures job.Complete() && |s.phi| == job.n && s.tokens == 0
    ensures forall t :: 0 <= t < job.n ==> s.phi[t] == Some(job.signatures[t])
  {
    CountBound(s.signers);
    if job.n > 0 {
      assert s.phi[job.n - 1].Some?;
    }
  }

  /** Every schedule that can go no further has answered, with all slots right. */
  lemma EveryScheduleSigns(job: Signing, schedule: seq<SignAction>)
    requires job.Complete() && SignRun(job, schedule).Some?
    requires forall a :: !CanSign(job, SignRun(job, schedule).value, a)
    ensures var s := SignRun(job, schedule).value;
            && Responds(job, s)
            && s.phi == seq(job.n, i requires 0 <= i < job.n => Some(job.signatures[i]))
  {
    var s := SignRun(job, schedule).value;
    SignInvAlways(job, schedule);
    if !Responds(job, s) {
      var a := SignerProgress(job, s);
    }
    AllSlotsFilled(job, s);
  }
}
