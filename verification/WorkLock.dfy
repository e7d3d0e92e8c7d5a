/** The two locks of the scheduler and the mailbox for tags. The work lock keeps tag requests, file
    sends, filler sends and proof checks apart; the lock of the chain client is taken inside it or
    on its own. Every goroutine has jobs to do, and each job comes to a list of operations, which
    follow from the path its code takes; the goroutines interleave in every possible way. */
module WorkLock {
  import opened Wrappers
  import Backup
  import ProofTask

  /** `Submit` is a whole loop of submissions. Each takes the chain lock and gives it back; the loop
      goes on until one of them ends it. `deferred` says that a panic still unlocks the work lock. */
  datatype Op =
    | LockWork | UnlockWork
    | AwaitTag   // wait for the mailbox or for the timer
    | Call       // a call that returns sooner or later
    | Hang       // a call of SendFile that does not return; see SendFile
    | Submit(deferred: bool)

  // ----- discipline of one goroutine

  /** What is done with the tag service and with miners, and what waits for a tag, and checking a proof. */
  predicate Guarded(op: Op) {
    op == Call || op == AwaitTag || op == Hang
  }

  /** With the work lock held (hw) or not, these operations never unlock what is not held, and make their
      calls under it. A deferred unlock is the next to come, and a loop outside the lock comes last. */
  predicate Ordered(ops: seq<Op>, hw: bool) {
    if ops == [] then true
    else
      match ops[0]
      case LockWork => Ordered(ops[1..], true)
      case UnlockWork => hw && Ordered(ops[1..], false)
      case Submit(deferred) =>
        if deferred then hw && ops[1..] == [UnlockWork]
        else (hw || ops[1..] == []) && Ordered(ops[1..], hw)
      case _ => hw && Ordered(ops[1..], hw)
  }

  /** The work lock is never requested while held, and is given back. */
  predicate Clean(ops: seq<Op>, hw: bool) {
    if ops == [] then !hw
    else
      match ops[0]
      case LockWork => !hw && Clean(ops[1..], true)
      case UnlockWork => Clean(ops[1..], false)
      case Hang => false
      case _ => Clean(ops[1..], hw)
  }

  /** No unlock comes before the next request for the lock, or before a call that does not return. */
  predicate Keeps(ops: seq<Op>) {
    ops == [] || ops[0] == LockWork || ops[0] == Hang || (ops[0] != UnlockWork && Keeps(ops[1..]))
  }

  lemma {:induction false} KeepsIsNotClean(ops: seq<Op>)
    requires Keeps(ops)
    ensures !Clean(ops, true)
    decreases |ops|
  {
    if ops != [] && ops[0] != LockWork && ops[0] != Hang {
      KeepsIsNotClean(ops[1..]);
    }
  }

  /** Operations meant for a goroutine that does not hold the lock. */
  lemma {:induction false} HeldKeeps(ops: seq<Op>)
    requires Ordered(ops, false)
    ensures Ordered(ops, true) && Keeps(ops) && !Clean(ops, true)
    decreases |ops|
  {
    if ops != [] && ops[0] != LockWork {
      HeldKeeps(ops[1..]);
    }
    KeepsIsNotClean(ops);
  }

  /** One list after the other, where the first has no loop outside the lock. */
  lemma {:induction false} Sequel(a: seq<Op>, b: seq<Op>, hw: bool)
    requires Ordered(a, hw) && Ordered(b, false) && forall op :: op in a ==> !op.Submit?
    ensures Ordered(a + b, hw)
    ensures Clean(a + b, hw) <==> Clean(a, hw) && Clean(b, false)
    decreases |a|
  {
    if a == [] {
      assert a + b == b;
      HeldKeeps(b);
    } else {
      assert (a + b)[0] == a[0] && (a + b)[1..] == a[1..] + b && a[0] in a;
      Sequel(a[1..], b, if a[0] == LockWork then true else if a[0] == UnlockWork then false else hw);
    }
  }

  // ----- the paths of the code

  const GUARDED: seq<Op> := [LockWork, Call, UnlockWork]

  function TagOps(asked: bool): seq<Op> {
    [LockWork, Call] + (if asked then [AwaitTag, UnlockWork] else [UnlockWork])
  }

  /** The miners that backupFile goes through; see Backup.Search. */
  function SearchOps(fname: string, size: nat, miners: seq<Backup.Miner>): seq<Op>
    requires size > 0
    decreases |miners|
  {
    if miners == [] then []
    else
      var m, rest := miners[0], miners[1..];
      if Backup.PassedOver(m, size) then SearchOps(fname, size, rest)
      else
        match m.contact
        case DialFails => GUARDED
        case SendPanics => [LockWork, Call]
        case SendHangs => [LockWork, Hang]
        case Sends =>
          var name := Backup.PaddedName(fname);
          GUARDED + if |name| != Backup.BLOCK_ID_LENGTH then SearchOps(name, size, rest) else []
        case _ => GUARDED + SearchOps(fname, size, rest)
  }

  /** One call of backupFile; `asked` says whether a tag request got as far as waiting. */
  datatype Placing = Placing(fname: string, world: Backup.Place, asked: bool) {
    function Ops(): seq<Op> {
      var w := world;
      if w.size == None || w.size.value == 0 then []
      else
        (if w.tag == Backup.Stored then [] else TagOps(asked)) +
        (if w.tag == Backup.Refused || w.tag == Backup.Panicked || w.miners == None || !w.signOk then []
         else SearchOps(fname, w.size.value, w.miners.value))
    }
  }

  function PlacingOps(calls: seq<Placing>): seq<Op> {
    if calls == [] then [] else calls[0].Ops() + PlacingOps(calls[1..])
  }

  /** A batch is full before the i-th proof. */
  predicate StartsBatch(i: nat) {
    i > 0 && i % ProofTask.MAX_RESULTS == 0
  }

  /** From the i-th proof of a round on. */
  function ProofOps(proofs: seq<ProofTask.Proof>, i: nat): seq<Op>
    requires i <= |proofs|
    decreases |proofs| - i
  {
    if i == |proofs| then [UnlockWork, Submit(false)]
    else
      (if StartsBatch(i) then [Submit(false)] else []) +
      ([Call] + if ProofTask.Panics(proofs[i]) then [] else ProofOps(proofs, i + 1))
  }

  /** Whether a filler that is offered gets sent. */
  datatype Offer = NotSent | Sent | Hangs

  datatype Job =
    | RequestTag(asked: bool)
    | SendFiller(offer: Offer)
    | BackUp(calls: seq<Placing>, placed: bool)
    | CheckProofs(proofs: seq<ProofTask.Proof>)
  {
    function Ops(): seq<Op> {
      match this
      case RequestTag(asked) => TagOps(asked)
      case SendFiller(offer) =>
        (match offer
         case NotSent => GUARDED
         case Sent => [LockWork, Call, Submit(true), UnlockWork]
         case Hangs => [LockWork, Hang])
      case BackUp(calls, placed) => PlacingOps(calls) + (if placed then [Submit(false)] else [])
      case CheckProofs(proofs) => if proofs == [] then [] else [LockWork] + ProofOps(proofs, 0)
    }

    /** The inputs on which the unlock is not reached, because of a recovered panic, other than that of
        a submission, or because SendFile does not return. */
    ghost predicate LosesLock() {
      match this
      case RequestTag(_) => false
      case SendFiller(offer) => offer == Hangs
      case BackUp(calls, _) => exists c :: c in calls && Backup.LosesLock(c.fname, c.world)
      case CheckProofs(proofs) => exists p :: p in proofs && ProofTask.Panics(p)
    }
  }

  ghost predicate NoSubmit(ops: seq<Op>) {
    forall op :: op in ops ==> !op.Submit?
  }

  lemma GuardedIsClean()
    ensures Ordered(GUARDED, false) && Clean(GUARDED, false) && NoSubmit(GUARDED)
    ensures Ordered([LockWork, Call], false) && !Clean([LockWork, Call], false)
    ensures Ordered([LockWork, Hang], false) && !Clean([LockWork, Hang], false)
  {
    assert GUARDED[1..] == [Call, UnlockWork] && GUARDED[1..][1..] == [UnlockWork];
    assert [LockWork, Call][1..] == [Call] && [Call][1..] == [];
    assert [LockWork, Hang][1..] == [Hang] && [Hang][1..] == [];
  }

  lemma TagOpsClean(asked: bool)
    ensures Ordered(TagOps(asked), false) && Clean(TagOps(asked), false) && NoSubmit(TagOps(asked))
  {
    if asked {
      assert TagOps(asked) == [LockWork, Call, AwaitTag, UnlockWork];
      assert TagOps(asked)[1..] == [Call, AwaitTag, UnlockWork];
      assert TagOps(asked)[1..][1..] == [AwaitTag, UnlockWork];
      assert [AwaitTag, UnlockWork][1..] == [UnlockWork];
    } else {
      assert TagOps(asked) == GUARDED;
      GuardedIsClean();
    }
  }

  lemma {:induction false} SearchOpsClean(fname: string, size: nat, miners: seq<Backup.Miner>)
    requires size > 0
    ensures var ops := SearchOps(fname, size, miners);
            && Ordered(ops, false) && NoSubmit(ops)
            && (Clean(ops, false) <==> !Backup.Search(fname, size, miners).KeepsLock())
    decreases |miners|
  {
    GuardedIsClean();
    if miners != [] {
      var name := Backup.PaddedName(fname);
      SearchOpsClean(fname, size, miners[1..]);
      SearchOpsClean(name, size, miners[1..]);
      Sequel(GUARDED, SearchOps(fname, size, miners[1..]), false);
      Sequel(GUARDED, SearchOps(name, size, miners[1..]), false);
      Sequel(GUARDED, [], false);
    }
  }

  /** A call of backupFile gives the lock back unless it gets to a miner to which sending panics or hangs. */
  lemma PlacingClean(c: Placing)
    ensures Ordered(c.Ops(), false) && NoSubmit(c.Ops())
    ensures Clean(c.Ops(), false) <==> !Backup.LosesLock(c.fname, c.world)
  {
    var w := c.world;
    Backup.KeepsLockExactly(c.fname, w);
    if w.size.Some? && w.size.value > 0 {
      var tag := if w.tag == Backup.Stored then [] else TagOps(c.asked);
      TagOpsClean(c.asked);
      Sequel(tag, [], false);
      assert tag + [] == tag;
      if w.miners.Some? {
        SearchOpsClean(c.fname, w.size.value, w.miners.value);
        Sequel(tag, SearchOps(c.fname, w.size.value, w.miners.value), false);
      }
    }
  }

  lemma {:induction false} PlacingsClean(calls: seq<Placing>)
    ensures Ordered(PlacingOps(calls), false) && NoSubmit(PlacingOps(calls))
    ensures Clean(PlacingOps(calls), false) <==>
              !exists c :: c in calls && Backup.LosesLock(c.fname, c.world)
  {
    if calls != [] {
      PlacingClean(calls[0]);
      PlacingsClean(calls[1..]);
      Sequel(calls[0].Ops(), PlacingOps(calls[1..]), false);
      assert forall c :: c in calls <==> c == calls[0] || c in calls[1..];
    }
  }

  lemma {:induction false} ProofOpsClean(proofs: seq<ProofTask.Proof>, i: nat)
    requires i <= |proofs|
    ensures Ordered(ProofOps(proofs, i), true)
    ensures Clean(ProofOps(proofs, i), true) <==> !exists p :: p in proofs[i..] && ProofTask.Panics(p)
    decreases |proofs| - i
  {
    if i == |proofs| {
      assert [UnlockWork, Submit(false)][1..] == [Submit(false)] && [Submit(false)][1..] == [];
    } else {
      var p := proofs[i];
      var rest := if ProofTask.Panics(p) then [] else ProofOps(proofs, i + 1);
      ProofOpsClean(proofs, i + 1);
      OneProof(rest);
      assert p in proofs[i..];
      assert forall q :: q in proofs[i..] <==> q == p || q in proofs[i + 1..];
    }
  }

  /** Checking a proof, with or without a submission before it, keeps the discipline of what follows. */
  lemma OneProof(rest: seq<Op>)
    requires Ordered(rest, true)
    ensures var ops := [] + ([Call] + rest); Ordered(ops, true) && Clean(ops, true) == Clean(rest, true)
    ensures var ops := [Submit(false)] + ([Call] + rest); Ordered(ops, true) && Clean(ops, true) == Clean(rest, true)
  {
    var one := [Call] + rest;
    assert one[1..] == rest && [] + one == one;
    assert Ordered(one, true) && Clean(one, true) == Clean(rest, true);
    assert ([Submit(false)] + one)[1..] == one;
  }

  /** Every path of every job unlocks only what it holds, and, as long as no submission panics, takes
      and gives back the work lock properly exactly if its inputs keep it from no unlock. */
  lemma JobClean(job: Job)
    ensures Ordered(job.Ops(), false)
    ensures Clean(job.Ops(), false) <==> !job.LosesLock()
  {
    match job
    case RequestTag(asked) => TagOpsClean(asked);
    case SendFiller(offer) => FillerClean(offer);
    case BackUp(calls, placed) => BackUpClean(calls, placed);
    case CheckProofs(proofs) => RoundClean(proofs);
  }

  lemma FillerClean(offer: Offer)
    ensures var ops := SendFiller(offer).Ops(); Ordered(ops, false) && (Clean(ops, false) <==> offer != Hangs)
  {
    var ops := SendFiller(offer).Ops();
    GuardedIsClean();
    match offer
    case NotSent => assert ops == GUARDED;
    case Sent =>
      assert [Submit(true), UnlockWork][1..] == [UnlockWork] && [UnlockWork][1..] == [];
      assert Ordered([Submit(true), UnlockWork], true) && Clean([Submit(true), UnlockWork], true);
      assert ops[1..] == [Call, Submit(true), UnlockWork] && ops[1..][1..] == [Submit(true), UnlockWork];
    case Hangs => assert ops == [LockWork, Hang];
  }

  lemma BackUpClean(calls: seq<Placing>, placed: bool)
    ensures var ops := BackUp(calls, placed).Ops();
            && Ordered(ops, false)
            && (Clean(ops, false) <==> !exists c :: c in calls && Backup.LosesLock(c.fname, c.world))
  {
    PlacingsClean(calls);
    Sequel(PlacingOps(calls), if placed then [Submit(false)] else [], false);
  }

  lemma RoundClean(proofs: seq<ProofTask.Proof>)
    ensures var ops := CheckProofs(proofs).Ops();
            Ordered(ops, false) && (Clean(ops, false) <==> !exists p :: p in proofs && ProofTask.Panics(p))
  {
    if proofs != [] {
      ProofOpsClean(proofs, 0);
      assert ([LockWork] + ProofOps(proofs, 0))[1..] == ProofOps(proofs, 0);
      assert proofs[0..] == proofs;
    }
  }

  // ----- what a job does, and where

  /** How often an operation occurs. */
  function Count(ops: seq<Op>, op: Op): nat {
    if ops == [] then 0 else (if ops[0] == op then 1 else 0) + Count(ops[1..], op)
  }

  /** Loops of submissions with the work lock held, and outside it. */
  function Held(ops: seq<Op>, hw: bool): nat {
    if ops == [] then 0
    else (if ops[0].Submit? && hw then 1 else 0) +
         Held(ops[1..], if ops[0] == LockWork then true else if ops[0] == UnlockWork then false else hw)
  }

  function Loose(ops: seq<Op>, hw: bool): nat {
    if ops == [] then 0
    else (if ops[0].Submit? && !hw then 1 else 0) +
         Loose(ops[1..], if ops[0] == LockWork then true else if ops[0] == UnlockWork then false else hw)
  }

  lemma {:induction false} CountSequel(a: seq<Op>, b: seq<Op>, op: Op)
    ensures Count(a + b, op) == Count(a, op) + Count(b, op)
    decreases |a|
  {
    if a == [] {
      assert a + b == b;
    } else {
      assert (a + b)[0] == a[0] && (a + b)[1..] == a[1..] + b;
      CountSequel(a[1..], b, op);
    }
  }

  lemma {:induction false} NoSubmitCounts(ops: seq<Op>, hw: bool)
    requires NoSubmit(ops)
    ensures Held(ops, hw) == Loose(ops, hw) == 0
    decreases |ops|
  {
    if ops != [] {
      assert ops[0] in ops && forall op :: op in ops[1..] ==> op in ops;
      NoSubmitCounts(ops[1..], if ops[0] == LockWork then true else if ops[0] == UnlockWork then false else hw);
    }
  }

  /** One operation more, in front. */
  lemma InFront(op: Op, rest: seq<Op>)
    ensures forall x :: Count([op] + rest, x) == (if op == x then 1 else 0) + Count(rest, x)
    ensures forall hw: bool ::
              var next := if op == LockWork then true else if op == UnlockWork then false else hw;
              && Held([op] + rest, hw) == (if op.Submit? && hw then 1 else 0) + Held(rest, next)
              && Loose([op] + rest, hw) == (if op.Submit? && !hw then 1 else 0) + Loose(rest, next)
  {
    assert ([op] + rest)[1..] == rest;
  }

  /** A tag request makes one call and, if it got through, waits. */
  lemma TagRequestDoes(asked: bool)
    ensures var ops := RequestTag(asked).Ops();
            && Count(ops, LockWork) == Count(ops, Call) == 1 && Count(ops, AwaitTag) == (if asked then 1 else 0)
            && Count(ops, Hang) == 0 && Held(ops, false) == Loose(ops, false) == 0
            && forall i :: 0 <= i < |ops| && ops[i] == AwaitTag ==> Call in ops[..i]
  {
    var end := if asked then [AwaitTag] + ([UnlockWork] + []) else [UnlockWork] + [];
    InFront(UnlockWork, []);
    InFront(AwaitTag, [UnlockWork] + []);
    InFront(Call, end);
    InFront(LockWork, [Call] + end);
    var ops := RequestTag(asked).Ops();
    assert ops == [LockWork] + ([Call] + end);
    assert forall i :: 2 <= i < |ops| ==> ops[..i][1] == Call;
  }

  /** A filler is sent once, and if that worked its loop of submissions runs under the lock, with the
      unlock deferred. */
  lemma FillerDoes(offer: Offer)
    ensures var ops := SendFiller(offer).Ops();
            && Count(ops, LockWork) == 1 && Count(ops, Call) == (if offer == Hangs then 0 else 1)
            && Count(ops, Hang) == 1 - Count(ops, Call)
            && Held(ops, false) == Count(ops, Submit(true)) == (if offer == Sent then 1 else 0)
            && Loose(ops, false) == 0
            && forall i :: 0 <= i < |ops| && ops[i].Submit? ==> Call in ops[..i]
  {
    var end := if offer == Sent then [Submit(true)] + ([UnlockWork] + []) else [UnlockWork] + [];
    InFront(UnlockWork, []);
    InFront(Submit(true), [UnlockWork] + []);
    InFront(Call, end);
    InFront(Hang, []);
    InFront(LockWork, if offer == Hangs then [Hang] + [] else [Call] + end);
    var ops := SendFiller(offer).Ops();
    assert ops == [LockWork] + if offer == Hangs then [Hang] + [] else [Call] + end;
    assert offer != Hangs ==> forall i :: 2 <= i < |ops| ==> ops[..i][1] == Call;
  }

  /** The miners that a call of backupFile contacts. */
  function Contacted(fname: string, size: nat, miners: seq<Backup.Miner>): nat
    decreases |miners|
  {
    if miners == [] then 0
    else
      var m := miners[0];
      (if Backup.PassedOver(m, size) then 0 else 1) +
      if Backup.GoesOn(fname, size, m) then Contacted(Backup.NameAfter(fname, size, m), size, miners[1..]) else 0
  }

  /** Each contact takes the lock anew and makes one call. */
  lemma {:induction false} SearchDoes(fname: string, size: nat, miners: seq<Backup.Miner>)
    requires size > 0
    ensures var ops := SearchOps(fname, size, miners);
            && Count(ops, LockWork) == Contacted(fname, size, miners)
            && Count(ops, Call) + Count(ops, Hang) == Contacted(fname, size, miners)
            && Count(ops, AwaitTag) == 0
    decreases |miners|
  {
    if miners != [] {
      var m, rest := miners[0], miners[1..];
      var name := Backup.NameAfter(fname, size, m);
      SearchDoes(name, size, rest);
      GuardedDoes(SearchOps(name, size, rest));
      GuardedDoes([]);
      assert GUARDED + [] == GUARDED;
      assert [LockWork, Call][1..] == [Call] && [LockWork, Hang][1..] == [Hang] && [Call][1..] == [Hang][1..] == [];
    }
  }

  lemma GuardedDoes(rest: seq<Op>)
    ensures var ops := GUARDED + rest;
            && Count(ops, LockWork) == 1 + Count(rest, LockWork)
            && Count(ops, Call) == 1 + Count(rest, Call) && Count(ops, Hang) == Count(rest, Hang)
            && Count(ops, AwaitTag) == Count(rest, AwaitTag)
  {
    CountSequel(GUARDED, rest, AwaitTag);
    CountSequel(GUARDED, rest, LockWork);
    CountSequel(GUARDED, rest, Call);
    CountSequel(GUARDED, rest, Hang);
    assert GUARDED[1..] == [Call, UnlockWork] && GUARDED[1..][1..] == [UnlockWork] && [UnlockWork][1..] == [];
  }

  /** A call of backupFile first asks for the tag if there is none on disk, and contacts miners if then it has a
      tag, the miners and a signature. */
  lemma PlacingDoes(c: Placing)
    ensures var (w, ops) := (c.world, c.Ops());
            var begun := w.size.Some? && w.size.value > 0;
            var asks := begun && w.tag != Backup.Stored;
            var goes := begun && w.tag in {Backup.Stored, Backup.Saved} && w.miners.Some? && w.signOk;
            && Count(ops, LockWork) == (if asks then 1 else 0) +
                                       (if goes then Contacted(c.fname, w.size.value, w.miners.value) else 0)
            && Count(ops, Call) + Count(ops, Hang) == Count(ops, LockWork)
            && Count(ops, AwaitTag) == (if asks && c.asked then 1 else 0)
            && (asks ==> TagOps(c.asked) <= ops)
  {
    var w := c.world;
    if w.size.Some? && w.size.value > 0 {
      var tag := if w.tag == Backup.Stored then [] else TagOps(c.asked);
      var search := if w.tag == Backup.Refused || w.tag == Backup.Panicked || w.miners == None || !w.signOk then []
                    else SearchOps(c.fname, w.size.value, w.miners.value);
      if w.miners.Some? {
        SearchDoes(c.fname, w.size.value, w.miners.value);
      }
      TagRequestDoes(c.asked);
      CountSequel(tag, search, LockWork);
      CountSequel(tag, search, Call);
      CountSequel(tag, search, Hang);
      CountSequel(tag, search, AwaitTag);
    }
  }

  /** A backup whose calls all give the lock back submits outside it, once all is placed. */
  lemma BackUpDoes(calls: seq<Placing>, placed: bool)
    requires !BackUp(calls, placed).LosesLock()
    ensures var ops := BackUp(calls, placed).Ops();
            Held(ops, false) == 0 && Loose(ops, false) == if placed then 1 else 0
  {
    PlacingsClean(calls);
    SubmitsLast(PlacingOps(calls), false, placed);
  }

  lemma {:induction false} SubmitsLast(a: seq<Op>, hw: bool, placed: bool)
    requires Clean(a, hw) && NoSubmit(a)
    ensures var ops := a + (if placed then [Submit(false)] else []);
            Held(ops, hw) == 0 && Loose(ops, hw) == if placed then 1 else 0
    decreases |a|
  {
    var b := if placed then [Submit(false)] else [];
    if a == [] {
      assert a + b == b;
      assert placed ==> b[1..] == [];
    } else {
      assert (a + b)[0] == a[0] && (a + b)[1..] == a[1..] + b;
      assert a[0] in a && forall op :: op in a[1..] ==> op in a;
      SubmitsLast(a[1..], if a[0] == LockWork then true else if a[0] == UnlockWork then false else hw, placed);
    }
  }

  /** The batches that are full before one of the first i proofs. */
  function Full(i: nat): nat {
    if i == 0 then 0 else Full(i - 1) + if StartsBatch(i - 1) then 1 else 0
  }

  lemma {:induction false} FullIs(i: nat)
    ensures Full(i + 1) == i / ProofTask.MAX_RESULTS
    decreases i
  {
    if i > 0 {
      FullIs(i - 1);
    }
  }

  /** Proof k is the first to panic, or there is none, from proof i on. */
  ghost predicate FirstPanic(proofs: seq<ProofTask.Proof>, i: nat, k: nat) {
    && i <= k <= |proofs| && (forall j :: i <= j < k ==> !ProofTask.Panics(proofs[j]))
    && (k < |proofs| ==> ProofTask.Panics(proofs[k]))
  }

  lemma {:induction false} ProofOpsDo(proofs: seq<ProofTask.Proof>, i: nat, k: nat)
    requires FirstPanic(proofs, i, k)
    ensures var (ops, judged) := (ProofOps(proofs, i), if k < |proofs| then k + 1 else k);
            && Count(ops, Call) == judged - i && Held(ops, true) == Full(judged) - Full(i)
            && Loose(ops, true) == (if k == |proofs| then 1 else 0) && Count(ops, LockWork) == 0
    decreases k - i
  {
    var ops := ProofOps(proofs, i);
    if i == |proofs| {
      assert [UnlockWork, Submit(false)][1..] == [Submit(false)] && [Submit(false)][1..] == [];
    } else {
      var rest := if i == k then [] else ProofOps(proofs, i + 1);
      OneProofDoes(rest, StartsBatch(i));
      FullNext(i);
      if i < k {
        ProofOpsDo(proofs, i + 1, k);
      }
    }
  }

  lemma FullNext(i: nat)
    ensures Full(i + 1) == Full(i) + if StartsBatch(i) then 1 else 0
  {
  }

  lemma OneProofDoes(rest: seq<Op>, batch: bool)
    ensures var ops := (if batch then [Submit(false)] else []) + ([Call] + rest);
            && Count(ops, Call) == 1 + Count(rest, Call) && Count(ops, LockWork) == Count(rest, LockWork)
            && Held(ops, true) == Held(rest, true) + (if batch then 1 else 0) && Loose(ops, true) == Loose(rest, true)
  {
    var one := [Call] + rest;
    assert one[1..] == rest && [] + one == one && ([Submit(false)] + one)[1..] == one;
  }

  /** A round takes the lock once and judges the proofs up to the first that panics. Before each that
      follows a full batch it submits that batch under the lock; the last batch comes after the unlock. */
  lemma RoundDoes(proofs: seq<ProofTask.Proof>, k: nat)
    requires proofs != [] && FirstPanic(proofs, 0, k)
    ensures var (ops, judged) := (CheckProofs(proofs).Ops(), if k < |proofs| then k + 1 else k);
            && Count(ops, LockWork) == 1 && Count(ops, Call) == judged
            && Held(ops, false) == (judged - 1) / ProofTask.MAX_RESULTS
            && Loose(ops, false) == if k == |proofs| then 1 else 0
  {
    ProofOpsDo(proofs, 0, k);
    FullIs(if k < |proofs| then k else k - 1);
    assert ([LockWork] + ProofOps(proofs, 0))[1..] == ProofOps(proofs, 0);
  }

  /** What one proof adds in front of the rest of a round. */
  function Turn(batch: bool, rest: seq<Op>): seq<Op> {
    (if batch then [Submit(false)] else []) + ([Call] + rest)
  }

  lemma Unrolled(proofs: seq<ProofTask.Proof>, i: nat) returns (batch: bool, rest: seq<Op>)
    requires i < |proofs|
    ensures batch == StartsBatch(i) && ProofOps(proofs, i) == Turn(batch, rest)
    ensures !ProofTask.Panics(proofs[i]) ==> rest == ProofOps(proofs, i + 1)
  {
    batch := StartsBatch(i);
    rest := if ProofTask.Panics(proofs[i]) then [] else ProofOps(proofs, i + 1);
  }

  lemma InTurn(batch: bool, rest: seq<Op>, ops: seq<Op>) returns (n: nat)
    requires ops == Turn(batch, rest)
    ensures n == (if batch then 1 else 0) && n < |ops| && ops[n] == Call
    ensures batch ==> n > 0 && ops[n - 1] == Submit(false)
  {
    n := if batch then 1 else 0;
  }

  /** A call in the rest of a round, perhaps right behind a submission. */
  lemma BehindTurn(batch: bool, rest: seq<Op>, ops: seq<Op>, m: nat, behind: bool) returns (n: nat)
    requires ops == Turn(batch, rest) && m < |rest| && rest[m] == Call
    requires behind ==> m > 0 && rest[m - 1] == Submit(false)
    ensures n == m + (if batch then 2 else 1) && n < |ops| && ops[n] == Call
    ensures behind ==> n > 0 && ops[n - 1] == Submit(false)
  {
    n := m + if batch then 2 else 1;
    assert ops[n] == rest[m] && (m > 0 ==> ops[n - 1] == rest[m - 1]);
  }

  /** The call for proof j comes behind those for the proofs before it and the batches full by then, and
      right behind the submission of a batch that is full just then. */
  lemma {:induction false} CallAt(proofs: seq<ProofTask.Proof>, i: nat, j: nat, k: nat) returns (n: nat)
    requires FirstPanic(proofs, i, k) && i <= j <= k && j < |proofs|
    ensures n == j - i + Full(j + 1) - Full(i) && n < |ProofOps(proofs, i)| && ProofOps(proofs, i)[n] == Call
    ensures StartsBatch(j) ==> n > 0 && ProofOps(proofs, i)[n - 1] == Submit(false)
    decreases j - i
  {
    var batch, rest := Unrolled(proofs, i);
    FullNext(i);
    if i == j {
      n := InTurn(batch, rest, ProofOps(proofs, i));
    } else {
      var m := CallAt(proofs, i + 1, j, k);
      n := BehindTurn(batch, rest, ProofOps(proofs, i), m, StartsBatch(j));
    }
  }

  /** A round submits each batch as soon as it is full, right before the next proof is judged. */
  lemma RoundInStep(proofs: seq<ProofTask.Proof>, j: nat, k: nat) returns (n: nat)
    requires FirstPanic(proofs, 0, k) && j <= k && j < |proofs|
    ensures n == 1 + j + j / ProofTask.MAX_RESULTS
    ensures n < |CheckProofs(proofs).Ops()| && CheckProofs(proofs).Ops()[n] == Call
    ensures StartsBatch(j) ==> CheckProofs(proofs).Ops()[n - 1] == Submit(false)
  {
    var m := CallAt(proofs, 0, j, k);
    OneBefore(ProofOps(proofs, 0), m);
    FullIs(j);
    n := m + 1;
  }

  lemma OneBefore(ops: seq<Op>, n: nat)
    requires n < |ops|
    ensures ([LockWork] + ops)[n + 1] == ops[n] && (n > 0 ==> ([LockWork] + ops)[n] == ops[n - 1])
  {
  }

  // ----- all goroutines together

  /** A goroutine: what it has still to do of a job, its further jobs, and which locks it holds. */
  datatype Proc = Proc(rest: seq<Op>, todo: seq<Job>, hasWork: bool, hasChain: bool) {
    predicate AtLock() { rest != [] && rest[0] == LockWork }

    predicate Submitting() { rest != [] && rest[0].Submit? }

    predicate Hung() { rest != [] && rest[0] == Hang }

    /** In one of the calls that the lock is there to keep apart. */
    predicate Calling() { rest != [] && Guarded(rest[0]) }
  }

  /** The tag mailbox has one slot; a callback that found it full has first to empty it. */
  datatype Mail = Mail(full: bool, emptying: nat, filling: nat)

  /** `api` says whether the chain client has its connection. */
  datatype State = State(procs: seq<Proc>, work: bool, chain: bool, api: bool, mail: Mail)

  datatype Step =
    | Begin(p: nat)              // the next job
    | Run(p: nat)                // the next operation; waiting for a tag ends with the timer
    | TakeTag(p: nat)            // waiting for a tag ends with the mailbox
    | Enter(p: nat)              // a submission takes the chain lock
    | Return(p: nat, ends: bool) // it returns, and ends the loop or not
    | Panic(p: nat)              // it, or the look at the chain after it, meets a missing connection
    | Api(up: bool)              // some call loses the connection, or makes a new one
    | Callback                   // a tag arrives by HTTP and its goroutine looks at the mailbox
    | Empty | Fill               // a callback takes the old tag out, or puts its own in

  function Start(programs: seq<seq<Job>>): State {
    State(seq(|programs|, i requires 0 <= i < |programs| => Proc([], programs[i], false, false)),
          false, false, true, Mail(false, 0, 0))
  }

  predicate Enabled(s: State, st: Step) {
    match st
    case Begin(p) => p < |s.procs| && s.procs[p].rest == [] && s.procs[p].todo != []
    case Run(p) =>
      && p < |s.procs| && s.procs[p].rest != [] && !s.procs[p].Submitting() && !s.procs[p].Hung()
      && (s.procs[p].AtLock() ==> !s.work)
    case TakeTag(p) => p < |s.procs| && s.procs[p].rest != [] && s.procs[p].rest[0] == AwaitTag && s.mail.full
    case Enter(p) => p < |s.procs| && s.procs[p].Submitting() && !s.procs[p].hasChain && !s.chain
    case Return(p, _) => p < |s.procs| && s.procs[p].Submitting() && s.procs[p].hasChain
    case Panic(p) => p < |s.procs| && s.procs[p].Submitting() && !s.api
    case Api(_) => true
    case Callback => true
    case Empty => s.mail.emptying > 0 && s.mail.full
    case Fill => s.mail.filling > 0 && !s.mail.full
  }

  function Update(s: State, p: nat, r: Proc): State
    requires p < |s.procs|
  {
    s.(procs := s.procs[p := r])
  }

  function Apply(s: State, st: Step): State
    requires Enabled(s, st)
  {
    match st
    case Begin(p) =>
      Update(s, p, s.procs[p].(rest := s.procs[p].todo[0].Ops(), todo := s.procs[p].todo[1..]))
    case Run(p) =>
      var r := s.procs[p].(rest := s.procs[p].rest[1..]);
      var op := s.procs[p].rest[0];
      if op == LockWork then Update(s, p, r.(hasWork := true)).(work := true)
      else if op == UnlockWork then Update(s, p, r.(hasWork := false)).(work := false)
      else Update(s, p, r)
    case TakeTag(p) => Update(s, p, s.procs[p].(rest := s.procs[p].rest[1..])).(mail := s.mail.(full := false))
    case Enter(p) => Update(s, p, s.procs[p].(hasChain := true)).(chain := true)
    case Return(p, ends) =>
      var r := s.procs[p].(hasChain := false);
      Update(s, p, if ends then r.(rest := r.rest[1..]) else r).(chain := false)
    case Panic(p) =>
      var r := s.procs[p];
      Update(s, p, r.(hasChain := false, rest := if r.rest[0].deferred then [UnlockWork] else []))
      .(chain := s.chain && !r.hasChain)
    case Api(up) => s.(api := up)
    case Callback =>
      s.(mail := if s.mail.full then s.mail.(emptying := s.mail.emptying + 1)
                 else s.mail.(filling := s.mail.filling + 1))
    case Empty => s.(mail := Mail(false, s.mail.emptying - 1, s.mail.filling + 1))
    case Fill => s.(mail := s.mail.(full := true, filling := s.mail.filling - 1))
  }

  function Exec(s: State, steps: seq<Step>): Option<State>
    decreases |steps|
  {
    if steps == [] then Some(s)
    else if Enabled(s, steps[0]) then Exec(Apply(s, steps[0]), steps[1..])
    else None
  }

  predicate Works(s: State, p: nat) { p < |s.procs| && s.procs[p].hasWork }

  predicate Chains(s: State, p: nat) { p < |s.procs| && s.procs[p].hasChain }

  /** At most one goroutine holds each lock, and each lock is locked exactly when some one does. */
  ghost predicate Exclusive(s: State) {
    && (forall p: nat, q: nat :: Works(s, p) && Works(s, q) ==> p == q)
    && (forall p: nat, q: nat :: Chains(s, p) && Chains(s, q) ==> p == q)
    && (s.work <==> exists p: nat :: Works(s, p))
    && (s.chain <==> exists p: nat :: Chains(s, p))
  }

  /** What is left of a job is in order, and the chain lock is held only within a submission. */
  ghost predicate InOrder(r: Proc) {
    Ordered(r.rest, r.hasWork) && (r.hasChain ==> r.Submitting())
  }

  ghost predicate AllInOrder(s: State) {
    forall p: nat :: p < |s.procs| ==> InOrder(s.procs[p])
  }

  ghost predicate Inv(s: State) { Exclusive(s) && AllInOrder(s) }

  /** Neither what is left of the job nor a further job keeps the lock. */
  ghost predicate CleanProc(r: Proc) {
    Clean(r.rest, r.hasWork) && !Risky(r.todo)
  }

  ghost predicate AllClean(s: State) {
    forall p: nat :: p < |s.procs| ==> CleanProc(s.procs[p])
  }

  /** Some job of these has inputs that keep it from an unlock. */
  ghost predicate Risky(jobs: seq<Job>) {
    exists j :: j in jobs && j.LosesLock()
  }

  lemma StartInv(programs: seq<seq<Job>>)
    ensures Inv(Start(programs))
    ensures AllClean(Start(programs)) <==> !exists i :: 0 <= i < |programs| && Risky(programs[i])
  {
    var s := Start(programs);
    assert forall i: nat :: i < |programs| ==> s.procs[i].todo == programs[i];
    if AllClean(s) {
      assert forall i: nat :: i < |programs| ==> CleanProc(s.procs[i]);
    }
  }

  /** The goroutine that steps, if any. */
  function Mover(st: Step): Option<nat> {
    match st
    case Begin(p) => Some(p)
    case Run(p) => Some(p)
    case TakeTag(p) => Some(p)
    case Enter(p) => Some(p)
    case Return(p, _) => Some(p)
    case Panic(p) => Some(p)
    case _ => None
  }

  lemma OthersStay(s: State, st: Step)
    requires Enabled(s, st)
    ensures |Apply(s, st).procs| == |s.procs|
    ensures Mover(st).Some? ==> Mover(st).value < |s.procs|
    ensures forall p: nat :: p < |s.procs| && Mover(st) != Some(p) ==> Apply(s, st).procs[p] == s.procs[p]
  {
  }

  /** The goroutine that steps stays in order, and its locks follow those of the state. */
  lemma MoverInOrder(s: State, st: Step, p: nat)
    requires Inv(s) && Enabled(s, st) && Mover(st) == Some(p)
    ensures InOrder(Apply(s, st).procs[p])
    ensures var (r, r') := (s.procs[p], Apply(s, st).procs[p]);
            && (r'.hasWork && !r.hasWork ==> !s.work)
            && (r'.hasChain && !r.hasChain ==> !s.chain)
            && (Apply(s, st).work == if r.hasWork == r'.hasWork then s.work else r'.hasWork)
            && (Apply(s, st).chain == if r.hasChain == r'.hasChain then s.chain else r'.hasChain)
  {
    var r := s.procs[p];
    assert InOrder(r);
    assert Works(s, p) ==> s.work;
    assert Chains(s, p) ==> s.chain;
    if st.Begin? {
      JobClean(r.todo[0]);
      HeldKeeps(r.todo[0].Ops());
    }
    assert st.Panic? ==> (r.rest[0].deferred ==> r.hasWork) && Ordered([UnlockWork], true);
  }

  lemma StepKeeps(s: State, st: Step)
    requires Inv(s) && Enabled(s, st)
    ensures Inv(Apply(s, st))
  {
    var t := Apply(s, st);
    OthersStay(s, st);
    if Mover(st).Some? {
      var m := Mover(st).value;
      MoverInOrder(s, st, m);
      ExclusiveKept(s, t, m);
    } else {
      assert forall q: nat :: Works(t, q) == Works(s, q) && Chains(t, q) == Chains(s, q);
    }
    forall p: nat | p < |t.procs| ensures InOrder(t.procs[p]) {
      assert InOrder(s.procs[p]);
    }
  }

  lemma ExclusiveKept(s: State, t: State, m: nat)
    requires Exclusive(s) && m < |s.procs| == |t.procs|
    requires forall p: nat :: p < |s.procs| && p != m ==> t.procs[p] == s.procs[p]
    requires var (r, r') := (s.procs[m], t.procs[m]);
             && (r'.hasWork && !r.hasWork ==> !s.work) && (r'.hasChain && !r.hasChain ==> !s.chain)
             && (t.work == if r.hasWork == r'.hasWork then s.work else r'.hasWork)
             && (t.chain == if r.hasChain == r'.hasChain then s.chain else r'.hasChain)
    ensures Exclusive(t)
  {
    assert forall q: nat :: q != m ==> Works(t, q) == Works(s, q) && Chains(t, q) == Chains(s, q);
    assert Works(s, m) ==> s.work;
    assert Chains(s, m) ==> s.chain;
    assert Works(t, m) ==> t.work;
    assert Chains(t, m) ==> t.chain;
  }

  /** A submission panics with the work lock held and no deferred unlock. */
  predicate LockPanic(s: State, st: Step)
    requires Enabled(s, st)
  {
    st.Panic? && s.procs[st.p].hasWork && !s.procs[st.p].rest[0].deferred
  }

  /** Some step of the run is such a panic. */
  predicate LockPanics(s: State, steps: seq<Step>)
    decreases |steps|
  {
    steps != [] && Enabled(s, steps[0]) && (LockPanic(s, steps[0]) || LockPanics(Apply(s, steps[0]), steps[1..]))
  }

  lemma MoverClean(s: State, st: Step, p: nat)
    requires Inv(s) && Enabled(s, st) && Mover(st) == Some(p)
    ensures CleanProc(Apply(s, st).procs[p]) <==> CleanProc(s.procs[p]) && !LockPanic(s, st)
  {
    var r := s.procs[p];
    assert InOrder(r);
    assert Works(s, p) ==> s.work;
    match st
    case Begin(_) =>
      JobClean(r.todo[0]);
      HeldKeeps(r.todo[0].Ops());
      assert forall j :: j in r.todo <==> j == r.todo[0] || j in r.todo[1..];
    case Panic(_) =>
      PanicClean(r);
    case _ =>
  }

  lemma PanicClean(r: Proc)
    requires r.Submitting() && InOrder(r)
    ensures var rest := if r.rest[0].deferred then [UnlockWork] else [];
            Clean(rest, r.hasWork) <==> Clean(r.rest, r.hasWork) && (r.rest[0].deferred || !r.hasWork)
  {
    assert [UnlockWork][1..] == [];
    assert Clean(r.rest, r.hasWork) == Clean(r.rest[1..], r.hasWork);
  }

  lemma StepClean(s: State, st: Step)
    requires Inv(s) && Enabled(s, st)
    ensures AllClean(Apply(s, st)) <==> AllClean(s) && !LockPanic(s, st)
  {
    var t := Apply(s, st);
    OthersStay(s, st);
    if Mover(st).Some? {
      MoverClean(s, st, Mover(st).value);
    }
    if AllClean(t) {
      forall p: nat | p < |s.procs| ensures CleanProc(s.procs[p]) {
        assert CleanProc(t.procs[p]);
      }
      assert Mover(st).Some? ==> CleanProc(t.procs[Mover(st).value]);
    }
    if AllClean(s) && !LockPanic(s, st) {
      forall p: nat | p < |s.procs| ensures CleanProc(t.procs[p]) {
        assert CleanProc(s.procs[p]);
      }
    }
  }

  lemma {:induction false} RunKeeps(s: State, steps: seq<Step>, t: State)
    requires Inv(s) && Exec(s, steps) == Some(t)
    ensures Inv(t) && (AllClean(t) <==> AllClean(s) && !LockPanics(s, steps))
    decreases |steps|
  {
    if steps != [] {
      StepKeeps(s, steps[0]);
      StepClean(s, steps[0]);
      RunKeeps(Apply(s, steps[0]), steps[1..], t);
    }
  }

  /** Whatever jobs the goroutines have, panicking or hanging or neither, and however they interleave: two never
      hold the work lock together, nor the chain lock, and no lock is locked without a holder. A goroutine
      that is in a tag request, a sending or a proof check holds the work lock, so no other is. */
  lemma NeverOverlap(programs: seq<seq<Job>>, steps: seq<Step>, s: State)
    requires Exec(Start(programs), steps) == Some(s)
    ensures Inv(s)
    ensures forall p: nat :: p < |s.procs| && s.procs[p].Calling() ==> Works(s, p)
    ensures forall p: nat, q: nat ::
              p < |s.procs| && q < |s.procs| && s.procs[p].Calling() && s.procs[q].Calling() ==> p == q
    ensures AllClean(s) <==> !Endangered(programs, steps)
  {
    StartInv(programs);
    RunKeeps(Start(programs), steps, s);
    forall p: nat | p < |s.procs| && s.procs[p].Calling() ensures Works(s, p) {
      assert InOrder(s.procs[p]);
    }
  }

  /** Some job's inputs keep it from an unlock, or a panic of a submission in the run does. */
  ghost predicate Endangered(programs: seq<seq<Job>>, steps: seq<Step>) {
    (exists i :: 0 <= i < |programs| && Risky(programs[i])) || LockPanics(Start(programs), steps)
  }

  /** An unlock always meets a locked lock held by the goroutine that unlocks, which is what keeps
      the runtime from aborting; and a lock is never requested under the chain lock. */
  lemma UnlocksAreSafe(s: State, p: nat)
    requires Inv(s) && p < |s.procs|
    ensures s.procs[p].rest != [] && s.procs[p].rest[0] == UnlockWork ==> s.work && Works(s, p)
    ensures s.procs[p].hasChain ==> s.chain && s.procs[p].Submitting()
    ensures s.procs[p].AtLock() ==> !Chains(s, p)
    ensures AllClean(s) && s.procs[p].AtLock() ==> !Works(s, p)
  {
    assert InOrder(s.procs[p]);
    assert Works(s, p) ==> s.work;
    assert Chains(s, p) ==> s.chain;
    assert AllClean(s) ==> CleanProc(s.procs[p]);
  }

  // ----- progress

  ghost predicate Unfinished(s: State, p: nat) {
    p < |s.procs| && (s.procs[p].rest != [] || s.procs[p].todo != [])
  }

  ghost predicate Done(s: State) { forall p: nat :: !Unfinished(s, p) }

  /** The goroutine holds the work lock and is on no path that unlocks it. */
  ghost predicate Lost(s: State, q: nat) {
    Works(s, q) && Keeps(s.procs[q].rest)
  }

  /** The step of a goroutine that is not waiting for the work lock. */
  function NextStep(s: State, p: nat): Step
    requires p < |s.procs|
  {
    var r := s.procs[p];
    if r.rest == [] then Begin(p)
    else if !r.Submitting() then Run(p)
    else if r.hasChain then Return(p, true)
    else Enter(p)
  }

  ghost predicate Stuck(s: State) {
    !Done(s) && forall p: nat :: Unfinished(s, p) ==> !Enabled(s, NextStep(s, p))
  }

  lemma ChainFrees(s: State)
    requires Inv(s) && Stuck(s)
    ensures !s.chain
    ensures forall p: nat :: Unfinished(s, p) ==> s.procs[p].Hung() || (s.procs[p].AtLock() && s.work)
  {
    if s.chain {
      var r: nat :| Chains(s, r);
      ChainHolderGoes(s, r);
    }
  }

  lemma ChainHolderGoes(s: State, r: nat)
    requires Inv(s) && Chains(s, r)
    ensures Unfinished(s, r) && Enabled(s, NextStep(s, r))
  {
    assert InOrder(s.procs[r]);
  }

  /** The only deadlock there is: the work lock is lost, and everyone left waits for it, but for one
      that hangs with it, if that is how it was lost. */
  lemma StuckExactly(s: State)
    requires Inv(s)
    ensures Stuck(s) <==>
              && !Done(s)
              && (exists q: nat :: Lost(s, q))
              && (forall p: nat :: Unfinished(s, p) ==> s.procs[p].AtLock() || (s.procs[p].Hung() && Lost(s, p)))
  {
    HungLoses(s);
    if Stuck(s) {
      ChainFrees(s);
      var p: nat :| Unfinished(s, p);
      var q: nat :| Works(s, q);
      assert Unfinished(s, q) ==> s.procs[q].AtLock() || s.procs[q].Hung();
      assert Lost(s, q);
    }
    if q: nat :| Lost(s, q) {
      assert s.work;
    }
  }

  lemma HungLoses(s: State)
    requires Inv(s)
    ensures forall p: nat :: p < |s.procs| && s.procs[p].Hung() ==> Lost(s, p)
  {
    forall p: nat | p < |s.procs| && s.procs[p].Hung() ensures Lost(s, p) {
      assert InOrder(s.procs[p]);
    }
  }

  lemma CleanNeverLost(s: State, q: nat)
    requires AllClean(s) && q < |s.procs|
    ensures !Lost(s, q)
  {
    assert CleanProc(s.procs[q]);
    if Keeps(s.procs[q].rest) {
      KeepsIsNotClean(s.procs[q].rest);
    }
  }

  lemma CleanNeverStuck(s: State)
    requires Inv(s) && AllClean(s)
    ensures !Stuck(s)
    ensures Done(s) ==> !s.work && !s.chain
  {
    StuckExactly(s);
    forall q: nat ensures !Lost(s, q) {
      if q < |s.procs| {
        CleanNeverLost(s, q);
      }
    }
    if Done(s) {
      forall q: nat ensures !Works(s, q) && !Chains(s, q) {
        assert !Unfinished(s, q);
        assert q < |s.procs| ==> InOrder(s.procs[q]) && !Lost(s, q);
      }
    }
  }

  function Ahead(jobs: seq<Job>): nat {
    if jobs == [] then 0 else 2 * |jobs[0].Ops()| + 1 + Ahead(jobs[1..])
  }

  function Left(r: Proc): int {
    2 * |r.rest| + Ahead(r.todo) - if r.hasChain then 1 else 0
  }

  function LeftAll(procs: seq<Proc>): int {
    if procs == [] then 0 else Left(procs[0]) + LeftAll(procs[1..])
  }

  lemma {:induction false} LeftFalls(procs: seq<Proc>, p: nat, r: Proc)
    requires p < |procs| && Left(r) < Left(procs[p])
    ensures LeftAll(procs[p := r]) < LeftAll(procs)
    decreases |procs|
  {
    if p == 0 {
      assert procs[p := r][1..] == procs[1..];
    } else {
      assert procs[p := r][1..] == procs[1..][p - 1 := r];
      LeftFalls(procs[1..], p - 1, r);
    }
  }

  lemma {:induction false} LeftNat(procs: seq<Proc>)
    requires forall p :: 0 <= p < |procs| ==> InOrder(procs[p])
    ensures LeftAll(procs) >= 0
    decreases |procs|
  {
    if procs != [] {
      assert InOrder(procs[0]);
      assert forall p :: 0 <= p < |procs| - 1 ==> procs[1..][p] == procs[p + 1];
      LeftNat(procs[1..]);
    }
  }

  /** Goroutines can always finish, from wherever they have got to, with both locks free, if none is
      or gets on a path that keeps the lock, and every loop of submissions is ended by one. */
  lemma {:induction false} CanFinish(s: State) returns (more: seq<Step>, t: State)
    requires Inv(s) && AllClean(s)
    ensures Exec(s, more) == Some(t) && Done(t) && !t.work && !t.chain
    ensures forall a :: a in more ==> !a.Panic? && (a.Return? ==> a.ends)
    decreases LeftAll(s.procs)
  {
    CleanNeverStuck(s);
    if Done(s) {
      return [], s;
    }
    var p: nat :| Unfinished(s, p) && Enabled(s, NextStep(s, p));
    var a := NextStep(s, p);
    NextFalls(s, p);
    more, t := CanFinish(Apply(s, a));
    assert ([a] + more)[1..] == more;
    more := [a] + more;
  }

  lemma NextFalls(s: State, p: nat)
    requires Inv(s) && AllClean(s) && Unfinished(s, p) && Enabled(s, NextStep(s, p))
    ensures var t := Apply(s, NextStep(s, p));
            Inv(t) && AllClean(t) && 0 <= LeftAll(t.procs) < LeftAll(s.procs)
  {
    var a := NextStep(s, p);
    var t := Apply(s, a);
    StepKeeps(s, a);
    StepClean(s, a);
    OthersStay(s, a);
    assert t.procs == s.procs[p := t.procs[p]];
    MoverFalls(s, p);
    LeftFalls(s.procs, p, t.procs[p]);
    LeftNat(t.procs);
  }

  lemma MoverFalls(s: State, p: nat)
    requires p < |s.procs| && Enabled(s, NextStep(s, p))
    ensures p < |Apply(s, NextStep(s, p)).procs| && Left(Apply(s, NextStep(s, p)).procs[p]) < Left(s.procs[p])
  {
  }

  /** After any schedule in which the lock is not endangered some goroutine can go on, and all can
      finish once submissions end their loops. */
  lemma NoDeadlock(programs: seq<seq<Job>>, steps: seq<Step>, s: State) returns (more: seq<Step>, t: State)
    requires Exec(Start(programs), steps) == Some(s) && !Endangered(programs, steps)
    ensures !Stuck(s)
    ensures Exec(s, more) == Some(t) && Done(t) && !t.work && !t.chain
  {
    NeverOverlap(programs, steps, s);
    CleanNeverStuck(s);
    more, t := CanFinish(s);
  }

  /** When nothing can go on any more, the work lock is lost exactly if some job's inputs led to a panic
      or to a SendFile that hangs with it, or a submission panicked under it; otherwise every goroutine is
      done and it is free. */
  lemma LostExactly(programs: seq<seq<Job>>, steps: seq<Step>, s: State)
    requires Exec(Start(programs), steps) == Some(s) && (Done(s) || Stuck(s))
    ensures (exists q: nat :: Lost(s, q)) <==> Endangered(programs, steps)
    ensures (Done(s) && !s.work) <==> !Endangered(programs, steps)
  {
    NeverOverlap(programs, steps, s);
    StuckExactly(s);
    if AllClean(s) {
      CleanNeverStuck(s);
      forall q: nat ensures !Lost(s, q) {
        if q < |s.procs| {
          CleanNeverLost(s, q);
        }
      }
    } else if Done(s) {
      var q: nat :| q < |s.procs| && !CleanProc(s.procs[q]);
      assert !Unfinished(s, q);
      assert Lost(s, q);
    }
    if q: nat :| Lost(s, q) {
      assert s.work;
    }
  }

  /** With the connection there throughout, no submission panics. */
  lemma {:induction false} ConnectedNeverPanics(s: State, steps: seq<Step>)
    requires s.api && forall i :: 0 <= i < |steps| ==> steps[i] != Api(false)
    ensures !LockPanics(s, steps)
    decreases |steps|
  {
    if steps != [] && Enabled(s, steps[0]) {
      assert steps[0] != Api(false);
      assert forall i :: 0 <= i < |steps| - 1 ==> steps[1..][i] == steps[i + 1];
      ConnectedNeverPanics(Apply(s, steps[0]), steps[1..]);
    }
  }

  /** Once lost, the work lock is lost for ever: no goroutine gets past a request for it. */
  lemma {:induction false} LostForEver(s: State, q: nat, steps: seq<Step>, t: State)
    requires Inv(s) && Lost(s, q) && Exec(s, steps) == Some(t)
    ensures Lost(t, q) && t.work
    ensures forall p: nat :: p < |t.procs| && t.procs[p].AtLock() ==> !Enabled(t, Run(p))
    decreases |steps|
  {
    assert s.work;
    if steps != [] {
      StepKeeps(s, steps[0]);
      LostStep(s, q, steps[0]);
      LostForEver(Apply(s, steps[0]), q, steps[1..], t);
    }
  }

  lemma LostStep(s: State, q: nat, st: Step)
    requires Inv(s) && Lost(s, q) && Enabled(s, st)
    ensures Lost(Apply(s, st), q)
  {
    assert s.work && InOrder(s.procs[q]);
    OthersStay(s, st);
    if st == Begin(q) {
      JobClean(s.procs[q].todo[0]);
      HeldKeeps(s.procs[q].todo[0].Ops());
    }
  }

  // ----- loops of submissions

  /** Until one of its submissions ends the loop, or panics, a goroutine in such a loop keeps what it
      holds, and if that is the work lock, nobody gets past a request for it. */
  lemma {:induction false} HeldUntilEnded(s: State, p: nat, steps: seq<Step>, t: State)
    requires Inv(s) && p < |s.procs| && s.procs[p].Submitting() && Exec(s, steps) == Some(t)
    requires forall i :: 0 <= i < |steps| ==> steps[i] != Return(p, true) && steps[i] != Panic(p)
    ensures |t.procs| == |s.procs| && t.procs[p].(hasChain := false) == s.procs[p].(hasChain := false)
    ensures s.procs[p].hasWork ==>
              t.work && forall q: nat :: q < |t.procs| && t.procs[q].AtLock() ==> !Enabled(t, Run(q))
    decreases |steps|
  {
    assert Works(s, p) ==> s.work;
    if steps != [] {
      assert steps[0] != Return(p, true) && steps[0] != Panic(p);
      OthersStay(s, steps[0]);
      StepKeeps(s, steps[0]);
      assert forall i :: 0 <= i < |steps| - 1 ==> steps[1..][i] == steps[i + 1];
      HeldUntilEnded(Apply(s, steps[0]), p, steps[1..], t);
    }
  }

  /** And then a filler's loop gives the lock back in one more step, whether it ended or panicked. */
  lemma FillerReleases(s: State, p: nat, st: Step)
    requires Inv(s) && Works(s, p) && s.procs[p].rest == [Submit(true), UnlockWork]
    requires (st == Return(p, true) || st == Panic(p)) && Enabled(s, st)
    ensures var t := Apply(s, st); Enabled(t, Run(p)) && !Apply(t, Run(p)).work && !Works(Apply(t, Run(p)), p)
  {
    assert [Submit(true), UnlockWork][1..] == [UnlockWork];
  }

  /** A proof round loses the lock to a panic of a submission under it, and to nothing else it does. */
  lemma LockPanicLoses(s: State, st: Step)
    requires Inv(s) && Enabled(s, st)
    ensures LockPanic(s, st) ==> Lost(Apply(s, st), st.p)
  {
    assert LockPanic(s, st) ==> Apply(s, st).procs[st.p].rest == [];
  }

  // ----- the mailbox

  /** Tags in the mailbox, or with a callback that has yet to put its own there. */
  function TagsHeld(m: Mail): nat {
    m.emptying + m.filling + if m.full then 1 else 0
  }

  function Arrived(steps: seq<Step>): nat {
    if steps == [] then 0 else (if steps[0] == Callback then 1 else 0) + Arrived(steps[1..])
  }

  /** Tags taken by a request, or thrown away to make room. */
  function Gone(steps: seq<Step>): nat {
    if steps == [] then 0 else (if steps[0].TakeTag? || steps[0] == Empty then 1 else 0) + Gone(steps[1..])
  }

  /** In every run each tag that arrived was taken, was thrown away, or is still held. */
  lemma {:induction false} TagsAccounted(s: State, steps: seq<Step>, t: State)
    requires Exec(s, steps) == Some(t)
    ensures TagsHeld(s.mail) + Arrived(steps) == TagsHeld(t.mail) + Gone(steps)
    decreases |steps|
  {
    if steps != [] {
      TagsAccounted(Apply(s, steps[0]), steps[1..], t);
    }
  }

  /** With the slot empty and nothing about to fill it, the callbacks that would empty it wait, whatever
      else happens, until a further tag arrives. */
  lemma {:induction false} StrandedForEver(s: State, steps: seq<Step>, t: State)
    requires !s.mail.full && s.mail.filling == 0 && Exec(s, steps) == Some(t) && Callback !in steps
    ensures t.mail == s.mail && !Enabled(t, Empty)
    decreases |steps|
  {
    if steps != [] {
      assert steps[0] in steps && forall a :: a in steps[1..] ==> a in steps;
      StrandedForEver(Apply(s, steps[0]), steps[1..], t);
    }
  }

  /** It comes to that: a callback finds a tag, the request takes it first, and all goroutines are done. */
  lemma CallbackStrands()
    ensures exists steps ::
              var end := Exec(Start([[RequestTag(true)]]), steps);
              end.Some? && Done(end.value) && end.value.mail == Mail(false, 1, 0)
  {
    var start := Start([[RequestTag(true)]]);
    var begun := start.(procs := [Proc([LockWork, Call] + WAITING, [], false, false)]);
    assert RequestTag(true).Ops() == [LockWork, Call] + WAITING;
    assert start.procs == [Proc([], [RequestTag(true)], false, false)];
    assert [RequestTag(true)][1..] == [] && Apply(start, Begin(0)).procs == begun.procs;
    var asked := Busy([Call] + WAITING, Mail(false, 0, 0));
    assert ([LockWork, Call] + WAITING)[1..] == [Call] + WAITING && ([Call] + WAITING)[1..] == WAITING;
    RequestMissed();
    assert Apply(asked, Run(0)).procs == Busy(WAITING, Mail(false, 0, 0)).procs;
    Goes(asked, Run(0), Busy(WAITING, Mail(false, 0, 0)), MISSED, IDLE);
    assert Apply(begun, Run(0)).procs == asked.procs;
    Goes(begun, Run(0), asked, [Run(0)] + MISSED, IDLE);
    Goes(start, Begin(0), begun, [Run(0)] + ([Run(0)] + MISSED), IDLE);
  }

  const WAITING: seq<Op> := [AwaitTag, UnlockWork]
  const MISSED: seq<Step> := [Callback, Fill] + [Callback, TakeTag(0), Run(0)]
  const IDLE := State([Proc([], [], false, false)], false, false, true, Mail(false, 1, 0))

  function Busy(rest: seq<Op>, mail: Mail): State {
    State([Proc(rest, [], true, false)], true, false, true, mail)
  }

  lemma RequestMissed()
    ensures Exec(Busy(WAITING, Mail(false, 0, 0)), MISSED) == Some(IDLE)
  {
    var waiting := Busy(WAITING, Mail(false, 0, 0));
    var taken := Busy([UnlockWork], Mail(false, 1, 0));
    assert WAITING[1..] == [UnlockWork];
    assert [UnlockWork][1..] == [] && Apply(taken, Run(0)).procs == IDLE.procs;
    Goes(taken, Run(0), IDLE, [], IDLE);
    assert [Run(0)] + [] == [Run(0)] && [TakeTag(0)] + [Run(0)] == [TakeTag(0), Run(0)];
    var found := waiting.(mail := Mail(true, 1, 0));
    assert Apply(found, TakeTag(0)).procs == taken.procs;
    Goes(found, TakeTag(0), taken, [Run(0)], IDLE);
    Goes(waiting.(mail := Mail(true, 0, 0)), Callback, found, [TakeTag(0), Run(0)], IDLE);
    assert [Callback] + [TakeTag(0), Run(0)] == [Callback, TakeTag(0), Run(0)];
    LoneCallback(waiting, [Callback, TakeTag(0), Run(0)], IDLE);
  }

  lemma LoneCallback(s: State, steps: seq<Step>, end: State)
    requires s.mail == Mail(false, 0, 0) && Exec(s.(mail := Mail(true, 0, 0)), steps) == Some(end)
    ensures Exec(s, [Callback, Fill] + steps) == Some(end)
  {
    Goes(s.(mail := Mail(false, 0, 1)), Fill, s.(mail := Mail(true, 0, 0)), steps, end);
    Goes(s, Callback, s.(mail := Mail(false, 0, 1)), [Fill] + steps, end);
    assert [Callback] + ([Fill] + steps) == [Callback, Fill] + steps;
  }

  lemma Goes(s: State, st: Step, t: State, steps: seq<Step>, end: State)
    requires Enabled(s, st) && Apply(s, st) == t && Exec(t, steps) == Some(end)
    ensures Exec(s, [st] + steps) == Some(end)
  {
    assert ([st] + steps)[1..] == steps;
  }
}
