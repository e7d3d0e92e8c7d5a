/** The proof validation task: judging each proof, batching the results and submitting them. */
module ProofTask {
  import opened Wrappers
  import opened Numerals
  import opened ModArith
  import opened Possession
  import opened Splitter
  import opened ChainClient

  const MAX_RESULTS: nat := 40

  datatype Proof = Proof(
    minerKey: seq<byte>, fileId: seq<byte>, shardId: seq<byte>,
    blockList: seq<nat>, random: seq<seq<byte>>,
    mu: seq<byte>, sigma: seq<byte>, omega: seq<byte>, u: seq<byte>, hashMi: seq<seq<byte>>)

  datatype ProofResult = ProofResult(minerKey: seq<byte>, fileId: seq<byte>, shardId: seq<byte>, result: bool)

  // ----- one proof

  /** Block numbers on the chain start from 1. */
  function ChallengeFromChain(blockList: seq<nat>, random: seq<seq<byte>>): (q: seq<QElement>)
    requires |blockList| == |random|
    ensures |q| == |blockList|
  {
    seq(|blockList|, j requires 0 <= j < |blockList| && |blockList| == |random| =>
      QElement(blockList[j] as int - 1, random[j]))
  }

  /** Each challenged block number, less one, goes with the random number in the same place. */
  predicate Pairs(q: seq<QElement>, blockList: seq<nat>, random: seq<seq<byte>>) {
    |q| == |blockList| == |random|
    && forall j :: 0 <= j < |q| ==> q[j].I + 1 == blockList[j] && q[j].V == random[j]
  }

  lemma ChallengeExactly(q: seq<QElement>, blockList: seq<nat>, random: seq<seq<byte>>)
    requires |blockList| == |random|
    ensures q == ChallengeFromChain(blockList, random) <==> Pairs(q, blockList, random)
  {
  }

  method GenerateChallengeFromChain(blockList: seq<nat>, random: seq<seq<byte>>)
    returns (q: Option<seq<QElement>>)
    ensures q.Some? <==> |blockList| == |random|
    ensures q.Some? ==> Pairs(q.value, blockList, random)
  {
    if |blockList| != |random| {
      return None;
    }
    var challenge := new QElement[|blockList|](_ => QElement(0, []));
    for j := 0 to |blockList|
      invariant forall k :: 0 <= k < j ==> challenge[k] == QElement(blockList[k] as int - 1, random[k])
    {
      challenge[j] := QElement(if blockList[j] >= 0 then blockList[j] as int - 1 else 0, random[j]);
    }
    return Some(challenge[..]);
  }

  predicate Incomplete(p: Proof) {
    p.u == [] || p.sigma == [] || p.omega == []
  }

  /** Answer, panic of the calling goroutine, or crash of the process. */
  function Judge(key: PublicKey, p: Proof): Outcome
    requires key.N > 0
  {
    if Incomplete(p) then Answer(false)
    else if |p.blockList| != |p.random| then Answer(true)
    else if |p.blockList| > |p.hashMi| then ProcessCrashed
    else if p.blockList == [] then Panicked
    else Answer(Verdict(key, p.u, ChallengeFromChain(p.blockList, p.random), p.mu, p.sigma, p.hashMi))
  }

  function ResultOf(p: Proof, accepted: bool): ProofResult {
    ProofResult(p.minerKey, p.fileId, p.shardId, accepted)
  }

  predicate Accepts(key: PublicKey, p: Proof)
    requires key.N > 0
  {
    Judge(key, p) == Answer(true)
  }

  method VerifyOne(key: PublicKey, p: Proof) returns (r: Outcome, result: ProofResult)
    requires key.N > 0
    ensures r == Judge(key, p)
    ensures result.minerKey == p.minerKey && result.fileId == p.fileId && result.shardId == p.shardId
    ensures r.Answer? ==> result.result == r.accepted
  {
    result := ResultOf(p, false);
    if |p.u| == 0 || |p.sigma| == 0 || |p.omega| == 0 {
      return Answer(false), result;
    }
    var q := GenerateChallengeFromChain(p.blockList, p.random);
    if q == None {
      return Answer(true), result.(result := true);
    }
    ChallengeExactly(q.value, p.blockList, p.random);
    r := VerifyProof(key, p.u, q.value, p.mu, p.sigma, p.hashMi);
    if r.Answer? {
      result := result.(result := r.accepted);
    }
  }

  /** A proof answers, rather than stopping the validation task or the process, exactly when it is
      incomplete, or its challenge is malformed, or it is non-empty with a hash for each block. */
  predicate Answers(p: Proof) {
    Incomplete(p) || |p.blockList| != |p.random| || 0 < |p.blockList| <= |p.hashMi|
  }

  ghost predicate AllAnswer(proofs: seq<Proof>) {
    forall p :: p in proofs ==> Answers(p)
  }

  /** A complete proof whose challenge is empty: indexing it panics in the validating goroutine. */
  predicate Panics(p: Proof) {
    !Incomplete(p) && p.blockList == [] && p.random == []
  }

  /** It panics in the validating goroutine or ends the process only if it is complete and its lists are
      of one length: the one without any block, the other with fewer hashes than blocks. */
  lemma OutcomeExactly(key: PublicKey, p: Proof)
    requires key.N > 0
    ensures Judge(key, p).Answer? <==> Answers(p)
    ensures Judge(key, p).Panicked? <==> Panics(p)
    ensures Judge(key, p).Panicked? <==>
              p.u != [] && p.sigma != [] && p.omega != [] && p.blockList == [] && p.random == []
    ensures Judge(key, p).ProcessCrashed? <==>
              && p.u != [] && p.sigma != [] && p.omega != []
              && |p.blockList| == |p.random| && |p.blockList| > |p.hashMi|
  {
  }

  /** A complete proof is judged true for lists of different length, and otherwise when it has a
      challenge, enough hashes, and the verifier accepts it. */
  lemma JudgedTrueExactly(key: PublicKey, p: Proof)
    requires key.N > 0
    ensures Judge(key, p) == Answer(true) <==>
              && p.u != [] && p.sigma != [] && p.omega != []
              && (|p.blockList| != |p.random| ||
                  (0 < |p.blockList| <= |p.hashMi| &&
                   Verdict(key, p.u, ChallengeFromChain(p.blockList, p.random), p.mu, p.sigma, p.hashMi)))
  {
  }

  /** With lists of one length, true means that the verification equation holds. */
  lemma TrueMeansVerified(key: PublicKey, p: Proof, q: seq<QElement>)
    requires key.N > 0 && Judge(key, p) == Answer(true) && Pairs(q, p.blockList, p.random)
    ensures |p.blockList| <= |p.hashMi|
    ensures Cong(HashProduct(q, p.hashMi) * Pow(SetBytes(p.u), SetBytes(p.mu)),
                 Pow(SetBytes(p.sigma), key.E), key.N)
  {
    ChallengeExactly(q, p.blockList, p.random);
    JudgedTrueExactly(key, p);
    CheckMeans(key, p.u, q, p.mu, p.sigma, p.hashMi);
  }

  /** An honest miner's proof, through its encoding on the chain, is judged true exactly when
      its signature is not the residue zero: zero is encoded as no bytes and read as missing. */
  lemma HonestProof(key: PublicKey, d: nat, hash: seq<byte> -> seq<byte>, blocks: seq<seq<byte>>,
                    phi: seq<nat>, p: Proof, q: seq<QElement>)
    requires IsKey(key, d) && |phi| == |blocks| && p.u != [] && p.omega != []
    requires Pairs(q, p.blockList, p.random) && q != []
    requires forall i :: 0 <= i < |p.blockList| ==> 1 <= p.blockList[i] <= |blocks|
    requires forall i :: 0 <= i < |blocks| ==> phi[i] == BlockSignature(key, d, SetBytes(p.u), hash, blocks[i])
    requires p.mu == Bytes(Mu(q, blocks)) && p.sigma == Bytes(Sigma(key, q, phi))
    requires p.hashMi == HashesOf(q, blocks, hash)
    ensures Judge(key, p) == Answer(Sigma(key, q, phi) != 0)
  {
    ChallengeExactly(q, p.blockList, p.random);
    Completeness(key, d, p.u, hash, blocks, phi, q);
  }

  // ----- batches

  function Batches<T>(rs: seq<T>): (bs: seq<seq<T>>) {
    if rs == [] then []
    else if |rs| <= MAX_RESULTS then [rs]
    else [rs[..MAX_RESULTS]] + Batches(rs[MAX_RESULTS..])
  }

  function Join<T>(bs: seq<seq<T>>): seq<T> {
    if bs == [] then [] else bs[0] + Join(bs[1..])
  }

  /** The batches in order are the results in order; there are ceil(n / 40) of them, all but
      the last with exactly 40 results, the last with 1 to 40. */
  lemma {:induction false} BatchesPartition<T>(rs: seq<T>)
    ensures Join(Batches(rs)) == rs
    ensures |Batches(rs)| == CeilDiv(|rs|, MAX_RESULTS)
    ensures forall i :: 0 <= i < |Batches(rs)| ==>
              if i < |Batches(rs)| - 1 then |Batches(rs)[i]| == MAX_RESULTS else 1 <= |Batches(rs)[i]| <= MAX_RESULTS
    decreases |rs|
  {
    CeilStep(|rs|, MAX_RESULTS);
    if |rs| > MAX_RESULTS {
      BatchesPartition(rs[MAX_RESULTS..]);
      assert Batches(rs)[1..] == Batches(rs[MAX_RESULTS..]);
    } else if rs != [] {
      assert Batches(rs)[1..] == [];
    }
  }

  /** Full batches already sent followed by what is left are the batches of the whole. */
  lemma {:induction false} BatchesOf<T>(full: seq<seq<T>>, rest: seq<T>)
    requires forall b :: b in full ==> |b| == MAX_RESULTS
    requires rest != [] || full == []
    ensures Batches(Join(full) + rest) == full + Batches(rest)
    decreases |full|
  {
    if full == [] {
      assert Join(full) + rest == rest;
    } else {
      BatchesOf(full[1..], rest);
      var more := Join(full[1..]) + rest;
      assert Join(full) + rest == full[0] + more;
      TakeDrop(full[0], more);
    }
  }

  lemma Regroup<T>(x: seq<T>, y: seq<T>, z: seq<T>)
    ensures x + (y + z) == (x + y) + z
  {
  }

  lemma TakeDrop<T>(a: seq<T>, b: seq<T>)
    ensures (a + b)[..|a|] == a && (a + b)[|a|..] == b
  {
  }

  lemma {:induction false} JoinAppend<T>(bs: seq<seq<T>>, b: seq<T>)
    ensures Join(bs + [b]) == Join(bs) + b
    decreases |bs|
  {
    if bs == [] {
      assert (bs + [b])[1..] == [];
    } else {
      JoinAppend(bs[1..], b);
      assert (bs + [b])[1..] == bs[1..] + [b];
    }
  }

  /** The results of proofs, in order; meant for proofs that all answer. */
  function Results(key: PublicKey, proofs: seq<Proof>): (rs: seq<ProofResult>)
    requires key.N > 0
    ensures |rs| == |proofs|
  {
    if proofs == [] then []
    else
      var last := proofs[|proofs| - 1];
      Results(key, proofs[..|proofs| - 1]) + [ResultOf(last, Accepts(key, last))]
  }

  /** Result i names the miner, the file and the shard of proof i, and says whether it was judged true. */
  lemma {:induction false} ResultsAt(key: PublicKey, proofs: seq<Proof>, i: nat)
    requires key.N > 0 && i < |proofs|
    ensures var (r, p) := (Results(key, proofs)[i], proofs[i]);
            && r.minerKey == p.minerKey && r.fileId == p.fileId && r.shardId == p.shardId
            && (r.result <==> Judge(key, p) == Answer(true))
    decreases |proofs|
  {
    if i < |proofs| - 1 {
      ResultsAt(key, proofs[..|proofs| - 1], i);
    }
  }

  /** Half way through a round: the batches handed on are full, and together with the pending
      results they are the results of the proofs seen. */
  ghost predicate Progress(key: PublicKey, seen: seq<Proof>, full: seq<seq<ProofResult>>, pending: seq<ProofResult>)
    requires key.N > 0
  {
    && (forall b :: b in full ==> |b| == MAX_RESULTS)
    && |full| * MAX_RESULTS + |pending| == |seen|
    && |pending| <= MAX_RESULTS && (pending == [] ==> full == [])
    && AllAnswer(seen)
    && Join(full) + pending == Results(key, seen)
  }

  /** The first m batches were submitted to the end. */
  ghost predicate SendsDone(sends: nat -> seq<Call>, m: int) {
    forall j: nat :: j < m ==> Sending(sends(j)) == Done
  }

  /** The batches handed on before proof k are the full ones, in order. */
  ghost predicate FullBatches(key: PublicKey, proofs: seq<Proof>, k: nat, full: seq<seq<ProofResult>>)
    requires key.N > 0
  {
    && k < |proofs| && AllAnswer(proofs[..k]) && |full| == k / MAX_RESULTS
    && (forall b :: b in full ==> |b| == MAX_RESULTS)
    && Join(full) <= Results(key, proofs[..k])
  }

  /** The round stopped at a proof that does not answer. */
  ghost predicate StoppedAt(key: PublicKey, proofs: seq<Proof>, sends: nat -> seq<Call>, k: nat,
                            full: seq<seq<ProofResult>>, end: RoundEnd)
    requires key.N > 0
  {
    && FullBatches(key, proofs, k, full) && SendsDone(sends, |full|) && !Answers(proofs[k])
    && end == if Panics(proofs[k]) then TaskPanicked else Crashed
  }

  /** The round stopped before a proof, submitting the last of the batches handed on. */
  ghost predicate StoppedSending(key: PublicKey, proofs: seq<Proof>, sends: nat -> seq<Call>, k: nat,
                                 full: seq<seq<ProofResult>>, end: RoundEnd)
    requires key.N > 0
  {
    && FullBatches(key, proofs, k, full) && k == |full| * MAX_RESULTS > 0
    && SendsDone(sends, |full| - 1) && Sending(sends(|full| - 1)) != Done
    && end == if Sending(sends(|full| - 1)) == Died then TaskPanicked else StillSending
  }

  ghost predicate Interrupted(key: PublicKey, proofs: seq<Proof>, sends: nat -> seq<Call>,
                              full: seq<seq<ProofResult>>, end: RoundEnd)
    requires key.N > 0
  {
    exists k: nat :: StoppedAt(key, proofs, sends, k, full, end) || StoppedSending(key, proofs, sends, k, full, end)
  }

  /** There is room for the result of proof i. */
  ghost predicate Ready(key: PublicKey, proofs: seq<Proof>, i: nat, full: seq<seq<ProofResult>>,
                        pending: seq<ProofResult>)
    requires key.N > 0
  {
    && i <= |proofs| && AllAnswer(proofs[..i]) && (forall b :: b in full ==> |b| == MAX_RESULTS)
    && |full| * MAX_RESULTS + |pending| == i && |pending| < MAX_RESULTS
    && Join(full) + pending == Results(key, proofs[..i])
  }

  lemma Flushed(key: PublicKey, proofs: seq<Proof>, i: nat, full: seq<seq<ProofResult>>, pending: seq<ProofResult>)
    requires key.N > 0 && i <= |proofs| && Progress(key, proofs[..i], full, pending)
    ensures if |pending| == MAX_RESULTS then Ready(key, proofs, i, full + [pending], [])
            else Ready(key, proofs, i, full, pending)
  {
    JoinAppend(full, pending);
  }

  lemma StopsSending(key: PublicKey, proofs: seq<Proof>, sends: nat -> seq<Call>, i: nat,
                     full: seq<seq<ProofResult>>, pending: seq<ProofResult>)
    requires key.N > 0 && i < |proofs| && Progress(key, proofs[..i], full, pending) && |pending| == MAX_RESULTS
    requires SendsDone(sends, |full|)
    ensures var e := Sending(sends(|full|));
            e != Done ==> Interrupted(key, proofs, sends, full + [pending], EndOf(e))
  {
    Flushed(key, proofs, i, full, pending);
    var e := Sending(sends(|full|));
    assert e != Done ==> StoppedSending(key, proofs, sends, i, full + [pending], EndOf(e));
  }

  lemma StopsAtProof(key: PublicKey, proofs: seq<Proof>, sends: nat -> seq<Call>, i: nat,
                     full: seq<seq<ProofResult>>, pending: seq<ProofResult>)
    requires key.N > 0 && i < |proofs| && !Answers(proofs[i]) && Ready(key, proofs, i, full, pending)
    requires SendsDone(sends, |full|)
    ensures Interrupted(key, proofs, sends, full, if Panics(proofs[i]) then TaskPanicked else Crashed)
  {
    assert StoppedAt(key, proofs, sends, i, full, if Panics(proofs[i]) then TaskPanicked else Crashed);
  }

  /** One proof further, with the batches and the pending results there are when it is judged. */
  lemma Added(key: PublicKey, proofs: seq<Proof>, i: nat, full: seq<seq<ProofResult>>, pending: seq<ProofResult>)
    requires key.N > 0 && i < |proofs| && Answers(proofs[i]) && Ready(key, proofs, i, full, pending)
    ensures Progress(key, proofs[..i + 1], full, pending + [ResultOf(proofs[i], Accepts(key, proofs[i]))])
  {
    var res := ResultOf(proofs[i], Accepts(key, proofs[i]));
    assert proofs[..i + 1] == proofs[..i] + [proofs[i]] && proofs[..i + 1][..i] == proofs[..i];
    assert Join(full) + (pending + [res]) == (Join(full) + pending) + [res];
  }

  lemma LastBatch<T>(pending: seq<T>)
    requires |pending| <= MAX_RESULTS
    ensures Batches(pending) == if |pending| > 0 then [pending] else []
  {
  }

  lemma AllBatched(key: PublicKey, proofs: seq<Proof>, full: seq<seq<ProofResult>>, pending: seq<ProofResult>)
    requires key.N > 0 && Progress(key, proofs, full, pending)
    ensures full + (if |pending| > 0 then [pending] else []) == Batches(Results(key, proofs))
    ensures |full| == CeilDiv(|proofs|, MAX_RESULTS) - if |proofs| > 0 then 1 else 0
  {
    BatchesOf(full, pending);
    LastBatch(pending);
    BatchesPartition(Results(key, proofs));
  }

  /** At the end of the loop only the last batch is left. */
  lemma AllSubmitted(key: PublicKey, proofs: seq<Proof>, sends: nat -> seq<Call>,
                     full: seq<seq<ProofResult>>, pending: seq<ProofResult>)
    requires key.N > 0 && proofs != [] && Progress(key, proofs, full, pending) && SendsDone(sends, |full|)
    ensures AllAnswer(proofs) && SendsDone(sends, CeilDiv(|proofs|, MAX_RESULTS) - 1)
    ensures |full| == CeilDiv(|proofs|, MAX_RESULTS) - 1 && 0 < |pending| <= MAX_RESULTS
    ensures full + [pending] == Batches(Results(key, proofs))
  {
    AllBatched(key, proofs, full, pending);
  }

  datatype RoundEnd = Finished | TaskPanicked | Crashed | StillSending

  function EndOf(e: SendEnd): RoundEnd {
    match e
    case Done => Finished
    case Died => TaskPanicked
    case Trying => StillSending
  }

  /** The validation task's view of the world: the shared work lock and the batches it has begun to
      submit. What the chain client answers for batch j of a round is the list sends(j). */
  class Task {
    var workLocked: bool
    var submitted: seq<seq<ProofResult>>

    constructor ()
      ensures !workLocked && submitted == []
    {
      workLocked, submitted := false, [];
    }

    /** One round over the proofs found on the chain, entered when the lock is free. All batches but
        the last are submitted under the lock, and neither they nor the proofs may stop the round
        for the lock to be released. */
    method Round(key: PublicKey, proofs: seq<Proof>, sends: nat -> seq<Call>) returns (end: RoundEnd)
      requires key.N > 0 && !workLocked
      modifies this
      ensures var n := CeilDiv(|proofs|, MAX_RESULTS);
              && (workLocked <==> !(AllAnswer(proofs) && SendsDone(sends, n - 1)))
              && (end == Finished <==> AllAnswer(proofs) && SendsDone(sends, n))
              && (!workLocked ==> submitted == old(submitted) + Batches(Results(key, proofs)))
              && (!workLocked && n > 0 ==>
                    && (end == TaskPanicked <==> Sending(sends(n - 1)) == Died)
                    && (end == StillSending <==> Sending(sends(n - 1)) == Trying))
      ensures workLocked ==>
                && old(submitted) <= submitted
                && Interrupted(key, proofs, sends, submitted[|old(submitted)|..], end)
    {
      if |proofs| == 0 {
        return Finished;
      }
      workLocked := true;
      var verifyResults, full;
      end, verifyResults, full := VerifyAll(key, proofs, sends);
      if end != Finished {
        assert submitted[|old(submitted)|..] == full;
        return;
      }
      workLocked := false;
      CeilStep(|proofs|, MAX_RESULTS);
      var sent := SubmitProofResult(verifyResults, sends(|full|));
      assert full + [verifyResults] == Batches(Results(key, proofs));
      end := EndOf(sent);
    }

    /** The loop over the proofs, under the lock. What it leaves is the last batch. */
    method VerifyAll(key: PublicKey, proofs: seq<Proof>, sends: nat -> seq<Call>)
      returns (end: RoundEnd, verifyResults: seq<ProofResult>, full: seq<seq<ProofResult>>)
      requires key.N > 0 && |proofs| > 0
      modifies this`submitted
      ensures submitted == old(submitted) + full
      ensures end == Finished <==> AllAnswer(proofs) && SendsDone(sends, CeilDiv(|proofs|, MAX_RESULTS) - 1)
      ensures end == Finished ==>
                && |full| == CeilDiv(|proofs|, MAX_RESULTS) - 1 && 0 < |verifyResults| <= MAX_RESULTS
                && full + [verifyResults] == Batches(Results(key, proofs))
      ensures end != Finished ==> Interrupted(key, proofs, sends, full, end)
    {
      verifyResults, full := [], [];
      for i := 0 to |proofs|
        invariant submitted == old(submitted) + full
        invariant Progress(key, proofs[..i], full, verifyResults) && SendsDone(sends, |full|)
      {
        var more;
        end, verifyResults, more := VerifyNext(key, proofs, i, verifyResults, full, sends);
        Regroup(old(submitted), full, more);
        full := full + more;
        if end != Finished {
          StopIsFinal(key, proofs, sends, full, end);
          return;
        }
      }
      assert proofs[..|proofs|] == proofs;
      AllSubmitted(key, proofs, sends, full, verifyResults);
      end := Finished;
    }

    /** One turn of the loop: submit a full batch, then judge the next proof. */
    method VerifyNext(key: PublicKey, proofs: seq<Proof>, i: nat, pending: seq<ProofResult>,
                      full: seq<seq<ProofResult>>, sends: nat -> seq<Call>)
      returns (end: RoundEnd, verifyResults: seq<ProofResult>, more: seq<seq<ProofResult>>)
      requires key.N > 0 && i < |proofs| && Progress(key, proofs[..i], full, pending) && SendsDone(sends, |full|)
      modifies this`submitted
      ensures submitted == old(submitted) + more
      ensures end == Finished ==> Progress(key, proofs[..i + 1], full + more, verifyResults)
      ensures end == Finished ==> SendsDone(sends, |full + more|)
      ensures end != Finished ==> Interrupted(key, proofs, sends, full + more, end)
    {
      verifyResults, more := pending, [];
      Flushed(key, proofs, i, full, pending);
      if |verifyResults| >= MAX_RESULTS {
        StopsSending(key, proofs, sends, i, full, pending);
        var sent := SubmitProofResult(verifyResults, sends(|full|));
        more := [verifyResults];
        if sent != Done {
          return EndOf(sent), verifyResults, more;
        }
        verifyResults := [];
      }
      assert full + [] == full;
      end, verifyResults := JudgeNext(key, proofs, i, verifyResults, full + more, sends);
    }

    method JudgeNext(key: PublicKey, proofs: seq<Proof>, i: nat, pending: seq<ProofResult>,
                     ghost full: seq<seq<ProofResult>>, ghost sends: nat -> seq<Call>)
      returns (end: RoundEnd, verifyResults: seq<ProofResult>)
      requires key.N > 0 && i < |proofs| && Ready(key, proofs, i, full, pending) && SendsDone(sends, |full|)
      ensures end == Finished ==> Progress(key, proofs[..i + 1], full, verifyResults)
      ensures end != Finished ==> Interrupted(key, proofs, sends, full, end)
    {
      OutcomeExactly(key, proofs[i]);
      var r, res := VerifyOne(key, proofs[i]);
      if !r.Answer? {
        StopsAtProof(key, proofs, sends, i, full, pending);
        return if r.Panicked? then TaskPanicked else Crashed, pending;
      }
      Added(key, proofs, i, full, pending);
      return Finished, pending + [res];
    }

    /** Submits a batch again and again; see Sending. */
    method SubmitProofResult(batch: seq<ProofResult>, attempts: seq<Call>) returns (end: SendEnd)
      modifies this`submitted
      ensures submitted == old(submitted) + (if |batch| > 0 then [batch] else [])
      ensures end == if |batch| > 0 then Sending(attempts) else Done
    {
      if |batch| == 0 {
        return Done;
      }
      submitted := submitted + [batch];
      var sends;
      end, sends := SubmitRetries(attempts);
    }
  }

  /** A round that was interrupted is not one in which everything goes well. */
  lemma StopIsFinal(key: PublicKey, proofs: seq<Proof>, sends: nat -> seq<Call>,
                    full: seq<seq<ProofResult>>, end: RoundEnd)
    requires key.N > 0 && Interrupted(key, proofs, sends, full, end)
    ensures !(AllAnswer(proofs) && SendsDone(sends, CeilDiv(|proofs|, MAX_RESULTS) - 1))
    ensures end != Finished
  {
    var k: nat :| StoppedAt(key, proofs, sends, k, full, end) || StoppedSending(key, proofs, sends, k, full, end);
    if StoppedAt(key, proofs, sends, k, full, end) {
      assert proofs[k] in proofs;
    } else {
      assert |full| - 1 < CeilDiv(|proofs|, MAX_RESULTS) - 1;
    }
  }

  // ----- submitting one batch

  /** Submitting stops for good, or with a panic, or goes on when the list of answers runs out. */
  datatype SendEnd = Done | Died | Trying

  function SendingFrom(attempts: seq<Call>, errors: nat): SendEnd {
    if attempts == [] then Trying
    else
      match attempts[0]
      case CallPanics => Died
      case Returned(r) =>
        var errors' := errors + if r.err then 1 else 0;
        if r.txhash != "" || errors' >= 3 then Done else SendingFrom(attempts[1..], errors')
  }

  function Sending(attempts: seq<Call>): SendEnd {
    SendingFrom(attempts, 0)
  }

  function Errors(attempts: seq<Call>): nat {
    if attempts == [] then 0
    else
      var last := attempts[|attempts| - 1];
      Errors(attempts[..|attempts| - 1]) + if last.Returned? && last.result.err then 1 else 0
  }

  /** The k-th attempt ends it: with a hash, as the third error, or by a panic. */
  predicate Stops(attempts: seq<Call>, k: nat)
    requires k <= |attempts|
  {
    k > 0 &&
    (attempts[k - 1].CallPanics? || attempts[k - 1].result.txhash != "" || Errors(attempts[..k]) >= 3)
  }

  ghost predicate FirstStop(attempts: seq<Call>, k: nat) {
    k <= |attempts| && Stops(attempts, k) && forall j: nat :: j < k ==> !Stops(attempts, j)
  }

  /** The retry loop, given what each submission would do. */
  method SubmitRetries(attempts: seq<Call>) returns (end: SendEnd, sends: nat)
    ensures end == Sending(attempts) && sends <= |attempts|
    ensures end == Trying ==> sends == |attempts| && forall k: nat :: k <= |attempts| ==> !Stops(attempts, k)
    ensures end != Trying ==> FirstStop(attempts, sends) && (end == Died <==> attempts[sends - 1].CallPanics?)
  {
    var tryCount := 0;
    sends := 0;
    assert attempts[0..] == attempts;
    while sends < |attempts|
      invariant 0 <= sends <= |attempts| && tryCount == Errors(attempts[..sends])
      invariant Sending(attempts) == SendingFrom(attempts[sends..], tryCount)
      invariant forall k: nat :: k <= sends ==> !Stops(attempts, k)
    {
      var c := attempts[sends];
      assert attempts[..sends + 1][..sends] == attempts[..sends];
      assert attempts[sends..][1..] == attempts[sends + 1..];
      sends := sends + 1;
      if c.CallPanics? {
        return Died, sends;
      }
      if c.result.err {
        tryCount := tryCount + 1;
      }
      assert (c.result.txhash != "" || tryCount >= 3) <==> Stops(attempts, sends);
      if c.result.txhash != "" {
        return Done, sends;
      }
      if tryCount >= 3 {
        return Done, sends;
      }
    }
    return Trying, sends;
  }

  lemma {:induction false} SendingStops(attempts: seq<Call>, i: nat)
    requires i <= |attempts| && forall k: nat :: k <= i ==> !Stops(attempts, k)
    ensures var e := SendingFrom(attempts[i..], Errors(attempts[..i]));
            && (e == Trying <==> forall k: nat :: k <= |attempts| ==> !Stops(attempts, k))
            && (e != Trying ==> exists k: nat :: FirstStop(attempts, k) && (e == Died <==> attempts[k - 1].CallPanics?))
    decreases |attempts| - i
  {
    if i < |attempts| {
      assert attempts[..i + 1][..i] == attempts[..i] && attempts[i..][1..] == attempts[i + 1..];
      if Stops(attempts, i + 1) {
        assert FirstStop(attempts, i + 1);
      } else {
        SendingStops(attempts, i + 1);
      }
    }
  }

  lemma FirstStopUnique(attempts: seq<Call>, j: nat, k: nat)
    requires FirstStop(attempts, j) && FirstStop(attempts, k)
    ensures j == k
  {
  }

  /** Submitting a batch ends at the first hash or third error, dies at the first panic before that,
      and goes on as long as there is neither. */
  lemma SendingExactly(attempts: seq<Call>)
    ensures Sending(attempts) == Died <==>
              exists k: nat :: FirstStop(attempts, k) && attempts[k - 1].CallPanics?
    ensures Sending(attempts) == Done <==>
              exists k: nat :: FirstStop(attempts, k) && !attempts[k - 1].CallPanics?
    ensures Sending(attempts) == Trying <==> forall k: nat :: k <= |attempts| ==> !Stops(attempts, k)
  {
    assert attempts[0..] == attempts && attempts[..0] == [];
    SendingStops(attempts, 0);
    forall j: nat, k: nat | FirstStop(attempts, j) && FirstStop(attempts, k) ensures j == k {
      FirstStopUnique(attempts, j, k);
    }
  }

  /** For a batch submitted over a client of its own, a panic takes an outage, at the latest in the
      attempt before the one that panics, or a connection missing from the start. */
  lemma DiesExactly(ws: seq<World>, api: bool)
    ensures var attempts := Calls(ws, api, false);
            Sending(attempts) == Died <==>
              exists j: nat :: j < |ws| && FirstStop(attempts, j + 1) && ws[j].built &&
                               (!api || exists i :: 0 <= i < j && Outage(ws[i].link))
  {
    var attempts := Calls(ws, api, false);
    SendingExactly(attempts);
    forall j: nat | j < |ws|
      ensures attempts[j].CallPanics? <==> ws[j].built && (!api || exists i :: 0 <= i < j && Outage(ws[i].link))
    {
      CallsPanicExactly(ws, api, false, j);
    }
    if Sending(attempts) == Died {
      var k: nat :| FirstStop(attempts, k) && attempts[k - 1].CallPanics?;
      var j := k - 1;
      assert FirstStop(attempts, j + 1);
    }
    if j: nat :| j < |ws| && FirstStop(attempts, j + 1) && ws[j].built &&
                 (!api || exists i :: 0 <= i < j && Outage(ws[i].link)) {
      assert attempts[j].CallPanics?;
    }
  }

  /** One outage under the first submission of a batch, and the second one panics. */
  lemma OutageThenPanic(w: World, next: World)
    requires Outage(w.link) && next.built
    ensures Sending(Calls([w, next], true, false)) == Died
  {
    var attempts, rest := Calls([w, next], true, false), Calls([next], false, false);
    assert [w, next][1..] == [next];
    assert attempts[0] == Returned(FAILED) && attempts[1..] == rest && rest[0] == CallPanics;
    assert SendingFrom(rest, 1) == Died;
    assert SendingFrom(attempts, 0) == SendingFrom(attempts[1..], 1);
  }

  /** Such an outage under the first full batch stops a round, however well the proofs do. */
  lemma OutageStopsRound(proofs: seq<Proof>, sends: nat -> seq<Call>, w: World, next: World)
    requires |proofs| > MAX_RESULTS && Outage(w.link) && next.built
    requires sends(0) == Calls([w, next], true, false)
    ensures !SendsDone(sends, CeilDiv(|proofs|, MAX_RESULTS) - 1)
  {
    OutageThenPanic(w, next);
    CeilStep(|proofs|, MAX_RESULTS);
    assert Sending(sends(0)) == Died;
  }

  lemma {:induction false} AllErrors(attempts: seq<Call>)
    requires forall c :: c in attempts ==> c.Returned? && c.result.err
    ensures Errors(attempts) == |attempts|
    decreases |attempts|
  {
    if attempts != [] {
      AllErrors(attempts[..|attempts| - 1]);
      assert attempts[|attempts| - 1] in attempts;
    }
  }

  predicate SilentCall(c: Call) {
    c.Returned? && Silent(c.result)
  }

  /** If no submission is silent, the loop stops within three sends. */
  lemma AtMostThreeSends(attempts: seq<Call>)
    requires |attempts| >= 3 && forall c :: c in attempts ==> !SilentCall(c)
    ensures exists k: nat :: k <= 3 && Stops(attempts, k)
  {
    if Stops(attempts, 1) || Stops(attempts, 2) {
    } else {
      assert attempts[0] in attempts && attempts[1] in attempts && attempts[2] in attempts;
      assert !Stops(attempts, 3) ==> forall c :: c in attempts[..3] ==> c.Returned? && c.result.err;
      if !Stops(attempts, 3) {
        AllErrors(attempts[..3]);
      }
    }
  }

  /** Silent submissions are repeated without limit. */
  lemma {:induction false} SilenceNeverEnds(attempts: seq<Call>)
    requires forall c :: c in attempts ==> SilentCall(c)
    ensures Sending(attempts) == Trying
    decreases |attempts|
  {
    if attempts != [] {
      assert attempts[0] in attempts;
      SilenceNeverEnds(attempts[1..]);
    }
  }
}
