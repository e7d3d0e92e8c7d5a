/** Block signatures over a bilinear group of order r. An element of G1 is represented by
    its exponent modulo r relative to a fixed element, and the pairing of two elements by
    the product of their exponents, so bilinearity holds without being assumed. */
module Pairing {
  import opened Numerals
  import opened ModArith
  import opened Wrappers
  import opened ParallelSign

  /** Hashing to the group, reading bytes as a scalar, JSON and the Merkle tree are library code. */
  datatype Params = Params(
    r: nat,
    hashG1: seq<byte> -> nat,
    toZr: seq<byte> -> nat,
    marshal: Tag -> Option<seq<byte>>,
    merkleRoot: seq<seq<byte>> -> Option<seq<byte>>)

  datatype Tag = Tag(Name: seq<byte>, N: nat, U: nat)

  datatype T = T(tag: Tag, SigAbove: nat)

  datatype QElement = QElement(I: int, V: seq<byte>)

  datatype Status = Success | ErrorInternal | ErrorParam

  function Mul(p: Params, a: nat, b: nat): nat
    requires p.r > 0
  {
    (a + b) % p.r
  }

  function PowZn(p: Params, a: nat, z: nat): nat
    requires p.r > 0
  {
    (a * z) % p.r
  }

  function Pair(p: Params, a: nat, b: nat): nat
    requires p.r > 0
  {
    (a * b) % p.r
  }

  /** The operations are those of an abelian group, a power is a repeated product, and the pairing is
      bilinear. */
  lemma GroupLaws(p: Params, a: nat, b: nat, c: nat, z: nat)
    requires p.r > 0
    ensures Mul(p, a, b) == Mul(p, b, a) && Cong(Mul(p, a, 0), a, p.r)
    ensures Mul(p, Mul(p, a, b), c) == Mul(p, a, Mul(p, b, c))
    ensures PowZn(p, a, 0) == 0 && PowZn(p, a, z + 1) == Mul(p, PowZn(p, a, z), a)
    ensures Pair(p, a, b) == Pair(p, b, a) && Pair(p, Mul(p, a, b), c) == Mul(p, Pair(p, a, c), Pair(p, b, c))
  {
    CongMod(a, p.r);
    CongMod(a + b, p.r);
    CongMod(b + c, p.r);
    CongAdd((a + b) % p.r, a + b, c, c, p.r);
    CongAdd(a, a, (b + c) % p.r, b + c, p.r);
    CongMod(a * z, p.r);
    CongAdd((a * z) % p.r, a * z, a, a, p.r);
    assert a * (z + 1) == a * z + a && a * b == b * a;
    PairsAdd(p, a, b, c);
  }

  lemma PairsAdd(p: Params, a: nat, b: nat, c: nat)
    requires p.r > 0
    ensures Pair(p, Mul(p, a, b), c) == Mul(p, Pair(p, a, c), Pair(p, b, c))
  {
    CongMod(a + b, p.r);
    CongMulOne((a + b) % p.r, a + b, c, p.r);
    CongMod(a * c, p.r);
    CongMod(b * c, p.r);
    CongAdd((a * c) % p.r, a * c, (b * c) % p.r, b * c, p.r);
    assert (a + b) * c == a * c + b * c;
  }

  /** Some power of g is the fixed element, so g generates the group. */
  ghost predicate Generator(p: Params, g: nat)
    requires p.r > 0
  {
    exists k: nat :: Inverse(p, g, k)
  }

  ghost predicate Inverse(p: Params, g: nat, k: nat)
    requires p.r > 0
  {
    Cong(g * k, 1, p.r)
  }

  lemma Cancel(p: Params, g: nat, a: nat, b: nat)
    requires p.r > 0 && Generator(p, g)
    ensures Cong(a * g, b * g, p.r) <==> Cong(a, b, p.r)
  {
    var k: nat :| Inverse(p, g, k);
    if Cong(a * g, b * g, p.r) {
      CongMulOne(a * g, b * g, k, p.r);
      Undo(p, a, g, k);
      Undo(p, b, g, k);
    }
    if Cong(a, b, p.r) {
      CongMulOne(a, b, g, p.r);
    }
  }

  lemma Undo(p: Params, a: nat, g: nat, k: nat)
    requires p.r > 0 && Inverse(p, g, k)
    ensures Cong((a * g) * k, a, p.r)
  {
    CongMul(a, a, g * k, 1, p.r);
    MulAssoc(a, g, k);
  }

  // ----- signing

  /** (H(m) * u^m)^alpha */
  function GenerateSigma(p: Params, data: seq<byte>, u: nat, alpha: nat): nat
    requires p.r > 0
  {
    SignedBlock(p, p.hashG1(data), p.toZr(data), u, alpha)
  }

  function SignedBlock(p: Params, h: nat, m: nat, u: nat, alpha: nat): nat
    requires p.r > 0
  {
    PowZn(p, Mul(p, h, PowZn(p, u, m)), alpha)
  }

  function Signatures(p: Params, matrix: seq<seq<byte>>, u: nat, alpha: nat): (ss: seq<nat>)
    requires p.r > 0
    ensures |ss| == |matrix|
  {
    seq(|matrix|, i requires 0 <= i < |matrix| => GenerateSigma(p, matrix[i], u, alpha))
  }

  datatype SigGenResponse =
    | Failed(partial: Option<T>)
    | Signed(t: T, phi: seq<nat>, sigRootHash: nat)
    | ProcessCrashed

  /** The random tag name and the random u are parameters. */
  method SigGen(p: Params, ssk: nat, matrix: seq<seq<byte>>, n: nat, name: seq<byte>, u: nat)
    returns (res: SigGenResponse)
    requires p.r > 0
    ensures p.marshal(Tag(name, n, u)).None? ==> res == SigGenResponse.Failed(None)
    ensures var m := p.marshal(Tag(name, n, u));
            m.Some? ==>
              var t := T(Tag(name, n, u), PowZn(p, p.hashG1(m.value), ssk));
              if p.merkleRoot(matrix).None? then res == SigGenResponse.Failed(Some(t))
              else if n > |matrix| then res == SigGenResponse.ProcessCrashed
              else res == Signed(t, Signatures(p, matrix, u, ssk)[..n],
                                 PowZn(p, p.hashG1(p.merkleRoot(matrix).value), ssk))
  {
    var tag := Tag(name, n, u);
    var tmp := p.marshal(tag);
    if tmp == None {
      return SigGenResponse.Failed(None);
    }
    var t := T(tag, PowZn(p, p.hashG1(tmp.value), ssk));
    var root := p.merkleRoot(matrix);
    if root == None {
      return SigGenResponse.Failed(Some(t));
    }
    var phi := SignAll(Signing(n, Signatures(p, matrix, u, ssk)));
    if phi == None {
      return SigGenResponse.ProcessCrashed;
    }
    return Signed(t, phi.value, PowZn(p, p.hashG1(root.value), ssk));
  }

  /** Runs the goroutines in an arbitrary order. */
  method SignAll(job: Signing) returns (phi: Option<seq<nat>>)
    ensures phi == if job.n <= |job.signatures| then Some(job.signatures[..job.n]) else None
  {
    var s := SignInit(job);
    while !s.crashed && !Responds(job, s)
      invariant SignInv(job, s)
      decreases !s.crashed, SignStepsLeft(job, s)
    {
      ghost var possible := SignerProgress(job, s);
      var a :| CanSign(job, s, a);
      SignInvStep(job, s, a);
      SignStepCosts(job, s, a);
      s := Sign(job, s, a);
    }
    if s.crashed {
      return None;
    }
    AllSlotsFilled(job, s);
    var values := seq(job.n, i requires 0 <= i < job.n => s.phi[i].value);
    assert values == job.signatures[..job.n];
    return Some(values);
  }

  // ----- proving

  predicate InRange(q: seq<QElement>, n: nat) {
    forall i :: 0 <= i < |q| ==> 0 <= q[i].I < n
  }

  /** The sum of m_i * v_i in Zr. */
  function Mu(p: Params, q: seq<QElement>, matrix: seq<seq<byte>>): nat
    requires p.r > 0 && InRange(q, |matrix|)
  {
    if q == [] then 0
    else
      var last := q[|q| - 1];
      (PowZn(p, p.toZr(matrix[last.I]), p.toZr(last.V)) + Mu(p, q[..|q| - 1], matrix)) % p.r
  }

  /** The product of phi_i^v_i in G1. */
  function Sigma(p: Params, q: seq<QElement>, phi: seq<nat>): nat
    requires p.r > 0 && InRange(q, |phi|)
  {
    if q == [] then 0
    else
      var last := q[|q| - 1];
      Mul(p, PowZn(p, phi[last.I], p.toZr(last.V)), Sigma(p, q[..|q| - 1], phi))
  }

  function HashesOf(p: Params, q: seq<QElement>, matrix: seq<seq<byte>>): (hs: seq<nat>)
    requires InRange(q, |matrix|)
    ensures |hs| == |q|
  {
    seq<nat>(|q|, i requires 0 <= i < |q| => p.hashG1(matrix[q[i].I]))
  }

  predicate TagAccepted(p: Params, g: nat, spk: nat, t: T, encoded: seq<byte>)
    requires p.r > 0
  {
    Pair(p, p.hashG1(encoded), spk) == Pair(p, t.SigAbove, g)
  }

  datatype GenProofResponse = GenProofResponse(status: Status, mu: nat, sigma: nat, hashMi: seq<nat>)

  /** No response if a challenged block or its signature does not exist: indexing panics. */
  method GenProof(p: Params, g: nat, spk: nat, q: seq<QElement>, t: T, phi: seq<nat>, matrix: seq<seq<byte>>)
    returns (res: Option<GenProofResponse>)
    requires p.r > 0
    ensures p.marshal(t.tag).None? ==> res == Some(GenProofResponse(ErrorInternal, 0, 0, []))
    ensures var m := p.marshal(t.tag);
            m.Some? ==>
              res == if !TagAccepted(p, g, spk, t, m.value) then Some(GenProofResponse(ErrorParam, 0, 0, []))
                     else if InRange(q, |matrix|) && InRange(q, |phi|)
                     then Some(GenProofResponse(Success, Mu(p, q, matrix), Sigma(p, q, phi), HashesOf(p, q, matrix)))
                     else None
  {
    var tmp := p.marshal(t.tag);
    if tmp == None {
      return Some(GenProofResponse(ErrorInternal, 0, 0, []));
    }
    var temp1 := Pair(p, p.hashG1(tmp.value), spk);
    var temp2 := Pair(p, t.SigAbove, g);
    if temp1 != temp2 {
      return Some(GenProofResponse(ErrorParam, 0, 0, []));
    }
    var mu, sigma, hashMi := 0, 0, [];
    for i := 0 to |q|
      invariant InRange(q[..i], |matrix|) && InRange(q[..i], |phi|)
      invariant mu == Mu(p, q[..i], matrix)
      invariant sigma == Sigma(p, q[..i], phi)
      invariant hashMi == HashesOf(p, q[..i], matrix)
    {
      if !(0 <= q[i].I < |matrix|) || !(0 <= q[i].I < |phi|) {
        return None;
      }
      assert q[..i + 1][..i] == q[..i];
      var mi, vi := p.toZr(matrix[q[i].I]), p.toZr(q[i].V);
      mu := (PowZn(p, mi, vi) + mu) % p.r;
      sigma := Mul(p, PowZn(p, phi[q[i].I], vi), sigma);
      hashMi := hashMi + [p.hashG1(matrix[q[i].I])];
    }
    assert q[..|q|] == q;
    return Some(GenProofResponse(Success, mu, sigma, hashMi));
  }

  // ----- correctness

  /** With public key g^ssk, the tag check accepts exactly the tag signature SigGen makes. */
  lemma TagAcceptedExactly(p: Params, g: nat, ssk: nat, t: T, encoded: seq<byte>)
    requires p.r > 0 && Generator(p, g)
    ensures TagAccepted(p, g, PowZn(p, g, ssk), t, encoded) <==>
            Cong(t.SigAbove, PowZn(p, p.hashG1(encoded), ssk), p.r)
  {
    PairWithKey(p, g, ssk, p.hashG1(encoded));
    Cancel(p, g, t.SigAbove, PowZn(p, p.hashG1(encoded), ssk));
  }

  /** e(a, g^ssk) == e(a^ssk, g) */
  lemma PairWithKey(p: Params, g: nat, ssk: nat, a: nat)
    requires p.r > 0
    ensures Pair(p, a, PowZn(p, g, ssk)) == Pair(p, PowZn(p, a, ssk), g)
  {
    CongMod(g * ssk, p.r);
    CongMul(a, a, (g * ssk) % p.r, g * ssk, p.r);
    CongMod(a * ssk, p.r);
    CongMulOne((a * ssk) % p.r, a * ssk, g, p.r);
    MulAssoc(a, g, ssk);
    MulAssoc(a, ssk, g);
    assert g * ssk == ssk * g;
  }

  /** The product of H(m_i)^v_i. */
  function HashProduct(p: Params, q: seq<QElement>, hashes: seq<nat>): nat
    requires p.r > 0 && |q| <= |hashes|
  {
    if q == [] then 0
    else
      var k := |q| - 1;
      Mul(p, PowZn(p, hashes[k], p.toZr(q[k].V)), HashProduct(p, q[..k], hashes))
  }

  lemma {:induction false} HashProductPrefix(p: Params, q: seq<QElement>, some: seq<nat>, more: seq<nat>)
    requires p.r > 0 && |q| <= |some| <= |more|
    requires forall i :: 0 <= i < |some| ==> some[i] == more[i]
    ensures HashProduct(p, q, some) == HashProduct(p, q, more)
    decreases |q|
  {
    if q != [] {
      HashProductPrefix(p, q[..|q| - 1], some, more);
    }
  }

  /** What a verifier of the scheme tests: e(sigma, g) == e(hashes * u^mu, pk). */
  predicate Verifies(p: Params, g: nat, spk: nat, u: nat, mu: nat, sigma: nat, hashProduct: nat)
    requires p.r > 0
  {
    Pair(p, sigma, g) == Pair(p, Mul(p, hashProduct, PowZn(p, u, mu)), spk)
  }

  /** Exactly one signature passes for given hashes and mu. */
  lemma VerifiesExactly(p: Params, g: nat, ssk: nat, u: nat, mu: nat, sigma: nat, hashProduct: nat)
    requires p.r > 0 && Generator(p, g)
    ensures Verifies(p, g, PowZn(p, g, ssk), u, mu, sigma, hashProduct) <==>
            Cong(sigma, PowZn(p, Mul(p, hashProduct, PowZn(p, u, mu)), ssk), p.r)
  {
    var x := Mul(p, hashProduct, PowZn(p, u, mu));
    PairWithKey(p, g, ssk, x);
    Cancel(p, g, sigma, PowZn(p, x, ssk));
  }

  lemma SignedResidue(p: Params, a: nat, u: nat, h: nat, m: nat)
    requires p.r > 0
    ensures Cong(SignedBlock(p, h, m, u, a), (h + u * m) * a, p.r)
  {
    CongMod(u * m, p.r);
    CongAdd(h, h, (u * m) % p.r, u * m, p.r);
    CongMod(h + (u * m) % p.r, p.r);
    CongMulOne(Mul(p, h, PowZn(p, u, m)), h + u * m, a, p.r);
    CongMod(Mul(p, h, PowZn(p, u, m)) * a, p.r);
  }

  /** A signed x to the power v, times a signed y, is x * v + y signed. */
  lemma SignedSum(p: Params, a: nat, v: nat, sig: nat, x: nat, S: nat, y: nat)
    requires p.r > 0 && Cong(sig, x * a, p.r) && Cong(S, y * a, p.r)
    ensures Cong(Mul(p, PowZn(p, sig, v), S), (x * v + y) * a, p.r)
  {
    CongMulOne(sig, x * a, v, p.r);
    CongMod(sig * v, p.r);
    CongAdd((sig * v) % p.r, (x * a) * v, S, y * a, p.r);
    CongMod((sig * v) % p.r + S, p.r);
    RegroupSigned(x, a, v, y);
  }

  lemma RegroupSigned(x: nat, a: nat, v: nat, y: nat)
    ensures (x * a) * v + y * a == (x * v + y) * a
  {
    assert (x * a) * v == (x * v) * a;
  }

  /** The exponent of hashes * u^mu after one more block. */
  lemma ExponentStep(p: Params, u: nat, h: nat, m: nat, v: nat, P: nat, M: nat)
    requires p.r > 0
    ensures Cong(Mul(p, PowZn(p, h, v), P) + u * ((PowZn(p, m, v) + M) % p.r),
                 (h + u * m) * v + (P + u * M), p.r)
  {
    ScalarStep(p, u, m, v, M);
    CongMod(h * v, p.r);
    CongAdd((h * v) % p.r, h * v, P, P, p.r);
    CongMod((h * v) % p.r + P, p.r);
    CongAdd(Mul(p, PowZn(p, h, v), P), h * v + P, u * ((PowZn(p, m, v) + M) % p.r), u * (m * v + M), p.r);
    RegroupExponent(u, h, m, v, P, M);
  }

  lemma ScalarStep(p: Params, u: nat, m: nat, v: nat, M: nat)
    requires p.r > 0
    ensures Cong(u * ((PowZn(p, m, v) + M) % p.r), u * (m * v + M), p.r)
  {
    CongMod(m * v, p.r);
    CongAdd((m * v) % p.r, m * v, M, M, p.r);
    CongMod((m * v) % p.r + M, p.r);
    CongMul(u, u, ((m * v) % p.r + M) % p.r, m * v + M, p.r);
  }

  lemma RegroupExponent(u: nat, h: nat, m: nat, v: nat, P: nat, M: nat)
    ensures h * v + P + u * (m * v + M) == (h + u * m) * v + (P + u * M)
  {
    assert (u * m) * v == u * (m * v);
  }

  /** The product of the signatures is the signature of the product of hashes times u^M. */
  ghost predicate Honest(p: Params, alpha: nat, u: nat, S: nat, P: nat, M: nat)
    requires p.r > 0
  {
    Cong(S, (P + u * M) * alpha, p.r)
  }

  lemma {:induction false} HonestAggregate(p: Params, alpha: nat, u: nat, matrix: seq<seq<byte>>,
                                           phi: seq<nat>, q: seq<QElement>)
    requires p.r > 0 && |phi| <= |matrix| && InRange(q, |phi|)
    requires forall i :: 0 <= i < |phi| ==> phi[i] == GenerateSigma(p, matrix[i], u, alpha)
    ensures Honest(p, alpha, u, Sigma(p, q, phi), HashProduct(p, q, HashesOf(p, q, matrix)), Mu(p, q, matrix))
    decreases |q|
  {
    if q == [] {
      assert u * 0 == 0 && 0 * alpha == 0;
    } else {
      HonestAggregate(p, alpha, u, matrix, phi, q[..|q| - 1]);
      AggregateNext(p, alpha, u, matrix, phi, q);
    }
  }

  lemma AggregateNext(p: Params, alpha: nat, u: nat, matrix: seq<seq<byte>>, phi: seq<nat>, q: seq<QElement>)
    requires p.r > 0 && |phi| <= |matrix| && InRange(q, |phi|) && q != []
    requires phi[q[|q| - 1].I] == GenerateSigma(p, matrix[q[|q| - 1].I], u, alpha)
    requires var front := q[..|q| - 1];
             Honest(p, alpha, u, Sigma(p, front, phi), HashProduct(p, front, HashesOf(p, front, matrix)),
                    Mu(p, front, matrix))
    ensures Honest(p, alpha, u, Sigma(p, q, phi), HashProduct(p, q, HashesOf(p, q, matrix)), Mu(p, q, matrix))
  {
    var k := |q| - 1;
    var front, last := q[..k], q[k];
    HashesOfFront(p, q, matrix);
    AggregateFold(p, alpha, u, p.hashG1(matrix[last.I]), p.toZr(matrix[last.I]), p.toZr(last.V), phi[last.I],
                  Sigma(p, front, phi), HashProduct(p, front, HashesOf(p, front, matrix)), Mu(p, front, matrix),
                  Sigma(p, q, phi), HashProduct(p, q, HashesOf(p, q, matrix)), Mu(p, q, matrix));
  }

  lemma HashesOfFront(p: Params, q: seq<QElement>, matrix: seq<seq<byte>>)
    requires p.r > 0 && q != [] && InRange(q, |matrix|)
    ensures var k := |q| - 1;
            HashProduct(p, q, HashesOf(p, q, matrix)) ==
            Mul(p, PowZn(p, p.hashG1(matrix[q[k].I]), p.toZr(q[k].V)),
                HashProduct(p, q[..k], HashesOf(p, q[..k], matrix)))
  {
    var k := |q| - 1;
    HashProductPrefix(p, q[..k], HashesOf(p, q[..k], matrix), HashesOf(p, q, matrix));
  }

  /** One more block in all three aggregates: S, P and M become S', P' and M'. */
  lemma AggregateFold(p: Params, a: nat, u: nat, h: nat, m: nat, v: nat, s: nat,
                      S: nat, P: nat, M: nat, S': nat, P': nat, M': nat)
    requires p.r > 0 && s == SignedBlock(p, h, m, u, a) && Honest(p, a, u, S, P, M)
    requires S' == Mul(p, PowZn(p, s, v), S)
    requires P' == Mul(p, PowZn(p, h, v), P)
    requires M' == (PowZn(p, m, v) + M) % p.r
    ensures Honest(p, a, u, S', P', M')
  {
    SignedResidue(p, a, u, h, m);
    SignedSum(p, a, v, s, h + u * m, S, P + u * M);
    ExponentStep(p, u, h, m, v, P, M);
    CongMulOne(P' + u * M', (h + u * m) * v + (P + u * M), a, p.r);
  }

  /** Pairing correctness, from signing to proving: for every matrix and every in-range
      challenge, the tag SigGen signed passes GenProof's tag check and the aggregate it
      returns satisfies the verification equation. */
  lemma SignedThenProved(p: Params, g: nat, ssk: nat, matrix: seq<seq<byte>>, n: nat, tag: Tag, q: seq<QElement>)
    requires p.r > 0 && n <= |matrix| && InRange(q, n) && p.marshal(tag).Some?
    ensures var encoded := p.marshal(tag).value;
            var t := T(tag, PowZn(p, p.hashG1(encoded), ssk));
            TagAccepted(p, g, PowZn(p, g, ssk), t, encoded)
    ensures var phi := Signatures(p, matrix, tag.U, ssk)[..n];
            Verifies(p, g, PowZn(p, g, ssk), tag.U, Mu(p, q, matrix), Sigma(p, q, phi),
                     HashProduct(p, q, HashesOf(p, q, matrix)))
  {
    PairWithKey(p, g, ssk, p.hashG1(p.marshal(tag).value));
    var phi := Signatures(p, matrix, tag.U, ssk)[..n];
    HonestAggregate(p, ssk, tag.U, matrix, phi, q);
    AggregateVerifies(p, g, ssk, tag.U, Mu(p, q, matrix), Sigma(p, q, phi),
                      HashProduct(p, q, HashesOf(p, q, matrix)));
  }

  lemma AggregateVerifies(p: Params, g: nat, ssk: nat, u: nat, mu: nat, sigma: nat, hp: nat)
    requires p.r > 0 && Cong(sigma, (hp + u * mu) * ssk, p.r)
    ensures Verifies(p, g, PowZn(p, g, ssk), u, mu, sigma, hp)
  {
    var x := Mul(p, hp, PowZn(p, u, mu));
    PairWithKey(p, g, ssk, x);
    CongMod(u * mu, p.r);
    CongAdd(hp, hp, (u * mu) % p.r, u * mu, p.r);
    CongMod(hp + (u * mu) % p.r, p.r);
    CongMulOne(x, hp + u * mu, ssk, p.r);
    CongMod(x * ssk, p.r);
    CongMulOne(sigma, (x * ssk) % p.r, g, p.r);
  }
}
