/** Proof of data possession over the integers modulo an RSA modulus: what the miner
    computes for a challenge and what the scheduler's VerifyProof accepts. */
module Possession {
  import opened Numerals
  import opened ModArith
  import opened ForkJoin

  datatype PublicKey = PublicKey(N: nat, E: nat)

  /** d is the private exponent of the key: decryption after encryption is the identity
      modulo N (sections 3 and 5.2 of RFC 8017). */
  ghost predicate IsKey(key: PublicKey, d: nat) {
    key.N > 0 && forall x: nat :: Decrypts(key, d, x)
  }

  ghost predicate Decrypts(key: PublicKey, d: nat, x: nat)
    requires key.N > 0
  {
    Cong(Pow(Pow(x, d), key.E), x, key.N)
  }

  datatype QElement = QElement(I: int, V: seq<byte>)

  /** big.Int.Exp with a positive modulus. */
  function Exp(x: nat, y: nat, n: nat): nat
    requires n > 0
  {
    Pow(x, y) % n
  }

  // ----- the verifier

  /** The power each goroutine computes: H(m_i)^v_i mod N, for as many challenges as have a hash. */
  function Powers(q: seq<QElement>, hashes: seq<seq<byte>>, n: nat): (ps: seq<nat>)
    requires n > 0
    ensures |ps| == if |q| <= |hashes| then |q| else |hashes|
  {
    seq(if |q| <= |hashes| then |q| else |hashes|,
        i requires 0 <= i < |q| && i < |hashes| => Exp(SetBytes(hashes[i]), SetBytes(q[i].V), n))
  }

  /** The congruence tested once all goroutines are done. */
  predicate Check(key: PublicKey, u: seq<byte>, multiply: nat, mu: seq<byte>, sigma: seq<byte>)
    requires key.N > 0
  {
    (multiply * Exp(SetBytes(u), SetBytes(mu), key.N)) % key.N == Exp(SetBytes(sigma), key.E, key.N)
  }

  predicate Verdict(key: PublicKey, u: seq<byte>, q: seq<QElement>, mu: seq<byte>, sigma: seq<byte>,
                    hashes: seq<seq<byte>>)
    requires key.N > 0
  {
    Check(key, u, Product(Powers(q, hashes, key.N)), mu, sigma)
  }

  /** A call can answer, panic in the calling goroutine (an empty challenge has no QSlice[0]),
      or bring the process down (a goroutine indexes past the hashes). */
  datatype Outcome = Answer(accepted: bool) | Panicked | ProcessCrashed

  /** The scheduler's picks are arbitrary; the outcome does not depend on them. */
  method VerifyProof(key: PublicKey, u: seq<byte>, q: seq<QElement>, mu: seq<byte>, sigma: seq<byte>,
                     hashes: seq<seq<byte>>) returns (r: Outcome)
    requires key.N > 0
    ensures r == if |q| > |hashes| then ProcessCrashed
                 else if q == [] then Panicked
                 else Answer(Verdict(key, u, q, mu, sigma, hashes))
  {
    var job := Job(|q|, Powers(q, hashes, key.N));
    var s := Init();
    while !s.joined && !s.crashed
      invariant Inv(job, s)
      decreases !s.crashed, StepsLeft(job, s)
    {
      ghost var possible := NoDeadlock(job, s);
      var a :| Enabled(job, s, a);
      InvStep(job, s, a);
      StepCosts(job, s, a);
      StepsLeftNat(job, Apply(job, s, a));
      s := Apply(job, s, a);
    }
    if s.crashed {
      return ProcessCrashed;
    }
    NoneActive(s.phases);
    LastFinished(job, s);
    AllCollected(s.phases, job.powers);
    assert job.powers[..job.n] == job.powers;
    if q == [] {
      return Panicked;
    }
    return Answer(Check(key, u, s.multiply, mu, sigma));
  }

  lemma StepsLeftNat(job: Job, s: State)
    requires Inv(job, s)
    ensures StepsLeft(job, s) >= 0
  {
  }

  // ----- the prover

  /** The signature of one block: (H(m) * u^m)^d. */
  function BlockSignature(key: PublicKey, d: nat, u: nat, hash: seq<byte> -> seq<byte>, block: seq<byte>): nat
    requires key.N > 0
  {
    SignedBlock(key, d, u, SetBytes(hash(block)), SetBytes(block))
  }

  function SignedBlock(key: PublicKey, d: nat, u: nat, h: nat, m: nat): nat
    requires key.N > 0
  {
    Exp(h * Exp(u, m, key.N), d, key.N)
  }

  predicate InRange(q: seq<QElement>, n: nat) {
    forall i :: 0 <= i < |q| ==> 0 <= q[i].I < n
  }

  /** mu is the sum of v_i * m_i over the challenge. */
  function Mu(q: seq<QElement>, blocks: seq<seq<byte>>): nat
    requires InRange(q, |blocks|)
  {
    if q == [] then 0
    else
      var last := q[|q| - 1];
      Mu(q[..|q| - 1], blocks) + SetBytes(blocks[last.I]) * SetBytes(last.V)
  }

  /** sigma is the product of sigma_i^v_i over the challenge, reduced at every step. */
  function Sigma(key: PublicKey, q: seq<QElement>, phi: seq<nat>): nat
    requires key.N > 0 && InRange(q, |phi|)
  {
    if q == [] then 1 % key.N
    else
      var last := q[|q| - 1];
      (Sigma(key, q[..|q| - 1], phi) * Exp(phi[last.I], SetBytes(last.V), key.N)) % key.N
  }

  function HashesOf(q: seq<QElement>, blocks: seq<seq<byte>>, hash: seq<byte> -> seq<byte>): (hs: seq<seq<byte>>)
    requires InRange(q, |blocks|)
    ensures |hs| == |q|
  {
    seq(|q|, i requires 0 <= i < |q| => hash(blocks[q[i].I]))
  }

  // ----- what the verifier accepts

  /** The product of H(m_i)^v_i over the integers. */
  function HashProduct(q: seq<QElement>, hashes: seq<seq<byte>>): nat
    requires |q| <= |hashes|
  {
    if q == [] then 1
    else
      var k := |q| - 1;
      HashProduct(q[..k], hashes) * Pow(SetBytes(hashes[k]), SetBytes(q[k].V))
  }

  lemma {:induction false} PowersProduct(q: seq<QElement>, hashes: seq<seq<byte>>, n: nat)
    requires n > 0 && |q| <= |hashes|
    ensures Cong(Product(Powers(q, hashes, n)), HashProduct(q, hashes), n)
    decreases |q|
  {
    if q != [] {
      var k := |q| - 1;
      PowersProduct(q[..k], hashes, n);
      var ps := Powers(q, hashes, n);
      assert ps[..k] == Powers(q[..k], hashes, n);
      CongMod(Pow(SetBytes(hashes[k]), SetBytes(q[k].V)), n);
      CongMul(Product(ps[..k]), HashProduct(q[..k], hashes),
              ps[k], Pow(SetBytes(hashes[k]), SetBytes(q[k].V)), n);
    }
  }

  /** The product of a sequential loop that reduces at every step. */
  function Reduced(powers: seq<nat>, n: nat): nat
    requires n > 0
  {
    if powers == [] then 1 % n else (Reduced(powers[..|powers| - 1], n) * powers[|powers| - 1]) % n
  }

  lemma {:induction false} ReducedProduct(powers: seq<nat>, n: nat)
    requires n > 0
    ensures Cong(Reduced(powers, n), Product(powers), n)
    decreases |powers|
  {
    if powers != [] {
      var k := |powers| - 1;
      ReducedProduct(powers[..k], n);
      CongMulOne(Reduced(powers[..k], n), Product(powers[..k]), powers[k], n);
      CongMod(Reduced(powers[..k], n) * powers[k], n);
    }
  }

  /** The unreduced product that the goroutines leave gives the same verdict. */
  lemma SequentialVerdict(key: PublicKey, u: seq<byte>, q: seq<QElement>, mu: seq<byte>, sigma: seq<byte>,
                          hashes: seq<seq<byte>>)
    requires key.N > 0
    ensures Verdict(key, u, q, mu, sigma, hashes) <==>
            Check(key, u, Reduced(Powers(q, hashes, key.N), key.N), mu, sigma)
  {
    var ps := Powers(q, hashes, key.N);
    ReducedProduct(ps, key.N);
    CongMulOne(Reduced(ps, key.N), Product(ps), Exp(SetBytes(u), SetBytes(mu), key.N), key.N);
  }

  lemma CheckMeans(key: PublicKey, u: seq<byte>, q: seq<QElement>, mu: seq<byte>, sigma: seq<byte>,
                   hashes: seq<seq<byte>>)
    requires key.N > 0 && |q| <= |hashes|
    ensures Verdict(key, u, q, mu, sigma, hashes) <==>
            Cong(HashProduct(q, hashes) * Pow(SetBytes(u), SetBytes(mu)), Pow(SetBytes(sigma), key.E), key.N)
  {
    PowersProduct(q, hashes, key.N);
    var m := Pow(SetBytes(u), SetBytes(mu));
    CongMod(m, key.N);
    CongMul(Product(Powers(q, hashes, key.N)), HashProduct(q, hashes), m % key.N, m, key.N);
    CongMod(Pow(SetBytes(sigma), key.E), key.N);
  }

  /** e-th powers are a permutation of the residues, with d-th powers as inverse. */
  lemma RootsAreUnique(key: PublicKey, d: nat, x: nat, s: nat)
    requires IsKey(key, d)
    ensures Cong(x, Pow(s, key.E), key.N) <==> Cong(s, Pow(x, d), key.N)
  {
    if Cong(x, Pow(s, key.E), key.N) {
      CongPow(x, Pow(s, key.E), d, key.N);
      PowsCommute(s, key.E, d);
      assert Decrypts(key, d, s);
    }
    if Cong(s, Pow(x, d), key.N) {
      CongPow(s, Pow(x, d), key.E, key.N);
      assert Decrypts(key, d, x);
    }
  }

  /** Exactly one signature (modulo N) is accepted for a given challenge, hashes and mu: the
      one the holder of the private key would make of the left-hand side x. */
  lemma AcceptedExactly(key: PublicKey, d: nat, u: seq<byte>, q: seq<QElement>, mu: seq<byte>,
                        sigma: seq<byte>, hashes: seq<seq<byte>>, x: nat)
    requires IsKey(key, d) && |q| <= |hashes|
    requires x == HashProduct(q, hashes) * Pow(SetBytes(u), SetBytes(mu))
    ensures Verdict(key, u, q, mu, sigma, hashes) <==> Cong(SetBytes(sigma), Pow(x, d), key.N)
  {
    CheckMeans(key, u, q, mu, sigma, hashes);
    RootsAreUnique(key, d, x, SetBytes(sigma));
  }

  lemma {:induction false} HonestAggregate(key: PublicKey, d: nat, u: nat, hash: seq<byte> -> seq<byte>,
                                           blocks: seq<seq<byte>>, phi: seq<nat>, q: seq<QElement>)
    requires key.N > 0 && |phi| == |blocks| && InRange(q, |blocks|)
    requires forall i :: 0 <= i < |blocks| ==> phi[i] == BlockSignature(key, d, u, hash, blocks[i])
    ensures Cong(Sigma(key, q, phi),
                 Pow(HashProduct(q, HashesOf(q, blocks, hash)) * Pow(u, Mu(q, blocks)), d), key.N)
    decreases |q|
  {
    if q == [] {
      assert Pow(u, 0) == 1;
      PowOfOne(d);
    } else {
      var k := |q| - 1;
      var front, last := q[..k], q[k];
      HonestAggregate(key, d, u, hash, blocks, phi, front);
      var hs := HashesOf(q, blocks, hash);
      HashProductPrefix(front, HashesOf(front, blocks, hash), hs);
      var h, m, v := SetBytes(hs[k]), SetBytes(blocks[last.I]), SetBytes(last.V);
      HonestFold(key, d, u, h, m, v, phi[last.I], Sigma(key, front, phi), HashProduct(front, hs), Mu(front, blocks),
                 Sigma(key, q, phi), HashProduct(q, hs), Mu(q, blocks));
    }
  }

  /** One more challenged block with signature s in all three aggregates: S, P and M become S', P' and M'. */
  lemma HonestFold(key: PublicKey, d: nat, u: nat, h: nat, m: nat, v: nat, s: nat,
                   S: nat, P: nat, M: nat, S': nat, P': nat, M': nat)
    requires key.N > 0 && s == SignedBlock(key, d, u, h, m) && Cong(S, Pow(P * Pow(u, M), d), key.N)
    requires S' == (S * Exp(s, v, key.N)) % key.N && P' == P * Pow(h, v) && M' == M + m * v
    ensures Cong(S', Pow(P' * Pow(u, M'), d), key.N)
  {
    var mv := SignedPower(key, d, u, h, m, v);
    HonestStep(key.N, d, u, S, P, M, Exp(s, v, key.N), Pow(h, v), mv, S', P', M');
  }

  lemma HonestStep(n: nat, d: nat, u: nat, S: nat, P: nat, M: nat, s: nat, h: nat, m: nat,
                   S': nat, P': nat, M': nat)
    requires n > 0 && Cong(S, Pow(P * Pow(u, M), d), n) && Cong(s, Pow(h * Pow(u, m), d), n)
    requires S' == (S * s) % n && P' == P * h && M' == M + m
    ensures Cong(S', Pow(P' * Pow(u, M'), d), n)
  {
    PowAdd(u, M, m);
    AggregateStep(n, d, S, P, Pow(u, M), s, h, Pow(u, m));
  }

  /** Multiplying two signed products gives the signed product of both. */
  lemma AggregateStep(n: nat, d: nat, S: nat, P: nat, U: nat, s: nat, h: nat, w: nat)
    requires n > 0 && Cong(S, Pow(P * U, d), n) && Cong(s, Pow(h * w, d), n)
    ensures Cong((S * s) % n, Pow((P * h) * (U * w), d), n)
  {
    CongMul(S, Pow(P * U, d), s, Pow(h * w, d), n);
    CongMod(S * s, n);
    PowOfProduct(P * U, h * w, d);
    MulSwap(P, U, h, w);
  }

  lemma {:induction false} HashProductPrefix(q: seq<QElement>, some: seq<seq<byte>>, more: seq<seq<byte>>)
    requires |q| <= |some| <= |more|
    requires forall i :: 0 <= i < |some| ==> some[i] == more[i]
    ensures HashProduct(q, some) == HashProduct(q, more)
    decreases |q|
  {
    if q != [] {
      HashProductPrefix(q[..|q| - 1], some, more);
    }
  }

  /** One challenged block: its signature to the power v is the d-th power of H^v * u^(m*v). */
  lemma SignedPower(key: PublicKey, d: nat, u: nat, h: nat, m: nat, v: nat) returns (mv: nat)
    requires key.N > 0
    ensures mv == m * v
    ensures Cong(Exp(SignedBlock(key, d, u, h, m), v, key.N), Pow(Pow(h, v) * Pow(u, mv), d), key.N)
  {
    var n, U := key.N, Pow(u, m);
    CongMod(U, n);
    CongMul(h, h, U % n, U, n);
    CongPow(h * (U % n), h * U, d, n);
    CongMod(Pow(h * (U % n), d), n);
    CongPow(Pow(h * (U % n), d) % n, Pow(h * U, d), v, n);
    CongMod(Pow(Pow(h * (U % n), d) % n, v), n);
    PowsCommute(h * U, d, v);
    PowOfProduct(h, U, v);
    PowOfPow(u, m, v);
    mv := m * v;
  }

  /** Completeness: an honest answer to any non-empty in-range challenge (repeats allowed)
      is accepted, for every key and every list of blocks. */
  lemma Completeness(key: PublicKey, d: nat, u: seq<byte>, hash: seq<byte> -> seq<byte>,
                     blocks: seq<seq<byte>>, phi: seq<nat>, q: seq<QElement>)
    requires IsKey(key, d) && |phi| == |blocks| && InRange(q, |blocks|)
    requires forall i :: 0 <= i < |blocks| ==> phi[i] == BlockSignature(key, d, SetBytes(u), hash, blocks[i])
    ensures Verdict(key, u, q, Bytes(Mu(q, blocks)), Bytes(Sigma(key, q, phi)), HashesOf(q, blocks, hash))
  {
    var hs := HashesOf(q, blocks, hash);
    HonestAggregate(key, d, SetBytes(u), hash, blocks, phi, q);
    SetBytesOfBytes(Mu(q, blocks));
    SetBytesOfBytes(Sigma(key, q, phi));
    AcceptedExactly(key, d, u, q, Bytes(Mu(q, blocks)), Bytes(Sigma(key, q, phi)), hs,
                    HashProduct(q, hs) * Pow(SetBytes(u), Mu(q, blocks)));
  }

  /** An honest signature shown with another mu is accepted exactly when both sums give
      the same left-hand side, so an altered mu passes only if u^mu' is as good as u^mu. */
  lemma AlteredMu(key: PublicKey, d: nat, u: seq<byte>, hash: seq<byte> -> seq<byte>,
                  blocks: seq<seq<byte>>, phi: seq<nat>, q: seq<QElement>, mu': seq<byte>)
    requires IsKey(key, d) && |phi| == |blocks| && InRange(q, |blocks|)
    requires forall i :: 0 <= i < |blocks| ==> phi[i] == BlockSignature(key, d, SetBytes(u), hash, blocks[i])
    ensures var hs := HashesOf(q, blocks, hash);
            Verdict(key, u, q, mu', Bytes(Sigma(key, q, phi)), hs) <==>
            Cong(HashProduct(q, hs) * Pow(SetBytes(u), SetBytes(mu')),
                 HashProduct(q, hs) * Pow(SetBytes(u), Mu(q, blocks)), key.N)
  {
    var hs, sigma := HashesOf(q, blocks, hash), Bytes(Sigma(key, q, phi));
    Completeness(key, d, u, hash, blocks, phi, q);
    SetBytesOfBytes(Mu(q, blocks));
    CheckMeans(key, u, q, Bytes(Mu(q, blocks)), sigma, hs);
    CheckMeans(key, u, q, mu', sigma, hs);
  }
}
