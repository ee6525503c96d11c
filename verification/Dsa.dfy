/** dsa.cpp: key generation, signing and verification. */
module Dsa {
  import opened ModularArithmetic
  import opened Primes
  import opened RandomSource
  import opened CryptoUtils
  import opened Generators
  import opened Wrappers

  datatype Signature = Signature(r: int, s: int)

  datatype SignOutcome = Signed(signature: Signature, rest: seq<Draw>) | SignOutOfDraws

  datatype CreateError = InvalidParameters | OutOfRandomness

  /** w is the inverse of s modulo q. */
  ghost predicate IsInverse(s: int, w: int, q: nat)
    requires q > 1
  {
    0 < w < q && (s * w) % q == 1
  }

  /** Signature verification as section 4.7 of FIPS 186-4 states it, with the hash taken as it is. */
  ghost predicate StandardAccepts(p: nat, q: nat, g: nat, hash: nat, sig: Signature, y: nat)
    requires p > 1 && q > 1
  {
    && 0 < sig.r < q
    && 0 < sig.s < q
    && exists w: nat :: AcceptedWith(p, q, g, hash, sig, y, w)
  }

  ghost predicate AcceptedWith(p: nat, q: nat, g: nat, hash: nat, sig: Signature, y: nat, w: nat)
    requires p > 1 && q > 1 && sig.r > 0
  {
    IsInverse(sig.s, w, q) && (Pow(g, (hash * w) % q) * Pow(y, (sig.r * w) % q)) % p % q == sig.r
  }

  /** What section 4.6 of FIPS 186-4 computes from private key x and secret k. */
  ghost predicate MadeWith(p: nat, q: nat, g: nat, x: nat, hash: nat, k: nat, sig: Signature)
    requires p > 1 && q > 1
  {
    && sig.r == Pow(g, k) % p % q && 0 < sig.r < q
    && 0 < sig.s < q && (sig.s * k) % q == (hash + x * sig.r) % q
  }

  /** A signature in the sense of that section: the secret is positive and below q. */
  ghost predicate StandardSignature(p: nat, q: nat, g: nat, x: nat, hash: nat, k: nat, sig: Signature)
    requires p > 1 && q > 1
  {
    0 < k < q && MadeWith(p, q, g, x, hash, k, sig)
  }

  ghost predicate HasSecret(p: nat, q: nat, g: nat, x: nat, hash: nat, sig: Signature)
    requires p > 1 && q > 1
  {
    exists k: nat :: StandardSignature(p, q, g, x, hash, k, sig)
  }

  // ----- what the code computes, for any modulus it was given

  /** The inverse the code uses: the power that inverts modulo a prime. */
  function CodeInverseOf(q: nat, s: nat): int
    requires q > 1
  {
    Pow(s, q - 2) % q
  }

  function FirstHalf(p: nat, q: nat, g: nat, k: nat): (r: nat)
    requires p > 1 && q > 1
  {
    Pow(g, k) % p % q
  }

  /** The pair the code makes of a secret. */
  function CodePair(p: nat, q: nat, g: nat, x: nat, hash: nat, k: nat): Signature
    requires p > 1 && q > 1
  {
    var r := FirstHalf(p, q, g, k);
    Signature(r, (CodeInverseOf(q, k) * (hash + x * r)) % q)
  }

  /** The pair is returned unless one half is zero. */
  predicate Usable(p: nat, q: nat, g: nat, x: nat, hash: nat, k: nat)
    requires p > 1 && q > 1
  {
    CodePair(p, q, g, x, hash, k).r != 0 && CodePair(p, q, g, x, hash, k).s != 0
  }

  /** The first usable secret among those the draws yield. */
  ghost function FirstUsable(p: nat, q: nat, g: nat, x: nat, hash: nat, tape: seq<Draw>): Outcome
    requires p > 1 && q > 1
    decreases |tape|
  {
    match Sample(1, q - 1, tape)
    case Drawn(k, rest) =>
      SampleRange(1, q - 1, tape);
      if Usable(p, q, g, x, hash, k) then Drawn(k, rest) else FirstUsable(p, q, g, x, hash, rest)
    case _ => Exhausted
  }

  ghost predicate CodeAccepts(p: nat, q: nat, g: nat, hash: nat, sig: Signature, y: nat)
    requires p > 1 && q > 1
  {
    && 0 < sig.r < q && 0 < sig.s < q
    && var w := CodeInverseOf(q, sig.s);
       (Pow(g, (hash * w) % q) * Pow(y, (sig.r * w) % q)) % p % q == sig.r
  }

  // ----- the inverse the code computes

  lemma CodeInverse(q: nat, s: nat)
    requires IsPrime(q) && s % q != 0
    ensures IsInverse(s, Pow(s, q - 2) % q, q)
  {
    FermatInverse(q, s);
    ReducedProduct(s, Pow(s, q - 2), q);
    var w := Pow(s, q - 2) % q;
    if w == 0 {
      assert s * w == 0;
      RemainderSmall(0, q);
    }
  }

  lemma InverseUnique(q: nat, s: int, w: int, v: int)
    requires IsPrime(q) && IsInverse(s, w, q) && IsInverse(s, v, q)
    ensures w == v
  {
    if s % q == 0 {
      ReducedProduct(s, w, q);
      RemainderSmall(0, q);
    }
    Cancel(q, s, w, v);
    RemainderSmall(w, q);
    RemainderSmall(v, q);
  }

  // ----- why verification undoes signing

  /** The two exponents of the check recombine: (h*w mod q) + x*(r*w mod q) = w*(h + x*r) modulo q. */
  lemma ExponentsRecombine(q: nat, h: nat, x: nat, r: nat, w: nat)
    requires q > 1
    ensures Congruent((h * w) % q + x * ((r * w) % q), w * (h + x * r), q)
  {
    RemainderCongruent(h * w, q);
    RemainderCongruent(r * w, q);
    ProductCongruent(x, x, (r * w) % q, r * w, q);
    SumCongruent((h * w) % q, h * w, x * ((r * w) % q), x * (r * w), q);
    Associate(x, r, w);
    assert w * (h + x * r) == h * w + (x * r) * w;
  }

  /** The value the check computes is g to the exponent w*(h + x*r), by the order of g. */
  lemma CheckedValue(p: nat, q: nat, g: nat, x: nat, h: nat, r: nat, w: nat, k: nat)
    requires DsaGroup(p, q, g)
    requires Congruent(w * (h + x * r), k, q)
    ensures (Pow(g, (h * w) % q) * Pow(Pow(g, x) % p, (r * w) % q)) % p == Pow(g, k) % p
  {
    var u1, u2 := (h * w) % q, (r * w) % q;
    PowReduced(Pow(g, x), u2, p);
    PowOfPow(g, x, u2);
    ProductCongruent(Pow(g, u1), Pow(g, u1), Pow(Pow(g, x) % p, u2), Pow(g, x * u2), p);
    PowAdd(g, u1, x * u2);
    ExponentsRecombine(q, h, x, r, w);
    DsaGroupOrder(p, q, g, u1 + x * u2, k);
  }

  /** w*(h + x*r) is the secret k exactly when s*k = h + x*r. */
  lemma SecretFromInverse(q: nat, s: nat, w: nat, k: nat, t: nat)
    requires IsPrime(q) && IsInverse(s, w, q)
    ensures Congruent(w * t, k, q) <==> Congruent(s * k, t, q)
  {
    RemainderSmall(1, q);
    assert w * s == s * w;
    if Congruent(w * t, k, q) {
      ProductCongruent(s, s, w * t, k, q);
      Associate(s, w, t);
      ProductCongruent(s * w, 1, t, t, q);
    }
    if Congruent(s * k, t, q) {
      ProductCongruent(w, w, s * k, t, q);
      Associate(w, s, k);
      ProductCongruent(w * s, 1, k, k, q);
    }
  }

  /** For the secret k that s stands for, the check compares r with what signing with k computes. */
  lemma CheckForSecret(p: nat, q: nat, g: nat, x: nat, hash: nat, k: nat, sig: Signature, w: nat)
    requires DsaGroup(p, q, g) && sig.r > 0 && IsInverse(sig.s, w, q) && sig.s > 0
    requires Congruent(sig.s * k, hash + x * sig.r, q)
    ensures AcceptedWith(p, q, g, hash, sig, Pow(g, x) % p, w) <==> sig.r == Pow(g, k) % p % q
  {
    hide Pow, Congruent, IsInverse;
    SecretFromInverse(q, sig.s, w, k, hash + x * sig.r);
    CheckedValue(p, q, g, x, hash, sig.r, w, k);
  }

  lemma SignatureParts(p: nat, q: nat, g: nat, x: nat, hash: nat, k: nat, sig: Signature)
    requires p > 1 && q > 1
    ensures MadeWith(p, q, g, x, hash, k, sig) <==>
              && 0 < sig.r < q && 0 < sig.s < q && sig.r == Pow(g, k) % p % q
              && Congruent(sig.s * k, hash + x * sig.r, q)
  {
  }

  /** Completeness: whatever a secret makes of the private key is accepted under the matching public key. */
  lemma SignedIsAccepted(p: nat, q: nat, g: nat, x: nat, hash: nat, k: nat, sig: Signature)
    requires DsaGroup(p, q, g) && MadeWith(p, q, g, x, hash, k, sig)
    ensures StandardAccepts(p, q, g, hash, sig, Pow(g, x) % p)
  {
    SignatureParts(p, q, g, x, hash, k, sig);
    hide Pow, Congruent, IsInverse, MadeWith, AcceptedWith;
    RemainderSmall(sig.s, q);
    CodeInverse(q, sig.s);
    var w := Pow(sig.s, q - 2) % q;
    CheckForSecret(p, q, g, x, hash, k, sig, w);
  }

  /** Under the matching public key every accepted pair is made by a secret, which may be 0. */
  lemma AcceptedIsMade(p: nat, q: nat, g: nat, x: nat, hash: nat, sig: Signature) returns (k: nat)
    requires DsaGroup(p, q, g) && StandardAccepts(p, q, g, hash, sig, Pow(g, x) % p)
    ensures k < q && MadeWith(p, q, g, x, hash, k, sig)
  {
    var w: nat :| AcceptedWith(p, q, g, hash, sig, Pow(g, x) % p, w);
    var t := hash + x * sig.r;
    k := (w * t) % q;
    RemainderCongruent(w * t, q);
    SecretFromInverse(q, sig.s, w, k, t);
    hide Pow, Congruent, MadeWith;
    CheckForSecret(p, q, g, x, hash, k, sig, w);
    SignatureParts(p, q, g, x, hash, k, sig);
  }

  /** At most one secret below q makes a pair, and it is 0 exactly when the pair's s stands for 0. */
  lemma SecretUnique(p: nat, q: nat, g: nat, x: nat, hash: nat, sig: Signature, k: nat, l: nat)
    requires p > 1 && IsPrime(q) && k < q && l < q
    requires MadeWith(p, q, g, x, hash, k, sig) && MadeWith(p, q, g, x, hash, l, sig)
    ensures k == l
    ensures k == 0 <==> (hash + x * sig.r) % q == 0
  {
    RemainderSmall(sig.s, q);
    Cancel(q, sig.s, k, l);
    RemainderSmall(k, q);
    RemainderSmall(l, q);
    if (sig.s * k) % q == 0 {
      Euclid(q, sig.s, k);
    }
    RemainderSmall(0, q);
  }

  /** The pairs that stand for the secret 0, which the standard does not allow and no draw yields. */
  lemma ZeroSecretExact(p: nat, q: nat, g: nat, x: nat, hash: nat, sig: Signature)
    requires p > 1 && q > 1
    ensures MadeWith(p, q, g, x, hash, 0, sig) <==> sig.r == 1 && 0 < sig.s < q && (hash + x) % q == 0
  {
    RemainderSmall(1, p);
    RemainderSmall(1, q);
    RemainderSmall(0, q);
  }

  /**
   * Under the matching public key exactly the standard's signatures are accepted, and beside them the pairs that
   * stand for the secret 0: those with r = 1 and any s, when the hash is -x modulo q.
   */
  lemma AcceptedExact(p: nat, q: nat, g: nat, x: nat, hash: nat, sig: Signature)
    requires DsaGroup(p, q, g)
    ensures StandardAccepts(p, q, g, hash, sig, Pow(g, x) % p) <==>
              HasSecret(p, q, g, x, hash, sig) || (sig.r == 1 && 0 < sig.s < q && (hash + x) % q == 0)
    ensures HasSecret(p, q, g, x, hash, sig) <==>
              StandardAccepts(p, q, g, hash, sig, Pow(g, x) % p) && (hash + x * sig.r) % q != 0
  {
    assert IsPrime(q) && p > 1;
    hide MadeWith, StandardAccepts, DsaGroup, Pow;
    ZeroSecretExact(p, q, g, x, hash, sig);
    if StandardAccepts(p, q, g, hash, sig, Pow(g, x) % p) {
      var k := AcceptedIsMade(p, q, g, x, hash, sig);
      SecretUnique(p, q, g, x, hash, sig, k, k);
      assert k > 0 ==> StandardSignature(p, q, g, x, hash, k, sig);
    }
    if k: nat :| StandardSignature(p, q, g, x, hash, k, sig) {
      SignedIsAccepted(p, q, g, x, hash, k, sig);
      SecretUnique(p, q, g, x, hash, sig, k, k);
    }
    if MadeWith(p, q, g, x, hash, 0, sig) {
      SignedIsAccepted(p, q, g, x, hash, 0, sig);
    }
  }

  lemma SmallGroup()
    ensures DsaGroup(7, 3, 2)
  {
    SmallPrimesListed();
    SmallPrimesArePrime(7);
    SmallPrimesArePrime(3);
    assert Pow(2, 3) == 8;
  }

  /** A pair that is accepted and no signature: p = 7, q = 3, g = 2, private key 2, hash 1. */
  lemma AcceptedWithoutSecret()
    ensures DsaGroup(7, 3, 2)
    ensures StandardAccepts(7, 3, 2, 1, Signature(1, 1), Pow(2, 2) % 7)
    ensures !HasSecret(7, 3, 2, 2, 1, Signature(1, 1))
  {
    SmallGroup();
    AcceptedExact(7, 3, 2, 2, 1, Signature(1, 1));
  }

  /** Hashes that agree modulo q have the same signatures: the check cannot tell them apart. */
  lemma HashesModuloQ(p: nat, q: nat, g: nat, hash: nat, other: nat, sig: Signature, y: nat)
    requires p > 1 && q > 1 && Congruent(hash, other, q)
    requires StandardAccepts(p, q, g, hash, sig, y)
    ensures StandardAccepts(p, q, g, other, sig, y)
  {
    var w: nat :| AcceptedWith(p, q, g, hash, sig, y, w);
    ProductCongruent(hash, other, w, w, q);
    assert AcceptedWith(p, q, g, other, sig, y, w);
  }

  // ----- what signing makes of a secret

  /** k^(q-2) * t is the s with s*k = t, for every secret k below q; it is zero exactly when t is. */
  lemma SecondHalf(q: nat, k: nat, t: nat)
    requires IsPrime(q) && 0 < k < q
    ensures Congruent((Pow(k, q - 2) % q * t) % q * k, t, q)
    ensures (Pow(k, q - 2) % q * t) % q == 0 <==> t % q == 0
  {
    RemainderSmall(k, q);
    RemainderSmall(1, q);
    FermatInverse(q, k);
    var i := Pow(k, q - 2);
    ReducedProduct(i, t, q);
    RemainderCongruent(i * t, q);
    ProductCongruent((i * t) % q, i * t, k, k, q);
    assert (i * t) * k == (k * i) * t;
    ProductCongruent(k * i, 1, t, t, q);
    PowNonZero(q, k, q - 2);
    if (i * t) % q == 0 {
      Euclid(q, i, t);
    }
    if t % q == 0 {
      ReducedProduct(i, t, q);
      RemainderSmall(0, q);
    }
  }

  /** The standard's signature for a secret is the code's pair, and there is one exactly when the pair is usable. */
  lemma CodePairExact(p: nat, q: nat, g: nat, x: nat, hash: nat, k: nat, sig: Signature)
    requires p > 1 && IsPrime(q) && 0 < k < q
    ensures StandardSignature(p, q, g, x, hash, k, sig) <==>
              Usable(p, q, g, x, hash, k) && sig == CodePair(p, q, g, x, hash, k)
  {
    var made := CodePair(p, q, g, x, hash, k);
    var t := hash + x * made.r;
    SecondHalf(q, k, t);
    hide Pow, IsPrime;
    SignatureParts(p, q, g, x, hash, k, sig);
    SignatureParts(p, q, g, x, hash, k, made);
    if StandardSignature(p, q, g, x, hash, k, sig) {
      RemainderSmall(k, q);
      assert k * sig.s == sig.s * k && k * made.s == made.s * k;
      Cancel(q, k, sig.s, made.s);
      RemainderSmall(sig.s, q);
      RemainderSmall(made.s, q);
    }
  }

  // ----- which secret is used

  /** These secrets are drawn one after the other, and this is what they leave; only the last one is usable. */
  ghost predicate DrawnUntilUsable(p: nat, q: nat, g: nat, x: nat, hash: nat, tape: seq<Draw>, refused: seq<int>,
                                   k: nat, rest: seq<Draw>)
    requires p > 1 && q > 1
  {
    && DrawnInTurn(1, q - 1, tape, refused + [k], rest)
    && (forall i :: 0 <= i < |refused| ==> refused[i] >= 0 && !Usable(p, q, g, x, hash, refused[i]))
    && Usable(p, q, g, x, hash, k)
  }

  lemma FirstDrawUsable(p: nat, q: nat, g: nat, x: nat, hash: nat, tape: seq<Draw>, k: int, left: seq<Draw>)
    requires p > 1 && q > 1 && Sample(1, q - 1, tape) == Drawn(k, left)
    ensures k >= 0 && |left| < |tape|
    ensures FirstUsable(p, q, g, x, hash, tape)
         == if Usable(p, q, g, x, hash, k) then Drawn(k, left) else FirstUsable(p, q, g, x, hash, left)
  {
    SampleRange(1, q - 1, tape);
    hide Usable, Sample;
  }

  lemma {:induction false} UsableFound(p: nat, q: nat, g: nat, x: nat, hash: nat, tape: seq<Draw>, refused: seq<int>,
                                       k: nat, rest: seq<Draw>)
    requires p > 1 && q > 1 && DrawnUntilUsable(p, q, g, x, hash, tape, refused, k, rest)
    ensures FirstUsable(p, q, g, x, hash, tape) == Drawn(k, rest)
    decreases |refused|
  {
    hide Usable, Sample, FirstUsable;
    if refused == [] {
      assert refused + [k] == [k];
      OneDrawn(1, q - 1, tape, k, rest);
      FirstDrawUsable(p, q, g, x, hash, tape, k, rest);
    } else {
      var first, later := Sample(1, q - 1, tape), refused[1..];
      assert (refused + [k])[1..] == later + [k];
      FirstDrawUsable(p, q, g, x, hash, tape, first.value, first.rest);
      UsableFound(p, q, g, x, hash, first.rest, later, k, rest);
    }
  }

  lemma {:induction false} RefusedBefore(p: nat, q: nat, g: nat, x: nat, hash: nat, tape: seq<Draw>)
    returns (refused: seq<int>)
    requires p > 1 && q > 1 && FirstUsable(p, q, g, x, hash, tape).Drawn?
    ensures var found := FirstUsable(p, q, g, x, hash, tape);
            found.value >= 0 && DrawnUntilUsable(p, q, g, x, hash, tape, refused, found.value, found.rest)
    decreases |tape|
  {
    var first := Sample(1, q - 1, tape);
    assert first.Drawn?;
    FirstDrawUsable(p, q, g, x, hash, tape, first.value, first.rest);
    hide Usable, Sample, FirstUsable, DrawnInTurn;
    var found := FirstUsable(p, q, g, x, hash, tape);
    if Usable(p, q, g, x, hash, first.value) {
      refused := [];
      OneDrawn(1, q - 1, tape, first.value, first.rest);
      assert [] + [first.value] == [first.value];
    } else {
      var later := RefusedBefore(p, q, g, x, hash, first.rest);
      refused := [first.value] + later;
      assert refused + [found.value] == [first.value] + (later + [found.value]);
      DrawnFirst(1, q - 1, tape, first.value, first.rest, later + [found.value], found.rest);
    }
  }

  /**
   * A signature is made with a secret, leaving this rest of the tape, exactly when that secret is the last of those
   * drawn one after the other, is usable, and none before it is.
   */
  lemma FirstUsableExact(p: nat, q: nat, g: nat, x: nat, hash: nat, tape: seq<Draw>, k: nat, rest: seq<Draw>)
    requires p > 1 && q > 1
    ensures FirstUsable(p, q, g, x, hash, tape) == Drawn(k, rest) <==>
              exists refused :: DrawnUntilUsable(p, q, g, x, hash, tape, refused, k, rest)
  {
    hide DrawnUntilUsable, FirstUsable;
    if FirstUsable(p, q, g, x, hash, tape) == Drawn(k, rest) {
      var refused := RefusedBefore(p, q, g, x, hash, tape);
    }
    if refused :| DrawnUntilUsable(p, q, g, x, hash, tape, refused, k, rest) {
      UsableFound(p, q, g, x, hash, tape, refused, k, rest);
    }
  }

  // ----- when signing can return

  /** The secrets that can be drawn. */
  ghost predicate Drawable(q: nat, k: nat) {
    2 <= k < q && k - 1 < Pow(WORD, 8)
  }

  ghost predicate CanSign(p: nat, q: nat, g: nat, x: nat, hash: nat)
    requires p > 1 && q > 1
  {
    exists tape :: FirstUsable(p, q, g, x, hash, tape).Drawn?
  }

  lemma {:induction false} FirstUsableDrawn(p: nat, q: nat, g: nat, x: nat, hash: nat, tape: seq<Draw>)
    requires p > 1 && q > 1 && FirstUsable(p, q, g, x, hash, tape).Drawn?
    ensures var k := FirstUsable(p, q, g, x, hash, tape).value;
            k >= 0 && Drawable(q, k) && Usable(p, q, g, x, hash, k)
    decreases |tape|
  {
    hide Usable, Pow;
    SampleRange(1, q - 1, tape);
    SampleBelowBound(1, q - 1, tape);
    if !Usable(p, q, g, x, hash, Sample(1, q - 1, tape).value) {
      FirstUsableDrawn(p, q, g, x, hash, Sample(1, q - 1, tape).rest);
    }
  }

  lemma FirstIsUsable(p: nat, q: nat, g: nat, x: nat, hash: nat, tape: seq<Draw>, k: nat)
    requires p > 1 && q > 1 && Usable(p, q, g, x, hash, k)
    requires Sample(1, q - 1, tape).Drawn? && Sample(1, q - 1, tape).value == k
    ensures FirstUsable(p, q, g, x, hash, tape).Drawn?
  {
    hide Usable, Pow, Sample;
  }

  /** Signing returns for some draws exactly when a usable secret can be drawn. */
  lemma CanSignExact(p: nat, q: nat, g: nat, x: nat, hash: nat)
    requires p > 1 && q > 1
    ensures CanSign(p, q, g, x, hash) <==> exists k: nat :: Drawable(q, k) && Usable(p, q, g, x, hash, k)
  {
    hide Usable, Pow, Sample, FirstUsable;
    if tape :| FirstUsable(p, q, g, x, hash, tape).Drawn? {
      FirstUsableDrawn(p, q, g, x, hash, tape);
    }
    if k: nat :| Drawable(q, k) && Usable(p, q, g, x, hash, k) {
      SampleExact(1, q - 1, k);
      var tape :| Sample(1, q - 1, tape).Drawn? && Sample(1, q - 1, tape).value == k;
      FirstIsUsable(p, q, g, x, hash, tape, k);
    }
  }

  lemma UsableExact(p: nat, q: nat, g: nat, x: nat, hash: nat, k: nat)
    requires p > 1 && IsPrime(q) && 0 < k < q
    ensures Usable(p, q, g, x, hash, k) <==>
              FirstHalf(p, q, g, k) != 0 && (hash + x * FirstHalf(p, q, g, k)) % q != 0
  {
    SecondHalf(q, k, hash + x * FirstHalf(p, q, g, k));
  }

  /** Secrets k and l that yield different first halves, neither zero. */
  ghost predicate TwoHalves(p: nat, q: nat, g: nat, k: nat, l: nat)
    requires p > 1 && q > 1
  {
    && Drawable(q, k) && Drawable(q, l)
    && FirstHalf(p, q, g, k) != 0 && FirstHalf(p, q, g, l) != 0
    && FirstHalf(p, q, g, k) != FirstHalf(p, q, g, l)
  }

  /** A hash cancels at most one first half. */
  lemma NotBothCancelled(q: nat, x: nat, hash: nat, r: nat, t: nat)
    requires IsPrime(q) && 0 < x < q && r < q && t < q
    requires (hash + x * r) % q == 0 && (hash + x * t) % q == 0
    ensures r == t
  {
    hide IsPrime;
    var h: int := hash;
    SumCongruent(h + x * r, h + x * t, -h, -h, q);
    RemainderSmall(x, q);
    Cancel(q, x, r, t);
    RemainderSmall(r, q);
    RemainderSmall(t, q);
  }

  lemma TwoHalvesSuffice(p: nat, q: nat, g: nat, x: nat, hash: nat, k: nat, l: nat)
    requires p > 1 && IsPrime(q) && 0 < x < q && TwoHalves(p, q, g, k, l)
    ensures CanSign(p, q, g, x, hash)
  {
    CanSignExact(p, q, g, x, hash);
    UsableExact(p, q, g, x, hash, k);
    UsableExact(p, q, g, x, hash, l);
    hide Usable, CanSign, Drawable, Pow, IsPrime;
    var r, t := FirstHalf(p, q, g, k), FirstHalf(p, q, g, l);
    if (hash + x * r) % q == 0 && (hash + x * t) % q == 0 {
      NotBothCancelled(q, x, hash, r, t);
      assert false;
    }
  }

  /** The hash that cancels a first half. */
  lemma CancelledHash(q: nat, x: nat, r: nat)
    requires q > 1
    ensures (q - 1) * (x * r) >= 0 && ((q - 1) * (x * r) + x * r) % q == 0
  {
    assert x * r >= 0 && (q - 1) * (x * r) >= 0;
    assert (q - 1) * (x * r) + x * r == q * (x * r);
    MultipleIsZero(x * r, q);
  }

  /**
   * Signing can return for every hash exactly when the secrets yield two different first halves besides zero. If
   * they yield one only, the hashes that cancel it are never signed: the loop does not end.
   */
  lemma SignsEveryHashExact(p: nat, q: nat, g: nat, x: nat)
    requires p > 1 && IsPrime(q) && 0 < x < q
    ensures (forall hash: nat :: CanSign(p, q, g, x, hash)) <==> exists k: nat, l: nat :: TwoHalves(p, q, g, k, l)
  {
    hide FirstHalf, CanSign, Usable, Pow;
    if k: nat, l: nat :| TwoHalves(p, q, g, k, l) {
      forall hash: nat ensures CanSign(p, q, g, x, hash) {
        TwoHalvesSuffice(p, q, g, x, hash, k, l);
      }
    }
    if forall hash: nat :: CanSign(p, q, g, x, hash) {
      CanSignExact(p, q, g, x, 0);
      assert CanSign(p, q, g, x, 0);
      var k: nat :| Drawable(q, k) && Usable(p, q, g, x, 0, k);
      UsableExact(p, q, g, x, 0, k);
      var r := FirstHalf(p, q, g, k);
      CancelledHash(q, x, r);
      var hash: nat := (q - 1) * (x * r);
      CanSignExact(p, q, g, x, hash);
      assert CanSign(p, q, g, x, hash);
      var l: nat :| Drawable(q, l) && Usable(p, q, g, x, hash, l);
      UsableExact(p, q, g, x, hash, l);
      assert TwoHalves(p, q, g, k, l);
    }
  }

  /** In the group with p = 7, q = 3 and g = 2 key and secret are always 2; hashes that are 1 modulo 3 are not signed. */
  lemma SmallGroupSigns(hash: nat)
    ensures DsaGroup(7, 3, 2)
    ensures CanSign(7, 3, 2, 2, hash) <==> hash % 3 != 1
  {
    SmallGroup();
    CanSignExact(7, 3, 2, 2, hash);
    assert Pow(2, 2) == 4;
    assert FirstHalf(7, 3, 2, 2) == 1;
    UsableExact(7, 3, 2, 2, hash, 2);
    hide Usable, CanSign;
    if hash % 3 != 1 {
      PowPositive(WORD, 8);
      assert Drawable(3, 2) by { assert Pow(WORD, 8) > 1; }
    }
  }

  // ----- the class

  class DSA {
    const p: nat
    const q: nat
    const g: nat
    var keys: KeyPair

    ghost predicate Valid()
      reads this
    {
      && DsaChecks(p, q, g)
      && 0 <= keys.privateKey
      && keys.publicKey == Pow(g, keys.privateKey) % p
    }

    constructor (p: nat, q: nat, g: nat, privateKey: nat, publicKey: nat)
      requires DsaChecks(p, q, g) && publicKey == Pow(g, privateKey) % p
      ensures Valid()
      ensures this.p == p && this.q == q && this.g == g && keys == KeyPair(privateKey, publicKey)
    {
      this.p, this.q, this.g := p, q, g;
      keys := KeyPair(privateKey, publicKey);
    }

    /** The throwing constructor of the source: parameters are checked, then a private key is drawn. */
    static method Create(p: int, q: int, g: int, tape: seq<Draw>) returns (r: Result<DSA, CreateError>, rest: seq<Draw>)
      ensures match DsaVerdict(p, q, g, tape)
              case OutOfDraws => r == Err(OutOfRandomness)
              case Answer(false, left) => r == Err(InvalidParameters) && rest == left
              case Answer(true, left) =>
                match Sample(1, q - 1, left)
                case Drawn(x, unused) =>
                  && r.Ok? && fresh(r.value) && r.value.Valid() && rest == unused
                  && r.value.p == p && r.value.q == q && r.value.g == g
                  && r.value.keys.privateKey == x && 2 <= x < q
                case _ => r == Err(OutOfRandomness)
    {
      var v := ValidateDsaParameters(p, q, g, tape);
      if v.OutOfDraws? {
        return Err(OutOfRandomness), [];
      }
      if !v.isPrime {
        return Err(InvalidParameters), v.rest;
      }
      SampleRange(1, q - 1, v.rest);
      var x := GenerateRandom(1, q - 1, v.rest);
      if !x.Drawn? {
        return Err(OutOfRandomness), [];
      }
      var y := ModularPow(g, x.value, p);
      var dsa := new DSA(p, q, g, x.value, y);
      return Ok(dsa), x.rest;
    }

    /**
     * Draws secrets until one is usable, and returns the pair it makes; nothing is returned only when no draw is
     * usable. In a group of the standard the pair is the standard's signature for that secret, and this object's
     * public key accepts it.
     */
    method Sign(hash: nat, tape: seq<Draw>) returns (out: SignOutcome)
      requires Valid()
      ensures match FirstUsable(p, q, g, keys.privateKey, hash, tape)
              case Drawn(k, rest) =>
                && 2 <= k < q && out == Signed(CodePair(p, q, g, keys.privateKey, hash, k), rest)
                && out.signature.r == Pow(g, k) % p % q
                && (DsaGroup(p, q, g) ==>
                      && StandardSignature(p, q, g, keys.privateKey, hash, k, out.signature)
                      && StandardAccepts(p, q, g, hash, out.signature, keys.publicKey))
              case _ => out.SignOutOfDraws?
    {
      var r, s := 0, 0;
      var left := tape;
      ghost var secret: nat := 0;
      ghost var x := keys.privateKey;
      ghost var goal := FirstUsable(p, q, g, x, hash, tape);
      while s == 0
        invariant s == 0 ==> FirstUsable(p, q, g, x, hash, left) == goal
        invariant s != 0 ==> 2 <= secret < q && goal == Drawn(secret, left)
        invariant s != 0 ==> Signature(r, s) == CodePair(p, q, g, x, hash, secret) && r != 0
        decreases |left|
      {
        SampleRange(1, q - 1, left);
        var k := GenerateRandom(1, q - 1, left);
        if !k.Drawn? {
          return SignOutOfDraws;
        }
        left := k.rest;
        secret := k.value;
        var gk := ModularPow(g, k.value, p);
        r := gk % q;
        if r == 0 {
          continue;
        }
        var kInverse := ModularPow(k.value, q - 2, q);
        s := (kInverse * (hash + keys.privateKey * r)) % q;
      }
      if DsaGroup(p, q, g) {
        CodePairExact(p, q, g, x, hash, secret, Signature(r, s));
        SignedIsAccepted(p, q, g, x, hash, secret, Signature(r, s));
      }
      return Signed(Signature(r, s), left);
    }

    method Verify(hash: nat, sig: Signature, signerPublicKey: nat) returns (accepted: bool)
      requires Valid()
      ensures accepted <==> CodeAccepts(p, q, g, hash, sig, signerPublicKey)
      ensures DsaGroup(p, q, g) ==> (accepted <==> StandardAccepts(p, q, g, hash, sig, signerPublicKey))
    {
      if sig.r <= 0 || sig.r >= q || sig.s <= 0 || sig.s >= q {
        return false;
      }
      var w := ModularPow(sig.s, q - 2, q);
      var u1 := (hash * w) % q;
      var u2 := (sig.r * w) % q;
      var a := ModularPow(g, u1, p);
      var b := ModularPow(signerPublicKey, u2, p);
      var v := (a * b) % p % q;
      accepted := v == sig.r;
      ReducedProduct(Pow(g, u1), Pow(signerPublicKey, u2), p);
      if DsaGroup(p, q, g) {
        RemainderSmall(sig.s, q);
        CodeInverse(q, sig.s);
        assert accepted ==> AcceptedWith(p, q, g, hash, sig, signerPublicKey, w);
        if u: nat :| AcceptedWith(p, q, g, hash, sig, signerPublicKey, u) {
          InverseUnique(q, sig.s, u, w);
        }
      }
    }

    method GetPublicKey() returns (y: int)
      requires Valid()
      ensures y == keys.publicKey
    {
      y := keys.publicKey;
    }
  }
}
