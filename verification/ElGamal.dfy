/** el_gamal_encryption.cpp: key generation, encryption and decryption. */
module ElGamal {
  import opened ModularArithmetic
  import opened Orders
  import opened Primes
  import opened RandomSource
  import opened CryptoUtils
  import opened Generators
  import opened Wrappers

  datatype Ciphertext = Ciphertext(c1: nat, c2: nat)

  datatype CreateError = InvalidParameters(reason: ElGamalError) | OutOfRandomness

  datatype EncryptOutcome = Encrypted(ciphertext: Ciphertext, rest: seq<Draw>) | EncryptOutOfDraws

  /** c is the encryption of message for public key y under secret exponent k. */
  ghost predicate IsEncryption(p: nat, g: nat, y: nat, k: nat, message: nat, c: Ciphertext)
    requires p > 0
  {
    c.c1 == Pow(g, k) % p && c.c2 == (message * Pow(y, k)) % p
  }

  /**
   * For the public key of x, a pair is the encryption of the message under k exactly when its first half is g^k and
   * its second half the message times the x-th power of the first.
   */
  lemma EncryptionExact(p: nat, g: nat, x: nat, k: nat, message: nat, c: Ciphertext)
    requires p > 0
    ensures IsEncryption(p, g, Pow(g, x) % p, k, message, c) <==>
              c.c1 == Pow(g, k) % p && c.c2 == (message * Pow(c.c1, x)) % p
  {
    if c.c1 == Pow(g, k) % p {
      SharedSecret(p, g, x, k);
      RemainderCongruent(message, p);
      ProductCongruent(message, message, Pow(Pow(g, x) % p, k), Pow(c.c1, x), p);
    }
  }

  /** Sender and receiver compute the same mask. */
  lemma SharedSecret(p: nat, g: nat, x: nat, k: nat)
    requires p > 0
    ensures Pow(g, x) % p >= 0 && Congruent(Pow(Pow(g, x) % p, k), Pow(Pow(g, k) % p, x), p)
  {
    PowReduced(Pow(g, x), k, p);
    PowReduced(Pow(g, k), x, p);
    PowOfPow(g, x, k);
    PowOfPow(g, k, x);
    assert x * k == k * x;
  }

  /** Under a primitive root, different secrets give different first halves. */
  lemma FirstHalvesDiffer(p: nat, g: nat, k: nat, l: nat)
    requires p > 1 && IsPrimitiveRoot(g, p) && 1 <= k < p && 1 <= l < p
    ensures Pow(g, k) % p == Pow(g, l) % p <==> k == l
  {
    var s := Powers(g, p, p - 1);
    assert s[k - 1] == Pow(g, k) % p && s[l - 1] == Pow(g, l) % p;
  }

  /** Every remainder but 0 is a power of a primitive root. */
  lemma PowerFound(p: nat, y: nat, target: nat) returns (k: nat)
    requires p > 1 && IsPrimitiveRoot(y, p) && 1 <= target < p
    ensures 1 <= k < p && Pow(y, k) % p == target
  {
    hide IsPrime, Pow;
    var s := Powers(y, p, p - 1);
    assert target in s;
    var j :| 0 <= j < |s| && s[j] == target;
    k := j + 1;
  }

  /** The t with message * t = c2. */
  lemma MaskFor(p: nat, message: nat, c2: nat) returns (t: nat)
    requires IsPrime(p) && message % p != 0 && 1 <= c2 < p
    ensures 1 <= t < p && (message * t) % p == c2
  {
    FermatInverse(p, message);
    PowNonZero(p, message, p - 2);
    RemainderSmall(c2, p);
    RemainderSmall(1, p);
    var i := Pow(message, p - 2);
    hide Pow;
    t := (c2 * i) % p;
    if t == 0 {
      Euclid(p, c2, i);
    }
    hide IsPrime;
    ReducedProduct(message, c2 * i, p);
    assert message * (c2 * i) == c2 * (message * i);
    ProductCongruent(c2, c2, message * i, 1, p);
  }

  /**
   * Under a primitive root as public key, a message that is not 0 modulo p has every second half but 0, each for one
   * secret.
   */
  lemma SecondHalvesCover(p: nat, y: nat, message: nat, c2: nat) returns (k: nat)
    requires IsPrime(p) && IsPrimitiveRoot(y, p) && message % p != 0 && 1 <= c2 < p
    ensures 1 <= k < p && (message * Pow(y, k)) % p == c2
    ensures forall l: nat :: 1 <= l < p && (message * Pow(y, l)) % p == c2 ==> l == k
  {
    hide IsPrimitiveRoot, Pow, IsPrime;
    var t := MaskFor(p, message, c2);
    k := PowerFound(p, y, t);
    ReducedProduct(message, Pow(y, k), p);
    forall l: nat | 1 <= l < p && (message * Pow(y, l)) % p == c2 ensures l == k {
      Cancel(p, message, Pow(y, l), Pow(y, k));
      FirstHalvesDiffer(p, y, l, k);
    }
  }

  /** m is the reduced message that private key x takes out of c: multiplied by c1^x it gives c2 back. */
  ghost predicate Opens(p: nat, x: nat, c: Ciphertext, m: int)
    requires p > 0
  {
    0 <= m < p && Congruent(m * Pow(c.c1, x), c.c2, p)
  }

  lemma OpensUnique(p: nat, x: nat, c: Ciphertext, m: int, n: int)
    requires IsPrime(p) && c.c1 % p != 0 && Opens(p, x, c, m) && Opens(p, x, c, n)
    ensures m == n
  {
    PowNonZero(p, c.c1, x);
    var s := Pow(c.c1, x);
    assert s * m == m * s && s * n == n * s;
    Cancel(p, s, m, n);
    RemainderSmall(m, p);
    RemainderSmall(n, p);
  }

  lemma MaskedMessage(p: nat, g: nat, x: nat, k: nat, message: nat, c: Ciphertext)
    requires p > 0 && IsEncryption(p, g, Pow(g, x) % p, k, message, c)
    ensures Opens(p, x, c, message % p)
  {
    PowReduced(Pow(g, x), k, p);
    PowReduced(Pow(g, k), x, p);
    PowOfPow(g, x, k);
    PowOfPow(g, k, x);
    assert x * k == k * x;
    RemainderCongruent(message, p);
    ProductCongruent(message % p, message, Pow(c.c1, x), Pow(Pow(g, x) % p, k), p);
    RemainderCongruent(message * Pow(Pow(g, x) % p, k), p);
  }

  /**
   * Round trip: whatever opens an encryption made for public key g^x is the message modulo p, so the message itself
   * comes back exactly when it is below p.
   */
  lemma RoundTrip(p: nat, g: nat, x: nat, k: nat, message: nat, c: Ciphertext, m: int)
    requires IsPrime(p) && 2 <= g < p
    requires IsEncryption(p, g, Pow(g, x) % p, k, message, c) && Opens(p, x, c, m)
    ensures m == message % p
    ensures m == message <==> message < p
  {
    RemainderSmall(g, p);
    PowNonZero(p, g, k);
    RemainderCongruent(Pow(g, k), p);
    MaskedMessage(p, g, x, k, message, c);
    OpensUnique(p, x, c, m, message % p);
    if message < p {
      RemainderSmall(message, p);
    }
  }

  /** c2 * s^(p-2), with s = c1^x, opens c. */
  lemma FermatOpens(p: nat, x: nat, c: Ciphertext, s: nat)
    requires IsPrime(p) && c.c1 % p != 0 && s == Pow(c.c1, x) % p
    ensures Opens(p, x, c, (c.c2 * (Pow(s, p - 2) % p)) % p)
  {
    PowNonZero(p, c.c1, x);
    RemainderSmall(s, p);
    RemainderSmall(1, p);
    FermatInverse(p, s);
    var i := Pow(s, p - 2);
    ReducedProduct(c.c2, i, p);
    RemainderCongruent(c.c2 * i, p);
    RemainderCongruent(Pow(c.c1, x), p);
    ProductCongruent((c.c2 * i) % p, c.c2 * i, Pow(c.c1, x), s, p);
    assert (c.c2 * i) * s == c.c2 * (s * i);
    ProductCongruent(c.c2, c.c2, s * i, 1, p);
  }

  lemma AcceptedModulusIsLarge(p: int, g: int, tape: seq<Draw>)
    requires ElGamalVerdict(p, g, tape).Accepted?
    ensures p >= 5
  {
    if p == 3 {
      SquareIsPow2(2);
    }
    if p == 4 {
      assert 2 in SMALL_PRIMES by { SmallPrimesListed(); }
      SmallPrimesListed();
    }
  }

  class ElGamalEncryption {
    const p: nat
    const g: nat
    var keys: KeyPair

    ghost predicate Valid()
      reads this
    {
      && p >= 5 && 2 <= g < p
      && 0 <= keys.privateKey
      && keys.publicKey == Pow(g, keys.privateKey) % p
    }

    constructor (p: nat, g: nat, privateKey: nat, publicKey: nat)
      requires p >= 5 && 2 <= g < p && publicKey == Pow(g, privateKey) % p
      ensures Valid()
      ensures this.p == p && this.g == g && keys == KeyPair(privateKey, publicKey)
    {
      this.p, this.g := p, g;
      keys := KeyPair(privateKey, publicKey);
    }

    /** The throwing constructor of the source. */
    static method Create(p: int, g: int, tape: seq<Draw>)
      returns (r: Result<ElGamalEncryption, CreateError>, rest: seq<Draw>)
      ensures match ElGamalVerdict(p, g, tape)
              case CheckOutOfDraws => r == Err(OutOfRandomness)
              case Rejected(reason) => r == Err(InvalidParameters(reason))
              case Accepted(left) =>
                match Sample(2, p - 2, left)
                case Drawn(x, unused) =>
                  && r.Ok? && fresh(r.value) && r.value.Valid() && rest == unused
                  && r.value.p == p && r.value.g == g
                  && r.value.keys.privateKey == x && 4 <= x <= p - 2
                case _ => r == Err(OutOfRandomness)
    {
      var check := ValidateElGamalParameters(p, g, tape);
      if check.CheckOutOfDraws? {
        return Err(OutOfRandomness), [];
      }
      if check.Rejected? {
        return Err(InvalidParameters(check.error)), [];
      }
      AcceptedModulusIsLarge(p, g, tape);
      SampleRange(2, p - 2, check.rest);
      var x := GenerateRandom(2, p - 2, check.rest);
      if !x.Drawn? {
        return Err(OutOfRandomness), [];
      }
      var y := ModularPow(g, x.value, p);
      var system := new ElGamalEncryption(p, g, x.value, y);
      return Ok(system), x.rest;
    }

    method GetPublicKey() returns (y: int)
      requires Valid()
      ensures y == keys.publicKey
    {
      y := keys.publicKey;
    }

    method Encrypt(message: nat, recipientPublicKey: nat, tape: seq<Draw>) returns (out: EncryptOutcome)
      requires Valid()
      ensures match Sample(2, p - 2, tape)
              case Drawn(k, rest) =>
                && out.Encrypted? && out.rest == rest && 4 <= k <= p - 2
                && out.ciphertext.c1 == Pow(g, k) % p
                && out.ciphertext.c2 == (message * Pow(recipientPublicKey, k)) % p
              case _ => out.EncryptOutOfDraws?
    {
      SampleRange(2, p - 2, tape);
      var k := GenerateRandom(2, p - 2, tape);
      if !k.Drawn? {
        return EncryptOutOfDraws;
      }
      var c1 := ModularPow(g, k.value, p);
      var mask := ModularPow(recipientPublicKey, k.value, p);
      var c2 := (message * mask) % p;
      ReducedProduct(message, Pow(recipientPublicKey, k.value), p);
      return Encrypted(Ciphertext(c1, c2), k.rest);
    }

    /** On a prime modulus, decryption opens every ciphertext whose first half is not a multiple of p. */
    method Decrypt(c: Ciphertext) returns (m: nat)
      requires Valid()
      ensures m == (c.c2 * (Pow(Pow(c.c1, keys.privateKey) % p, p - 2) % p)) % p
      ensures IsPrime(p) && c.c1 % p != 0 ==> Opens(p, keys.privateKey, c, m)
      ensures IsPrime(p) && c.c1 % p == 0 && keys.privateKey > 0 ==> m == 0
    {
      var s := ModularPow(c.c1, keys.privateKey, p);
      var sInverse := ModularPow(s, p - 2, p);
      m := (c.c2 * sInverse) % p;
      if IsPrime(p) {
        if c.c1 % p != 0 {
          FermatOpens(p, keys.privateKey, c, s);
        } else if keys.privateKey > 0 {
          PowOfZero(p, c.c1, keys.privateKey);
          PowOfZero(p, s, p - 2);
        }
      }
    }
  }

  lemma PowOfZero(p: nat, a: int, e: nat)
    requires p > 0 && a % p == 0 && e > 0
    ensures Pow(a, e) % p == 0
  {
    ReducedProduct(a, Pow(a, e - 1), p);
    RemainderSmall(0, p);
  }
}
