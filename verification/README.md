# Verification of the messenger's cryptography and file transfer

This project models the parts of the messenger whose correctness is hardest to see by reading: the public-key
arithmetic, AES-256, SHA-256, and the path of a file from a sending client over the chat server and the file server to
a receiving client. Each algorithm is written in the form the C++ code has (loops as loops, objects as classes) and is
proved against a definition that does not mention the code; what the code is for is then proved about that definition.

`dafny verify dfyconfig.toml` checks everything.

## The parts

**Number theory** (`ModularArithmetic`, `Primes`, `Orders`). Everything the public-key code relies on, from remainders
up: Euclid's lemma, Fermat's little theorem, inverses as `x^(p-2)`, square roots of one, multiplicative order, primitive
roots, and Lagrange's bound on the roots of a polynomial. Nothing is taken as given.

**Public-key code** (`RandomSource`, `CryptoUtils`, `Spreads`, `Witnesses`, `Generators`, `ParameterChecks`, `Dsa`,
`ElGamal`). Integers are
unbounded, as `cpp_int` is. The random generator is a parameter: a finite tape of draws, each of eight 64-bit words; a
call that would need more draws than the tape holds is reported as such, which also covers calls that never return.
What is said of every outcome is said for all tapes, so for those the generator can produce; what is said to be
possible is possible for some tape, and the generator, seeded with 32 bits, produces only some of them. Exceptions are
results.

**AES-256** (`Gf256`, `AesTables`, `Aes256`, `Aes256Class`, `AesBytes`, `AesVectors`). Bytes are polynomials over GF(2); the multiplication loop is
proved to be multiplication modulo `x^8 + x^4 + x^3 + x + 1`, all 256 table entries are proved to be the ones FIPS 197
defines, the cipher and its inverse are proved to undo each other round by round, and the expanded key and the
ciphertext of the standard's examples are computed. The string layer pads to 128
**bytes**, as the code does: the constant is a number of bits used as a number of bytes.

**SHA-256** (`Sha256`, `Sha256Machine`, `Sha256Tails`, `Sha256Vectors`). The object's buffer, chaining state and length are tied to the
bytes fed to it; the digest is compared with the hash of FIPS 180-4 written independently of the code. Where the two
part, both are computed for concrete messages; the digest of the standard's first example is computed as text.

**File transfer** (`Chunking`, `FileServer`, `Protocol`, `RequestHandler`, `Client`, `Upload`, `UploadHistory`,
`UploadSender`, `Delivery`). The client, the chat server and the file server as classes, and uploads as a transition
system with lossy channels, timeouts, late acknowledgments, failing disks and lost connections. An upload starts with
whatever earlier uploads of other files left behind: a raised flag, acknowledgments under way, chunks still unserved,
files and bookkeeping on the server; `UploadHistory` follows any number of uploads on one connection. The server's steps
are `RequestHandler.Accept`, which the contract of its method is stated with; for the client, `UploadSender` proves that
a run sends and ends as the method does when acknowledgments arrive as they did in that run.

## What the proofs show about the code

- The primality test never rejects a prime. With at least one round, a number below 2^1024 passes for all draws exactly
  when it is prime. Fewer than a quarter of the bases `is_prime` draws from deceive it about an odd composite number,
  so of all sequences of bases for `k` rounds at most one in `4^k` does; below 1681 the answer is exact for every draw.
- On a prime `p`, `find_generator` succeeds exactly when `p > 3`; on a safe prime what it finds is a primitive root.
  `find_valid_generator` agrees with it exactly as far as its table reaches.
- DSA signing returns exactly the standard's signature for the first usable secret, and verification accepts every
  signature the standard allows. Beside them it accepts exactly the pairs with `r = 1` and any `s` for a hash that is the
  negative of the private key modulo `q`: they belong to the secret 0, which the standard excludes. Hashes are not
  reduced to the length of `q`, so hashes that agree modulo `q` share their signatures.
- Signing can return for every hash exactly when the secrets that can be drawn yield two different non-zero first
  halves. In a group where they yield only one, signing a hash that cancels it never ends: with `p = 7`, `q = 3`, `g = 2`
  those are the hashes that are 1 modulo 3.
- ElGamal decryption returns the message modulo `p`, so the message itself exactly when it is below `p`.
- `generate_random(min, max)` never returns a value below `2 * min`, nor one of `min + 2^512` or more. For ElGamal
  parameters with `p = 5`, and for DSA parameters with `q = 2`, it is called with bounds no value satisfies, so key
  generation does not return.
- The SHA-256 digest is the standard's for every message of length `r` modulo 64 exactly when `r` is at most 55. For
  longer tails the code compresses one block less than the standard; for each `r` from 56 to 63 the digest of `r` zero
  bytes is computed both ways and differs.
- When nothing is left behind by earlier uploads, a client that reports a completed upload has its file stored byte for
  byte, in every run. In general this depends on credits: acknowledgments not earned by this upload that are still to be
  had, because the flag is up, because a positive acknowledgment is under way, or because the server can still be made
  to answer an earlier chunk with success (acknowledgments are matched with chunks neither by name nor by number). For a
  non-empty file that the server takes whole, completion can be trusted in every run exactly when there is no credit;
  for one the server takes only in part, exactly when there are fewer credits than chunks it would not take. As long as
  all uploads on a connection complete, no credit ever arises and all files are stored; an upload that gives up can leave
  any of the three.
- From every start the server marks an upload completed exactly when all of the file is stored, none of its chunks was
  answered `upload_failed`, and its size is not a multiple of 512 (the second known bug of `to_do.md`). A file whose last
  chunk was stored while the response was lost is whole on the server and not marked. Only a marked upload is forwarded,
  and only if a transfer of that name is pending and its receiver is connected. Forwarding itself delivers files of
  every size.
- A maximum file size below 512 makes the size check wrap around: such a server takes every file whose last chunk alone
  is over the limit.
- A transfer leaves the list of pending ones as soon as its receiver was notified, also when writing the chunks to the
  receiver fails half way.
- A receiver acknowledges every chunk of an open file, also those it could not write.
- The collector of downloaded chunks ignores the response status, so the text of an error is delivered as the file.

## Model

| member | source | states |
|---|---|---|
| `Primes.FermatInverse` | crypto/src/dsa.cpp:32 | `x^(p-2)` is the inverse of `x` modulo a prime, which is how signing, verification and decryption invert |
| `RandomSource.GenerateRandom` | crypto/src/crypto_utils.cpp:99-115 | the rejection loop returns the first draw whose remainder modulo the range reaches the minimum, shifted by the minimum |
| `RandomSource.SampleExactly` | crypto/src/crypto_utils.cpp:99-115 | a value is returned, and a rest of the tape left, exactly when the first draw whose remainder modulo the range reaches the minimum gives that value and is the last one used |
| `RandomSource.MostSignificantFirst` | crypto/src/crypto_utils.cpp:108-110 | the first word drawn counts for the highest power of 2^64 |
| `RandomSource.SampleRange` | crypto/src/crypto_utils.cpp:106-114 | every value returned lies in [2 min, max] and used at least one draw |
| `RandomSource.SampleExact` | crypto/src/crypto_utils.cpp:106-114 | the values returned for some tape of draws are exactly those in [2 min, max] less than 2^512 above the minimum |
| `RandomSource.ReturnsExactly` | crypto/src/crypto_utils.cpp:106-114 | a call returns for some tape exactly when twice the minimum is at most the maximum (and the minimum is below 2^512); with bounds 2 and 3, or 1 and 1, it never returns |
| `CryptoUtils.ModularPow` | crypto/src/crypto_utils.cpp:138-153 | square and multiply computes the power modulo the modulus, for every base, exponent and positive modulus |
| `CryptoUtils.MillerRabinTest` | crypto/src/crypto_utils.cpp:117-136 | the answer is true exactly for a strong probable prime to the base |
| `CryptoUtils.PrimesPassMillerRabin` | crypto/src/crypto_utils.cpp:117-136 | a prime passes the test for every base that is not a multiple of it |
| `CryptoUtils.IsProbablyPrime` | crypto/src/crypto_utils.cpp:46-66 | the answer and the draws used, for every number, number of iterations and tape |
| `CryptoUtils.RoundsExact` | crypto/src/crypto_utils.cpp:59-65 | the rounds answer true exactly when as many bases as rounds are drawn one after the other and all pass, and false exactly when one fails after others that passed; what is left of the tape is what those draws leave |
| `CryptoUtils.PrimesAccepted` | crypto/src/crypto_utils.cpp:46-66 | no prime is ever answered false, for any number of iterations and any draws |
| `CryptoUtils.AcceptedCompositesAreLarge` | crypto/src/crypto_utils.cpp:50-54 | a composite answered true has every prime factor at least 41 and is at least 1681 |
| `CryptoUtils.ExactBelow1681` | crypto/src/crypto_utils.cpp:46-66 | below 1681 the answer is exact for every draw |
| `CryptoUtils.FactorIsWitness` | crypto/src/crypto_utils.cpp:117-136 | a prime factor of a composite number never passes as a base |
| `CryptoUtils.AlwaysAcceptedExact` | crypto/src/crypto_utils.cpp:46-66 | with at least one iteration, a number below 2^1024 is answered true on every tape exactly when it is prime |
| `Witnesses.AtMostQuarterLie` | crypto/src/crypto_utils.cpp:117-136 | at most a quarter of the bases from 1 to n - 1 pass the test for an odd composite n |
| `Witnesses.FewerDrawnLie` | crypto/src/crypto_utils.cpp:60-61 | of the n - 5 bases that can be drawn, from 4 to n - 2, at most (n - 9) / 4 pass for an odd composite n |
| `Witnesses.AcceptedExact` | crypto/src/crypto_utils.cpp:46-66 | a composite number is answered true exactly when no small prime divides it and every base drawn passes |
| `Witnesses.FewSequencesDeceive` | crypto/src/crypto_utils.cpp:59-65 | of all sequences of k bases that can be drawn, at most one in 4^k makes k rounds accept an odd composite number |
| `Generators.FindGenerator` | crypto/src/crypto_utils.cpp:87-97 | returns the least number below p that passes both exponent tests, or reports that none does |
| `Generators.FindValidGenerator` | crypto/src/crypto_utils.cpp:22-44 | returns the first entry of the table below p that passes both tests, or reports that none does |
| `Generators.LeastGeneratorIsPrime` | crypto/src/crypto_utils.cpp:87-97 | for a prime p the value found is itself prime |
| `Generators.PrimesUpTo97` | crypto/src/crypto_utils.cpp:23-27 | the table of candidates holds every prime up to 97 |
| `Generators.CandidateSearchRefines` | crypto/src/crypto_utils.cpp:22-44 | for a prime p the candidate search returns what the exhaustive search returns if that is at most 97, and fails otherwise |
| `Generators.SearchSucceedsOnPrimes` | crypto/src/crypto_utils.cpp:87-97 | for a prime p the exhaustive search succeeds exactly when p > 3 |
| `Generators.SearchSucceedsOnThreeModFour` | crypto/src/crypto_utils.cpp:87-97 | for p = 3 modulo 4 above 3, prime or not, it succeeds with a value of at most p - 2 |
| `Generators.PassesExponentTests` | crypto/src/crypto_utils.cpp:77-82 | the loop over the two factors of p - 1 is the conjunction of the two tests |
| `Generators.ValidateElGamalParameters` | crypto/src/crypto_utils.cpp:68-85 | the outcome, including which error is thrown first |
| `Generators.ElGamalCheckExact` | crypto/src/crypto_utils.cpp:68-85 | on a safe prime g is accepted exactly when its powers hit each of 1, ..., p-1 exactly once |
| `ParameterChecks.ElGamalVerdictExact` | crypto/src/crypto_utils.cpp:68-85 | on every prime p: which error is reported, or none, from the range of g, its power (p-1)/2 and its square |
| `ParameterChecks.ElGamalComposite` | crypto/src/crypto_utils.cpp:68-71 | a composite p is reported as not prime unless all 50 bases drawn deceive the test, which takes p at least 1681 without a prime factor below 41 |
| `ParameterChecks.ElGamalAlwaysAcceptedExact` | crypto/src/crypto_utils.cpp:68-85 | below 2^1024, parameters are accepted on every tape that gives an answer exactly when p is prime, g is in range, and neither its power (p-1)/2 nor its square is 1 |
| `Generators.FoundGeneratorIsAccepted` | crypto/src/crypto_utils.cpp:68-97 | what the exhaustive search finds for a safe prime is a primitive root and the check accepts it |
| `Generators.ValidateDsaParameters` | crypto/src/crypto_utils.cpp:155-173 | the outcome for every triple and tape |
| `Generators.DsaCheckExact` | crypto/src/crypto_utils.cpp:155-173 | on primes p and q the check accepts exactly the groups of section 4.1 of FIPS 186-4 |
| `ParameterChecks.DsaAcceptedMeans` | crypto/src/crypto_utils.cpp:155-173 | whatever is accepted passes the arithmetic conditions, and each of p and q is prime or a composite of at least 1681 without a prime factor below 41 for which all 50 bases drawn deceive the test |
| `ParameterChecks.DsaExactBelow1681` | crypto/src/crypto_utils.cpp:155-173 | below 1681 exactly the groups of the standard are accepted, for every tape that gives an answer |
| `ParameterChecks.DsaAlwaysAcceptedExact` | crypto/src/crypto_utils.cpp:155-173 | below 2^1024 exactly the groups of the standard are accepted on every tape that gives an answer |
| `Generators.DsaGroupOrder` | crypto/src/crypto_utils.cpp:168-170 | in an accepted group two powers of g agree exactly when the exponents agree modulo q |
| `Dsa.DSA.Create` | crypto/src/dsa.cpp:5-18 | fails exactly when the parameters are refused or the draws run out; otherwise the public key matches the private key drawn |
| `Dsa.DSA.Sign` | crypto/src/dsa.cpp:20-40 | returns the code's pair for the first secret drawn for which neither half is zero, its first half the power of g to that secret, and nothing only if no draw is such; on primes the pair is the standard's signature for that secret, and verification accepts it |
| `Dsa.FirstUsableExact` | crypto/src/dsa.cpp:24-35 | the secret used is k, with a rest of the tape left, exactly when secrets drawn one after the other are all refused for a zero half up to k, which is not |
| `Dsa.CodePairExact` | crypto/src/dsa.cpp:25-34 | on a prime q, the standard has a signature for a secret exactly when the code's pair has no half zero, and it is that pair |
| `Dsa.CanSignExact` | crypto/src/dsa.cpp:24-35 | signing a hash returns for some tape exactly when a usable secret can be drawn |
| `Dsa.SignsEveryHashExact` | crypto/src/dsa.cpp:24-35 | for a prime q and a private key below it, every hash can be signed for some tape exactly when the secrets that can be drawn yield two different non-zero first halves |
| `Dsa.SmallGroupSigns` | crypto/src/dsa.cpp:24-35 | with p = 7, q = 3, g = 2 and private key 2, the hashes that can be signed are those not 1 modulo 3 |
| `Dsa.DSA.Verify` | crypto/src/dsa.cpp:42-58 | accepts exactly what section 4.7 of FIPS 186-4 accepts; on other moduli exactly what the code's own inverse makes match |
| `Dsa.SignedIsAccepted` | crypto/src/dsa.cpp:20-58 | every signature made with the private key is accepted under the matching public key |
| `Dsa.AcceptedExact` | crypto/src/dsa.cpp:42-58 | accepted under that key are exactly the signatures of the hash for some secret from 1 to q - 1, and the pairs with r = 1 and s from 1 to q - 1 when the hash is -x modulo q; an accepted pair is a signature exactly when hash + x r is not 0 modulo q |
| `Dsa.SecretUnique` | crypto/src/dsa.cpp:42-58 | a pair is made by at most one secret below q, and by 0 exactly when hash + x r is 0 modulo q |
| `Dsa.AcceptedWithoutSecret` | crypto/src/dsa.cpp:42-58 | with p = 7, q = 3, g = 2, private key 2 and hash 1, the pair (1, 1) is accepted and no secret makes it |
| `Dsa.HashesModuloQ` | crypto/src/dsa.cpp:49-51 | hashes that agree modulo q are accepted with the same signatures |
| `Dsa.CheckedValue` | crypto/src/dsa.cpp:48-51 | reducing the two exponents modulo q does not change the value compared |
| `ElGamal.ElGamalEncryption.Create` | crypto/src/el_gamal_encryption.cpp:5-19 | passes on the error of the check; otherwise the keys match and the private key lies in [4, p-2] |
| `ElGamal.ElGamalEncryption.Encrypt` | crypto/src/el_gamal_encryption.cpp:29-42 | the first half is the power of g to the secret drawn, the second the message times the power of the recipient's key, and the tape is left after that draw |
| `ElGamal.EncryptionExact` | crypto/src/el_gamal_encryption.cpp:29-36 | for the public key of x, a pair is the encryption under k exactly when its first half is g^k and its second the message times the first half to the power x |
| `ElGamal.FirstHalvesDiffer` | crypto/src/el_gamal_encryption.cpp:33 | under a primitive root, equal first halves mean equal secrets |
| `ElGamal.SecondHalvesCover` | crypto/src/el_gamal_encryption.cpp:34 | when the recipient's key is a primitive root, a message that is not 0 modulo p has every second half but 0, each for exactly one secret from 1 to p - 1 |
| `ElGamal.ElGamalEncryption.Decrypt` | crypto/src/el_gamal_encryption.cpp:44-53 | on a prime modulus opens every ciphertext whose first half is not a multiple of p, and gives 0 for the others; on any modulus the value the powers come to |
| `ElGamal.RoundTrip` | crypto/src/el_gamal_encryption.cpp:29-53 | what opens an encryption is the message modulo p, so the message itself exactly when it is below p |
| `ElGamal.OpensUnique` | crypto/src/el_gamal_encryption.cpp:44-53 | only one reduced value opens a ciphertext |
| `Gf256.Gmul` | crypto/src/aes256.cpp:36-56 | the loop computes the product of two bytes as polynomials modulo the AES polynomial |
| `Gf256.MulIsProduct` | crypto/src/aes256.cpp:36-56 | a byte is the remainder of the polynomial product exactly when it is the value computed |
| `Gf256.MulCommutative` | crypto/src/aes256.cpp:36-56 | the product is commutative |
| `Gf256.MulAssociative` | crypto/src/aes256.cpp:36-56 | the product is associative |
| `Gf256.MulDistributesLeft` | crypto/src/aes256.cpp:36-56 | the product distributes over xor on the left |
| `Gf256.MulDistributesRight` | crypto/src/aes256.cpp:36-56 | the product distributes over xor on the right |
| `AesTables.SboxIsStandard` | crypto/include/aes256.hpp:30-47 | every entry is the affine image of the inverse of its index (section 5.1.1 of FIPS 197) |
| `AesTables.TablesUndo` | crypto/include/aes256.hpp:30-66 | the two tables undo each other in both orders |
| `Aes256.ShiftRowsInverse` | crypto/src/aes256.cpp:131-185 | the two row shifts undo each other in both orders |
| `Aes256.MixPolynomialsInverse` | crypto/src/aes256.cpp:187-221 | the two coefficient polynomials are inverses modulo x^4 + 1 |
| `Aes256.MixInverse` | crypto/src/aes256.cpp:187-221 | mixing columns with inverse polynomials undoes itself on every state |
| `Aes256.BackwardMirrorsForward` | crypto/src/aes256.cpp:277-347 | decrypting what encryption produced runs back through the states of encryption |
| `Aes256.ForwardMirrorsBackward` | crypto/src/aes256.cpp:277-347 | encrypting what decryption produced runs through the states of decryption |
| `Aes256.CipherInverse` | crypto/src/aes256.cpp:277-347 | under any 240 bytes of round keys the two directions undo each other, in both orders, on every block |
| `Aes256Class.AES256.SubWord` | crypto/src/aes256.cpp:69-78 | substitutes the four bytes of a word |
| `Aes256Class.AES256.ScheduleTemp` | crypto/src/aes256.cpp:89-99 | the rotation, substitution and constant of section 5.2 of FIPS 197, where they are due |
| `Aes256Class.AES256.StoreWord` | crypto/src/aes256.cpp:101-103 | writes one word and nothing before it |
| `Aes256Class.AES256.KeyExpansion` | crypto/src/aes256.cpp:80-109 | the array filled in place is the expanded key defined by the recurrence on words |
| `AesVectors.ExpandedExample` | crypto/src/aes256.cpp:58-109 | for the key of appendix A.3 of FIPS 197, all fifteen round keys, which make up the expanded key, are the standard's |
| `Aes256Class.AES256.SubBytes` | crypto/src/aes256.cpp:111-119 | substitutes every byte |
| `Aes256Class.AES256.InvSubBytes` | crypto/src/aes256.cpp:121-129 | substitutes every byte by the inverse table |
| `Aes256Class.AES256.ShiftRowsOf` | crypto/src/aes256.cpp:131-157 | row r moves left by r places |
| `Aes256Class.AES256.InvShiftRowsOf` | crypto/src/aes256.cpp:159-185 | row r moves right by r places |
| `Aes256Class.AES256.MixColumns` | crypto/src/aes256.cpp:187-203 | every column times the circulant matrix of the first polynomial |
| `Aes256Class.AES256.InvMixColumns` | crypto/src/aes256.cpp:205-221 | every column times the circulant matrix of the second polynomial |
| `Aes256Class.AES256.AddRoundKey` | crypto/src/aes256.cpp:223-237 | xor with the sixteen bytes of the round |
| `Aes256Class.AES256.Encrypt` | crypto/src/aes256.cpp:277-301 | the cipher of section 5.1 of FIPS 197 under the expanded key |
| `AesVectors.CipherExample` | crypto/src/aes256.cpp:277-301 | the plaintext of appendix C.3 of FIPS 197 is encrypted under its key to its ciphertext |
| `Aes256Class.AES256.Decrypt` | crypto/src/aes256.cpp:322-347 | the inverse cipher of section 5.3 of FIPS 197 under the same expanded key |
| `Aes256Class.AES256.Pkcs7Pad` | crypto/src/aes256.cpp:239-251 | appends n bytes of value n up to the next multiple of 128 |
| `Aes256Class.AES256.Pkcs7Unpad` | crypto/src/aes256.cpp:253-275 | removes padding, or reports why it cannot |
| `Aes256Class.UnpadExact` | crypto/src/aes256.cpp:253-275 | removal yields s exactly on strings that are s followed by n bytes of value n, n from 1 to 255 |
| `Aes256Class.BlocksInverse` | crypto/src/aes256.cpp:303-365 | block by block, the two directions undo each other on whole strings |
| `Aes256Class.StringRoundTrip` | crypto/src/aes256.cpp:303-365 | every non-empty string comes back; the ciphertext length is the least multiple of 128 above it; the empty string is refused |
| `Aes256Class.StringBlocks` | crypto/src/aes256.cpp:303-321 | n bytes of value n are appended up to the next multiple of 128, and block k of the ciphertext is the cipher of block k of the result |
| `Aes256Class.DecryptErrorsExact` | crypto/src/aes256.cpp:349-365 | the length error exactly for empty input and lengths that are no multiple of 16, the padding error exactly when what is decrypted ends in no padding |
| `Aes256Class.ReencryptExact` | crypto/src/aes256.cpp:303-365 | a ciphertext that decrypts to s is the encryption of s exactly when it has the length of one |
| `Aes256Class.AES256.Aes256Encrypt` | crypto/src/aes256.cpp:303-321 | pads and encrypts block by block, or reports the empty input |
| `Aes256Class.AES256.Aes256Decrypt` | crypto/src/aes256.cpp:349-365 | decrypts block by block and removes the padding, or reports why not |
| `Sha256.SHA256.Update` | crypto/src/sha256.cpp:14-27 | the object stands where one call with all bytes fed so far would have put it |
| `Sha256.SHA256.ExpandMessage` | crypto/src/sha256.cpp:33-41 | the array holds the message schedule of section 6.2.2 of FIPS 180-4 |
| `Sha256.BytesOfWord` | crypto/src/sha256.cpp:33-36 | the four bytes of a word come back out of it, most significant first |
| `Sha256.SHA256.Transform` | crypto/src/sha256.cpp:29-74 | 64 rounds and the final additions are the compression function |
| `Sha256.SHA256.AppendLength` | crypto/src/sha256.cpp:85-87 | the loop appends the eight bytes of the length, most significant first |
| `Sha256.SHA256.PadBuffer` | crypto/src/sha256.cpp:76-90 | the state becomes the code's hash of everything fed |
| `Sha256.SHA256.Digest` | crypto/src/sha256.cpp:92-106 | the text has 64 digits, of which each eight read as the next word of the hash; it is the standard's when the length modulo 64 is at most 55; the object is as good as new |
| `Sha256.AbsorbStep` | crypto/src/sha256.cpp:20-26 | one more byte takes the state of m to the state of m and that byte |
| `Sha256.FeedAllAbsorbed` | crypto/src/sha256.cpp:14-27 | any sequence of calls leaves the chaining state of all whole blocks, the tail, and the length in bits |
| `Sha256.SplittingLeavesNoTrace` | crypto/src/sha256.cpp:14-27 | two splittings of the same bytes into calls leave the same state |
| `Sha256.PaddingExact` | crypto/src/sha256.cpp:76-90 | the bytes compressed are the standard's padded message exactly when the length modulo 64 is at most 55, and one block fewer otherwise |
| `Sha256.ShortTailHash` | crypto/src/sha256.cpp:76-90 | with such a length the hash is the standard's |
| `Sha256.LongTailHash` | crypto/src/sha256.cpp:76-90 | with a longer tail the standard compresses the marked tail and then a block of its own for the length |
| `Sha256.HexReadsBack` | crypto/src/sha256.cpp:96-98 | a word reads back from its eight digits, most significant first |
| `Sha256.HexInOrder` | crypto/src/sha256.cpp:94-98 | the words are printed in order: eight digits from position 8 i on are word i and read back to it |
| `Sha256.HexExact` | crypto/src/sha256.cpp:94-98 | different states are printed differently |
| `Sha256Machine.CompressLoaded` | crypto/src/sha256.cpp:29-74 | the machine both hashes are computed on computes the compression function |
| `Sha256Tails.TailsDiffer` | crypto/src/sha256.cpp:76-90 | for each n from 56 to 63 the code's hash of n zero bytes is not the standard's |
| `Sha256Tails.DigestExact` | crypto/src/sha256.cpp:76-106 | every message whose length is r modulo 64 gets the standard's digest exactly when r is at most 55 |
| `Sha256Vectors.DigestOfAbc` | crypto/src/sha256.cpp:76-106 | the digest of the letters abc is the text appendix B.1 of FIPS 180-2 gives |
| `FileServer.FileServer.IsValidFilename` | file_server/src/file_server.cpp:257-279 | true exactly for stems of sixteen letters and digits |
| `FileServer.FileServer.UploadFile` | file_server/src/file_server.cpp:102-166 | the response and the stored file for every outcome of the checks and the disk; no other file changes |
| `FileServer.ResponseExact` | file_server/src/file_server.cpp:102-166 | which response an upload gets, with the limit in unbounded arithmetic, and which refused uploads remove the stored file |
| `FileServer.FileServer.UploadChunk` | file_server/src/file_server_client.cpp:121-159 | what the caller is told and what is stored, when the request or the response may be lost |
| `RequestHandler.AcceptExact` | server/src/request_handler.cpp:253-263 | success is answered exactly for the next chunk, if the file server accepts it and nothing fails; then it is recorded and stored, otherwise nothing is recorded |
| `FileServer.LimitKeptExactly` | file_server/src/file_server.cpp:138-144 | no upload leaves a file above the limit, exactly when the limit is at least 512 |
| `FileServer.FileServer.DownloadFile` | file_server/src/file_server.cpp:169-211 | the bodies sent: the read loop's, or the text of the error; none when the name is too short and the lookup throws |
| `FileServer.TextReadsBack` | file_server/src/file_server.cpp:169-211 | the bytes of an error text are the codes of its characters |
| `FileServer.DownloadFileChunks` | file_server/src/file_server_client.cpp:173-197 | the collector keeps the responses before the first empty one |
| `FileServer.DownloadedChunks` | file_server/src/file_server.cpp:204-210 | read loop and collector together yield exactly the chunks of the file, for every size |
| `FileServer.ResponsesExact` | file_server/src/file_server.cpp:204-210 | the responses together are the file, all of 512 bytes but the last, which is shorter and may be empty |
| `RequestHandler.RequestHandler.HandleFileChunk` | server/src/request_handler.cpp:234-326 | bookkeeping, stored file and acknowledgment for every chunk; an accepted last chunk forwards the file for the first pending transfer, which leaves the list once its receiver is notified; no other upload changes |
| `RequestHandler.AcknowledgedAreStored` | server/src/request_handler.cpp:253-263 | for any messages in any order: acknowledged chunks are numbered consecutively, and without a failed upload the file grew by exactly their data |
| `RequestHandler.RequestHandler.SendFileToClient` | server/src/request_handler.cpp:414-447 | the messages sent, numbered from 0, only the final one marked last, up to the first failing write |
| `Client.Client.SendFileChunks` | client/src/client.cpp:381-440 | which messages are sent and how sending ends, for every pattern of acknowledgments |
| `Client.Client.HandleChunkAcknowledgment` | client/src/client.cpp:596-605 | only a success raises the flag |
| `Client.Client.HandleIncomingFile` | client/src/client.cpp:607-618 | the file is open, and truncated if its stream works; no other file changes |
| `Client.Client.HandleIncomingFileChunk` | client/src/client.cpp:620-645 | acknowledges if the file is open, appends if the stream still works, closes after the last chunk |
| `Upload.RunKeepsInv` | client/src/client.cpp:396-439 | the invariant of an upload holds along every run, from every start |
| `Upload.RunSpendsCredit` | client/src/client.cpp:418-429 | along every run the client gets ahead of the server only by spending credits of the start |
| `Upload.Lockstep` | client/src/client.cpp:396-439 | without credits the server's last chunk is the client's number or one less, and without a failed upload exactly those chunks are stored |
| `Upload.FinishedMeansStored` | client/src/client.cpp:396-439 | with nothing left behind, in every run a client that reports completion has its file stored byte for byte |
| `Upload.MarkedCompleted` | server/src/request_handler.cpp:260-267 | from every start the server marks an upload completed exactly when the client's whole file is stored, no chunk of it was answered upload_failed, and its size is not a multiple of 512 |
| `Upload.StoredNotMarked` | server/src/request_handler.cpp:260-316 | every non-empty file the server takes can end up stored whole and not marked: when the response to its last chunk is lost |
| `Upload.SafeStartExact` | client/src/client.cpp:418-429 | for every start and file: completion is trustworthy in every run exactly when the file is empty or there are fewer credits than its shortfall, which is one for a file the server takes whole |
| `Upload.SkimFrom` | client/src/client.cpp:418-429 | with enough credits, completion can be reported while the server holds any number of chunks it would take |
| `UploadHistory.OneCreditExact` | client/src/client.cpp:596-605 | if no chunk, by name and number, is unserved twice: there is a credit exactly when the flag is up, a positive acknowledgment is under way, or an unserved chunk of another file would be accepted |
| `UploadHistory.RunKeepsNoRepeats` | client/src/client.cpp:396-439 | along every run no chunk, by name and number, is unserved twice |
| `UploadHistory.NextUploadExact` | client/src/client.cpp:596-605 | after any number of uploads of differently named files, however they ended, the next one of a file the server takes is trustworthy exactly when none of the three is left |
| `UploadHistory.CompletedUploadsAreStored` | client/src/client.cpp:396-439 | when any number of uploads of differently named files all reported completion, all of the files are stored byte for byte at the end, and the next upload is trustworthy |
| `UploadHistory.GivingUpLeavesCredits` | client/src/client.cpp:418-427 | an upload that gives up can leave behind a raised flag, a positive acknowledgment under way, or a chunk that is still welcome |
| `Upload.CompletionExact` | file_server/src/file_server.cpp:105-144 | from every start, completion can be reported at all exactly when credits make up for the chunks the server would not take |
| `Upload.FreshCompletionExact` | file_server/src/file_server.cpp:105-144 | with nothing left behind, exactly the files the server takes whole can be completed |
| `Upload.TakenWhole` | file_server/src/file_server.cpp:138-144 | the server takes a whole file exactly when its name is valid and it fits the limit or, below a limit of 512, its last chunk alone is over the limit |
| `UploadSender.ClientRefined` | client/src/client.cpp:381-440 | from every start, a run that ended sent and ended as the client's method does when, for each wait, a success arrives or not as it did in that run |
| `Delivery.DeliveredSoFar` | client/src/client.cpp:620-645 | however many messages could be written, the receiver holds exactly the chunks they carried, open unless complete |
| `Delivery.DeliveredExact` | server/src/request_handler.cpp:414-447 | the receiver ends up with the stored file, byte for byte and closed, exactly when it is not empty and every message could be written |
| `Delivery.ErrorsAreDelivered` | file_server/src/file_server_client.cpp:177-197 | without a readable file the text of the error is delivered and closed in its place |
| `Delivery.EndToEnd` | server/src/request_handler.cpp:262-289 | from every start, once the server has marked an upload completed, forwarding it delivers the sender's file |

## Left out

- Boost's `powm` in `find_valid_generator` is taken to be the exact modular power.
- `CryptoUtils.ModularPow`: negative bases and exponents, and a modulus below 1, are not modelled; no caller in the modelled code passes them.
- `CryptoUtils.MillerRabinTest`: numbers below 2 are not modelled; for 1 the first loop of the source does not end, and no caller passes one.
- `RandomSource.SampleExact`, `RandomSource.ReturnsExactly`, `CryptoUtils.AlwaysAcceptedExact`, `Dsa.CanSignExact`: what is possible for some tape need not be possible for a generator seeded with 32 bits.
- `Dsa.DSA.Sign`, `Dsa.DSA.Verify`, `ElGamal.ElGamalEncryption.Encrypt` and `ElGamal.ElGamalEncryption.Decrypt`: negative hashes, messages, keys and ciphertexts are not modelled.
- `Dsa.SignedIsAccepted`: the standard's reduction of the hash to the length of q is not part of the code, so it is not part of the property; that p and q are prime is a hypothesis, because the code's own check is probabilistic.
- `Sha256.SHA256.Digest`: for messages of 2^61 bytes or more, for which the standard defines no hash, it is stated what the code computes but not compared with anything.
- `Upload.SafeStartExact`: one transfer per file name, onto an absent file, as long as the server is up; a second upload of a name appends to the first, and the server's bookkeeping refuses its chunks. Starts with unserved chunks of the same name are therefore not among those considered.
- `UploadHistory.NextUploadExact`, `UploadHistory.CompletedUploadsAreStored`: uploads over one connection to one server, of files with different names.
- `Upload.TakenWhole`: files within 512 bytes of 2^64 bytes are left out.
- `Delivery.EndToEnd`: responses and messages arrive in order, the stream ends after the last one, and the receiver's disk works.
- `FileServer.FileServer.DownloadFile`: what the HTTP library answers when a handler throws is a parameter of the forwarding.
- Fairness of the random generator: how long the rejection loops take is not modelled, only what they return.
- `random_device` key generation of AES-256, the hexadecimal conversions of keys and the hybrid cryptosystem, which is unfinished.
- Sockets, HTTP, JSON encoding (which cannot carry arbitrary bytes), logging, locks and thread pools; each upload to the file server is one step, as its exclusive lock makes it.
- The databases, users, chats, messages and timestamps, and how transfers enter the list of pending ones.
- `FileServer::delete_file`, which looks under a different path than upload and download, and the client's unused second sender `send_next_chunk`.
- A write of a receiving client that is carried out in part: a write succeeds or leaves the file as it was.
- Constructors and accessors, which set or return fields, have contracts but no row above.
- File names are taken as the filesystem library splits them, in a stem and an extension.
