# Verified core of kernel-of-truth

This project models the parts of the kernel whose correctness is hardest to see, and
proves what they promise. `dafny verify dfyconfig.toml` checks all of it.

**Signatures.** The Ed25519 code represents field elements in ten signed limbs and
scalars in 21-bit limbs. The model keeps the limbs, the carries and the integer widths.
From the bottom up it proves that field arithmetic is arithmetic modulo 2^255 - 19
inside the limb bounds the comments state, that scalar arithmetic is exact modulo the
group order L, that both recodings keep the scalar, and that the point formulas compute
the Edwards law; the identities behind them hold for every modulus. On that rest both
scalar multiplications, point compression and decompression, SHA-512 with any splitting
of its input, and signing and verification.
The curve itself is an abstract commutative group `Curve` whose elements have affine
coordinates that satisfy the Edwards law; that 2^255 - 19 is prime enters as `Fermat`.
The constants are tied to their definitions: the tables of SHA-512 to roots of primes, d,
p, L and the base point to section 5.1 of RFC 8032, and the list of `small_order` to the
points of order 1, 2, 4 and 8.

**Memory.** Physical memory is a map of frames to 512 words. Every access to a page
table is an access at a virtual address inside the recursive slot, through the
hardware's four-level walk, as in the kernel; a method whose access can fault says exactly
when, and one that would read a table already given back does not verify. The free frames form a list whose
links lie inside the free frames themselves and are seen through one pivot page. The
map from pages to frames, the tree of tables, the list and the teardown of an address
space are proved over this memory. `MapPage` and `PhysicalAlloc` call each other; that
the recursion stops is the termination measure of these methods.

**Heap.** Two chained region vectors tile 16 pages of bytes.

**Hash table.** Open addressing with tombstones, related to the multiset of its entries.

Notes on the behaviour of the code:

- `fe_tobytes` documents limb bounds under which some values just below -p come out 19
  too large. `FeToBytes` says exactly which; no result of `fe_mul` is among them, and the
  zero test is right on all of them.
- In `small_order` the comments beside the entries from the fifth on name other numbers
  than the bytes do. The set of twelve numbers is the same. `ListedAt` gives each one.
- `physical_alloc` reads the links through the pivot, so with an empty list its first
  access faults (`PhysicalAlloc`, `PivotReadable`). The out-of-memory returns of
  `map_page` are therefore never taken; it faults instead (`MapPage`).
- `unmap_page` with freeing gives back whatever frame the leaf names, present or not
  (`NamedIsMapped`). A leaf that an earlier unmap cleared names a frame that trips an
  assertion (`SecondUnmap`), one that was never written names frame 0 (`UnwrittenUnmap`).
- `small_order` compares all 256 bits, so it knows the encoding of a point of small order
  exactly if its sign bit is clear (`TorsionListed`).
- `region_alloc` asks for a record strictly longer than the request, so its branch for a
  record that is used up is never taken, and a record of exactly the right size is not used.
- `kmalloc(0)` trips an assertion exactly when the first fitting record starts at the
  first byte of the heap, as on a fresh heap (`KMalloc`, `EmptyRequest`). A size whose
  red zones wrap around 2^64 is granted a region too small for them (`WrappedRequest`).
- A hash table that should shrink trips the assertion that the new size is larger
  instead (`Remove`, `ShrinkTrips`); the comment beside the test says above 32 slots, the code
  says below (`LoadIs`). Tombstones are never reused, so removals can use up
  all Empty slots (`WornOut`). A put never replaces: it adds a second entry, and lookups
  go on finding the first (`SecondPut`) until the table grows. Growth copies in slot
  order, so from then on the entry in the lowest slot is found: the value of a key can
  change with a put of another one (`Overtaken`). `PutKeepsFound` says exactly when.
- `slide` documents no bound on the scalar, but from 2^255 on its last carry can fall off
  the end. `Slide` says exactly when; `TooLarge` is an input. The scalars of the verifier,
  and every other result of `sc_reduce`, stay below (`ReducedIsSafe`).
- Key decoding takes y from p on, and a sign bit on x = 0, which section 5.1.3 of RFC 8032
  refuses. `DecodingsAgree` and `VerifyAndRfc` say exactly where the two part.

## Model

| member | source | states |
|---|---|---|
| Field25519.FeAdd | kernel/crypto/ed25519/curve25519_ref10.c:60-102 | the sum of the values, limb by limb, with no int32 overflow on any input the callers produce |
| Field25519.FeSub | kernel/crypto/ed25519/curve25519_ref10.c:1120-1162 | the difference of the values, likewise |
| Field25519.FeNeg | kernel/crypto/ed25519/curve25519_ref10.c:658-690 | the negated value, likewise |
| Field25519.ProductVal | kernel/crypto/ed25519/curve25519_ref10.c:397-407 | the schoolbook product of two limb vectors, folded at 2^255 = 19, is congruent to the product of their values modulo p |
| Field25519.ColumnsAreProduct | kernel/crypto/ed25519/curve25519_ref10.c:429-585 | the ten interleaved column sums with their factors 2, 19 and 38 are that schoolbook product |
| Field25519.SquareColumnsAreProduct | kernel/crypto/ed25519/curve25519_ref10.c:707-800 | the shortened column sums of squaring are the product of the vector with itself |
| Field25519.MulColumns | kernel/crypto/ed25519/curve25519_ref10.c:429-585 | every partial product and every column of fe_mul fits int32 or int64 under the 1.65 bounds |
| Field25519.FeMul | kernel/crypto/ed25519/curve25519_ref10.c:429-646 | for all limbs within the 1.65 bounds: no overflow, result congruent to f g modulo p, limbs within the 1.01 bounds |
| Field25519.FeSq | kernel/crypto/ed25519/curve25519_ref10.c:707-837 | the same for f f |
| Field25519.FeSq2 | kernel/crypto/ed25519/curve25519_ref10.c:854-995 | the same for 2 f f |
| FieldBytes.FeFromBytes | kernel/crypto/ed25519/curve25519_ref10.c:198-243 | the value of the 32 bytes with the top bit ignored, modulo p, with limbs in bounds |
| FieldBytes.QuotientExact | kernel/crypto/ed25519/curve25519_ref10.c:270-310 | the carry estimate, whose first shift is a logical shift of an unsigned sum, is the exact quotient by p unless the value lies just below -p |
| FieldBytes.FeToBytes | kernel/crypto/ed25519/curve25519_ref10.c:270-361 | for all limbs within the documented 1.1 bounds the bytes are the value modulo p, plus 19 exactly on the misjudged values |
| FieldBytes.TightIsJudged | kernel/crypto/ed25519/curve25519_ref10.c:397-407 | no output of fe_mul is a misjudged value, so there fe_tobytes is canonical |
| FieldBytes.MisjudgedWithinBounds | kernel/crypto/ed25519/curve25519_ref10.c:245-268 | a limb vector within the documented bounds on which fe_tobytes is not canonical |
| FieldBytes.RoundTrip | kernel/crypto/ed25519/curve25519_ref10.c:198-361 | fe_tobytes after fe_frombytes reduces the low 255 bits modulo p, and is the identity on canonical strings |
| FieldBytes.FeIsNegative | kernel/crypto/ed25519/curve25519_ref10.c:371-377 | the parity of the canonical residue, for outputs of fe_mul |
| FieldBytes.FeIsNonzero | kernel/crypto/ed25519/curve25519_ref10.c:389-395 | nonzero modulo p, for every limb vector within the documented bounds, misjudged or not |
| FieldPow.FeInvert | kernel/crypto/ed25519/curve25519_ref10.c:997-1052 | z to the power p - 2, by the exponents of every squaring loop |
| FieldPow.FePow22523 | kernel/crypto/ed25519/curve25519_ref10.c:1054-1106 | z to the power (p - 5) / 8 |
| Edwards.GeAdd | kernel/crypto/ed25519/curve25519_ref10.c:1168-1183 | the completed point of a sum is the affine Edwards sum, every fe_mul inside its input bounds |
| Edwards.GeSub | kernel/crypto/ed25519/curve25519_ref10.c:1488-1503 | the same for a difference |
| Edwards.GeMadd | kernel/crypto/ed25519/curve25519_ref10.c:1279-1293 | the same for a sum with a table entry |
| Edwards.GeMsub | kernel/crypto/ed25519/curve25519_ref10.c:1299-1313 | the same for a difference with a table entry |
| Edwards.GeP2Dbl | kernel/crypto/ed25519/curve25519_ref10.c:1349-1362 | the completed point of a doubling is the affine sum of the point with itself |
| Edwards.GeP3Dbl | kernel/crypto/ed25519/curve25519_ref10.c:1417-1422 | the same from extended coordinates |
| Edwards.GeP1P1ToP2 | kernel/crypto/ed25519/curve25519_ref10.c:1319-1324 | projective coordinates of the same point |
| Edwards.GeP1P1ToP3 | kernel/crypto/ed25519/curve25519_ref10.c:1330-1336 | extended coordinates of the same point |
| Edwards.GeP3ToCached | kernel/crypto/ed25519/curve25519_ref10.c:1381-1387 | the cached sums and products of the same point |
| CurveAlgebra.ExtendedProduct | kernel/crypto/ed25519/curve25519_ref10.c:1330-1336 | extended coordinates satisfy X Y = Z T, for every d and every modulus |
| Scalar.RoundPassVal | kernel/crypto/ed25519/curve25519_ref10.c:1860-1871 | a rounding carry pass keeps the number the limbs stand for |
| Scalar.RoundPassBounds | kernel/crypto/ed25519/curve25519_ref10.c:1860-1871 | and leaves every limb it passes within 2^20, with the bound its neighbours need |
| Scalar.FoldToVal | kernel/crypto/ed25519/curve25519_ref10.c:1818-1858 | replacing the limbs from 2^252 on by the six constants keeps the number modulo the group order |
| Scalar.FloorPassVal | kernel/crypto/ed25519/curve25519_ref10.c:1938-1968 | a floor carry pass keeps the number |
| Scalar.RoundedRange | kernel/crypto/ed25519/curve25519_ref10.c:1916-1936 | after the last rounding carries and folds the number lies within 2^252 of zero |
| Scalar.Canonical | kernel/crypto/ed25519/curve25519_ref10.c:1930-1968 | so the first floor pass leaves a top limb of -1 or 0, and the second gives the residue in [0, L) |
| ScalarBytes.LimbsVal | kernel/crypto/ed25519/curve25519_ref10.c:1684-1719 | the overlapping masked loads cut a string into 21-bit digits of its number |
| ScalarBytes.PackVal | kernel/crypto/ed25519/curve25519_ref10.c:1970-2001 | the byte formulas write the digits back as one little-endian number |
| ScalarBytes.ColumnsVal | kernel/crypto/ed25519/curve25519_ref10.c:1768-1791 | the 23 columns are the product of two numbers plus a third |
| ScalarBytes.ColumnsRange | kernel/crypto/ed25519/curve25519_ref10.c:1768-1791 | every column is in 64-bit range |
| ScalarBytes.ScMuladd | kernel/crypto/ed25519/curve25519_ref10.c:1682-2002 | for all 32-byte a, b, c: exactly (a b + c) mod L |
| ScalarBytes.ScReduce | kernel/crypto/ed25519/curve25519_ref10.c:2014-2242 | for every 64-byte s: exactly s mod L |
| Recode.SlideDigit | kernel/crypto/ed25519/curve25519_ref10.c:1191-1215 | one digit keeps the value of the bits from it on, less 2^256 if its carry falls off the end; that leaves only zeros above it |
| Recode.Slide | kernel/crypto/ed25519/curve25519_ref10.c:1185-1215 | for every 32-byte scalar: 256 digits, each 0 or odd within 15, whose weighted sum is the scalar if and only if `Overflows` does not hold of it, and the scalar less 2^256 otherwise |
| Signature.ReducedIsSafe | kernel/crypto/ed25519/curve25519_ref10.c:1185-1215 | no scalar below the group order L overflows |
| Recode.HalfIsSafe | kernel/crypto/ed25519/curve25519_ref10.c:1185-1215 | no scalar up to 2^255 overflows |
| Recode.TooLarge | kernel/crypto/ed25519/curve25519_ref10.c:1185-1215 | 2^255 + 2^251 does: its digits stand for a negative number |
| Recode.Radix16 | kernel/crypto/ed25519/curve25519_ref10.c:1637-1652 | for every scalar with top byte at most 127: 64 digits within 8 whose weighted sum is the scalar |
| ScalarMult.CmovLimb | kernel/crypto/ed25519/curve25519_ref10.c:111-164 | the masked exclusive-or picks one of two int32 limbs |
| ScalarMult.Equal | kernel/crypto/ed25519/curve25519_ref10.c:1431-1441 | 1 exactly for equal bytes, through the unsigned borrow |
| ScalarMult.Negative | kernel/crypto/ed25519/curve25519_ref10.c:1443-1449 | 1 exactly for negative digits |
| ScalarMult.Magnitude | kernel/crypto/ed25519/curve25519_ref10.c:1463-1467 | the masked subtraction gives the absolute value |
| ScalarMult.GeSelect | kernel/crypto/ed25519/curve25519_ref10.c:1463-1482 | the table entry of the signed digit: b 256^pos B |
| ScalarMult.AddPass | kernel/crypto/ed25519/curve25519_ref10.c:1654-1669 | one pass over every second digit adds their weighted sum times B |
| ScalarMult.GeScalarmultBase | kernel/crypto/ed25519/curve25519_ref10.c:1628-1669 | a B in any group that satisfies the Edwards law, for a table of multiples of B |
| ScalarMult.OddMultiplesOf | kernel/crypto/ed25519/curve25519_ref10.c:1547-1555 | A, 3 A, ..., 15 A |
| ScalarMult.DoubleAndAdd | kernel/crypto/ed25519/curve25519_ref10.c:1563-1583 | one iteration turns m A + n B into (2 m + x) A + (2 n + y) B |
| ScalarMult.GeDoubleScalarmultVartime | kernel/crypto/ed25519/curve25519_ref10.c:1534-1584 | a A + b B in any such group, with the numbers that slide makes of the two scalars, which are the scalars themselves exactly when they do not overflow |
| PointCodec.GeToBytes | kernel/crypto/ed25519/curve25519_ref10.c:1505-1516 | the canonical y with the parity of x in the top bit |
| PointCodec.GeP3ToBytes | kernel/crypto/ed25519/curve25519_ref10.c:1400-1411 | the same from extended coordinates |
| Residues.CandidateSquares | kernel/crypto/ed25519/curve25519_ref10.c:1246-1257 | the candidate root squares to u / v or to -u / v whenever u / v has a root, for every modulus that is 5 modulo 8 and satisfies Fermat's theorem |
| PointCodec.GeFromBytesNegateVartime | kernel/crypto/ed25519/curve25519_ref10.c:1231-1273 | succeeds exactly when some x lies over the encoded y, and returns the x whose parity is not the encoded one |
| Parameters.CurveConstant | include/crypto/curve25519_ref10.h:56-58 | d is the one residue with 121666 d = -121665 modulo p |
| Parameters.Orders | kernel/crypto/ed25519/open.c:14-34 | p is 2^255 - 19 and L is 2^252 + 27742317777372353535851937790883648493 |
| Parameters.BasePoint | include/crypto/curve25519_ref10.h:54-58 | the point with y = 4 / 5 and even x is on the curve |
| Parameters.BaseEncoding | kernel/crypto/ed25519/curve25519_ref10.c:1231-1273 | it is encoded as 58 66 ... 66, and the y of that string has an x |
| PointCodec.DecodeIsNegation | kernel/crypto/ed25519/curve25519_ref10.c:1231-1273 | the coordinates it returns are those of the negated point the string stands for |
| PointCodec.EncodingDecodes | kernel/crypto/ed25519/curve25519_ref10.c:1400-1411 | a string that encodes a point stands for that point |
| PointCodec.OnePoint | kernel/crypto/ed25519/curve25519_ref10.c:1231-1273 | a string stands for at most one point |
| StrictDecoding.StrictIsEncoding | kernel/crypto/ed25519/curve25519_ref10.c:1400-1411 | the decoding of section 5.1.3 of RFC 8032 is the inverse of encoding |
| StrictDecoding.ZeroXByBytes | kernel/crypto/ed25519/curve25519_ref10.c:1231-1273 | the point a string stands for has x = 0 exactly for y = 1 and y = -1 modulo p |
| StrictDecoding.DecodingsAgree | kernel/crypto/ed25519/curve25519_ref10.c:1231-1273 | a string decodes to a point as section 5.1.3 has it if and only if it does so in the source and y is below p and no sign bit is set on y = 1 or y = p - 1 |
| Compare.Verify32 | kernel/crypto/ed25519/verify.c:27-38 | 0 exactly for equal strings, -1 otherwise |
| Sha512Spec.WordRoundTrip | include/crypto/common.h:110-147 | loading the big-endian octets of a word gives the word |
| Sha512Impl.MacrosAgree | kernel/crypto/sha512/hash_sha512_cp.c:90-91 | the shortened Ch and Maj are those of FIPS 180-4 |
| Sha512Impl.RoundHolds | kernel/crypto/sha512/hash_sha512_cp.c:99-107 | a round on the rotating slots is a round of section 6.4.2, seen one step on |
| Sha512Impl.RndAt | kernel/crypto/sha512/hash_sha512_cp.c:99-107 | RNDr writes only the two slots of d and h |
| Sha512Impl.Extend | kernel/crypto/sha512/hash_sha512_cp.c:109-111 | sixteen more words of the message schedule |
| Sha512Impl.EightyRounds | kernel/crypto/sha512/hash_sha512_cp.c:121-157 | block-wise schedule and rounds end with the working variables in their own slots |
| Sha512Impl.Transform | kernel/crypto/sha512/hash_sha512_cp.c:113-161 | the state becomes the compression of section 6.4.2 |
| Sha512Stream.CountAdd | kernel/crypto/sha512/hash_sha512_cp.c:223-228 | two wrapping words with a carry count the message bits modulo 2^128 |
| Sha512Stream.Context.constructor | kernel/crypto/sha512/hash_sha512_cp.c:194-207 | the empty message |
| Sha512Stream.Context.Count | kernel/crypto/sha512/hash_sha512_cp.c:223-228 | adds the length of the input to the bit count |
| Sha512Stream.Context.Update | kernel/crypto/sha512/hash_sha512_cp.c:209-254 | appends to the message: the state folds the full blocks, the buffer holds the tail, the count is the bit length |
| Sha512Stream.Context.PadBuffer | kernel/crypto/sha512/hash_sha512_cp.c:172-192 | one or two more blocks bring the state to the fold over the padded message |
| Sha512Stream.Context.Final | kernel/crypto/sha512/hash_sha512_cp.c:256-267 | the SHA-512 of everything appended, however it was split; the context is wiped |
| Sha512Stream.Hash | kernel/crypto/sha512/hash_sha512_cp.c:269-280 | the SHA-512 of the input |
| Sha512Constants.RoundConstants | kernel/crypto/sha512/hash_sha512_cp.c:60-88 | word i of the table is the first 64 bits of the fraction of the cube root of the i-th prime, as section 4.2.3 of FIPS 180-4 defines it, for all 80; the i-th prime is the one with i primes below it |
| Sha512Constants.InitialWords | kernel/crypto/sha512/hash_sha512_cp.c:196-202 | word i of the initial state is the same of its square root, as section 5.3.5 defines it |
| Sha512Constants.OneCubeRoot | kernel/crypto/sha512/hash_sha512_cp.c:60-88 | a prime gives only one such word |
| Sha512Constants.OneSquareRoot | kernel/crypto/sha512/hash_sha512_cp.c:196-202 | likewise for square roots |
| Sha512Sigma.BigSigma0Linear | kernel/crypto/sha512/hash_sha512_cp.c:94 | S0 is linear over exclusive or |
| Sha512Sigma.BigSigma1Linear | kernel/crypto/sha512/hash_sha512_cp.c:95 | so is S1 |
| Sha512Sigma.SmallSigma0Linear | kernel/crypto/sha512/hash_sha512_cp.c:96 | so is s0 |
| Sha512Sigma.SmallSigma1Linear | kernel/crypto/sha512/hash_sha512_cp.c:97 | so is s1 |
| Sha512Sigma.BigSigma0Turns | kernel/crypto/sha512/hash_sha512_cp.c:94 | S0 commutes with rotation |
| Sha512Sigma.BigSigma1Turns | kernel/crypto/sha512/hash_sha512_cp.c:95 | so does S1 |
| Sha512Sigma.BitImages | kernel/crypto/sha512/hash_sha512_cp.c:94-97 | where the four functions take the lowest and the highest bit; with the laws above that determines S0 and S1 |
| Sha512Spec.PadIs | kernel/crypto/sha512/hash_sha512_cp.c:172-192 | the padded message is the fewest whole blocks that hold the message, a one bit and the length, with zeros between them |
| Sha512Example.OutputWords | kernel/crypto/sha512/hash_sha512_cp.c:40-48 | the words of an output are those of the state |
| Sha512Example.Example | kernel/crypto/sha512/hash_sha512_cp.c:269-280 | the digest of "abc" that NIST publishes with FIPS 180-4, derived from the definition through padding, schedule and all 80 rounds |
| SignatureChecks.CheckBelowOrder | kernel/crypto/ed25519/open.c:14-34 | the byte-wise comparison from the top is the comparison of numbers with L |
| SignatureChecks.ListedAt | kernel/crypto/ed25519/open.c:40-93 | the number each entry of the list stands for |
| SignatureChecks.SmallOrder | kernel/crypto/ed25519/open.c:36-107 | 1 exactly on the twelve listed numbers |
| Torsion.DoubledNeutral | kernel/crypto/ed25519/open.c:40-93 | twice a point is neutral exactly if its x is 0 |
| Torsion.NoSecondRoot | kernel/crypto/ed25519/open.c:40-93 | a second pair of y coordinates of order 8 would make the addition law fail |
| SmallOrderPoints.TorsionIs | kernel/crypto/ed25519/open.c:40-93 | 8 a = 0 exactly for five values of the y of a |
| SmallOrderPoints.ListedIsTorsion | kernel/crypto/ed25519/open.c:36-107 | a 256-bit number is listed if and only if it is, modulo p, the y of a point a with 8 a = 0 |
| SmallOrderPoints.TorsionListed | kernel/crypto/ed25519/open.c:36-107 | the encoding of such a point is listed if and only if its sign bit is clear |
| Signature.HashInit | kernel/crypto/ed25519/sign.c:10-24 | an empty hash, or one that has absorbed the domain string |
| Signature.ExpandSeed | kernel/crypto/ed25519/sign.c:37-40 | the clamped secret scalar as a number, and the untouched second half of the digest |
| Signature.ClampedIs | kernel/crypto/ed25519/sign.c:38-40 | clamping keeps bits 3 to 253, clears the others and sets bit 254, and no other number does |
| Signature.Dom2Is | kernel/crypto/ed25519/sign.c:13-18 | the domain string is the prefix of section 2 of RFC 8032 with the flag 1 and an empty context |
| Signature.NoncesAgree | kernel/crypto/ed25519/sign.c:42-49 | two messages under one key get the same nonce if and only if the SHA-512 digests of prefix and message agree modulo L |
| Signature.SeedKeypair | kernel/crypto/ed25519/keypair.c:11-29 | the public key encodes a B for a the clamped first half of SHA-512 of the seed, the secret key is the seed followed by it |
| Signature.Sign | kernel/crypto/ed25519/sign.c:26-67 | R encodes r B and S = (h a + r) mod L, with r, h and a written out as SHA-512 digests of prefix, R, key and message, the way section 5.1.6 of RFC 8032 derives them |
| Signature.Verify | kernel/crypto/ed25519/open.c:110-155 | returns 0 exactly if S is below L, R is not listed, the key is not zero and stands for a point A in the decoding of the source, and R is the encoding of S B - h A; and -1 otherwise |
| Signature.BalancedIsEquation | kernel/crypto/ed25519/open.c:143-155 | comparing bytes is decoding R as section 5.1.3 has it and testing S B = R + h A |
| Signature.VerifyAndRfc | kernel/crypto/ed25519/open.c:110-155 | verification accepts under a canonical key if and only if section 5.1.7 of RFC 8032 accepts and neither R is listed nor the key is zero |
| Signature.LooseKeyIsAccepted | kernel/crypto/ed25519/open.c:110-155 | the key p + 1 is accepted with every S and the R that belongs to it, where section 5.1.3 refuses the key |
| Signature.SignedIsAccepted | kernel/crypto/ed25519/open.c:110-155 | a produced signature is accepted if and only if the public key is not all zero and R is not on the list |
| Signature.ZeroNonceIsRejected | kernel/crypto/ed25519/open.c:110-155 | R of a zero nonce is on the list |
| Signature.OneSignature | kernel/crypto/ed25519/open.c:126-128 | two accepted signatures of one message under one key that share R are the same string, because S is below L |
| PageWalk.PathOfTable | kernel/arch/x64/paging.c:94-126 | the four indices of the addresses the get_pl functions compute |
| PageWalk.SelfMapReachesTable | kernel/arch/x64/paging.c:94-126 | with slot 256 pointing at the top table, the hardware walk of a table address ends in exactly that table |
| PageTree.NodeKept | kernel/arch/x64/paging.c:163-290 | a store to a leaf or to a frame that is no table moves no table |
| PageTree.TreeWithTable | kernel/arch/x64/paging.c:226-262 | hanging a cleared frame below an existing table keeps the tables a tree |
| PageTree.LeafWithTable | kernel/arch/x64/paging.c:226-262 | and changes no leaf |
| PageTree.OpenWithTable | kernel/arch/x64/paging.c:231-262 | a new table takes no right away from the pages below it |
| PageTree.OpenKept | kernel/arch/x64/paging.c:271 | nor does a store outside the tables or to one leaf |
| FrameStack.PopPages | kernel/core/physical_allocator.c:157-184 | taking a page takes exactly that page out of the free ones, and they stay distinct |
| FrameStack.PushPages | kernel/core/physical_allocator.c:187-210 | giving a range back adds exactly its pages |
| FrameStack.HeaderLast | kernel/core/physical_allocator.c:162-177 | the frame that carries the links of a range is handed out last of that range |
| PagedSteps.ClientWrite | kernel/core/physical_allocator.c:13-16 | overwriting any frame that is neither free nor a table keeps the list, the pivot, the tables and every leaf |
| Pivot.ShrinkOk | kernel/core/physical_allocator.c:175-177 | while a range has more pages only its length changes |
| Pivot.AdvanceOk | kernel/core/physical_allocator.c:163-174 | after the last page of a range the pivot shows the next one |
| Pivot.LinkOk | kernel/core/physical_allocator.c:200-207 | the new range becomes the top of the list and the pivot shows it |
| Paging.Kernel.LoadEntry | kernel/arch/x64/paging.c:128-143 | reads through the walk, and only tables that are in use |
| Paging.Kernel.HasTables | kernel/arch/x64/paging.c:277-280 | all three upper levels are present |
| Paging.Kernel.EnsureTable | kernel/arch/x64/paging.c:226-262 | one missing level is created from one free frame; a present one is left alone; it faults exactly when the level is missing and no frame is free |
| Paging.Kernel.MapPage | kernel/arch/x64/paging.c:209-274 | refusal, presence, success and fault exactly; one frame per missing level; only the named leaf and the pivot change; it faults exactly when there are fewer free frames than missing levels, and never returns the out-of-memory status |
| Paging.Kernel.UnmapPage | kernel/arch/x64/paging.c:276-290 | the leaf becomes the free entry, upper levels stay, and the frame the leaf names is given back when asked for; an assertion of the allocator trips exactly if it does not take that frame |
| Paging.Kernel.PhysicalAlloc | kernel/core/physical_allocator.c:157-184 | faults exactly on the empty list; otherwise returns the top page and leaves a consistent list; the nested mapping of the pivot always succeeds and needs no frame |
| Paging.PivotReadable | kernel/core/physical_allocator.c:157-184 | the pivot shows a frame if and only if the list is not empty |
| Paging.Drain | kernel/core/physical_allocator.c:157-184 | repeated allocation hands out every free frame, as many times as there are frames, and then faults |
| Paging.Kernel.PhysicalFreeRange | kernel/core/physical_allocator.c:187-210 | the range is the new top of the list; no assertion fires |
| Paging.Kernel.PhysicalFree | kernel/core/physical_allocator.c:213-215 | the same for one page |
| AddressSpace.AdmittedIsSafe | kernel/arch/x64/paging.c:212-218 | the permission test admits no leaf that is writable and executable, and no user leaf of the higher half |
| AddressSpace.RefusedIs | kernel/arch/x64/paging.c:212-218 | for a canonical address the test refuses a request if and only if its leaf would be unsafe; for the others it refuses user access as well |
| AddressSpace.RightsAre | kernel/arch/x64/paging.c:226-271 | where no upper entry takes a right away, the walk grants a mapped page exactly the rights it was mapped with |
| AddressSpace.NeverBoth | kernel/arch/x64/paging.c:212-218 | with safe leaves the walk lets no page be both written and executed, and no user into the higher half |
| AddressSpace.Map | kernel/arch/x64/paging.c:209-274 | on the partial map from pages to frames and permissions: adds one page, changes nothing, or faults, each exactly when; all leaves stay safe and the upper tables go on granting every right |
| AddressSpace.Unmap | kernel/arch/x64/paging.c:276-290 | removes one page and nothing else |
| AddressSpace.UnmapAndFree | kernel/arch/x64/paging.c:276-290 | removes one page and makes exactly the frame its leaf names free; trips exactly when the allocator refuses that frame |
| AddressSpace.NamedIsMapped | kernel/arch/x64/paging.c:284-286 | the frame given back is the one the page maps to if and only if the leaf is present |
| AddressSpace.SecondUnmap | kernel/arch/x64/paging.c:284-288 | freeing a page that an earlier unmap cleared always trips the range assertion |
| AddressSpace.UnwrittenUnmap | kernel/arch/x64/paging.c:284-288 | freeing a page that was never mapped, in a table that is there, makes frame 0 free |
| AddressSpace.Update | kernel/arch/x64/paging.c:163-187 | replaces the permissions of one mapped page and keeps its frame |
| PageRanges.UnmapRange | kernel/arch/x64/paging.c:310-315 | removes exactly the pages of the range |
| PageRanges.UnmapRangeAndFree | kernel/arch/x64/paging.c:310-315 | removes exactly the pages of the range and makes free exactly the frames their leaves name; trips exactly if some leaf names a frame the allocator refuses |
| PageRanges.MapRange | kernel/arch/x64/paging.c:317-331 | succeeds exactly when every page may have the permissions, is unmapped and occurs once; then all are mapped to consecutive frames, and otherwise the map is as before; faults exactly when the free frames do not cover the missing tables of the pages before the first that fails |
| PageRanges.TablesNeeded | kernel/arch/x64/paging.c:317-331 | each page takes frames exactly for its own missing tables among those that the range lacks |
| Teardown.LowerFramesAre | kernel/arch/x64/paging.c:379-404 | the frames the loops visit are exactly those the walk reaches below the lower half |
| Teardown.PlannedOnce | kernel/arch/x64/paging.c:379-404 | if no frame is reached along two paths, none is visited twice |
| Teardown.FreeTables | kernel/arch/x64/paging.c:379-404 | the loops free the visited frames in order, and no table is read after it was freed |
| Teardown.PageTableFini | kernel/arch/x64/paging.c:376-408 | all of them and then the root are given back, each once; the address space is restored, no other word but the pivot leaf changes, and the surviving space keeps its tables and leaves |
| Teardown.FreedExactlyOnce | kernel/arch/x64/paging.c:376-408 | the frames of a disposable table are distinct and none is free before; afterwards the free frames are these and those from before |
| Teardown.SurvivorKept | kernel/arch/x64/paging.c:376-408 | a space none of whose tables was freed stays a tree with the same leaves but the pivot's |
| Regions.RegionVector.constructor | kernel/core/region_vector.c:39-42 | an empty vector of one page |
| Regions.RegionVector.Alloc | kernel/core/region_vector.c:111-135 | the front of the first record strictly longer than the request; fails exactly when there is none |
| Regions.RegionVector.Free | kernel/core/region_vector.c:172-193 | the record becomes the last of the first page with room, all pages before it full, or the only one of a new last page |
| Regions.RegionVector.FindSizeAndFree | kernel/core/region_vector.c:148-170 | removes the first record at the address and reports its size; the last record of its page takes its place, and an emptied page leaves the chain unless it is the head |
| Regions.FirstAfterAppend | kernel/core/region_vector.c:172-193 | where only the last page has room, an added record serves a request if and only if it is longer and no record was |
| Heap.Disjoint | kernel/core/heap.c:14-18 | in a tiling no two regions share a byte |
| Heap.Allocated | kernel/core/heap.c:54-78 | splitting a free region keeps the tiling, the fill and the usage |
| Heap.Freed | kernel/core/heap.c:102-120 | returning a used region keeps them |
| Heap.PayloadWritten | kernel/core/heap.c:9-10 | writes inside a payload disturb no free byte and no red zone |
| Heap.KernelHeap.constructor | kernel/core/heap.c:24-52 | one free region over the whole heap, all bytes filled |
| Heap.FillPattern | kernel/core/heap.c:9-10 | eight fill bytes are the 64-bit pattern that kmalloc and kfree compare with |
| Heap.RangeTest | kernel/core/heap.c:71-74 | in 64-bit arithmetic the range assertions fail exactly for an empty request at the first byte, or for a wrapped one served from the first few |
| Heap.KernelHeap.KMalloc | kernel/core/heap.c:54-78 | for every 64-bit size: NULL exactly when no free region is longer than the wrapped request; an assertion trips exactly when the first fitting region fails the range test; otherwise the front of that region is used, with its payload filled, and the record keeps its place; the heap stays consistent exactly if the request does not wrap |
| Heap.EmptyRequest | kernel/core/heap.c:54-78 | kmalloc(0) on a fresh heap trips an assertion |
| Heap.WrappedRequest | kernel/core/heap.c:54-78 | after kmalloc(8) a request for 2^64 - 1 bytes is granted with a used region of 15 bytes |
| Heap.FreeThenRequest | kernel/core/heap.c:54-120 | on a fresh heap kmalloc(100), kfree of it and kmalloc(50) return base + 8 and base + 124: the freed region is not used |
| Heap.KernelHeap.KCalloc | kernel/core/heap.c:93-100 | the same for count times size modulo 2^64, with a zeroed payload and no other byte changed; the clearing leaves the heap exactly for a wrapped request |
| Heap.OneAtAddress | kernel/core/heap.c:102-120 | live regions are told apart by their address |
| Heap.KernelHeap.KFree | kernel/core/heap.c:102-120 | the region at the pointer moves from used to the end of the free records, its bytes are filled, usage drops by its size; every request that could be served is served from the same place as before; no assertion fires |
| Heap.KernelHeap.ClientStore | kernel/core/heap.c:9-10 | a client store inside its payload keeps the heap consistent |
| HashTables.Inserted | kernel/core/hashtable.c:172-177 | writing an entry at the first Empty slot of its run adds that entry and keeps every entry reachable |
| HashTables.StillFirst | kernel/core/hashtable.c:172-177 | and, before any growth, every key is found where it was found before, the new one too if it had an entry |
| HashTables.LastInOrder | kernel/core/hashtable.c:136-141 | copying slot by slot, the entries of one key come to be probed in the order of the slots they had |
| HashTables.CopyFinds | kernel/core/hashtable.c:136-141 | what is found for a key in the copy is the entry that had its lowest slot |
| HashTables.PutKeepsFound | kernel/core/hashtable.c:172-183 | a put keeps the entry found for a key if and only if the table does not grow or that entry has the lowest slot of the key's, the new entry counted in |
| HashTables.Removed | kernel/core/hashtable.c:154-156 | a tombstone removes its entry and keeps every other one reachable |
| HashTables.OnceAdded | kernel/core/hashtable.c:172-177 | the entries stay a finite map if and only if the key is new |
| HashTables.OnceRemoved | kernel/core/hashtable.c:152-161 | a map stays one when an entry is removed, and the key is gone from it |
| HashTables.EnoughEmpty | kernel/core/hashtable.c:113-115 | without tombstones a table of 32 or more slots that need not grow has Empty slots to spare |
| HashTables.LoadIs | kernel/core/hashtable.c:113-121 | the two load tests, without integer division |
| HashTables.HashTable.constructor | kernel/core/hashtable.c:42-58 | no entries |
| HashTables.HashTable.Seek | kernel/core/hashtable.c:65-87 | finds the first slot of the probes that holds the key, exactly when the key has an entry, and passes its loop without an answer exactly when it has none and no slot but its home is Empty |
| HashTables.HashTable.SeekEmpty | kernel/core/hashtable.c:89-107 | the first Empty slot of the run of the key; reaches its assertion exactly when no slot is Empty |
| HashTables.HashTable.Get | kernel/core/hashtable.c:163-170 | the value of the first entry of the key, nothing exactly if it has none and the search ends, and the assertion exactly if the search does not end |
| HashTables.HashTable.Put | kernel/core/hashtable.c:172-183 | writes the entry at the first Empty slot of its run, whether or not the key has one; fails exactly on a table without Empty slots; doubles the table exactly when it should grow and there is memory, and is then the slot-order copy of the table with the entry; keeps a table without removals in a state where every search ends |
| HashTables.HashTable.Rebalance | kernel/core/hashtable.c:123-150 | the same entries in a larger table without tombstones, those of one key in the order of their old slots; no nested put grows again; without memory nothing changes |
| HashTables.HashTable.Remove | kernel/core/hashtable.c:152-161 | removes the first entry of the key; trips the assertion on the new size exactly if the table should shrink, writes through NULL exactly if the key has no entry and the search ends |
| HashTables.HashTable.RoomyEnds | kernel/core/hashtable.c:65-107 | in a run without removals every search ends |
| HashTables.WornOut | kernel/core/hashtable.c:65-87 | a run of puts and removals after which a search for an absent key reaches the assertion behind the loop |
| HashTables.ShrinkTrips | kernel/core/hashtable.c:117-126 | one put and one removal on a table of 16 slots trip the assertion on the new size |
| HashTables.FillsUp | kernel/core/hashtable.c:89-107 | the third put into a table of two slots reaches the assertion behind the search for an Empty slot |
| HashTables.SecondPut | kernel/core/hashtable.c:172-183 | after two puts of one key into a new table a lookup gives the value of the first |
| HashTables.Overtaken | kernel/core/hashtable.c:123-183 | a run of puts after which the put of another key changes the value found for a key, with no put or removal of it |

## Left out

- Primality of 2^255 - 19 and associativity of the Edwards group: hypotheses `Fermat` and `Abelian` of the abstract curve, with `AllPoints` where every point of the curve must be an element.
- The precomputed tables of multiples of the base point: hypotheses `BaseTable` and `OddTable`.
- Recode.Radix16: scalars with a top byte above 127; its callers pass clamped or reduced scalars.
- Field elements and points are values: the model does not capture output limbs that overlap an input.
- Unrolled carry chains and column sums are written as passes over the limbs where the source repeats one line; byte loops of one copy or one fill are one step.
- The scratch words that SHA-512 shares between calls are local to each transform.
- Timing, constant-time behaviour and the wiping of stack buffers other than the hash context.
- ge_scalarmult_vartime and the batch signatures of obsolete.c, its only caller, which passes a result of sc_reduce.
- Sha512Stream: the two count words are numbers written by BigEndian, the state words bit-vectors written by Octets; that both write a word alike is not stated.
- crypto_sign_ed25519 and crypto_sign_ed25519_open, which only move the message beside the signature, and the conversions to Curve25519 keys.
- Signature.Sign: the message length is below 2^64, as its type is.
- Paging.Kernel.MapPage: nothing is said of the state after a fault.
- Paging.Kernel.UnmapPage: freeing a frame that the allocator takes although it is free already or a page table; the caller must exclude that, also for UnmapAndFree and UnmapRangeAndFree.
- Large pages, the cached translations that invlpg drops, and accesses by other processors. Each lock-protected section is one step.
- paging_init, page_table_init and page_table_clone, virt_to_phys and the external mapping functions that only switch cr3.
- Teardown.FreeTables: the four nested loops are one loop per level, called again for the level below; their counters are the list of indices 0 to 511.
- Teardown.PageTableFini: the kfree of the descriptor.
- insert_regions and physical_page_remove; the allocator starts from any well-formed list.
- Regions.RegionVector: a chain is the sequence of its pages, so the next pointers and the page that holds each record array are not modelled; a new page is always available.
- region_alloc_random, region_vector_fini, krealloc.
- Heap.KernelHeap.KMalloc: nothing is said of the state after a failed assertion.
- Heap.KernelHeap.KFree: pointers that are not live.
- HashTables.HashTable: the comparison function is equality of keys and the hash is any function; whether growth finds memory is a parameter. hash_str is not part of this model.
- Signature.VerifyAndRfc: the equation without the cofactor, which section 5.1.7 names as sufficient, with the challenge reduced modulo L as the source does.
- Locks, reference counts, the scheduler, processes, devices, modules, formatting and logging.
