# Drynx core, modelled in Dafny

Drynx answers statistical queries over data held by several data
providers, without any of them revealing its records. Each data provider
computes a local result for the query (a sum, a mean, a variance, a
histogram, a minimum, a set union, the terms of a linear or logistic
regression, ...). It encodes the result as a vector of integers,
encrypts each entry under the collective ElGamal key, and attaches
range proofs. The computing nodes aggregate the ciphertexts
homomorphically up a tree. The verifying nodes check the proofs and
keep a bitmap of which proofs passed. The querier decodes the
aggregate. A skipchain records the verification results.

The model keeps the arithmetic and the bookkeeping and abstracts the
cryptography:

- A ciphertext is the integer it encrypts (`Common.CipherText(plain)`).
  Homomorphic addition is integer addition, and decryption reads the
  integer.
- Signatures and proofs are opaque values. A proof request records
  which signatures, bounds, secret and ciphertext it was built from.
- Floating point values are exact `real`s. Where Go would produce an
  infinity or NaN, the model returns `None`.
- Randomness, the clock, the network and file I/O are parameters:
  a coin function, the draws made, the text of a file.

Modules follow the source files:

- `SumEncoding`, `MeanEncoding`, `VarianceEncoding`, `CosimEncoding`,
  `FrequencyCount`, `ModelEvaluation`, `OrAnd`, `MinMax`,
  `SetUnionIntersection`, `LinearRegressionDims`, `EncodeDecode` and the
  `Logistic*` modules cover `lib/encoding`. `Encoding` holds the steps
  every encoder shares.
- `RangeProof` covers `lib/range_proof.go` and `CommonStructs` covers
  `lib/common_structs.go`.
- `Api`, `Service` and `ServiceSkipchain` cover the services.
- `ProofCollection`, `DataCollection` and `CollectiveAggregation`
  cover the protocols.
- `HandleData`, `ParseTimeData` and `FileLoader` cover the test-data
  generator, the timing parser and the file loader.
- `Predict` and `CleanData` cover the two Python scripts.
- `Common`, `Seqs` and `Text` hold shared definitions.

Each loop of the source is a method proved against a specification
function. The properties the source relies on are lemmas about those
functions: decoding inverts encoding, aggregation commutes with
encoding, results stay within their bounds, and state invariants are
kept.

## Model

| member | source | states |
|---|---|---|
| SumEncoding.EncodeSumWithProofs | lib/encoding/sum.go:16-32 | the ciphertext encrypts the sum of the inputs and the clear result is that sum; without signatures there are no proofs, otherwise one request over the signatures, bounds, sum and ciphertext |
| SumEncoding.EncodeSum | lib/encoding/sum.go:10-13 | encrypts the sum of the inputs and returns it in clear |
| SumEncoding.DecodeSum | lib/encoding/sum.go:35-39 | the decoded value is the plaintext the ciphertext encrypts: encrypting it again gives the same ciphertext |
| SumEncoding.DecodeAggregatedSums | lib/encoding/sum.go:35-39 | decoding the homomorphic sum of every provider's encrypted sum gives the sum of all records together |
| MeanEncoding.EncodeMeanWithProofs | lib/encoding/mean.go:16-61 | the clear result is [sum, count]; each ciphertext encrypts its entry; with signatures, one proof request per entry from signature column i and bounds i |
| MeanEncoding.EncodeMean | lib/encoding/mean.go:10-13 | the clear result is [sum, count] and the ciphertexts encrypt it |
| MeanEncoding.DecodeMean | lib/encoding/mean.go:64-77 | the mean is defined exactly when the count is non-zero and then times the count gives the sum |
| MeanEncoding.MeanOfAggregate | lib/encoding/mean.go:16-77 | decoding the sum of two providers' encodings gives the mean of their records together |
| VarianceEncoding.EncodeVarianceWithProofs | lib/encoding/variance.go:15-62 | the clear result is [sum, count, sum of squares], encrypted entry by entry, with one proof request per entry |
| VarianceEncoding.EncodeVariance | lib/encoding/variance.go:9-12 | the clear result is [sum, count, sum of squares] and the ciphertexts encrypt it |
| VarianceEncoding.DecodeVariance | lib/encoding/variance.go:65-80 | defined exactly when the count is non-zero; then variance times count squared equals count times sum of squares minus sum squared |
| VarianceEncoding.SquaredDeviations | lib/encoding/variance.go:65-80 | the sum of squared deviations from any point is non-negative |
| VarianceEncoding.SpreadNonNegative | lib/encoding/variance.go:65-80 | count times sum of squares is at least the square of the sum |
| VarianceEncoding.DecodedSign | lib/encoding/variance.go:65-80 | a positive count and a non-negative spread decode to a defined, non-negative variance |
| VarianceEncoding.VarianceNonNegative | lib/encoding/variance.go:15-80 | the decoded variance of any non-empty record list is defined and non-negative |
| VarianceEncoding.AggregateIsEncodingOfUnion | lib/encoding/variance.go:15-62 | adding two providers' encodings gives the encoding of their records together |
| CosimEncoding.EncodeCosimWithProofs | lib/encoding/cosim.go:17-66 | the clear result is the five sums (of rij, of rik, of squares of each, of products), encrypted entry by entry, with one proof request per entry |
| CosimEncoding.EncodeCosim | lib/encoding/cosim.go:11-14 | the clear result is the five cosine-similarity sums and the ciphertexts encrypt it |
| CosimEncoding.CrossDeviations | lib/encoding/cosim.go:69-85 | the weighted cross term of two vectors is non-negative, the induction step of Cauchy-Schwarz |
| CosimEncoding.DotPrefix | lib/encoding/cosim.go:17-66 | the dot product reads only as many riks as there are rijs |
| CosimEncoding.CauchySchwarz | lib/encoding/cosim.go:69-85 | the squared dot product is at most the product of the squared norms |
| CosimEncoding.DecodedCosimBounded | lib/encoding/cosim.go:69-85 | the decoded terms of any encoding satisfy dot² ≤ ‖rij‖²·‖rik‖², so the cosine lies in [-1, 1] |
| CosimEncoding.DecodeCosim | lib/encoding/cosim.go:69-85 | the terms of the cosine are decrypted entries 4 (dot product), 2 and 3 (squared norms) of the result, and re-encrypting them gives those entries back |
| CosimEncoding.DotAppend | lib/encoding/cosim.go:17-66 | the dot product of two concatenations of equal-length pairs is the sum of the two parts' dot products |
| CosimEncoding.AggregateIsEncodingOfUnion | lib/encoding/cosim.go:17-66 | adding two providers' five-sum encodings entry by entry gives the encoding of their pairs together |
| Encoding.EncryptValues | lib/encoding/mean.go:25-38 | ciphertext i encrypts clear entry i, and there are as many ciphertexts as entries |
| Encoding.ProofRequests | lib/encoding/mean.go:44-59 | request i is built from signature column i, bounds i, clear entry i and ciphertext i, one per entry |
| Encoding.BuildProofs | lib/encoding/mean.go:44-59 | the proof-building loop produces exactly the requests above |
| FrequencyCount.Histogram | lib/encoding/frequency_count.go:18-27 | the histogram has one bucket per value of [min, max] |
| FrequencyCount.EncodeFreqCountWithProofs | lib/encoding/frequency_count.go:17-63 | the ciphertexts encrypt the histogram of the inputs over [min, max] and the clear result is [0]; with signatures, one proof request per bucket |
| FrequencyCount.EncodeFreqCount | lib/encoding/frequency_count.go:11-14 | the ciphertexts encrypt the histogram and the clear result is [0] |
| FrequencyCount.DecodeFreqCount | lib/encoding/frequency_count.go:66-82 | count i is the value decrypted from ciphertext i |
| FrequencyCount.HistogramTotal | lib/encoding/frequency_count.go:18-27 | when every input lies in [min, max] the buckets add up to the number of inputs |
| FrequencyCount.AggregatedHistogram | lib/encoding/frequency_count.go:17-82 | adding two providers' encrypted histograms gives the histogram of their inputs together |
| ModelEvaluation.EncodeModelEvaluationWithProofs | lib/encoding/model_evaluation.go:16-80 | the ciphertexts encrypt [count, sum of y, sum of y², sum of squared errors] and the clear result is [0]; with signatures, one proof request per entry |
| ModelEvaluation.TotalVariation | lib/encoding/model_evaluation.go:96 | the denominator Σy² − (Σy)²/N, with Go's truncating integer division, is non-negative whenever N > 0 and N·Σy² ≥ (Σy)² |
| ModelEvaluation.DecodeModelEvaluation | lib/encoding/model_evaluation.go:83-98 | R² is defined exactly when the total variation is non-zero, and then (1 - R²) times it is the sum of squared errors |
| ModelEvaluation.PerfectPredictionNoError | lib/encoding/model_evaluation.go:16-80 | predictions equal to the labels give a zero squared error |
| ModelEvaluation.SquaredErrorsNonNegative | lib/encoding/model_evaluation.go:16-80 | the squared error is non-negative |
| ModelEvaluation.DecodedScoreAtMostOne | lib/encoding/model_evaluation.go:16-98 | the decoded total variation is non-negative, R² is at most 1, and exactly 1 for a perfect prediction |
| OrAnd.PickNonZeroIsZeroIff | lib/encoding/OR_AND.go:40-48 | the retry loop as evidently intended, testing the scalar's value, ends on zero exactly when every one of its twelve draws is zero |
| OrAnd.PickNonZeroByValue | lib/encoding/OR_AND.go:40-48 | the retry loop with a value test (the corrected version) returns the first non-zero of draws 0..11, or zero when all are zero |
| OrAnd.RetriedBitDecodes | lib/encoding/OR_AND.go:40-66 | with the value test, a set OR bit or a clear AND bit decodes correctly as soon as one of the twelve draws is non-zero |
| OrAnd.ZeroFirstDrawLosesBit | lib/encoding/OR_AND.go:40-66 | first draw 0, then 7: the encoders as written encrypt 0 for a set OR bit, which decodes as unset, while the value test would re-draw 7 |
| OrAnd.PickRandomNonZero | lib/encoding/OR_AND.go:40-48 | as written: the test compares two distinct scalar objects by reference, never holds, so the first draw is kept even when it is zero |
| OrAnd.EncodeBitOrWithProof | lib/encoding/OR_AND.go:22-55 | with signatures the bit is encrypted as 0/1 with a proof request; without, a true bit encrypts the first random draw, a false bit zero, and the clear value is 0 |
| OrAnd.EncodeBitOr | lib/encoding/OR_AND.go:16-19 | a true bit encrypts the first random draw, a false bit zero |
| OrAnd.EncodeBitAndWithProof | lib/encoding/OR_AND.go:75-108 | with signatures the negated bit is encrypted as 0/1 with a proof request; without, a false bit encrypts the first random draw, a true bit zero, and the clear value is 1 |
| OrAnd.EncodeBitAnd | lib/encoding/OR_AND.go:69-72 | a false bit encrypts the first random draw, a true bit zero |
| OrAnd.DecodeBitOr | lib/encoding/OR_AND.go:58-66 | the OR is true exactly when the decrypted value is non-zero |
| OrAnd.DecodeBitAnd | lib/encoding/OR_AND.go:111-119 | the AND is true exactly when the decrypted value is zero |
| OrAnd.DecodeEncodedBit | lib/encoding/OR_AND.go:22-119 | decoding a single encoded bit returns the bit, when a proof is attached or the first draw (the scalar the encoders keep) is non-zero |
| OrAnd.LocalResultOr | lib/encoding/OR_AND.go:122-131 | the local result is true exactly when some input is true |
| OrAnd.LocalResultAnd | lib/encoding/OR_AND.go:134-143 | the local result is true exactly when every input is true |
| MinMax.ExtremaBound | lib/encoding/min_max.go:13-18 | the minimum (maximum) is one of the inputs and no input is below (above) it |
| MinMax.LocalMin | lib/encoding/min_max.go:13-18 | the scanning loop finds the minimum: an input that no input is below |
| MinMax.LocalMax | lib/encoding/min_max.go:86-91 | the scanning loop finds the maximum: an input that no input exceeds |
| MinMax.ThresholdBits | lib/encoding/min_max.go:25-31 | bit i is set exactly when min + i reaches the bound |
| MinMax.EncodeThreshold | lib/encoding/min_max.go:20-43 | slot i holds the OR (or AND) encoding of the bit "min + i reaches the bound", with the proof request built from signature column i and bounds i |
| MinMax.EncodeMinWithProofs | lib/encoding/min_max.go:11-44 | slot i holds the OR encoding of "min + i is at least the local minimum" |
| MinMax.EncodeMin | lib/encoding/min_max.go:47-50 | slot i encrypts the OR encoding of "min + i is at least the local minimum", with clear value 0 |
| MinMax.EncodeMaxWithProofs | lib/encoding/min_max.go:84-117 | slot i holds the AND encoding of "min + i is at least the local maximum" |
| MinMax.EncodeMax | lib/encoding/min_max.go:79-82 | slot i encrypts the AND encoding of "min + i is at least the local maximum", with clear value 1 |
| MinMax.FirstTrue | lib/encoding/min_max.go:66-73 | the index of the first set bit: no bit before it is set, and it is set unless it is the length |
| MinMax.FirstTrueUnique | lib/encoding/min_max.go:66-73 | any index with no set bit before it and a set bit at it is the first set bit |
| MinMax.DecodedBits | lib/encoding/min_max.go:56-64 | bit i is the OR (or AND) decoding of ciphertext i |
| MinMax.DecodeThreshold | lib/encoding/min_max.go:53-76 | the decoded value comes from the first set bit, offset by the global minimum (0 when no bit is set) |
| MinMax.DecodeMin | lib/encoding/min_max.go:53-76 | the decoded minimum comes from the first set OR bit |
| MinMax.DecodeMax | lib/encoding/min_max.go:120-143 | the decoded maximum comes from the first set AND bit |
| MinMax.DecodedThreshold | lib/encoding/min_max.go:11-76 | decoding an encoded threshold vector gives back its bits, they are monotone, and the decoded value is the bound when the bound is in [min, max] |
| MinMax.MinMaxRoundTrip | lib/encoding/min_max.go:11-143 | for inputs in [min, max], decoding the encoded minimum (maximum) returns the minimum (maximum) |
| SetUnionIntersection.DistinctProperties | lib/encoding/set_union_intersection.go:158-168 | the distinct values have no duplicates and are exactly the values of the input |
| SetUnionIntersection.Unique | lib/encoding/set_union_intersection.go:158-168 | the deduplication loop returns the values of the input, each once, in first-seen order |
| SetUnionIntersection.OccurrenceBits | lib/encoding/set_union_intersection.go:18-62 | bit i is set exactly when min + i occurs in the input |
| SetUnionIntersection.EncodeSlot | lib/encoding/set_union_intersection.go:28-56 | one slot is the OR (or AND) bit encoding of "present", with its clear value and proof request |
| SetUnionIntersection.SlotUpdate | lib/encoding/set_union_intersection.go:28-56 | writing one slot leaves every other slot's encoding as it was |
| SetUnionIntersection.EncodeIndicator | lib/encoding/set_union_intersection.go:18-62 | every slot holds the encoding of "min + i occurs in the input": first the present values, then the remaining slots |
| SetUnionIntersection.EncodeUnionWithProofs | lib/encoding/set_union_intersection.go:18-62 | the slots hold the OR encoding of membership; with signatures the clear value is 1 exactly for the values present |
| SetUnionIntersection.EncodeInterWithProofs | lib/encoding/set_union_intersection.go:93-134 | the slots hold the AND encoding of membership; with signatures the clear value is 0 exactly for the values present |
| SetUnionIntersection.EncodeUnion | lib/encoding/set_union_intersection.go:12-15 | slot i encrypts the OR encoding of "min + i occurs in the input", with clear value 0 |
| SetUnionIntersection.EncodeInter | lib/encoding/set_union_intersection.go:87-90 | slot i encrypts the AND encoding of "min + i occurs in the input", with clear value 1 |
| SetUnionIntersection.DecodeUnion | lib/encoding/set_union_intersection.go:65-84 | output i is 1 exactly when ciphertext i decodes to a true OR bit |
| SetUnionIntersection.DecodeInter | lib/encoding/set_union_intersection.go:137-155 | output i is 1 exactly when ciphertext i decodes to a true AND bit |
| SetUnionIntersection.DecodedSlotsAreIndicator | lib/encoding/set_union_intersection.go:18-155 | decoding an encoded slot vector says, for each value of [min, max], whether it occurs in the input |
| LinearRegressionDims.GramRow | lib/encoding/linear_regression_dims.go:59-68 | row a of the upper triangle: entry t is the sum over records of x_a·x_(a+t), with x_0 = 1 |
| LinearRegressionDims.GramRows | lib/encoding/linear_regression_dims.go:36-68 | the first m rows of the triangle, laid end to end, take RowStart(d, m) slots |
| LinearRegressionDims.TriPos | lib/encoding/linear_regression_dims.go:114-130 | the slot of entry (a, b) falls inside row a's block |
| LinearRegressionDims.DotYs | lib/encoding/linear_regression_dims.go:43-57 | entry j is the sum over records of y·x_j |
| LinearRegressionDims.Tuple | lib/encoding/linear_regression_dims.go:19-81 | the encoded tuple has TupleLength(d) entries |
| LinearRegressionDims.RowStartClosedForm | lib/encoding/linear_regression_dims.go:59-68 | the triangle's first a rows hold a(2d + 3 - a)/2 entries |
| LinearRegressionDims.TupleLengthClosedForm | lib/encoding/linear_regression_dims.go:106-107 | twice the tuple length is d² + 5d + 4, the equation the decoder solves for d |
| LinearRegressionDims.TriPosUnique | lib/encoding/linear_regression_dims.go:114-130 | distinct upper-triangle entries occupy distinct slots |
| LinearRegressionDims.TriPosBelowTotal | lib/encoding/linear_regression_dims.go:114-130 | every upper-triangle slot lies before the y-sums |
| LinearRegressionDims.GramRowsLayout | lib/encoding/linear_regression_dims.go:36-68 | slot TriPos(a, b) of the triangle holds the (a, b) Gram entry |
| LinearRegressionDims.TupleLayout | lib/encoding/linear_regression_dims.go:19-81 | the tuple is the record count, the Gram triangle, the sum of y, then the y·x_j sums, and its length solves the decoder's equation |
| LinearRegressionDims.GramCount | lib/encoding/linear_regression_dims.go:36-38 | the (0, 0) Gram entry is the record count |
| LinearRegressionDims.GramSymmetric | lib/encoding/linear_regression_dims.go:125-128 | the Gram entries are symmetric, so mirroring the triangle is sound |
| LinearRegressionDims.AccumulateGram | lib/encoding/linear_regression_dims.go:61-62 | the record loop sums x_a·x_b over all records |
| LinearRegressionDims.ColumnSums | lib/encoding/linear_regression_dims.go:43-57 | the per-dimension loop yields the sums of x_j (row 0 of the triangle) and the stored y·x_j sums |
| LinearRegressionDims.AppendGramRow | lib/encoding/linear_regression_dims.go:59-68 | one pass of the outer pair loop appends row a of the triangle |
| LinearRegressionDims.EncodeLinearRegressionDimsWithProofs | lib/encoding/linear_regression_dims.go:19-101 | the ciphertexts encrypt the tuple, the clear result is [0], and with signatures there is one proof request per entry |
| LinearRegressionDims.EncodeLinearRegressionDims | lib/encoding/linear_regression_dims.go:13-16 | the ciphertexts encrypt the tuple and the clear result is [0] |
| LinearRegressionDims.BuildAugmentedMatrix | lib/encoding/linear_regression_dims.go:110-134 | the (d + 1) × (d + 2) matrix holds the triangle mirrored across the diagonal and the right-hand sides in its last column |
| LinearRegressionDims.FillTriangle | lib/encoding/linear_regression_dims.go:114-130 | in place: the counters walk the triangle row by row, and every entry (a, b) with a ≤ b and its mirror (b, a) get the tuple's triangle entry |
| LinearRegressionDims.WriteEntry | lib/encoding/linear_regression_dims.go:125-128 | in place: one loop step writes tuple entry j at its triangle cell (a, b) and at the mirror (b, a), so every triangle entry up to and including position j is filled |
| LinearRegressionDims.FillLastColumn | lib/encoding/linear_regression_dims.go:132-134 | in place: the last d + 1 tuple entries fill column d + 1, and the square part is unchanged |
| LinearRegressionDims.DecodedNormalEquations | lib/encoding/linear_regression_dims.go:19-134 | decoding an encoded tuple gives the normal equations: Gram entries on the left, the sum of y and the y·x_j sums on the right |
| EncodeDecode.Features | lib/encoding/encode_decode.go:51-65 | the feature matrix is the transpose of all rows but the last |
| EncodeDecode.Targets | lib/encoding/encode_decode.go:51-65 | the targets are the last row |
| EncodeDecode.Transpose | lib/encoding/encode_decode.go:53-61 | the transposing loop builds the feature matrix and the targets |
| EncodeDecode.Unwrap | lib/encoding/encode_decode.go:74-140 | every per-slot proof is kept in order |
| EncodeDecode.SlotsWithProofs | lib/encoding/encode_decode.go:74-140 | with signatures every bit slot carries a proof request |
| EncodeDecode.NoProofSlots | lib/encoding/encode_decode.go:74-140 | without signatures the bit slots carry no proofs |
| EncodeDecode.EncodeStatistic | lib/encoding/encode_decode.go:19-50 | sum, cosim, mean and variance dispatch to their encoders |
| EncodeDecode.EncodeVector | lib/encoding/encode_decode.go:51-73 | lin_reg, frequencyCount and MLeval dispatch to their encoders, giving the encrypted tuple, histogram or evaluation sums with clear [0] and one request per entry with proofs (together with lines 142-150 of the same file) |
| EncodeDecode.EncodeBoolean | lib/encoding/encode_decode.go:74-111 | bool_AND and bool_OR encode the first value of the first row |
| EncodeDecode.EncodeExtreme | lib/encoding/encode_decode.go:112-128 | min and max dispatch to their encoders |
| EncodeDecode.EncodeSet | lib/encoding/encode_decode.go:129-141 | union and inter dispatch to their encoders: one OR (union) or AND (inter) slot per value of the query range, with one request per slot with proofs |
| EncodeDecode.SlotRequests | lib/encoding/encode_decode.go:112-141 | the slot vector of min, max, union or inter carries one proof request per slot when proofs are on and none otherwise, with each slot encoding its bit |
| EncodeDecode.Encode | lib/encoding/encode_decode.go:11-150 | the result is the named operation's encoding, and without signatures no proofs are returned |
| EncodeDecode.EncodeForFloat | lib/encoding/encode_decode.go:210-227 | only logreg has a float encoder, the variant with proofs exactly when ranges are given |
| EncodeDecode.AsReals | lib/encoding/encode_decode.go:199-205 | each integer is converted to the same real |
| EncodeDecode.ToFloats | lib/encoding/encode_decode.go:165-168 | the conversion loop converts each integer |
| EncodeDecode.Decode | lib/encoding/encode_decode.go:153-207 | each operation's decoder is applied; cosim, lin_reg and logreg are left to float post-processing; frequencyCount and unknown names return the decrypted integers |
| RangeProof.DigitsInRange | lib/range_proof.go:588-599 | every base-b digit of n lies in [0, b) |
| RangeProof.DigitsValue | lib/range_proof.go:588-599 | the digits, weighted by powers of b, give n back (0 for n ≤ 0) |
| RangeProof.WeightedZeroPadding | lib/range_proof.go:595-597 | padding with zeros does not change the value |
| RangeProof.ToBase | lib/range_proof.go:588-599 | the digits lie in [0, b), give n back, and number max(l, digits of n), padded with zeros |
| RangeProof.BaseOneWeighsNothing | lib/range_proof.go:591-594 | in base 1 every digit is 0, so no digit sequence weighs a positive number: the conversion loop keeps n and never ends, which is why the conversion needs base at least 2 for positive n |
| RangeProof.ToBaseSpecFacts | lib/range_proof.go:588-599 | the same three facts about the specification of ToBase |
| RangeProof.DigitCountBound | lib/range_proof.go:588-599 | n has at most l digits in base b exactly when n < b^l |
| RangeProof.ReadColumnWithYs | lib/range_proof.go:608-616 | entry j is signature j of the column, with its public key alongside |
| RangeProof.Column | lib/range_proof.go:602-605 | entry j is the signature in column i of provider j's row |
| RangeProof.ReadColumn | lib/range_proof.go:602-605 | the loop returns that column |
| RangeProof.ReadColumnYs | lib/range_proof.go:619-625 | entry j is the public key of the signature in column i of row j |
| RangeProof.CreatePredicateRangeProofForAllServ | lib/range_proof.go:319-406 | the proof commits to the ciphertext; (u, l) = (0, 0) gives no proof data; otherwise every vector has one entry per digit of the secret and one row per server |
| RangeProof.CreatePredicateRangeProof | lib/range_proof.go:409-480 | the single-server proof has the same shape with one row |
| RangeProof.RangeProofVerification | lib/range_proof.go:503-564 | (u, l) = (0, 0) always passes; otherwise a proof passes exactly when the algebra holds and the four vector lengths add up to 4l |
| RangeProof.ProofPassesSizeCheckIff | lib/range_proof.go:319-564 | an honestly built proof passes the size check exactly when the secret is below u^l |
| CommonStructs.AddDiffP | lib/common_structs.go:39-41 | differential privacy is requested exactly when some noise parameter is non-zero |
| CommonStructs.CheckRangesZeros | lib/common_structs.go:131-138 | true exactly when every range bound is (0, 0); no ranges pass |
| CommonStructs.CheckRangesBits | lib/common_structs.go:140-147 | true exactly when every range bound is (u, l) = (2, 1); no ranges pass |
| CommonStructs.CheckProofMode | lib/common_structs.go:152-225 | the proof-mode checks pass exactly when none of their rules is violated |
| CommonStructs.CheckParameters | lib/common_structs.go:149-248 | the query is accepted exactly when no rule is violated: an unsupported proof mode, a bad obfuscation setting, thresholds, ranges, signatures or a verifier roster without proofs, inconsistent bounds or differential-privacy parameters each reject it |
| CommonStructs.DPsUnderRemove | lib/common_structs.go:262-267 | counting data providers splits over one server and the rest |
| CommonStructs.CountDPs | lib/common_structs.go:262-267 | the loop counts the data providers listed under all servers, nil lists counting zero |
| CommonStructs.QueryToProofsNbrs | lib/common_structs.go:259-291 | five expected counts: range proofs = number of providers; aggregation and key switching = servers when proofs are on, else 0; shuffling only with differential privacy; obfuscation only with obfuscation |
| CommonStructs.ChooseOperation | lib/common_structs.go:319-368 | known operations yield their input and output counts (scaled by the cutting factor); MLeval, logreg and unknown names fail |
| CommonStructs.LinRegOutputsMatchTuple | lib/common_structs.go:319-368 | the output count chosen for lin_reg is the length of the tuple its encoder produces |
| Api.OffsetBounds | services/api.go:61-74 | each server's share starts where the previous one ended and stays within the provider list |
| Api.RepartitionDPs | services/api.go:55-76 | more counts than servers is fatal; otherwise server i gets the next rep[i] providers in order, and servers with count 0 get no entry |
| Api.AssignmentKeys | services/api.go:55-76 | a server has an entry exactly when its count is non-zero |
| Api.AssignmentShares | services/api.go:55-76 | the entry of server i is its consecutive share of providers |
| Api.HandedIsPrefix | services/api.go:55-76 | the providers handed out so far are a prefix of the provider list |
| Api.SharesDisjoint | services/api.go:55-76 | the shares of two different servers do not overlap |
| Api.SigSizes | services/api.go:125-133 | the signature matrix sizes are (0, 0) when there is none, else its rows and columns |
| Api.GenerateSurveyQuery | services/api.go:120-168 | the survey query carries the given roster, provider assignment, providers used, keys, operation, ranges, signatures with their sizes, proof mode, noise, data generation, cutting factor and the four thresholds in order, and is marked as coming from the client |
| Api.PlainQueryAccepted | services/api.go:120-168 | a query with no ranges, signatures, thresholds or noise passes the parameter check exactly when proofs are off |
| Service.ConvertToCipherVector | services/service.go:871-877 | the groups' ciphertexts are concatenated in order |
| Service.ConvertFromKeySwitchingStruct | services/service.go:879-895 | chunk k of the flat vector, of the first group's length, becomes group k's data under its name |
| Service.FlattenUniform | services/service.go:871-895 | with equal-length groups, chunk k of the concatenation is group k's data |
| Service.RegroupFlatten | services/service.go:871-895 | regrouping a flattened response with equal-length groups gives the groups back |
| Service.GenerateDataCollectionRoster | services/service.go:897-912 | the roster is the root followed by its providers, and there is none when the root has no entry |
| Service.RecreateRangeSignatures | services/service.go:914-933 | the flat signature list is cut into rows of size2, taking the first signature of each entry |
| Service.KeptLength | services/service.go:757-758 | a cut response never grows, and a cutting factor of 1 keeps it whole |
| Service.TruncDivWithin | services/service.go:757-758 | Go's truncating division by a non-zero factor never exceeds the length |
| Service.TruncateResponses | services/service.go:755-762 | the survey's existing responses are kept in front, followed by one response per group, each cut to its length divided by the cutting factor when that factor is non-zero |
| ServiceSkipchain.NbrsIndex | lib/common_structs.go:259-291 | each proof type has its own position among the five expected counts |
| ServiceSkipchain.SizeQuery | services/service_skipchain.go:46-57 | the expected counts are reordered into proof-type order (a permutation of the five) and the total is their sum |
| ServiceSkipchain.TypeOrder | services/service_skipchain.go:52-56 | entries 0, 2, 3, 1, 4 of the expected counts (range, shuffle, aggregation, obfuscation, key switch) are appended in that order: range, aggregation, obfuscation, shuffle, key switch |
| ServiceSkipchain.PermutedFive | services/service_skipchain.go:46-57 | the reordering is a permutation |
| ServiceSkipchain.ExpectedProofs | services/service_skipchain.go:46-57 | one range proof per provider; aggregation and key-switch proofs per server only with proofs on; obfuscation and shuffle proofs only when requested; the total is the sum |
| ServiceSkipchain.AggregateBitmaps | services/service_skipchain.go:84-94 | the verifying nodes' bitmaps are merged in order |
| ServiceSkipchain.MergedLastWins | services/service_skipchain.go:84-94 | a key is in the merged bitmap exactly when some bitmap has it, with the value from the last such bitmap |
| ServiceSkipchain.CompareBitmaps | services/service_skipchain.go:412-419 | the check passes exactly when every entry of the stored bitmap has the same value in the block's bitmap |
| ServiceSkipchain.VerifyFuncBitmap | services/service_skipchain.go:384-422 | a block is accepted exactly when the node's persisted bitmap for the survey agrees with the block's |
| ServiceSkipchain.ExtraKeysIgnored | services/service_skipchain.go:412-419 | an entry of the block that the node did not store does not change the verdict |
| ServiceSkipchain.MergedAgreesWithEach | services/service_skipchain.go:84-94 | when the nodes' bitmaps have disjoint keys, each of them agrees with the merged bitmap |
| ServiceSkipchain.GenerateProofCollectionRoster | services/service_skipchain.go:427-435 | the roster is the root followed by the verifying nodes in order |
| ServiceSkipchain.PIKeyInjective | services/service_skipchain.go:437-460 | different proof types get different protocol keys |
| ServiceSkipchain.GenerateMapPIs | services/service_skipchain.go:437-460 | a protocol instance is registered for exactly the proof types the query launches, under its own key |
| ServiceSkipchain.SkipchainNode.HandleCloseDB | services/service_skipchain.go:313-332 | an open database is closed; with close set its file is removed, and an error is returned when the file is missing |
| ProofCollection.VerifyingNode.ProofsRemaining | protocols/proof_collection_protocol.go:337-344 | the remaining count is the sum of the counters, zero exactly when every counter is zero |
| ProofCollection.VerifyingNode.StoreProof | protocols/proof_collection_protocol.go:304-399 | an unexpected proof is an error that changes nothing; otherwise its result enters the bitmap, its counter drops by one, its data is stored unless it is a shuffle proof, and the bitmap is persisted once no proof remains |
| ProofCollection.VerifyingNode.HandleProof | protocols/proof_collection_protocol.go:179-282 | the proof is stored under its type's counter and name, with the same error when no more proofs of its type are expected |
| ProofCollection.UpdateDB | lib/common_structs.go:300-317 | the value is stored under the key in the bucket, creating it if needed, and nothing else changes |
| ProofCollection.SumUpdate | protocols/proof_collection_protocol.go:337-344 | decrementing one counter decrements the remaining total by one |
| ProofCollection.StoresBounded | protocols/proof_collection_protocol.go:304-399 | over any sequence of stores from non-negative counters, no counter goes negative and each accepted proof takes one from its type's counter, so a type is accepted at most as often as it was expected |
| ProofCollection.CollectResults | protocols/proof_collection_protocol.go:285-298 | the root's bitmap maps each verifying node to its result, and the last skipblock reported is kept |
| ProofCollection.CollectedKeys | protocols/proof_collection_protocol.go:285-298 | the bitmap has an entry exactly for the nodes that answered |
| ProofCollection.CollectedValue | protocols/proof_collection_protocol.go:285-298 | each answering node's entry is its result, for distinct senders |
| DataCollection.MergeInto | protocols/data_collection_protocol.go:159-168 | the merged map has the groups of both; a group in only one keeps its vector, a group in both gets the entry-wise sum |
| DataCollection.Aggregate | protocols/data_collection_protocol.go:145-170 | a group is in the root's aggregate exactly when some provider sent it, with that provider's vector length |
| DataCollection.AggregateStep | protocols/data_collection_protocol.go:146-169 | each received message is merged into the aggregate of the earlier ones |
| DataCollection.MergeInsert | protocols/data_collection_protocol.go:159-168 | merging one more group adds it to the existing vector or creates it |
| DataCollection.MergeResponse | protocols/data_collection_protocol.go:159-168 | the per-group loop computes the merge |
| DataCollection.RootMerge | protocols/data_collection_protocol.go:145-170 | the root's loop computes the aggregate of all messages |
| DataCollection.AggregateIsTotal | protocols/data_collection_protocol.go:145-170 | entry j of a group's aggregate is the sum of entry j over the providers that sent the group |
| DataCollection.GroupTotal | protocols/data_collection_protocol.go:145-170 | the total of entry j over the providers that sent a group is non-negative when every such entry is |
| DataCollection.TotalOrAbsent | protocols/data_collection_protocol.go:145-170 | a group absent from the aggregate was sent by no provider |
| DataCollection.RepeatIndex | protocols/data_collection_protocol.go:274-277 | copy c of the replicated response holds the response in order |
| DataCollection.Replicate | protocols/data_collection_protocol.go:274-277 | the response is repeated cuttingFactor times (once when the factor is below 1) |
| DataCollection.DividedOutputsShrink | protocols/data_collection_protocol.go:216-219 | dividing the output count by the cutting factor once per group keeps it between 0 and the original count |
| DataCollection.BuildQueryResponse | protocols/data_collection_protocol.go:215-277 | every group gets the replicated encoding of its own data (the last one written for a repeated group), and the output count is divided once per group |
| DataCollection.WrapWithoutProofs | protocols/data_collection_protocol.go:284-290 | without range bounds every ciphertext is wrapped with no proof data |
| DataCollection.ScaledAsWritten | protocols/data_collection_protocol.go:296-326 | the scaling loop as written fails (nil dereference) exactly when the factor is non-zero and some proof has no data |
| DataCollection.UnprovedScalingFails | protocols/data_collection_protocol.go:284-326 | wrapping without proofs and then scaling with a non-zero factor always fails |
| DataCollection.ScaleProofList | protocols/data_collection_protocol.go:296-326 | the proof list is repeated cuttingFactor times, also for proofs without data |
| CollectiveAggregation.MergeDet | protocols/collective_aggregation_protocol.go:179-190 | a child's group is added to the local group by entry-wise sum, or inserted when new; other groups are untouched |
| CollectiveAggregation.MergeAllKeys | protocols/collective_aggregation_protocol.go:173-193 | after aggregation a group is present exactly when it was local or some child sent it |
| CollectiveAggregation.MergeAllKeepsGroupBy | protocols/collective_aggregation_protocol.go:179-190 | a local group keeps its encrypted group-by values through the aggregation |
| CollectiveAggregation.MergeAllIsTotal | protocols/collective_aggregation_protocol.go:173-193 | every attribute of a local group, after the children are merged, is the local value plus the sum of the values every child sent for that group, and every such child entry has that attribute |
| CollectiveAggregation.ConcatAppend | protocols/collective_aggregation_protocol.go:264-266 | concatenation extends by the appended block |
| CollectiveAggregation.AggregationNode.Start | protocols/collective_aggregation_protocol.go:116-123 | starting fails exactly when no data reference was provided |
| CollectiveAggregation.MergeChild | protocols/collective_aggregation_protocol.go:179-190 | merging one child's responses one at a time leaves exactly the merge of that child followed by the remaining children still to do |
| CollectiveAggregation.AggregationNode.AscendingAggregation | protocols/collective_aggregation_protocol.go:154-220 | a missing reference becomes an empty map; a leaf keeps its data; an inner node merges every child's groups in order |
| CollectiveAggregation.DetResponses | protocols/collective_aggregation_protocol.go:199-205 | one response per local group, each carrying its group's data, no group twice |
| CollectiveAggregation.ElementLength | protocols/collective_aggregation_protocol.go:272-273 | an element is at least as long as its tag, and at least a ciphertext when it holds any |
| CollectiveAggregation.ToBytes | protocols/collective_aggregation_protocol.go:226-268 | the message is the children's byte strings concatenated, its length the sum of theirs |
| CollectiveAggregation.ConcatLength | protocols/collective_aggregation_protocol.go:264-266 | the concatenation is as long as the parts together |
| CollectiveAggregation.FromBytes | protocols/collective_aggregation_protocol.go:271-295 | an empty message or element length 0 adds nothing; otherwise the message is cut into length/elementLength chunks, chunk i at offset i·elementLength |
| CollectiveAggregation.ConcatChunks | protocols/collective_aggregation_protocol.go:226-295 | chunk k of a concatenation of equal-length parts is part k |
| CollectiveAggregation.FromBytesInvertsToBytes | protocols/collective_aggregation_protocol.go:226-295 | cutting the serialised message at the element length gives back the children's byte strings |
| HandleData.FillInt64Slice | services/data/handle_data.go:22-26 | afterwards every slot of the slice holds the given value |
| HandleData.DecimalInjective | services/data/handle_data.go:144-149 | the decimal rendering used in attribute keys is injective, so distinct indices give distinct keys |
| HandleData.AttrKeyFresh | services/data/handle_data.go:144-149 | the key of the next index differs from every earlier key of the same prefix |
| HandleData.AttrMapLookup | services/data/handle_data.go:144-149 | the map built from a slice with a prefix and an offset holds, under the key for index i, the slice's element i − offset |
| HandleData.AttrMapValues | services/data/handle_data.go:144-149 | every value of such a map comes from the slice |
| HandleData.GroupGenerator.AllPossibleGroups | services/data/handle_data.go:52-70 | the recursion appends to the global group list, after the fixed prefix, every tuple of the remaining positions in lexicographic order |
| HandleData.CopyGroup | services/data/handle_data.go:54-57 | the element-by-element copy of the current group equals the group |
| HandleData.TuplesCount | services/data/handle_data.go:52-70 | the enumeration has exactly the product of the per-attribute counts as its number of groups |
| HandleData.TuplesMembers | services/data/handle_data.go:52-70 | a tuple is enumerated iff it has one value per attribute and each value is in [0, count) |
| HandleData.TuplesSorted | services/data/handle_data.go:52-70 | the enumeration is strictly increasing in lexicographic order, so no group repeats |
| HandleData.PrefixedMembers | services/data/handle_data.go:59-68 | a tuple belongs to the prefixed list iff it starts with the prefix and its rest is in the list |
| HandleData.NumElem | services/data/handle_data.go:98-101 | the loop computes the product of the per-attribute group counts |
| HandleData.GeneratedEntryShape | services/data/handle_data.go:116-150 | each generated entry holds the group values under "g" keys split at the clear count, where attributes all 1 for the first numEntriesFiltered entries and all 0 after, and 0/1 aggregation values |
| HandleData.GeneratedEntries | services/data/handle_data.go:113-154 | entry j of a data provider's data is built from group j with the where value fixed by j |
| HandleData.EntryFacts | services/data/handle_data.go:143-150 | the clear and encrypted group maps together hold every group value at its own index, and every where and aggregating value comes from its slice |
| HandleData.GenerateUnLynxData | services/data/handle_data.go:87-156 | with randomGroups false (the only branch modelled): fails iff the group-type count does not match the grouping attributes or the product of the group counts is not the number of entries; otherwise the groups are the full enumeration and the result maps "i" to provider i's generated entries |
| HandleData.BuildTestData | services/data/handle_data.go:113-154 | the provider loop fills one map entry per provider index |
| HandleData.DpEntries | services/data/handle_data.go:114-152 | the entry loop builds the generated entries of one provider in order |
| HandleData.MakeEntry | services/data/handle_data.go:117-150 | one entry is the generated entry for its group and index |
| HandleData.RandomFill | services/data/handle_data.go:35-39 | every drawn aggregation value is 0 or 1 |
| HandleData.WhereAttributes | services/data/handle_data.go:126-133 | the where attributes are all 1 below numEntriesFiltered and all 0 from there |
| HandleData.TestDataLookup | services/data/handle_data.go:113-155 | the test data has one key per provider, and key "i" gives provider i's entries |
| HandleData.DpKeyInjective | services/data/handle_data.go:153 | distinct provider indices get distinct keys |
| HandleData.IndexedLookup | services/data/handle_data.go:153 | the keys are exactly the rendered indices and each maps to its own value |
| HandleData.JoinMaps | services/data/handle_data.go:266-278 | the joined map has both key sets, with the second map's value winning on a shared key |
| HandleData.ClearedIdempotent | services/data/handle_data.go:281-296 | clearing an expected result twice is the same as once |
| HandleData.ClearExpectedResult | services/data/handle_data.go:281-296 | every entry empties both where maps, joins its encrypted group and aggregation attributes into the clear ones (the encrypted value winning on a shared key) and empties the encrypted maps |
| HandleData.MatchesIsEquality | services/data/handle_data.go:329-352 | the field-by-field comparison holds iff the two responses are equal |
| HandleData.CompareClearResponses | services/data/handle_data.go:329-352 | true iff the first list is non-empty and each of its responses occurs in the second |
| ParseTimeData.AddSpaces | simul/test_data/parse_time_data.go:15-22 | the padding is final − length blanks, or none when the text is already that long |
| ParseTimeData.StringInSlice | simul/test_data/parse_time_data.go:226-233 | true iff the string occurs in the list |
| ParseTimeData.ParseDataFromCSVFile | simul/test_data/parse_time_data.go:181-223 | the loops over data lines, cells and header pieces build the same table as the line-by-line specification |
| ParseTimeData.CollectValue | simul/test_data/parse_time_data.go:203-216 | one header piece either opens a new value for the current line or appends ", " and the cell to the value already there |
| ParseTimeData.ParsedKeysAreFlags | simul/test_data/parse_time_data.go:193-222 | every key of the parsed table is one of the requested flags |
| ParseTimeData.ElemsIgnored | simul/test_data/parse_time_data.go:201-218 | a header whose pieces are not flags, or a multi-piece header that does not end in wall_sum, leaves the table unchanged |
| ParseTimeData.CellIgnored | simul/test_data/parse_time_data.go:197-218 | a column whose header does not qualify contributes nothing |
| ParseTimeData.WallSumValuesJoined | simul/test_data/parse_time_data.go:195-220 | for a flag that appears in some wall_sum column of every data line, the table holds one entry per data line: that line's matching cells joined with ", " |
| ParseTimeData.ReadTomlSetup | simul/test_data/parse_time_data.go:38-77 | the scanning loop returns the setup of the specification: the header line's names mapped to the values of the chosen setup line |
| ParseTimeData.ZipLookup | simul/test_data/parse_time_data.go:61-63 | the setup's keys are the header names used, and a name not repeated later maps to its own column's value |
| ParseTimeData.TomlChoosesLineAfterHosts | simul/test_data/parse_time_data.go:52-73 | with a single "Hosts" line, setup number n selects the (n+1)-th line after it |
| ParseTimeData.NoChoiceWithoutHosts | simul/test_data/parse_time_data.go:52-76 | without a "Hosts" line the setup is empty |
| ParseTimeData.NoChoiceForNegative | simul/test_data/parse_time_data.go:59-66 | a negative setup number never matches, so the setup is empty |
| FileLoader.FirstIndex | lib/provider/loaders/file.go:50-55 | absent iff the name is not in the header; otherwise the first position holding it |
| FileLoader.FirstMissing | lib/provider/loaders/file.go:49-59 | absent iff every selected name is in the header; otherwise a selected name missing from it |
| FileLoader.FindSelectorIndexes | lib/provider/loaders/file.go:48-59 | fails naming the first missing column, else gives the first header position of each selected name |
| FileLoader.ReadColumns | lib/provider/loaders/file.go:66-76 | the nested loops give the specified columns, stopping at the first field that does not parse |
| FileLoader.Provide | lib/provider/loaders/file.go:27-79 | the loader returns what the specification of the whole read gives |
| FileLoader.ColumnOk | lib/provider/loaders/file.go:68-75 | a column reads iff every record's field parses, and then holds the parsed values in record order |
| FileLoader.ColumnsOk | lib/provider/loaders/file.go:66-76 | all columns read iff every selected field of every record parses, one column per selected index |
| FileLoader.ColumnErrorStays | lib/provider/loaders/file.go:70-73 | once a field fails to parse, the column's result is that error |
| FileLoader.ColumnsErrorStays | lib/provider/loaders/file.go:66-76 | once a column fails, the whole read returns that error |
| FileLoader.ProvidedFails | lib/provider/loaders/file.go:28-58 | a selector that does not match NbrInput gives "malformed query", a header narrower than NbrInput gives "not enough column in CSV", and an unknown name gives an error |
| FileLoader.ProvidedOk | lib/provider/loaders/file.go:27-79 | the read succeeds iff the query is well formed, every name is in the header, the records are as wide as the header and every selected field parses; then it has NbrInput columns, each as long as the record list and taken at the name's header position |
| LogisticRegression.Factorial | lib/encoding/logistic_regression.go:243-249 | the factorial is at least 1 for every argument, 1 for n ≤ 0 |
| LogisticRegression.FallingBinomial | lib/encoding/logistic_regression.go:253-270 | the falling product m·(m−1)·…·(m−k+1) is C(m,k)·k! |
| LogisticRegression.FallingFactorial | lib/encoding/logistic_regression.go:243-270 | the falling product times (m−k)! is m! |
| LogisticRegression.BinomialFactorials | lib/encoding/logistic_regression.go:243-270 | C(m,k)·k!·(m−k)! = m!, the factorial definition of the binomial the loop computes |
| LogisticRegression.CombinationsWithRepetition | lib/encoding/logistic_regression.go:253-270 | the interleaved multiply-and-divide loop returns C(n+k−1,k) when 0 ≤ k ≤ n and 1 when k > n or k < 0; every division is exact |
| LogisticRegression.MultiplyIn | lib/encoding/logistic_regression.go:260 | multiplying the numerator by n + k − i keeps it, scaled by the divisors already taken out, equal to the falling product of the first i factors, and positive |
| LogisticRegression.ReduceCommon | lib/encoding/logistic_regression.go:261-265 | the inner loop divides numerator and denominator by each successive divisor while both are multiples, keeps both positive and tracking their targets, and stops at a divisor past k or one that does not divide both |
| LogisticRegression.GetTotalNumberApproxCoefficients | lib/encoding/logistic_regression.go:273-277 | the loop returns the sum over the levels j < k of the level sizes (d+1)^(j+1) |
| LogisticRegression.TotalCountClosedForm | lib/encoding/logistic_regression.go:273-280 | d·total = (d+1)^(k+1) − (d+1), the geometric-series closed form |
| LogisticRegression.TotalCountMonotone | lib/encoding/logistic_regression.go:273-277 | the total is non-negative and grows with the number of levels |
| LogisticRegression.TotalOfFeatureless | lib/encoding/logistic_regression.go:273-280 | with no features every level has one slot, so k levels take k slots |
| LogisticRegression.UnpackBlock | lib/encoding/logistic_regression.go:212-220 | block j of the unpacked coefficients is the packed slice from the start of level j to the start of level j+1 |
| LogisticRegression.ConcatBlock | lib/encoding/logistic_regression.go:81-91 | in the packed array, the slice of level j is exactly block j |
| LogisticRegression.UnpackConcat | lib/encoding/logistic_regression.go:81-91 | unpacking a packing gives back the per-level blocks |
| LogisticRegression.ConcatUnpack | lib/encoding/logistic_regression.go:212-220 | packing an unpacking gives back the packed prefix that the levels cover |
| LogisticRegression.OffsetsAgree | lib/encoding/logistic_regression.go:81-91 | for level index at most 1, or no features, the offset j·nLevelPrevious equals the number of slots of the earlier levels |
| LogisticRegression.AsWrittenPackingOverflows | lib/encoding/logistic_regression.go:81-91 | with a feature and K ≥ 3, the last level written at j·nLevelPrevious runs past the packed array's length |
| LogisticRegression.AsWrittenAgrees | lib/encoding/logistic_regression.go:212-220 | for K ≤ 2 or no features, the as-written unpacking reads the same blocks as unpacking by level starts |
| LogisticRegression.DecodeInvertsEncode | lib/encoding/logistic_regression.go:212-220 | for K ≤ 2 or no features, the querier's unpacking recovers exactly the blocks the data providers packed (together with lines 81-91 of the same file) |
| LogisticRegression.PackCoefficients | lib/encoding/logistic_regression.go:81-91 | the packed array has the total number of slots; without coefficients it stays zero, otherwise it is the blocks one after another |
| LogisticRegression.WriteBlock | lib/encoding/logistic_regression.go:84-88 | the inner packing loop writes the block at the offset and leaves every other slot of the array unchanged |
| LogisticRegression.UnpackCoefficients | lib/encoding/logistic_regression.go:212-220 | the unpacking loop returns the as-written unpacking of the packed array |
| LogisticRegression.ReadBlock | lib/encoding/logistic_regression.go:218 | the inner unpacking loop returns exactly the packed values from the offset for the level's length |
| LogisticUtil.Range | lib/encoding/logistic_regression.go:1464-1471 | the result has end − start elements and element i is start + i |
| LogisticUtil.CartesianProduct | lib/encoding/logistic_regression.go:1474-1494 | the rows are the grid of all dimension-tuples over [start, end) |
| LogisticUtil.GridCount | lib/encoding/logistic_regression.go:1474-1494 | the grid has (end − start)^dim rows |
| LogisticUtil.GridMembers | lib/encoding/logistic_regression.go:1474-1494 | a tuple is in the grid iff it has dim entries, each in [start, end) |
| LogisticUtil.GridSorted | lib/encoding/logistic_regression.go:1474-1494 | the grid is strictly increasing in lexicographic order |
| LogisticUtil.CopyRows | lib/encoding/logistic_regression.go:1485-1491 | converting the grid into a fresh slice of rows of the given width copies every row unchanged |
| LogisticUtil.CountElement | lib/encoding/logistic_regression.go:1497-1505 | the loop returns the number of occurrences of the element |
| LogisticEval.CountPairs | lib/encoding/logistic_regression.go:1001-1026 | the loop counts the positions where the prediction and the label take the given values |
| LogisticEval.TruePositive | lib/encoding/logistic_regression.go:1001-1005 | the count of positions predicted 1 and labelled 1 |
| LogisticEval.TrueNegative | lib/encoding/logistic_regression.go:1008-1012 | the count of positions predicted 0 and labelled 0 |
| LogisticEval.FalsePositive | lib/encoding/logistic_regression.go:1015-1019 | the count of positions predicted 1 and labelled 0 |
| LogisticEval.FalseNegative | lib/encoding/logistic_regression.go:1022-1026 | the count of positions predicted 0 and labelled 1 |
| LogisticEval.ConfusionTotal | lib/encoding/logistic_regression.go:1001-1032 | with 0/1 predictions and labels the four counts add up to the number of predictions |
| LogisticEval.MatchesBound | lib/encoding/logistic_regression.go:1030-1032 | TP + TN never exceeds the number of predictions |
| LogisticEval.Accuracy | lib/encoding/logistic_regression.go:1030-1032 | no value for an empty label list (0/0); otherwise the value times the label count is TP + TN, and it lies in [0, 1] |
| LogisticData.GetColumn | lib/encoding/logistic_regression.go:1305-1323 | an error iff the index is past the first row's width; otherwise element idx of every row |
| LogisticData.InsertRemove | lib/encoding/logistic_regression.go:1326-1340 | putting a removed element back at its index restores the row (together with lines 983-994 of the same file) |
| LogisticData.RemoveInsert | lib/encoding/logistic_regression.go:1326-1340 | removing an element just inserted gives the row back (together with lines 983-994 of the same file) |
| LogisticData.SplitLabelRoundTrip | lib/encoding/logistic_regression.go:1305-1340 | removing a column and inserting it back at the same index restores the matrix (together with lines 983-994 of the same file) |
| LogisticData.InsertColumnRoundTrip | lib/encoding/logistic_regression.go:1326-1340 | a column inserted at idx is read back at idx, and removing it restores the matrix (together with lines 983-994 of the same file) |
| LogisticData.RemoveColumn | lib/encoding/logistic_regression.go:1326-1357 | as written: an error iff idx is not below the number of ROWS; otherwise element idx removed from every row, row count kept |
| LogisticData.RemoveColumnChecked | lib/encoding/logistic_regression.go:1326-1357 | an error iff some row has no element idx; otherwise every row loses exactly element idx |
| LogisticData.LabelColumnRejected | lib/encoding/logistic_regression.go:1326-1340 | a dataset with no more rows than features is rejected by the guard when removing its last (label) column, although every row has it |
| LogisticData.GuardMissesShortRows | lib/encoding/logistic_regression.go:1326-1340 | the guard lets through an index that no row has |
| LogisticData.InsertColumn | lib/encoding/logistic_regression.go:983-994 | as written: each row becomes the new value followed by the row from idx, because copying into an empty slice copies nothing |
| LogisticData.CopyInto | lib/encoding/logistic_regression.go:987-990 | copy moves as many elements as the shorter slice holds |
| LogisticData.InsertColumnDropsPrefix | lib/encoding/logistic_regression.go:983-994 | the as-written row equals the intended insertion iff idx is 0 |
| LogisticData.InsertColumnExample | lib/encoding/logistic_regression.go:983-994 | inserting 9 at index 1 into [1, 2] gives [9, 2] as written, [1, 9, 2] as intended |
| LogisticData.Augment | lib/encoding/logistic_regression.go:961-970 | every row gets a 1 in front, the intended insertion at index 0 |
| LogisticData.ReplacedIdempotent | lib/encoding/logistic_regression.go:1360-1365 | replacing twice is the same as once |
| LogisticData.ReplaceString | lib/encoding/logistic_regression.go:1360-1365 | in place: every cell equal to the target becomes the replacement, every other cell is unchanged |
| LogisticData.PartitionDatasetCV | lib/encoding/logistic_regression.go:1404-1426 | with t = n / kfold, the test set is records [p·t, (p+1)·t) and the training set all others in their original order |
| LogisticData.Gather | lib/encoding/logistic_regression.go:1415-1423 | the gathering loop picks the records at the given indices, in order |
| LogisticData.GatheredInterval | lib/encoding/logistic_regression.go:1404-1426 | gathering an interval of indices is the slice |
| LogisticData.FoldIndicesOnce | lib/encoding/logistic_regression.go:1404-1426 | every record index occurs exactly once in training plus test indices |
| LogisticData.FoldCoversDataset | lib/encoding/logistic_regression.go:1404-1426 | training and test together are a permutation of the dataset, and putting the test fold back at its place restores it |
| LogisticFile.TrimSpaceEmpty | lib/encoding/logistic_regression.go:1277-1281 | a field trims to nothing iff it is all white space |
| LogisticFile.TrimSpace | lib/encoding/logistic_regression.go:1278 | the trimmed field is no longer than the field and, when not empty, starts and ends with a character that is not white space |
| LogisticFile.KeptClean | lib/encoding/logistic_regression.go:1277-1282 | every kept field is non-empty and has no white space at either end |
| LogisticFile.ReadRows | lib/encoding/logistic_regression.go:1259-1302 | the records kept are the trimmed non-empty fields of each line, for the lines as wide as the first |
| LogisticFile.Tokenize | lib/encoding/logistic_regression.go:1274-1284 | the reading loop gives one record per line |
| LogisticFile.KeepRows | lib/encoding/logistic_regression.go:1288-1297 | the filtering loop keeps the records of the first record's width, in order |
| LogisticFile.KeepFields | lib/encoding/logistic_regression.go:1275-1282 | the inner loop keeps each trimmed non-empty field |
| LogisticFile.KeepWidthMembers | lib/encoding/logistic_regression.go:1290-1297 | a record is kept iff it is one of the records and has the width |
| LogisticFile.KeepWidthAppend | lib/encoding/logistic_regression.go:1290-1297 | filtering distributes over concatenation, so kept records keep their order |
| LogisticFile.FirstRecordKept | lib/encoding/logistic_regression.go:1259-1302 | the first line's record always survives and comes first |
| LogisticFile.FieldsClean | lib/encoding/logistic_regression.go:1259-1302 | every field of the result is non-empty with no white space at either end |
| Predict.RecordFields | app/LogisticRegression/Predict.py:17-21 | a stored record is fields 1–9 and the class mark joined with commas |
| Predict.ReadPools | app/LogisticRegression/Predict.py:13-21 | the reading loop builds the Normal pool from the rows whose last field is "N" (marked 0) and the Arrhythmia pool from all others (marked 1), in file order |
| Predict.PoolsPartitionRows | app/LogisticRegression/Predict.py:15-21 | every row lands in exactly one pool |
| Predict.PoolLabels | app/LogisticRegression/Predict.py:16-21 | every Normal record ends in ",0" and every Arrhythmia record in ",1" |
| Predict.CountLabelAppend | app/LogisticRegression/Predict.py:31 | label counts add up over a concatenation |
| Predict.CountLabelPermutation | app/LogisticRegression/Predict.py:32 | a shuffle does not change how many records carry a label |
| Predict.RequiredSize | app/LogisticRegression/Predict.py:23 | the sample size is the size of the smaller pool |
| Predict.BuildDatasets | app/LogisticRegression/Predict.py:24-37 | one dataset per trial index, each the trial's shuffled records split back into fields; the pools are parameters and never change |
| Predict.WriteRows | app/LogisticRegression/Predict.py:36-37 | the writing loop emits one row per record, its fields split at commas |
| Predict.WrittenRestores | app/LogisticRegression/Predict.py:37 | joining a written row with commas gives the record back |
| Predict.DatasetBalanced | app/LogisticRegression/Predict.py:23-32 | each trial's dataset has 2·requiredSize records, requiredSize labelled 0 and requiredSize labelled 1 |
| Predict.AverageScore | app/LogisticRegression/Predict.py:43-50 | dividing by zero trials is an error; otherwise the average times the trial count is the sum of the trial scores |
| Predict.RealSumBounds | app/LogisticRegression/Predict.py:43-49 | scores in [0, 1] sum to between 0 and the trial count |
| Predict.AverageIsAccuracy | app/LogisticRegression/Predict.py:43-50 | the average of accuracies lies in [0, 1] |
| CleanData.ParseLabelType | data/clean_data.py:19-24 | accepted iff the label type is "int" or "float", and integer labels iff it is "int"; anything else is an error |
| CleanData.Upper | data/clean_data.py:26 | upper-casing keeps the length, leaves no lower-case ASCII letter and changes no other character |
| CleanData.DatasetOf | data/clean_data.py:39-61 | a known dataset is the one whose name is the upper-cased argument; an error iff no dataset has that name (together with line 26 of the same file) |
| CleanData.LinesRestore | data/clean_data.py:31-33 | the lines, without the empty piece after a final newline, rejoined with newlines (and that final newline) give the text back; no line holds a newline; an empty text has no lines |
| CleanData.Rows | data/clean_data.py:35 | one row per line, each with at least one field |
| CleanData.ValueAfterColon | data/clean_data.py:55-56 | for a field "index:value" the kept text is the value up to its next colon, the whole value when it has none |
| CleanData.Table.RemoveColumn | data/clean_data.py:6-8 | in place: every row loses exactly its element at the index |
| CleanData.Table.KeepValues | data/clean_data.py:52-56 | in place: every field after the first is replaced by its text between the first and the second colon (to the end when there is no second colon) |
| CleanData.PcsColumns | data/clean_data.py:41-45 | removing columns 11, 10 and 0 in that order deletes original columns 0, 10 and 11 |
| CleanData.Prepared | data/clean_data.py:39-61 | the dataset's preparation keeps the row count and never empties a row |
| CleanData.PcsPrepared | data/clean_data.py:41-45 | for rows of at least 12 fields, PCS preparation succeeds and keeps fields 1–9 and 12 onwards |
| CleanData.Prepare | data/clean_data.py:39-61 | the in-place edits on the table give the prepared rows, with an error where the script would fail on an index |
| CleanData.ParseAll | data/clean_data.py:70-71 | when every feature parses, one value per field |
| CleanData.ParseRows | data/clean_data.py:63-75 | the kept features and labels stay paired: as many feature rows as labels, no more than the rows |
| CleanData.LabelError | data/clean_data.py:67 | a label that does not convert raises int()'s "invalid literal for int() with base 10" or float()'s "could not convert string to float" message, naming the text |
| CleanData.ParseFailsOnLabel | data/clean_data.py:67-68 | parsing fails iff some row's label does not parse, since that error is not caught |
| CleanData.Kept | data/clean_data.py:69-75 | the rows kept are rows of the input, each with features that all convert, and every row whose features convert is kept |
| CleanData.ParseKeepsConvertible | data/clean_data.py:67-75 | when parsing succeeds, record j holds the converted features and the label of the j-th row whose features all convert, and there are exactly as many records as such rows |
| CleanData.ParseLoop | data/clean_data.py:64-75 | the append-and-pop loop gives the specified parse |
| CleanData.ParseErrorPersists | data/clean_data.py:67-68 | once a label fails, the whole parse fails with that label's error |
| CleanData.ParseFeatures | data/clean_data.py:70-71 | the feature loop gives the specified conversion |
| CleanData.ParseAllFailurePersists | data/clean_data.py:69-72 | once a feature fails, the row's conversion fails |
| CleanData.Scale | data/clean_data.py:80 | a pixel value in [0, 255] is mapped into [0.001, 1] |
| CleanData.ScaledRows | data/clean_data.py:78-80 | scaling keeps the number of rows |
| CleanData.Bodies | data/clean_data.py:86-87 | one output line per zipped record |
| CleanData.WriteText | data/clean_data.py:85-87 | the accumulation loop builds, for each zipped record, the label, the features joined with commas and a newline |
| CleanData.TerminatedSnoc | data/clean_data.py:86-87 | each loop step appends one terminated line |
| CleanData.SplitTerminated | data/clean_data.py:85-87 | splitting newline-terminated lines at newlines gives the lines and a last empty piece |
| CleanData.OutputTerminated | data/clean_data.py:85-87 | the text is the record lines, each followed by a newline |
| CleanData.OneLinePerRecord | data/clean_data.py:85-87 | when no record line holds a newline, the written text splits back into exactly the record lines |
| CleanData.CleanDataset | data/clean_data.py:17-91 | the whole script gives the specified text, and an unknown label type or dataset name is an error |

## Left out

- Cryptography: ElGamal encryption and decryption, the homomorphic addition, scalar multiplication, pairings, Schnorr signatures and the algebra of the range, shuffle, key-switching and obfuscation proofs. A ciphertext is a wrapper around its integer plaintext, and proof scalars and points are one opaque value. Only the proof shapes and the size check are modelled.
- RangeProof.RangeProofVerification: the algebraic checks are a boolean parameter; only the no-proof shortcut and the 4·L size check are stated.
- RangeProof.ToBase: requires base at least 2 when n > 0. In the source the loop at lib/range_proof.go:591-594 never ends for base 1, since n / 1 == n (see BaseOneWeighsNothing), and panics on division by zero for base 0. Neither behaviour is modelled.
- RangeProof.CreatePredicateRangeProofForAllServ: requires u at least 2 when the secret is positive, because it calls ToBase with base u. A query range with u = 0 or u = 1 and l ≠ 0 reaches this call, since CheckParameters (lib/common_structs.go:149-196) does not constrain u. The source then panics (u = 0) or hangs (u = 1), and the model does not cover either case.
- RangeProof.CreatePredicateRangeProof: the same restriction on u as CreatePredicateRangeProofForAllServ, for the same reason.
- CleanData.LabelError: the offending text is shown between single quotes; the escaping and quote choice of Python's repr are not modelled.
- Networking and concurrency: onet messages and channels, goroutine fan-out (the goroutines write disjoint indices, so the sequential loops give the same result), mutexes, skipchain client calls and service handlers. Protocol nodes are classes whose methods take the received messages as arguments.
- The bbolt database: a bucket is a map from key to value. Marshalled bitmaps are kept as maps, not bytes.
- File, process and CLI I/O. This covers opening, reading and writing files (ReadDataFromTextFile, WriteDataToTextFile, CreateCSVFile, WriteDataFromCSVFile, ReadDataFromCSVFile, Readln, SaveToFile and the writes in the Python scripts), the Python subprocess calls, and the CLIs. Files enter the model as their lines or as their rows already split. CSV quoting rules are not modelled.
- Logging (log.Lvl*, the eprint line-drop message) is output only and is left out. Where the source calls log.Fatal, the model returns an error.
- Floating point: real numbers stand for float64, without rounding, overflow, NaN or infinity. A division that would give NaN or an infinity returns no value instead. Cost/Gradient/FindMinimumWeights, standardisation and normalisation, predictions, AUC, Laplace noise and PartitionDataset are numerics outside this model.
- CosimEncoding.DecodeCosim: the final square root is not modelled. The decoder returns the numerator and the two sums of squares it combines, and states their relation (Cauchy–Schwarz).
- EncodeDecode.Decode: cosim, lin_reg and logreg decoding is float post-processing (square root, Gaussian elimination, the logistic model) and is only tagged as such. For ML evaluation the decoder requires a non-zero record count: the source computes sum_y·sum_y/N in int64 (lib/encoding/model_evaluation.go line 96), so a zero count is an integer division by zero and a panic.
- LinearRegressionDims.BuildAugmentedMatrix: d is a parameter. The source derives it from the tuple length with a floating-point quadratic root; TupleLengthClosedForm states the relation that root inverts.
- 64-bit integers are unbounded. int64 overflow (for example the factorial and the products in CombinationsWithRepetition for large n) is not modelled.
- Index panics: where the source would panic on an out-of-range index or a nil dereference without intending to, the member's precondition rules that input out. Examples are a short row, an empty matrix in GetColumn, an empty file in ReadRows, a row shorter than 10 fields in Predict, and Go slicing past a row's length into its capacity in RemoveColumn. The one place where a reachable nil dereference matters is listed under Findings.
- LogisticRegression.GetTotalNumberApproxCoefficients: math.Pow on floats is modelled as an exact integer power.
- LogisticRegression.PackCoefficients: coefficient blocks are accepted only for K ≤ 2 or d = 0. For larger K the source writes past the packed array (see Findings).
- LogisticRegression.UnpackCoefficients: stated for packed arrays long enough for the as-written offsets. For K ≤ 2 or d = 0 that is every array as long as the total count.
- HandleData.GenerateUnLynxData: the randomGroups = true branch (handle_data.go lines 97 and 135-139, each group value drawn with random(0, numType[k])) is left out: the model always enumerates every group tuple, as with randomGroups false. The random 0/1 aggregation values come from a coin parameter. ConvertDataToMap is an unlynx function; its key naming (prefix and decimal index) is reproduced as AttrMap.
- HandleData: ComputeExpectedResult is not part of this model. It aggregates with the unlynx AddInClear, which is not available, and is test scaffolding.
- HandleData: CreateInt64Slice and the text-file round trip are not part of this model; they are random generation and file I/O.
- LogisticFile.TrimSpace: covers only the ASCII, NEL and NBSP white space of strings.TrimSpace, not the other Unicode space characters.
- CleanData.Upper: only ASCII letters are upper-cased. Python's str.upper also maps other Unicode letters.
- CleanData: int(), float() and str() are the parameters parseInt, parseFloat, showLabel and showReal. Their exact textual rules are Python's and are not modelled.
- FileLoader: strconv.ParseFloat is the parse parameter. The TSV reader is replaced by records already split, with the reader's equal-width rule stated as FieldsMatch. The file seek is I/O.
- Predict: random.sample and random.shuffle are nondeterministic draws (a Draw of distinct indices and a permutation), constrained by ValidDraw. The sklearn training and cross-validation of part 2 produce the per-trial scores, which are inputs here. Only the averaging is modelled.
- Predict.AverageScore: a negative trial count is treated like a positive one for the division (Python's range gives no trials and the sum is 0).
- ParseTimeData: the CSV rows arrive already split. A row longer than the header, which would make the source index past the header, is excluded by RowsFit.
- Byte serialisations of proofs and responses whose sizes depend on point encodings are not modelled. CollectiveAggregation's chunking is modelled with the element length as a parameter.
- The plotting scripts, the simulation drivers and the tests themselves are not part of this model.

## Findings

| source | as written | input that shows it | evidently intended | confidence | as-written member | corrected member |
|---|---|---|---|---|---|---|
| protocols/data_collection_protocol.go:296-326 | the simulation scaling dereferences the proof data of every entry, but the entries built without range proofs (lines 285-290) carry none | a query with proofs enabled, no range bounds and CuttingFactor 1 | the proof list repeated CuttingFactor times, also for entries without proof data | medium, not executed | DataCollection.UnprovedScalingFails | DataCollection.ScaleProofList |
| lib/encoding/logistic_regression.go:81-91 | level j is written at offset j·nLevelPrevious, which equals the number of earlier slots only for j ≤ 1 (or d = 0) | d = 1, K = 3: the levels have 2, 4 and 8 slots, 14 in all; level 2 is written from offset 2·4 = 8 through slot 15, past the end of the array | each level written after all earlier levels, so that unpacking gives the blocks back | high, not executed | LogisticRegression.AsWrittenPackingOverflows | LogisticRegression.UnpackConcat |
| lib/encoding/logistic_regression.go:1326-1330 | the guard compares the column index with the number of rows | a 2-row matrix of 3-column records with the label column idx 2 (the call at line 1202) is rejected; a 3-row matrix of 1-column rows with idx 2 passes the guard | reject exactly the indices that some row does not have | high, not executed | LogisticData.LabelColumnRejected | LogisticData.RemoveColumnChecked |
| lib/encoding/logistic_regression.go:983-994 | copy into the empty new row copies nothing, so the elements before idx are lost | matrix [[1, 2]], column [9], idx 1 gives [[9, 2]] | [[1, 9, 2]], the column inserted at idx | medium (every caller passes idx 0, where both agree), not executed | LogisticData.InsertColumnExample | LogisticData.InsertColumnRoundTrip |
| lib/encoding/OR_AND.go:43 | the retry test compares the drawn scalar with a separate zero scalar by `==` on interface values, so it compares two distinct objects, never holds, and the first draw is kept | first draw 0 (second draw 7) for a set OR bit: 0 is encrypted and DecodeBit_OR reads the bit as unset | re-draw while the scalar's value is zero, as the comment says | medium, not executed | OrAnd.ZeroFirstDrawLosesBit | OrAnd.RetriedBitDecodes |
