# Verified models of the inference and quantisation core

This project models, in Dafny, the parts of the repository where a fast or stateful form has to agree with a
simple one, and proves that it does:

- the flash-attention kernel (online softmax, cooperative tree reduction, grouped heads, causal limit) against the
  two-pass reference attention, and the kernel's key limit against the declarative causal mask;
- the step-preallocating key/value cache against the concatenating one, with exact bounds on over-allocation;
- the speculative decoder as a state machine: what each round verifies, what stream it emits, when that stream is the
  target model's own;
- base-3 tile640 words, interleaved NF4Tile640 nibbles, 4-bit palette words and 2-bit ternary bytes: packing, unpacking
  and the traversals that multiply straight from the packed form;
- the ternary quantiser's error diffusion, lane isolation, scale refit and two-level scale code; the NF4 and repository
  codebooks; bf16 rounding;
- the civil calendar, the brace scanner, the WAV reader and writer, the parallel GEMM, the modulation kernel's
  reductions and rotary embedding. The scanner's lexical rules are also stated as rules about strings, and the automaton is
  proved to follow them on every text.

Numbers: attention, GEMV and quantiser arithmetic is over exact reals. The exponential is any positive function with
exp(a + b) = exp(a) * exp(b); bf16 rounding of a scale, 1/sqrt, log-normalisation, the reading of 32 bits as a float
and the sines and cosines of a rotation are parameters. The GEMM is over an arbitrary type with an arbitrary
multiply-add, so its results are bit for bit. 32-bit packing, WAV sizes, bf16 patterns, bit masks and the random number
generator use their machine widths, written out.

Form: kernels, caches, scanners, packers and loops are methods over arrays, fields and sequences, proved against
functions; calendar arithmetic, lexer rules and decoder steps are functions. Threads of a work-group run in an
arbitrary order between barriers (`Reduction.Phase`) or one after another where they share nothing; GEMM threads
interleave step by step under every schedule (`Gemm.Run`).

Files: `Wrappers`, `Reals`, `Indexing` and `Sums` hold shared definitions. `Softmax`, `Reduction`, `FlashAttention` and
`ReferenceAttention` are the attention family; `KvCache`, `Speculative` and `SpeculativeStream` the decoding runtime;
`Tile640`, `Nf4Tile640`, `Nf4Forward`, `Palettized` and `TernaryGemv` the packed formats; `Codebook`, `QuantLane`,
`QuantPage`, `QuantMeaning` and `Bf16` the quantisers; `Lexer`, `LexicalGrammar`, `BraceScanner` and `LineForms` the
baseline scanner; `Civil`, `Wav`, `Gemm` and `Rope` stand alone. `LexicalGrammar`, `LineForms` and `QuantMeaning` state
what the elementary rules mean without going through the functions the loops are proved against.

## Where the code and its own text disagree

- `mlx-rs-core/src/speculative.rs:290-297`: the target token behind accepted drafts becomes the next round's input but
  is never emitted, and rejected drafts stay in both caches because trimming does nothing (167-173). The emitted stream
  is therefore the target's greedy stream for every pair of models only when no tokens are drafted or there is one token to choose from:
  `SpeculativeStream.LosslessIffNoDrafts`. `RepairedIsLossless` is about a variant that emits the token and trims the
  caches; that variant is not the code.
- `scripts/unwrap_baseline.py:47-51` says only `mod tests` is matched; the pattern at 39 accepts any module name. The
  model follows the pattern.
- `scripts/unwrap_baseline.py:177-218`: the branch for byte strings reads exactly what the raw-string and string
  branches would read one character later, so the automaton has no state for it.
- The doc comment at `mlx-rs-core/src/metal_kernels.rs:508` asks for a power of two; the test at 541 also admits 0.
- `tools/quant_lab.rs:131` takes the absolute value of the refit scale, which is not the least-squares optimum when
  error diffusion has made the trits oppose their weights: `QuantLane.RefitOptimal`, `QuantLane.DiffusionCanOppose`.
- `tools/nf4tile640_ref.rs:43-52`: the 1e-12 floor on the affine scale keeps the group maximum from code 15 when the
  range is not above 2.7931e-12: `Codebook.AffineHigh`, `Codebook.QuantizeAffine`.

## Model

| member | source | states |
|---|---|---|
| Sums.SharesPartition | kernels/sycl/palettized_gemv.cpp:48-58 | for every group size, the strided shares of all threads add up to the whole sum: every index is visited exactly once |
| Sums.ShareOvershoot | kernels/sycl/palettized_gemv.cpp:48-54 | a strided loop that runs past its range collected exactly its thread's share |
| Sums.SharesTotal | kernels/sycl/palettized_gemv.cpp:56-58 | the group sum of the threads' partial sums is the sum over all indices |
| Sums.SumBlocks | kernels/sycl/palettized_gemv.cpp:45-54 | summing by words of k elements is summing by elements |
| Softmax.OnlineStep | mlx-rs-core/src/metal_kernels.rs:158-164 | one online-softmax update moves both running sums to the new shift and adds the key's term |
| Softmax.ShiftInvariant | tools/anchor_common.rs:223-235 | numerator over denominator is the same for every shift subtracted inside the exponential |
| Softmax.NormaliseFirst | tools/anchor_common.rs:229-235 | dividing each weight first, or the sum last, gives the same output |
| Softmax.MaskedPrefix | mlx-rs-core/src/metal_kernels.rs:128-132 | softmax over all keys with the forbidden ones masked out is softmax over the allowed prefix |
| Reduction.Phase | mlx-rs-core/src/metal_kernels.rs:148-154 | under every interleaving of single loads and stores, the two loads of a thread in either order, one barrier phase adds the upper half onto the lower half and leaves the rest alone |
| Reduction.LoadsOldValues | mlx-rs-core/src/metal_kernels.rs:148-154 | whatever others have stored, a thread that has not stored finds the phase's initial values in both slots it loads |
| Reduction.TreeReduce | mlx-rs-core/src/metal_kernels.rs:148-156 | slot 0 ends as the halving tree of the initial slots |
| Reduction.TreeIsTotal | mlx-rs-core/src/metal_kernels.rs:148-156 | for every power-of-two width the tree is the full sum |
| Reduction.TreeExactIffPow2 | mlx-rs-core/src/metal_kernels.rs:148-156 | the tree equals the sum for all contents if and only if the width is a power of two |
| Reduction.AdmittedIffPow2 | mlx-rs-core/src/metal_kernels.rs:541-545 | the bit test on the head dimension passes exactly for 0 and the powers of two |
| Reduction.OnePassVariance | mlx-rs-core/src/metal_kernels.rs:79-85 | mean square minus squared mean is the mean squared deviation and never negative, so the clamp does nothing |
| Reduction.StripeSums | mlx-rs-core/src/metal_kernels.rs:43-52 | one thread's strided loop collects its share of the values and of their squares |
| Reduction.PartialSums | mlx-rs-core/src/metal_kernels.rs:43-57 | 256 strided partial sums reduce by the tree to the row sums, for every row length |
| Reduction.StripesTotal | mlx-rs-core/src/metal_kernels.rs:54-75 | stripes and tree together are the plain row sum |
| Reduction.RowStatistics | mlx-rs-core/src/metal_kernels.rs:77-85 | mean and inverse deviation are those of the row by definition |
| Reduction.WriteStripes | mlx-rs-core/src/metal_kernels.rs:87-93 | the strided write-back writes every cell of the row and no other |
| Reduction.ModulateRow | mlx-rs-core/src/metal_kernels.rs:36-93 | the kernel replaces exactly its row by the normalised, modulated row |
| Reduction.ModulatedMoments | mlx-rs-core/src/metal_kernels.rs:77-93 | with one scale a and one shift b the written row has mean b and (1 + a)^2 times the variance normalising gives |
| Reduction.ModulationIsLocal | mlx-rs-core/src/metal_kernels.rs:87-93 | each position applies its own scale and shift to the normalised row |
| FlashAttention.CooperativeDot | mlx-rs-core/src/metal_kernels.rs:144-156 | products in shared memory plus tree are the dot product |
| FlashAttention.Absorb | mlx-rs-core/src/metal_kernels.rs:158-164 | a thread's m, l, acc stay the running maximum, the shifted weight sum and the shifted blend over the keys seen |
| FlashAttention.KeyLoop | mlx-rs-core/src/metal_kernels.rs:119-165 | after the key loop every thread has absorbed exactly the keys below its limit: all of them without the causal flag (`FlashAttention.LimitVisits`) |
| FlashAttention.ThreadGroup | mlx-rs-core/src/metal_kernels.rs:111-172 | a threadgroup writes its output row as softmax attention and touches nothing else |
| FlashAttention.Dispatch | mlx-rs-core/src/metal_kernels.rs:608-612 | in any order of threadgroups the whole output is written; every element is the masked softmax average over its head's keys, by buffer positions |
| FlashAttention.FlashAttention | mlx-rs-core/src/metal_kernels.rs:509-545 | each error is returned for exactly its own shapes; an accepted call returns, in every element, the softmax average over all seqKv keys, or with the causal flag over those at most kvOffset + t, scores and values taken from the buffers by position |
| FlashAttention.LimitVisits | mlx-rs-core/src/metal_kernels.rs:128-132 | key j is visited exactly when it exists and, only under the causal flag, is not behind position kvOffset + t |
| FlashAttention.CellsAreMasked | mlx-rs-core/src/metal_kernels.rs:111-172 | the cells of any launch are masked softmax attention over the whole buffers, causal or not |
| ReferenceAttention.Scores | tools/anchor_common.rs:208-222 | the first pass yields the scaled scores of the causal keys and a bound on them |
| ReferenceAttention.Exponentials | tools/anchor_common.rs:223-227 | the second pass yields the shifted weights and their sum |
| ReferenceAttention.AttendRow | tools/anchor_common.rs:228-235 | one head's row becomes softmax attention over the causal keys |
| ReferenceAttention.SdpaCausalGqa | tools/anchor_common.rs:190-239 | every output element is grouped causal softmax attention |
| ReferenceAttention.KernelEqualsReference | mlx-rs-core/src/metal_kernels.rs:111-172 | from the same q, k, v, scale and grouping, with no offset, the fused output is the reference output, head-major for token-major |
| ReferenceAttention.LimitIsMask | mlx-rs-core/src/utils.rs:139-158 | the kernel visits key j for query i exactly when the window-less causal mask allows it |
| ReferenceAttention.WindowIsBand | mlx-rs-core/src/utils.rs:139-158 | a windowed mask keeps each query's own position and the w before it |
| ReferenceAttention.CrossCheck | tools/anchor_common.rs:190-239 | running kernel and reference on the same inputs gives equal buffers up to layout |
| KvCache.ConcatKeyValueCache.UpdateAndFetch | mlx-rs-core/src/cache.rs:71-93 | returns everything ever appended, followed by the new rows |
| KvCache.KVCache.Grow | mlx-rs-core/src/cache.rs:152-193 | growing keeps the stored rows, makes room, and reaches exactly the stated capacity |
| KvCache.KVCache.UpdateAndFetch | mlx-rs-core/src/cache.rs:142-206 | returns the rows since the last reset followed by the new ones: no stale and no zero row |
| KvCache.KVCache.Reset | mlx-rs-core/src/cache.rs:138-140 | empties the cache and keeps its buffer |
| KvCache.BothOne | mlx-rs-core/src/cache.rs:71-206 | one update returns the same from both caches and leaves the same rows; a reset is a fresh concatenating cache |
| KvCache.RunBoth | mlx-rs-core/src/cache.rs:71-206 | for every sequence of updates and resets, the stepping cache returns what a concatenating cache made at the last reset returns |
| KvCache.RunCache | mlx-rs-core/src/cache.rs:138-206 | the object's capacity and offset after a run are those of the abstract growth rule |
| KvCache.GrownFormula | mlx-rs-core/src/cache.rs:164-165 | the step arithmetic is rounding up to a multiple of the step |
| KvCache.NoResetBound | mlx-rs-core/src/cache.rs:142-193 | without resets, offset <= capacity <= offset + 2 * step - 2 after every run |
| KvCache.NoResetBoundTight | mlx-rs-core/src/cache.rs:142-193 | for every step size some run reaches that bound |
| KvCache.ResetBound | mlx-rs-core/src/cache.rs:138-193 | with resets, capacity <= 2 * highest offset + step - 2, and nothing is allocated before the first token |
| KvCache.ResetBoundTight | mlx-rs-core/src/cache.rs:138-193 | for every step size some run with a reset reaches that bound |
| Speculative.ArgMaxIsFirstLargest | mlx-rs-core/src/speculative.rs:103-107 | sampling at temperature 0 takes the first largest logit |
| Speculative.SpeculativeGenerate.GenerateDraftTokens | mlx-rs-core/src/speculative.rs:114-130 | drafts and draft cache, also when a forward pass fails midway |
| Speculative.SpeculativeGenerate.VerifyDraftTokens | mlx-rs-core/src/speculative.rs:134-165 | for every input position the largest logit and the log-probabilities of that position, or an error with the cache as it was |
| Speculative.SpeculativeGenerate.Accept | mlx-rs-core/src/speculative.rs:271-300 | the longest agreeing prefix is counted and left on the stack in reading order |
| Speculative.SpeculativeGenerate.Pop | mlx-rs-core/src/speculative.rs:185-188 | the top of the stack is the front of the queue |
| Speculative.SpeculativeGenerate.Next | mlx-rs-core/src/speculative.rs:184-316 | push, reverse and pop on the stack refine a first-in first-out queue: one call is one step of the decoder machine, errors included |
| SpeculativeStream.RoundIsGreedy | mlx-rs-core/src/speculative.rs:241-292 | whatever the drafts, accepted drafts plus the next target token are the target's own greedy continuation; the index is in range and the prefix is the longest agreeing one |
| SpeculativeStream.DraftRunIsGreedy | mlx-rs-core/src/speculative.rs:114-130 | drafts that come back are the draft model's greedy continuation; its cache misses only the last one |
| SpeculativeStream.FailedDraftRun | mlx-rs-core/src/speculative.rs:118-123 | a draft run that fails has fed the cache the continuation up to the token it fails on |
| SpeculativeStream.RoundRefines | mlx-rs-core/src/speculative.rs:241-314 | a call on an empty queue that returns a token performs exactly one round and queues exactly its tokens, whatever the models do elsewhere |
| SpeculativeStream.FailedRound | mlx-rs-core/src/speculative.rs:244-269 | a failed call leaves everything as it was except the draft cache, which has grown by the drafted inputs taken before the failure, all of the round's when the target failed |
| SpeculativeStream.FailedPrefill | mlx-rs-core/src/speculative.rs:190-210 | when prefill fails and what it leaves: if the draft model fails, the prompt is already in the target cache |
| SpeculativeStream.RefusedPrompt | mlx-rs-core/src/speculative.rs:190-210 | n calls with a draft model that refuses the prompt feed the target the prompt n times over and return n errors |
| SpeculativeStream.RoundDropsItsLastToken | mlx-rs-core/src/speculative.rs:290-313 | a round emits its accepted drafts, or the target's token when there is none; the target's token behind accepted drafts is dropped |
| SpeculativeStream.RoundSays | mlx-rs-core/src/speculative.rs:134-165 | every token of a round is the largest logit, and carries the log-probabilities, of the target after its cache, the round's input and the tokens before it in the round |
| SpeculativeStream.StreamIsRounds | mlx-rs-core/src/speculative.rs:184-316 | for every run of n calls without a failed one, from any generating state: the queue, then the rounds' tokens in order |
| SpeculativeStream.StreamAfterFailure | mlx-rs-core/src/speculative.rs:184-316 | behind a failed call anywhere in a run the stream goes on with rounds from the caches the failure left |
| SpeculativeStream.WholeStream | mlx-rs-core/src/speculative.rs:184-316 | every whole run without a failed call is the prefill token followed by the rounds |
| SpeculativeStream.StreamSays | mlx-rs-core/src/speculative.rs:184-316 | the same of every token of every whole run, the prompt's token included |
| SpeculativeStream.LosslessIffNoDrafts | mlx-rs-core/src/speculative.rs:290-313 | for every vocabulary size: all error-free streams, of all models over it, are the target's greedy stream if and only if no tokens are drafted or the vocabulary has one token |
| SpeculativeStream.RepairedIsLossless | mlx-rs-core/src/speculative.rs:290-300 | emitting the target's token and trimming the cache would make every run greedy, for any drafts |
| Lexer.ScanLineIsFeed | scripts/unwrap_baseline.py:117-263 | scanning a line is feeding its characters: it stops at the first zero depth, else hands on state and depth |
| Lexer.ContinueIsFirstZero | scripts/unwrap_baseline.py:105-264 | across lines, the reported line holds the first position of depth 0, with depth at least 1 everywhere before; none is reported only if the depth stays at least 1 |
| Lexer.MatchingBraceIsFirstZero | scripts/unwrap_baseline.py:105-116 | the same from the first brace of the start line |
| LexicalGrammar.InLiteral | scripts/unwrap_baseline.py:219-242 | inside a literal, up to its first own quote behind an even number of backslashes or the end of its line, the automaton only tracks that parity and no brace counts |
| LexicalGrammar.InRawString | scripts/unwrap_baseline.py:150-176 | inside a raw string, over as many lines as it takes, the automaton only tracks the hashes behind the last quote of the body; it ends at the first quote with all of them |
| LexicalGrammar.InNote | scripts/unwrap_baseline.py:243-245 | a line comment is read to the end of its line |
| LexicalGrammar.InBlockNote | scripts/unwrap_baseline.py:246-256 | a block comment is read over any number of lines to the first star and slash behind its opening |
| LexicalGrammar.ConstructIsRead | scripts/unwrap_baseline.py:117-263 | every construct leaves the depth alone and is followed by code |
| LexicalGrammar.DepthIsBraces | scripts/unwrap_baseline.py:117-263 | on every text the depth is the starting depth plus opening less closing braces outside literals, raw strings and comments |
| LexicalGrammar.MatchingBraceIsLexical | scripts/unwrap_baseline.py:85-264 | the reported line holds the first such brace that balances the first one; none only if there is no brace or it is never balanced |
| LexicalGrammar.MatchingBraceUnique | scripts/unwrap_baseline.py:85-264 | no other answer has that property |
| BraceScanner.TryClose | scripts/unwrap_baseline.py:121-133 | the hash-counting loop closes a raw string exactly when the automaton does |
| BraceScanner.RawString | scripts/unwrap_baseline.py:150-176 | the raw-string branch, same-line close included, and the state it carries to the next line |
| BraceScanner.Literal | scripts/unwrap_baseline.py:219-242 | the string and character branches, escapes included |
| BraceScanner.BlockComment | scripts/unwrap_baseline.py:246-256 | the block-comment branch, its last-character edge case included |
| BraceScanner.ByteString | scripts/unwrap_baseline.py:177-218 | the byte-string branch reads what the automaton reads from the next character |
| BraceScanner.CodeStep | scripts/unwrap_baseline.py:142-263 | every branch moves forward and agrees with the automaton |
| BraceScanner.CarriedStep | scripts/unwrap_baseline.py:118-141 | the carried raw-string and comment modes agree with the automaton |
| BraceScanner.FindMatchingBrace | scripts/unwrap_baseline.py:85-264 | the scanner terminates and returns the automaton's line, which for plain lines is the line of the ordinary brace that closes the first one |
| BraceScanner.FindTestModuleRanges | scripts/unwrap_baseline.py:44-82 | the ranges are the modules announced outside earlier ranges, each to its matching brace, none missed and none added, up to the first unbalanced announcement outside them |
| BraceScanner.TestModulesUnique | scripts/unwrap_baseline.py:44-82 | that contract has one answer for every file |
| LineForms.AttributeLine | scripts/unwrap_baseline.py:34-34 | the announcing line is the attribute between spaces |
| LineForms.SkippedLine | scripts/unwrap_baseline.py:63-69 | skipped lines are blank, line comments, or further attributes |
| LineForms.ModuleLine | scripts/unwrap_baseline.py:39-39 | the opening line is spaces, mod, a space at least, an identifier, spaces, a brace, anything |
| Civil.AlwaysADate | compute-core/src/lib.rs:591-604 | every day number, of either sign, gives a valid Gregorian date |
| Civil.NextNumberNextDay | compute-core/src/lib.rs:591-604 | the next number is the calendar's next day |
| Civil.DayNumberOfCivil | compute-core/src/lib.rs:591-604 | counting days from 1970-01-01 to that date gives the number back |
| Civil.CivilOfDayNumber | compute-core/src/lib.rs:591-604 | every valid date is reached, by its own day count |
| Civil.CivilIncreases | compute-core/src/lib.rs:591-604 | the map is strictly increasing |
| Civil.EraIsFloor | compute-core/src/lib.rs:594-595 | with truncating division the branch on the sign makes the era a floor |
| Civil.TimestampCounts | compute-core/src/lib.rs:563-580 | the printed fields are in range and count back to the given seconds |
| Gemm.Accumulate | tools/anchor_common.rs:31-37 | one element is its k-loop |
| Gemm.GemmWt | tools/anchor_common.rs:25-40 | every output slot is its element |
| Gemm.SlotIsDotProduct | tools/anchor_common.rs:25-40 | over the reals, slot row * n + col is the dot product of k-long rows of activations and decoded weights |
| Gemm.StripsPartition | tools/anchor_common.rs:70-88 | for every n and thread count each column lies in exactly one thread's strip |
| Gemm.RunKeepsInv | tools/anchor_common.rs:81-105 | under every schedule a slot is untouched or holds its own element, written by its one owner |
| Gemm.RunUsesTurns | tools/anchor_common.rs:81-105 | a thread needs exactly its number of elements times k + 1 turns |
| Gemm.ParallelEqualsSerial | tools/anchor_common.rs:57-106 | all threads finish exactly when each had its turns, and then the buffer is the serial one |
| Rope.RopeApply | tools/anchor_common.rs:138-153 | the in-place loop rotates every pair once, from old values, and leaves the rest |
| Rope.Conjugate | tools/anchor_common.rs:129-148 | the half-split rotation is the interleaved one conjugated by a rearrangement |
| Rope.PlaceIsPermutation | tools/anchor_common.rs:145-148 | that rearrangement is one to one |
| Rope.RotationUndone | tools/anchor_common.rs:138-153 | rotating with negated sines restores the vector, in either convention |
| Rope.PairTurned | tools/anchor_common.rs:138-153 | pair i, at its two positions in either convention, is turned from the first toward the second: (1, 0) becomes (cos, sin) |
| Rope.RotationsAdd | tools/anchor_common.rs:138-153 | rotating twice is rotating once by the sum of the angles |
| Bf16.RoundTrip | tools/anchor_common.rs:8-19 | widening and rounding again is the identity on every pattern that is not a NaN |
| Bf16.NearestPattern | tools/anchor_common.rs:13-19 | on patterns: at most half a step away, ties to even, sign kept, no wrap past infinity |
| Bf16.NearestValue | tools/anchor_common.rs:13-19 | no bf16 value is nearer than the rounded one (section 4.3.1 of IEEE 754-2019) |
| Tile640.FusedTernaryGemv | src/compute_backend.rs:101-111 | each output is the dot product with the dequantised row |
| Tile640.TwentyTritsFit | kernels/oracle/tile640_oracle.cpp:57-66 | twenty base-3 digits stay below 3^20 < 2^32 |
| Tile640.HornerDigit | kernels/oracle/tile640_oracle.cpp:79-80 | remainder and quotient by 3 take off one digit after another |
| Tile640.PackLane | kernels/oracle/tile640_oracle.cpp:57-64 | 32-bit accumulation of digit times power builds the lane's word, also when it stops at the last column |
| Tile640.Pack | kernels/oracle/tile640_oracle.cpp:52-66 | every word of the arena, partial last tile included |
| Tile640.PackedDigit | kernels/oracle/tile640_oracle.cpp:52-66 | the digit of every column stands in word col / 20 of its row at place 3^(col % 20), as the sign's remainder by 3 |
| Tile640.LaneDot | kernels/oracle/tile640_oracle.cpp:78-82 | unpacking a word adds exactly its real columns' reference terms |
| Tile640.TiledGemv | kernels/oracle/tile640_oracle.cpp:76-84 | for every shape the tile and lane traversal is the reference product |
| Tile640.CrossCheck | kernels/oracle/tile640_oracle.cpp:52-84 | pack, then both products: equal results |
| Codebook.Nearest | tools/nf4tile640_ref.rs:31-39 | the scan returns the first nearest entry |
| Codebook.NearestError | tools/nf4tile640_ref.rs:31-39 | for every ascending codebook the nearest entry is within half of the widest gap spanned |
| Codebook.NF4Error | tools/nf4_forward_ref.rs:22-46 | a normalised weight is coded within 0.1519036 |
| Codebook.RepoTailUnreachable | tools/nf4tile640_ref.rs:16-21 | codes 13, 14 and 15 of the repository codebook are never nearest on [-1, 1] |
| Codebook.NormalisedInRange | tools/nf4tile640_ref.rs:55-59 | dividing by the group's absolute maximum leaves the clamp nothing to do |
| Codebook.QuantizeAbsmax | tools/nf4tile640_ref.rs:54-61 | for every group the scale is 1 when all magnitudes are at most 1e-12, otherwise the largest of them; every code is the nearest one; reconstruction within 0.1519036 * scale with NF4, and within 0.1391 * scale without codes above 12 with the repository codebook |
| Codebook.AffineHigh | tools/nf4tile640_ref.rs:43-52 | the group maximum lands above the last midpoint exactly when the range exceeds 2.7931e-12 |
| Codebook.RepoLast | tools/nf4tile640_ref.rs:18-21 | code 15 is nearest exactly above that midpoint |
| Codebook.QuantizeAffine | tools/nf4tile640_ref.rs:43-53 | scale and bias; every code is the nearest one and reconstructs within 0.2069 * scale; the minimum gets code 0; the maximum gets code 15 if and only if the range exceeds 2.7931e-12 |
| Nf4Tile640.AddressIsLinear | tools/nf4_forward_ref.rs:75-82 | byte, nibble and scale addresses are the linear numbering of the padded matrix |
| Nf4Tile640.AddressBijection | tools/nf4_forward_ref.rs:75-82 | different positions never share a nibble |
| Nf4Tile640.AddressOnto | tools/nf4_forward_ref.rs:60-62 | every nibble of the arena belongs to a position |
| Nf4Tile640.ColumnParts | tools/nf4_forward_ref.rs:97-104 | a column is taken apart into tile, group, lane and index and put together again |
| Nf4Tile640.OrNibble | tools/nf4_forward_ref.rs:82 | or-ing a code into a clear nibble stores it and changes no other nibble |
| Nf4Tile640.GroupAbsMax | tools/nf4_forward_ref.rs:66-71 | the loop finds the group's largest magnitude, padding included: it bounds all 128 and is one of them |
| Nf4Tile640.PackNibble | tools/nf4_forward_ref.rs:77-82 | one more nibble holds the nearest code of its normalised weight |
| Nf4Tile640.PackScale | tools/nf4_forward_ref.rs:72-74 | the group's scale is stored in its own slot: 1 when every magnitude is at most 1e-12, otherwise the largest of them |
| Nf4Tile640.Pack | tools/nf4_forward_ref.rs:59-89 | for every shape the low and high half of byte b are the nearest codes of padded positions 2b and 2b + 1, and every scale is 1 or its group's largest magnitude |
| Nf4Tile640.GroupScaleIs | tools/nf4_forward_ref.rs:66-73 | a group's scale is 1 exactly as said, otherwise a magnitude of the group that bounds all of them |
| Nf4Forward.Decode | tools/nf4_forward_ref.rs:104-107 | the addressed code times the group's scale |
| Nf4Forward.DequantCol | tools/nf4_forward_ref.rs:93-111 | column-wise decoding of an arbitrary arena |
| Nf4Forward.DequantBytes | tools/nf4_forward_ref.rs:211-232 | byte-wise decoding gives the same matrix, padding skipped |
| Nf4Forward.DecodedOnce | tools/nf4_forward_ref.rs:233-237 | two full decodings are equal |
| Nf4Forward.ReconstructionError | tools/nf4_forward_ref.rs:188-195 | after packing, every weight comes back within 0.1519036 of its group's scale |
| Nf4Forward.LargestComesBack | tools/nf4_forward_ref.rs:66-82 | the largest weight of a group above 1e-12 gets code 0 or 15 and comes back exactly |
| Nf4Forward.PaddingIsZero | tools/nf4_forward_ref.rs:239-263 | every padded column decodes to exactly 0 |
| Nf4Forward.DenseGemv | tools/nf4_forward_ref.rs:114-118 | the dense product row by row |
| Nf4Forward.KernelGemv | tools/nf4_forward_ref.rs:125-161 | the guarded walk over the padded grid adds exactly the real columns' terms |
| Nf4Forward.DecodedRow | tools/nf4_forward_ref.rs:197-209 | the kernel's row sum is the dense row sum of the decoded matrix |
| Nf4Forward.CrossCheck | tools/nf4_forward_ref.rs:186-237 | pack, decode both ways, multiply both ways: equal matrices, equal products |
| Palettized.NibbleAgrees | kernels/oracle/palettized_oracle.cpp:29-56 | nibble j of a little-endian word is nibble j % 2 of byte j / 2 |
| Palettized.WordNibbleIsByteNibble | kernels/common/palettized_abi.h:16-19 | word-and-shift unpacking reads the byte-wise nibble of every element |
| Palettized.TermFromBuffers | kernels/oracle/palettized_oracle.cpp:22-35 | element i meets the entry of its own row's 16 that the low or high half of byte i / 2 selects |
| Palettized.ReferenceGemv | kernels/oracle/palettized_oracle.cpp:22-35 | the byte-wise reference product |
| Palettized.WordSum | kernels/oracle/palettized_oracle.cpp:47-56 | the eight unrolled products are the eight elements' terms |
| Palettized.KernelEquivGemv | kernels/oracle/palettized_oracle.cpp:38-60 | the word form covers the elements of whole words |
| Palettized.TailDropped | kernels/oracle/palettized_oracle.cpp:44-58 | what the word form leaves out when the width is not a multiple of 8 |
| Palettized.CrossCheck | kernels/oracle/palettized_oracle.cpp:62-84 | for widths divisible by 8 both forms give the same output |
| Palettized.FillCodebook | kernels/sycl/palettized_gemv.cpp:39-41 | which local codebook slots a group of any size fills |
| Palettized.WordLoop | kernels/sycl/palettized_gemv.cpp:49-53 | one word's eight products are accumulated |
| Palettized.ThreadSum | kernels/sycl/palettized_gemv.cpp:47-54 | a thread's strided loop collects its share of the words |
| Palettized.WorkGroup | kernels/sycl/palettized_gemv.cpp:36-58 | a group's reduced total is the row product over whole words |
| Palettized.DecodeGemv | kernels/sycl/palettized_gemv_igpu_npu.cpp:41-77 | the decode kernel with any work-group size of at least 16 |
| Palettized.GroupSizeCheck | kernels/sycl/palettized_gemv_igpu_npu.cpp:32-34 | two work-group sizes and the reference give one output |
| Palettized.BatchedGemv | kernels/sycl/palettized_gemv.cpp:64-103 | every cell of a batch is the product of its row and vector |
| TernaryGemv.ByteRoundTrip | compute-core/src/ecs/legacy_compute_image_core/compile/ternary.rs:978-990 | four signs packed into a byte are read back |
| TernaryGemv.PackSigns | compute-core/src/ecs/legacy_compute_image_core/compile/ternary.rs:978-990 | a packed sign matrix decodes to itself |
| TernaryGemv.SignedIsProduct | kernels/sycl/ternary_gemv.cpp:38-40 | conditional add or subtract is the product with the code's weight, code 11 included |
| TernaryGemv.TermFromBytes | kernels/sycl/ternary_gemv.cpp:32-42 | element i is added, subtracted or left out as its two bits of byte i / 4, lowest first, are 1, 2 or neither |
| TernaryGemv.ThreadSum | kernels/sycl/ternary_gemv.cpp:32-42 | a thread's strided loop collects its share of the bytes |
| TernaryGemv.Gemv | kernels/sycl/ternary_gemv.cpp:16-49 | every output is the dense product, for any work-group size |
| TernaryGemv.PackedGemv | kernels/sycl/ternary_gemv.cpp:16-49 | pack signs, then multiply: the dense product with the signs |
| QuantLane.UniformRange | tools/quant_lab.rs:40-41 | a draw lies in [0, 1) |
| QuantLane.RoundWeight | tools/quant_lab.rs:111-120 | the trit in each mode, characterised in `QuantMeaning`; one draw per weight in the stochastic mode whatever the weight |
| QuantLane.RoundLane | tools/quant_lab.rs:105-123 | the lane loop's trits, carry and random state |
| QuantLane.Conservation | tools/quant_lab.rs:110-122 | over any outlier-free stretch, in any mode: carry in + weights = scale * trits + carry out |
| QuantLane.MassConserved | tools/quant_lab.rs:106-122 | from the lane start or behind an outlier the carry in is zero |
| QuantLane.CarryBound | tools/quant_lab.rs:110-122 | deadzone carry is at most max(tau, 1 - tau) * scale plus the stretch's excess over the scale, for every tau |
| QuantLane.LaneCarryBound | tools/quant_lab.rs:99-122 | with the lane's own absmean the carry is at most (max(tau, 1 - tau) + 19) scales everywhere |
| QuantLane.StateOfMask | tools/quant_lab.rs:108-118 | the random state after a lane depends on the outlier mask only |
| QuantLane.RefitScale | tools/quant_lab.rs:126-132 | the refit loop |
| QuantLane.BestScale | tools/quant_lab.rs:126-132 | num / den is the one least-squares scale for the locked trits |
| QuantLane.RefitOptimal | tools/quant_lab.rs:126-132 | the scale used is optimal if and only if num / den is at least 1e-12 |
| QuantMeaning.RefitIsQuotient | tools/quant_lab.rs:126-132 | the refit scale times the number of non-zero trits is the magnitude of the sum of weight times trit, unless the floor is above that |
| QuantLane.DeadzoneKeepsSigns | tools/quant_lab.rs:113-115 | without diffusion every non-zero trit has its weight's sign |
| QuantLane.SignsCorrelate | tools/quant_lab.rs:126-132 | and then num is never negative |
| QuantLane.DeadzoneRefitOptimal | tools/quant_lab.rs:113-132 | deadzone rounding without diffusion and with tau * scale at least 1e-12: the refit scale is the best one |
| QuantLane.DiffusionCanOppose | tools/quant_lab.rs:105-132 | a lane where diffusion makes the refit suboptimal |
| QuantPage.SortByMagnitude | tools/quant_lab.rs:67-68 | a stable order by descending magnitude that contains every position |
| QuantPage.ExtractOutliers | tools/quant_lab.rs:63-75 | exactly the k positions that beat all others are extracted, with their bf16 values |
| QuantPage.TopKUnique | tools/quant_lab.rs:64-75 | that set is determined by the weights |
| QuantPage.QuantizeLane | tools/quant_lab.rs:93-140 | scale, rounding, refit and storage of one lane, and the random state it hands on |
| QuantPage.QuantizePage | tools/quant_lab.rs:57-160 | the reconstruction: bf16 outliers, trit times the final lane scale elsewhere, in every configuration; trits, scales and outliers are characterised in `QuantMeaning` |
| QuantPage.StateOfMasks | tools/quant_lab.rs:92-118 | the random state at a lane's start depends on the masks before it only |
| QuantPage.LaneIsolation | tools/quant_lab.rs:91-142 | with an unchanged outlier set and an unchanged lane: same trits, carry and scale there, whatever changed elsewhere, stochastic rounding included; under a page-wide scale, while that scale is the same |
| QuantPage.ReconIsolation | tools/quant_lab.rs:91-157 | and the same reconstruction: always with bf16 lane scales, under the two-level code while the page maximum is the same, under a page-wide scale while that is the same |
| QuantPage.PageCarryBound | tools/quant_lab.rs:91-124 | the carry bound for every lane of a page |
| QuantPage.TwoLevelError | tools/quant_lab.rs:145-149 | a scale up to the page maximum is decoded within 1/254 of the maximum, a larger one as the maximum |
| QuantPage.RecodeLane | tools/quant_lab.rs:150-155 | re-encoding recovers each trit from the sign of its reconstruction |
| QuantMeaning.RoundedNearest | tools/quant_lab.rs:112 | rounding is to the nearest integer, halves away from zero |
| QuantMeaning.NearestTrit | tools/quant_lab.rs:112 | nearest mode: +1 exactly from half a scale up, -1 exactly from minus half a scale down |
| QuantMeaning.NearestTritBest | tools/quant_lab.rs:112 | no trit is nearer to the weight, a tie goes to the non-zero one, and the error is at most half a scale or what the weight exceeds the scale by |
| QuantMeaning.DeadzoneTrit | tools/quant_lab.rs:113-115 | deadzone mode: 0 exactly when the magnitude is at most tau * scale, otherwise the weight's sign |
| QuantMeaning.ChanceTrit | tools/quant_lab.rs:116-119 | stochastic mode: non-zero exactly when the draw times the scale is below the magnitude, and then with the weight's sign |
| QuantMeaning.StepUndone | tools/quant_lab.rs:40 | the generator's step on 64 bits can be undone |
| QuantMeaning.UniformTruncates | tools/quant_lab.rs:41 | a draw is the state's fraction of 2^64 cut off after 24 bits |
| QuantMeaning.AbsmeanIsMean | tools/quant_lab.rs:82-85 | the absmean times the number of kept weights is the sum of their magnitudes, unless the floor is above that |
| QuantMeaning.AbsmaxIsLargest | tools/quant_lab.rs:79-80 | the absmax bounds every kept magnitude and is one of them |
| QuantMeaning.LargestScaleIsLargest | tools/quant_lab.rs:145 | the page maximum is taken over the stored scales: a bound and one of them |
| QuantMeaning.OutlierCountIsNearest | tools/quant_lab.rs:63-64 | the fraction of the page to the nearest whole number, none for fractions up to 0, all from 1 on |
| QuantMeaning.OutliersAreLargest | tools/quant_lab.rs:63-75 | outliers are the largest weights, ties by position, and as large as the absmax of what is kept |
| QuantMeaning.GammaOf | tools/quant_lab.rs:78-103 | the scale an element is rounded with, from its own slice of twenty weights or the page |
| QuantMeaning.TritOfWeight | tools/quant_lab.rs:105-123 | without diffusion an element's trit is that of its own weight under that scale |
| QuantMeaning.ScaleOfElement | tools/quant_lab.rs:125-149 | the scale an element is decoded with: refit of its own lane if asked for, then bf16 or the two-level code |
| QuantMeaning.ReconOfWeight | tools/quant_lab.rs:105-140 | without diffusion, refit and two-level code an element is its own trit times its lane's stored scale |
| QuantMeaning.BaselineError | tools/quant_lab.rs:57-140 | absmax, nearest, one scale a page: every kept weight comes back within half a scale and the scale's rounding |
| Wav.LoadWav | mlx-rs-core/src/audio.rs:46-159 | the result or error for every byte sequence |
| Wav.ReadChunk | mlx-rs-core/src/audio.rs:78-112 | one chunk: format, data, skip, end of file, and the panic on a short format chunk |
| Wav.MixToMono | mlx-rs-core/src/audio.rs:148-156 | whole frames are averaged |
| Wav.MonoOfCopies | mlx-rs-core/src/audio.rs:148-156 | mixing identical channels gives the channel back |
| Wav.MonoIsAverage | mlx-rs-core/src/audio.rs:148-156 | a mixed sample times the channel count is the sum of its frame, whatever the channels hold |
| Wav.StereoIsAverage | mlx-rs-core/src/audio.rs:148-156 | two channels are averaged |
| Wav.I24RoundTrip | mlx-rs-core/src/audio.rs:125-132 | three bytes of a two's-complement number are read as that number |
| Wav.LoadOfFile | mlx-rs-core/src/audio.rs:46-159 | rate, width and channel count of a file reach the conversion of exactly its data |
| Wav.ConvertIsFrames | mlx-rs-core/src/audio.rs:115-156 | for 16, 24 and 32 bits and any channel count: one sample per whole frame, each the average of its frame's numbers; any other width is refused |
| Wav.LoadOf24Bits | mlx-rs-core/src/audio.rs:125-132 | a 24-bit mono file gives each code as a part of 2^23 |
| Wav.SaveWav | mlx-rs-core/src/audio.rs:287-332 | the bytes written, with 32-bit sizes that wrap |
| Wav.HeaderFields | mlx-rs-core/src/audio.rs:297-322 | every field of the written header by its byte position |
| Wav.PcmClips | mlx-rs-core/src/audio.rs:324-329 | samples beyond the range are written as its end |
| Wav.LoadOfSave | mlx-rs-core/src/audio.rs:287-332 | loading a saved file gives the rate and the 16-bit code of each sample, of the first (length mod 2^31) samples |
| Wav.LengthKept | mlx-rs-core/src/audio.rs:297-303 | the length survives if and only if it is below 2^31 |
| Wav.SavedWithin | mlx-rs-core/src/audio.rs:324-329 | samples in [-1, 1] come back within 2/32768 |
| Wav.ResaveFades | mlx-rs-core/src/audio.rs:119-121 | saving a loaded code moves it exactly one step toward zero |
| Wav.PassesFade | mlx-rs-core/src/audio.rs:324-329 | n passes leave sign(k) * max(abs(k) - n, 0) of every code |
| Wav.UnknownChunkIgnored | mlx-rs-core/src/audio.rs:107-110 | an unknown chunk between any chunks and before any tail, well formed or not, changes nothing |
| Wav.UnknownChunkInFile | mlx-rs-core/src/audio.rs:107-110 | the same for the whole load |

## Left out

- Float rounding, NaN, infinities and overflow in attention, GEMV, quantiser and WAV arithmetic: exact reals. `max` against NaN, negative zero and the float initial maximum -1e38 (any initial maximum gives the same result here) are not modelled.
- The GPU memory model: barrier-delimited phases are atomic. No barrier separates the read of slot 0 at `mlx-rs-core/src/metal_kernels.rs:156` from the next key's write at 145; that separation is assumed.
- Index width: usize, i32 and u32 indices do not overflow; civil day arithmetic does not overflow i64; debug-build overflow panics in `save_wav` are not modelled, the release build's wrap is.
- A negative key offset in `flash_attention`, buffers that do not match their shapes, and zero key heads: `WellShaped` excludes them. Element types and MLX calls are not modelled.
- Key/value rows are abstract; keys and values of different lengths in one update are not modelled, nor the batch and head axes.
- The draft and target models are deterministic functions of the tokens consumed; sampling at other temperatures is not modelled. A forward pass fails as a function of the tokens it is given, so a failure does not go away by itself; failures of array operations are not modelled.
- `classify_lines`, `count_file` and the command line of the baseline script; regular expressions are modelled as the predicates they amount to.
- Raw strings without hashes that do not close on their line do not carry to the next line in the code; the automaton follows the code, not the Rust grammar.
- The two quantisers and the error statistics of the tile640 oracle: packing starts from given digits.
- The page quantiser's counters (`nonzero`, `outliers`), its tables and metrics; bf16 rounding of scales is a parameter that keeps numbers from 1e-12 up positive.
- Work-groups of fewer than 16 threads leave codebook slots unfilled in the palettized kernels; `DecodeGemv`, `BatchedGemv` and `GroupSizeCheck` ask for at least 16, as the configured sizes 64 and 32 give.
- Widths with an odd number of elements in the byte-wise palettized reference, which the layout does not allow.
- bias terms of the affine codebook form in the NF4 arena (always 0 there), and the coverage counters of the codebook comparison.
- Resampling, mel features, RMS norm, SwiGLU and the whole-model programs around these cores.
- Gemm.ParallelEqualsSerial: for n > 0; without columns no thread writes anything.
- ReferenceAttention.KernelEqualsReference: for non-empty shapes, causal with offset 0, the only case the reference has; other limits are covered by `FlashAttention.FlashAttention` alone.
