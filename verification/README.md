# Verification of the SocialPredict support code

A Dafny project that models the parts of the SocialPredict repository where a small mistake would be
hard to see, and proves what they promise. Nothing here runs the original programs: the models
restate their code, branch by branch, and the contracts and lemmas say what it achieves. Run `dafny
verify dfyconfig.toml` to check everything.

## What is modelled

**Hashing** (`Bits.dfy`, `Sha512.dfy`, `Sha512Laws.dfy`, `Sha512Constants.dfy`, `Hash.dfy`,
`Sha512Digest.dfy`). The bundled SHA-512 keeps 64-bit words as pairs of 32-bit halves. The model has
the same fields, loops and half-word functions; FIPS 180-4 is written down separately on 64-bit
words, and every loop is proved to compute it. What the functions of the standard do is stated bit
by bit and argument by argument, and the constants are proved to be the digits of roots of primes
they should be. The buffering layer is proved for every way of cutting a message into updates.

**Text and buffers** (`Utf8.dfy`, `UnicodeOrder.dfy`, `StringDecoder.dfy`, `DecoderCuts.dfy`,
`BufferList.dfy`, `BufferInts.dfy`, `BufferSearch.dfy`). The conversions between UTF-16 and UTF-8
are proved against the definitions of RFC 3629, in both directions and with the exact inputs on
which the round trip holds and a byte budget is used in full. The streaming decoder is specified on
all bytes and proved to give, on well-formed ones, what decoding at once gives; the exact bytes for
which every way of cutting them does are found. The linked list of chunks is modelled with real
nodes, the integer codecs and the search with their loops.

**The writable stream** (`Writable.dfy`). The step machine of `write`, `cork`, `uncork`, `end`, the
sink's answers and the deferred calls, with the counters the source keeps. One invariant holds
between any two steps of any script, and what users rely on follows from it.

**Shell words** (`Shell.dfy`). The printer of the curl snippets against a reader that follows
sections 2.2 and 2.3 of the POSIX.1-2017 Shell Command Language.

**The rate limiter** (`RateLimit.dfy`, `RateLimitProtocol.dfy`, `RateLimitHandlers.dfy`). Token
buckets over exact numbers. With lookup and spending in one step, evicting full buckets refines
keeping them for ever. With lookup, spending and the sweep interleaved, admissions are bounded, and
the bound is reached by every policy with a burst. The interleaved steps are those of handlers and a
sweeper that share the limiter's own objects.

**Migrations and start-up** (`StringOrder.dfy`, `Migration.dfy`). A process is a deterministic
machine over a shared database and a stream of outcomes; a system is any number of them with crashes
and restarts. The runner's methods are proved to be paths of that machine.

**The log line** (`Quoting.dfy`, `Logger.dfy`, `LogLaws.dfy`). Key normalisation by its loop, the
field map, the order of keys and the quoting, up to the statement that a line determines what was
logged.

**The fixture seeder** (`SeedNames.dfy`, `SeedUsers.dfy`, `SeedMarkets.dfy`, `Seeder.dfy`) **and the
chart** (`Chart.dfy`). When seeding succeeds, what seeding and resetting do to the tables, and the
chart's cumulative points, round maximum and plot coordinates.

The bundle is one physical line, so its rows below all cite line 2; the module or function is named
in the code's comments.

## Where the code differs from what one would expect

- `utf8ToBytes` forgets the last of two lead surrogates at the end of a string
  (`Utf8.LoneSurrogatesReplaced`, under a budget `Utf8.BudgetGivesLongestPrefix`; at one string
  `Utf8.SecondLeadIsLost`), and takes a budget of zero for no budget (`Utf8.BudgetIsKept`,
  `Utf8.BudgetZeroIsNone`).
- The streaming decoder gives some malformed bytes another number of replacement characters when
  they are cut: exactly those with a character cut off behind its second byte or later
  (`DecoderCuts.CutsDoNotMatterIff`; at three bytes `StringDecoder.CutsMatterForMalformedBytes`).
- `escapeShell` leaves words starting with `_`, `-` or `/` as they are, so some do not survive the
  shell (`Shell.PrintedWordsAreReadBack`, `Shell.PathWithSpaceIsLost`).
- The sweep of the rate limiter reads a bucket and deletes it in two steps, and `Allow` does not
  take the table's lock. A request can be admitted in between, and its client then gets a full
  bucket although no bucket was evicted before anyone asked it
  (`RateLimitProtocol.CondemnedBucketsCount`). Over all runs, counting evicted buckets is enough
  exactly for policies that admit nobody (`RateLimitProtocol.PlainBoundIffNoBurst`); it is always
  enough on runs in which nobody asks in between
  (`RateLimitProtocol.UndisturbedSweepsKeepPlainBound`).
- Two migration writers at once may execute a recorded migration again, whenever anything can be
  executed at all (`StartupProtocol.ManyWritersNeverRerunIffStuck`).
- A second `end` drops its callback, which then never runs (`Writable.Writable.End`).
- A deleted user still owns its name, so seeding over a soft-deleted fixture fails
  (`SeedUsers.DeletedFixtureBlocksSeeding`); `Seeder.SeededIffFree` says exactly when it succeeds.
- A seeded market takes a fresh id; a bet left over on that id is removed by a later reset
  (`Seeder.LeftOverBetIsLost`); `Seeder.ResetAfterSeed` says exactly when nothing is lost.

## Model

| member | source | states |
|---|---|---|
| `HalfWords.CarryAddIsPlus` | backend/swagger-ui/swagger-ui-es-bundle-core.js:2 | adding two (hi, lo) pairs with `getCarry` testing the low sum against either addend is addition modulo 2^64 |
| `HalfWords.Pair.Plus` | backend/swagger-ui/swagger-ui-es-bundle-core.js:2 | a pair addition written with the carry has the value of the 64-bit sum |
| `HalfWords.RotrJoin` | backend/swagger-ui/swagger-ui-es-bundle-core.js:2 | shifting both halves by n < 32 and or-ing them is the 64-bit rotation by n |
| `HalfWords.RotrJoinFar` | backend/swagger-ui/swagger-ui-es-bundle-core.js:2 | the same with the halves exchanged is the rotation by 32 + n |
| `HalfWords.ShiftRightJoin` | backend/swagger-ui/swagger-ui-es-bundle-core.js:2 | the high half shifted alone and the low half filled from it are the 64-bit shift |
| `HalfWords.SplitSigma0` | backend/swagger-ui/swagger-ui-es-bundle-core.js:2 | `sigma0` on both halves is the 64-bit function of section 4.1.3 of FIPS 180-4 |
| `HalfWords.SplitSigma1` | backend/swagger-ui/swagger-ui-es-bundle-core.js:2 | `sigma1` likewise |
| `HalfWords.SplitGamma0` | backend/swagger-ui/swagger-ui-es-bundle-core.js:2 | `Gamma0` and `Gamma0l` together are the small sigma zero of the standard |
| `HalfWords.SplitGamma1` | backend/swagger-ui/swagger-ui-es-bundle-core.js:2 | `Gamma1` and `Gamma1l` together are the small sigma one |
| `HalfWords.SplitCh` | backend/swagger-ui/swagger-ui-es-bundle-core.js:2 | `Ch` written with two xors is the standard's choice, half by half |
| `HalfWords.SplitMaj` | backend/swagger-ui/swagger-ui-es-bundle-core.js:2 | `maj` written with an or is the standard's majority, half by half |
| `Sha512.ReadPair` | backend/swagger-ui/swagger-ui-es-bundle-core.js:2 | two big-endian 32-bit reads give the 64-bit message word |
| `Sha512.Sha512.constructor` | backend/swagger-ui/swagger-ui-es-bundle-core.js:2 | the sixteen initial halves are the eight initial words of section 5.3.5 |
| `Sha512.ScheduleStep` | backend/swagger-ui/swagger-ui-es-bundle-core.js:2 | one step of the schedule loop computes the standard's recurrence on words |
| `Sha512.OneRound` | backend/swagger-ui/swagger-ui-es-bundle-core.js:2 | one round on sixteen halves is the round of section 6.4.2 on eight words |
| `Sha512.Sha512.LoadBlock` | backend/swagger-ui/swagger-ui-es-bundle-core.js:2 | the first 32 halves of the schedule are the 16 words of the block |
| `Sha512.Sha512.ExtendSchedule` | backend/swagger-ui/swagger-ui-es-bundle-core.js:2 | the in-place extension leaves the 80 schedule words of the standard |
| `Sha512.Sha512.RunRounds` | backend/swagger-ui/swagger-ui-es-bundle-core.js:2 | 80 rounds and the closing additions are one compression |
| `Sha512.Sha512.AddFields` | backend/swagger-ui/swagger-ui-es-bundle-core.js:2 | the closing additions are eight 64-bit additions to the old fields |
| `Sha512.Sha512.Update` | backend/swagger-ui/swagger-ui-es-bundle-core.js:2 | `_update` is the compression of section 6.4.2, for every block, state and constant table |
| `Padding.ZeroCountIsLeast` | backend/swagger-ui/swagger-ui-es-bundle-core.js:2 | the number of zero bytes of the padding is the least that leaves room for the length (section 5.1.2) |
| `Padding.PadLength` | backend/swagger-ui/swagger-ui-es-bundle-core.js:2 | a padded message is whole blocks |
| `Padding.PaddedBlocks` | backend/swagger-ui/swagger-ui-es-bundle-core.js:2 | every block the standard hashes has the block size |
| `Padding.FlattenBlocks` | backend/swagger-ui/swagger-ui-es-bundle-core.js:2 | cutting whole blocks loses nothing |
| `Padding.DigitsValue` | backend/swagger-ui/swagger-ui-es-bundle-core.js:2 | the length field can be read back |
| `Padding.PaddedAt` | backend/swagger-ui/swagger-ui-es-bundle-core.js:2 | the padded message byte by byte: the message, 0x80, zeros, the bit count with its high bytes first |
| `Padding.PaddedBlocksInjective` | backend/swagger-ui/swagger-ui-es-bundle-core.js:2 | different messages of fewer than 2^64 bits give different block sequences |
| `Hash.BufferMore` | backend/swagger-ui/swagger-ui-es-bundle-core.js:2 | filling the buffer from any offset keeps "handed blocks and buffered rest are the bytes fed" |
| `Hash.OneFinalBlock` | backend/swagger-ui/swagger-ui-es-bundle-core.js:2 | when the length fits behind the rest, the one closing block completes the padded message |
| `Hash.TwoFinalBlocks` | backend/swagger-ui/swagger-ui-es-bundle-core.js:2 | when it does not (`t >= _finalSize`), the two closing blocks do |
| `Hash.ShortLengthField` | backend/swagger-ui/swagger-ui-es-bundle-core.js:2 | a bit count below 2^32 goes into the last four bytes with zeros before it |
| `Hash.LongLengthField` | backend/swagger-ui/swagger-ui-es-bundle-core.js:2 | a larger one is split exactly into two 32-bit words |
| `Hash.WriteUInt32BE` | backend/swagger-ui/swagger-ui-es-bundle-core.js:2 | writes the four big-endian digits of a word and no other byte |
| `Hash.Fill` | backend/swagger-ui/swagger-ui-es-bundle-core.js:2 | zeroes the buffer from an offset and keeps what is before it |
| `Hash.Hash.constructor` | backend/swagger-ui/swagger-ui-es-bundle-core.js:2 | a new hash has been fed nothing |
| `Hash.Hash.Update` | backend/swagger-ui/swagger-ui-es-bundle-core.js:2 | after any `update` the blocks handed on and the buffer hold exactly the bytes fed so far |
| `Hash.Hash.WriteLength` | backend/swagger-ui/swagger-ui-es-bundle-core.js:2 | both branches write the bit count in the whole length field |
| `Hash.Hash.Digest` | backend/swagger-ui/swagger-ui-es-bundle-core.js:2 | the blocks handed to `_update` are exactly the padded message cut into blocks |
| `Sha512Digest.PadChunks` | backend/swagger-ui/swagger-ui-es-bundle-core.js:2 | however a message is cut into updates, the blocks are those of the whole message |
| `Sha512Digest.CompressBlocks` | backend/swagger-ui/swagger-ui-es-bundle-core.js:2 | one `_update` a block from the initial state is the standard's chain of compressions |
| `Sha512Digest.WriteInt64BE` | backend/swagger-ui/swagger-ui-es-bundle-core.js:2 | a pair written as two words is the 64-bit word in bytes |
| `Sha512Digest.HashBytes` | backend/swagger-ui/swagger-ui-es-bundle-core.js:2 | the digest is the eight words in order |
| `Sha512Digest.Digest` | backend/swagger-ui/swagger-ui-es-bundle-core.js:2 | for every message and every chunking the digest is section 6.4 of FIPS 180-4, with the table of constants the bundle lists |
| `Sha512Digest.WordsOfDigest` | backend/swagger-ui/swagger-ui-es-bundle-core.js:2 | the digest is the eight words in order, each with its most significant byte first |
| `Sha512Laws.BigSigma0Bits` | backend/swagger-ui/swagger-ui-es-bundle-core.js:2 | bit i of the function is the parity of the bits 28, 34 and 39 places above it, cyclically |
| `Sha512Laws.BigSigma1Bits` | backend/swagger-ui/swagger-ui-es-bundle-core.js:2 | the same with 14, 18 and 41 |
| `Sha512Laws.SmallSigma0Bits` | backend/swagger-ui/swagger-ui-es-bundle-core.js:2 | with 1 and 8, and the bit 7 above it if there is one |
| `Sha512Laws.SmallSigma1Bits` | backend/swagger-ui/swagger-ui-es-bundle-core.js:2 | with 19 and 61, and the bit 6 above it if there is one |
| `Sha512Laws.ChBits` | backend/swagger-ui/swagger-ui-es-bundle-core.js:2 | where x has a one the choice is y, elsewhere z |
| `Sha512Laws.MajBits` | backend/swagger-ui/swagger-ui-es-bundle-core.js:2 | each bit of the majority is the one that two of the three have |
| `Sha512Laws.SigmasOfOne` | backend/swagger-ui/swagger-ui-es-bundle-core.js:2 | the bits to which each of the four functions sends the lowest one |
| `Sha512Laws.BigSigma0OfXor` | backend/swagger-ui/swagger-ui-es-bundle-core.js:2 | the function distributes over xor |
| `Sha512Laws.BigSigma1OfXor` | backend/swagger-ui/swagger-ui-es-bundle-core.js:2 | so does this one |
| `Sha512Laws.SmallSigma0OfXor` | backend/swagger-ui/swagger-ui-es-bundle-core.js:2 | and this |
| `Sha512Laws.SmallSigma1OfXor` | backend/swagger-ui/swagger-ui-es-bundle-core.js:2 | and this |
| `Sha512Laws.RoundAddsConstant` | backend/swagger-ui/swagger-ui-es-bundle-core.js:2 | adding to the round constant adds as much to the first and the fifth variable, and changes nothing else |
| `Sha512Laws.RoundAddsWord` | backend/swagger-ui/swagger-ui-es-bundle-core.js:2 | so does adding to the message word |
| `Sha512Laws.RoundAddsLast` | backend/swagger-ui/swagger-ui-es-bundle-core.js:2 | and adding to the eighth variable |
| `Sha512Laws.RoundAddsFourth` | backend/swagger-ui/swagger-ui-es-bundle-core.js:2 | adding to the fourth variable adds to the fifth alone |
| `Sha512Laws.RoundOfSix` | backend/swagger-ui/swagger-ui-es-bundle-core.js:2 | what the other six variables do in a round, those sums aside |
| `Sha512Laws.UnroundUndoesRound` | backend/swagger-ui/swagger-ui-es-bundle-core.js:2 | an explicit inverse undoes a round |
| `Sha512Laws.RoundUndoesUnround` | backend/swagger-ui/swagger-ui-es-bundle-core.js:2 | and a round undoes it |
| `Sha512Laws.WordMoves` | backend/swagger-ui/swagger-ui-es-bundle-core.js:2 | when only one of the sixteen words before it differs, a schedule word differs exactly as that place demands: by as much at the first and tenth, through one function each at the second and fifteenth, not at all elsewhere |
| `Sha512Laws.ScheduleOfZeros` | backend/swagger-ui/swagger-ui-es-bundle-core.js:2 | a block of zeros has a schedule of zeros |
| `Sha512Laws.RoundsLookAtFirst` | backend/swagger-ui/swagger-ui-es-bundle-core.js:2 | the first t rounds depend on the first t constants only |
| `Sha512Laws.RoundsAddConstant` | backend/swagger-ui/swagger-ui-es-bundle-core.js:2 | each constant is added in its own round |
| `Sha512Laws.CompressAddsLastConstant` | backend/swagger-ui/swagger-ui-es-bundle-core.js:2 | the eightieth round is done, and the result added to what was there |
| `Sha512Laws.UnroundsUndoRounds` | backend/swagger-ui/swagger-ui-es-bundle-core.js:2 | any number of rounds can be undone |
| `Sha512Laws.CompressAllChains` | backend/swagger-ui/swagger-ui-es-bundle-core.js:2 | blocks are taken in order, each from where those before it ended |
| `Sha512Constants.ConstantsAreRoots` | backend/swagger-ui/swagger-ui-es-bundle-core.js:2 | all eighty round constants of the table are the first 64 bits of the fractions of the cube roots of the first eighty primes |
| `Sha512Constants.InitialHashIsRoots` | backend/swagger-ui/swagger-ui-es-bundle-core.js:2 | the eight initial words are those of the square roots of the first eight |
| `Sha512Constants.FirstPrimes` | backend/swagger-ui/swagger-ui-es-bundle-core.js:2 | each listed number is the least prime above the one before |
| `Unicode.EncodedIsWellFormed` | backend/swagger-ui/swagger-ui-es-bundle-core.js:2 | encoding any characters gives bytes of the grammar of section 4 of RFC 3629 |
| `Unicode.Utf16IsWellFormed` | backend/swagger-ui/swagger-ui-es-bundle-core.js:2 | the UTF-16 form of any characters has no lone surrogate |
| `UnicodeOrder.EncodingKeepsOrder` | backend/swagger-ui/swagger-ui-es-bundle-core.js:2 | byte order of the encodings is character order (section 1 of RFC 3629) |
| `UnicodeOrder.PairsKeepOrder` | backend/swagger-ui/swagger-ui-es-bundle-core.js:2 | surrogate pairs stand in the order of the characters they write |
| `UnicodeOrder.SingleUnits` | backend/swagger-ui/swagger-ui-es-bundle-core.js:2 | every other character is its own code unit |
| `Utf8.ReadUnit` | backend/swagger-ui/swagger-ui-es-bundle-core.js:2 | what each branch of the loop of `utf8ToBytes` does with one code unit and the pending lead surrogate |
| `Utf8.PushReplacement` | backend/swagger-ui/swagger-ui-es-bundle-core.js:2 | the budget is charged three bytes and the replacement written if they fit |
| `Utf8.PushScalar` | backend/swagger-ui/swagger-ui-es-bundle-core.js:2 | the four length branches write the encoding of a character, or stop when it does not fit |
| `Utf8.Utf8ToBytes` | backend/swagger-ui/swagger-ui-es-bundle-core.js:2 | the loop computes the bytes of the characters kept, within the budget, over every string |
| `Utf8.FitIsLongestPrefix` | backend/swagger-ui/swagger-ui-es-bundle-core.js:2 | of a list of characters, the loop's running subtraction keeps the longest prefix whose encoding fits |
| `Utf8.BudgetIsKept` | backend/swagger-ui/swagger-ui-es-bundle-core.js:2 | the output stays within the budget exactly when the budget is positive or the string empty; budget 0 is no budget |
| `Utf8.BudgetGivesLongestPrefix` | backend/swagger-ui/swagger-ui-es-bundle-core.js:2 | under a positive budget the output is the longest whole-character prefix of the string's characters that fits, exactly unless the string ends in two lead surrogates and all of it would fit |
| `Utf8.BudgetZeroIsNone` | backend/swagger-ui/swagger-ui-es-bundle-core.js:2 | one letter with budget 0 is written in full |
| `Utf8.SecondLeadIsLost` | backend/swagger-ui/swagger-ui-es-bundle-core.js:2 | two lead surrogates with room for both replacements give one |
| `Utf8.FitUnlimited` | backend/swagger-ui/swagger-ui-es-bundle-core.js:2 | without one it is everything |
| `Utf8.Utf8Slice` | backend/swagger-ui/swagger-ui-es-bundle-core.js:2 | the loop decodes the clamped range character by character |
| `Utf8.DecodeByGrammar` | backend/swagger-ui/swagger-ui-es-bundle-core.js:2 | the head decodes to the character whose encoding it is when the grammar accepts it, and to one replacement otherwise |
| `Utf8.EncodeInjective` | backend/swagger-ui/swagger-ui-es-bundle-core.js:2 | two characters with the same encoding are the same |
| `Utf8.DecodeUndoesEncode` | backend/swagger-ui/swagger-ui-es-bundle-core.js:2 | decoding the encoding of any characters gives them back |
| `Utf8.EncodeUndoesDecode` | backend/swagger-ui/swagger-ui-es-bundle-core.js:2 | encoding what a well-formed byte string decodes to gives it back |
| `Utf8.ScalarsUndoesUtf16` | backend/swagger-ui/swagger-ui-es-bundle-core.js:2 | reading the UTF-16 form of any characters gives them back |
| `Utf8.Utf16UndoesScalars` | backend/swagger-ui/swagger-ui-es-bundle-core.js:2 | writing the characters of a string with no lone surrogate gives it back |
| `Utf8.SliceUndoesToBytes` | backend/swagger-ui/swagger-ui-es-bundle-core.js:2 | `utf8Slice` undoes `utf8ToBytes` exactly on the well-formed UTF-16 strings |
| `Utf8.ToBytesUndoesSlice` | backend/swagger-ui/swagger-ui-es-bundle-core.js:2 | `utf8ToBytes` undoes `utf8Slice` exactly on the well-formed UTF-8 strings |
| `Utf8.LoneSurrogatesReplaced` | backend/swagger-ui/swagger-ui-es-bundle-core.js:2 | every lone surrogate becomes one replacement exactly when the string does not end in two lead surrogates; the code forgets the second of these |
| `Utf8Chunks.ResumeAt` | backend/swagger-ui/swagger-ui-es-bundle-core.js:2 | decoding can resume at the first unfinished byte: what was finished stays, the rest is decided by the tail |
| `Utf8Chunks.StillUnfinished` | backend/swagger-ui/swagger-ui-es-bundle-core.js:2 | an unfinished character with too few further bytes stays unfinished |
| `Utf8Chunks.Completed` | backend/swagger-ui/swagger-ui-es-bundle-core.js:2 | with enough of them it is one whole character followed by the rest |
| `Utf8Chunks.DoneIsWellFormed` | backend/swagger-ui/swagger-ui-es-bundle-core.js:2 | the finished part is well-formed, and all of a string is finished exactly when it is well-formed |
| `StringDecoder.LastBytes` | backend/swagger-ui/swagger-ui-es-bundle-core.js:2 | looking back at most three bytes finds the start of the last or unfinished character |
| `StringDecoder.MissingBytes` | backend/swagger-ui/swagger-ui-es-bundle-core.js:2 | the bytes that go on with a character pass the checks of `utf8FillLast` |
| `StringDecoder.StringDecoder.constructor` | backend/swagger-ui/swagger-ui-es-bundle-core.js:2 | a new decoder has seen and produced nothing |
| `StringDecoder.IncompleteOfGood` | backend/swagger-ui/swagger-ui-es-bundle-core.js:2 | on well-formed bytes with an unfinished last character, `utf8CheckIncomplete` finds exactly how many bytes of which length are missing |
| `StringDecoder.TextOfGood` | backend/swagger-ui/swagger-ui-es-bundle-core.js:2 | `text` then decodes exactly the finished part and holds exactly the unfinished tail |
| `StringDecoder.FillOfGood` | backend/swagger-ui/swagger-ui-es-bundle-core.js:2 | `utf8FillLast` completes the held character when there are enough bytes, and holds more of it when not |
| `StringDecoder.WriteOfGood` | backend/swagger-ui/swagger-ui-es-bundle-core.js:2 | so every `write` produces exactly what became finished and holds the unfinished tail, wherever the bytes are cut |
| `StringDecoder.CutsMatterForMalformedBytes` | backend/swagger-ui/swagger-ui-es-bundle-core.js:2 | E2 82 then 41 gives one replacement, E2 82 41 at once gives two |
| `StringDecoder.StringDecoder.CheckIncomplete` | backend/swagger-ui/swagger-ui-es-bundle-core.js:2 | the three looks back, with their early returns, on any bytes: which `lastNeed` and total come out |
| `StringDecoder.StringDecoder.Text` | backend/swagger-ui/swagger-ui-es-bundle-core.js:2 | on any bytes: what is decoded, and the three fields afterwards |
| `StringDecoder.StringDecoder.FillLast` | backend/swagger-ui/swagger-ui-es-bundle-core.js:2 | on any bytes: the replacement branches and their `lastNeed`, the completed character, or the longer held one |
| `StringDecoder.StringDecoder.WriteSome` | backend/swagger-ui/swagger-ui-es-bundle-core.js:2 | on any bytes: `utf8FillLast`, then `text` on what is left |
| `StringDecoder.StringDecoder.Write` | backend/swagger-ui/swagger-ui-es-bundle-core.js:2 | the new fields and the output on any bytes; while the bytes seen are well-formed so far, output so far is what is finished and `lastChar[..lastTotal-lastNeed]` the unfinished tail |
| `StringDecoder.StringDecoder.End` | backend/swagger-ui/swagger-ui-es-bundle-core.js:2 | what `write` gives and one replacement if a character is still held, on any bytes; for well-formed bytes, all that was seen |
| `DecoderCuts.SliceSplits` | backend/swagger-ui/swagger-ui-es-bundle-core.js:2 | decoding at once can be split behind bytes of which nothing waits for more, and before any byte that is no tail byte |
| `DecoderCuts.WriteHolds` | backend/swagger-ui/swagger-ui-es-bundle-core.js:2 | on any bytes: as long as no character is interrupted, each `write` leaves just the held bytes to be decoded |
| `DecoderCuts.StreamedAsWhole` | backend/swagger-ui/swagger-ui-es-bundle-core.js:2 | if no character is cut off, every cutting decodes as the whole |
| `DecoderCuts.CutOffShows` | backend/swagger-ui/swagger-ui-es-bundle-core.js:2 | if one is, the two writes divided behind its first byte do not |
| `DecoderCuts.CutsDoNotMatterIff` | backend/swagger-ui/swagger-ui-es-bundle-core.js:2 | every cutting of the bytes decodes as the whole exactly when no first byte is followed by some tail bytes and yet by fewer than it announces |
| `DecoderCuts.WellFormedIsUncut` | backend/swagger-ui/swagger-ui-es-bundle-core.js:2 | well-formed bytes cut no character off |
| `DecoderCuts.DecodeChunks` | backend/swagger-ui/swagger-ui-es-bundle-core.js:2 | the decoder itself, chunk after chunk: its output on any bytes is that of the specified stream; whenever no character is cut off, so always for well-formed bytes, it is that of decoding at once |
| `Writable.Writable.constructor` | backend/swagger-ui/swagger-ui-es-bundle-core.js:2 | a new stream satisfies the invariant and has accepted nothing |
| `Writable.Writable.FinishMaybe` | backend/swagger-ui/swagger-ui-es-bundle-core.js:2 | `finishMaybe` emits finish only when ended, empty, idle and with `pendingcb` zero, and otherwise something is still to come |
| `Writable.Writable.RunAfterWrite` | backend/swagger-ui/swagger-ui-es-bundle-core.js:2 | `afterWrite` drains, runs the callbacks it owes in order and tries to finish, keeping the books |
| `Writable.Writable.Drain` | backend/swagger-ui/swagger-ui-es-bundle-core.js:2 | drain is emitted only when it was asked for and the stream is empty |
| `Writable.Writable.RunCallback` | backend/swagger-ui/swagger-ui-es-bundle-core.js:2 | a callback runs once for each chunk it stands for, in their order |
| `Writable.Writable.RunBatch` | backend/swagger-ui/swagger-ui-es-bundle-core.js:2 | the batch of a corked write runs each chunk's callback once, in order |
| `Writable.Writable.OnWrite` | backend/swagger-ui/swagger-ui-es-bundle-core.js:2 | `onwrite` acknowledges what is in flight, clears the buffer if it may, and runs or defers the callbacks |
| `Writable.Writable.StateUpdate` | backend/swagger-ui/swagger-ui-es-bundle-core.js:2 | acknowledging takes exactly the bytes in flight off `length` |
| `Writable.Writable.AfterWriteLater` | backend/swagger-ui/swagger-ui-es-bundle-core.js:2 | the synchronous case defers exactly the callbacks in hand |
| `Writable.Writable.StartWriting` | backend/swagger-ui/swagger-ui-es-bundle-core.js:2 | `doWrite` moves the first unsent chunks into flight with one call of the sink |
| `Writable.Writable.DoWrite` | backend/swagger-ui/swagger-ui-es-bundle-core.js:2 | whether the sink answers now or later, the chunks are sent once and in order |
| `Writable.Writable.ClearBuffer` | backend/swagger-ui/swagger-ui-es-bundle-core.js:2 | `clearBuffer` sends from the front of the list: with `_writev` several chunks in one call, else one a call until the sink is slow |
| `Writable.Writable.WritevAll` | backend/swagger-ui/swagger-ui-es-bundle-core.js:2 | `_writev` takes the whole list and `pendingcb` counts its batch |
| `Writable.Writable.Write` | backend/swagger-ui/swagger-ui-es-bundle-core.js:2 | `write` accepts the chunk at the end of the order, sends it now exactly if the stream is idle and uncorked, and returns whether the mark is not reached; after `end` nothing is accepted, an error is emitted and the callback deferred with it |
| `Writable.Writable.AcceptChunk` | backend/swagger-ui/swagger-ui-es-bundle-core.js:2 | the bookkeeping of `write` and `writeOrBuffer` |
| `Writable.Writable.Cork` | backend/swagger-ui/swagger-ui-es-bundle-core.js:2 | counts up and changes nothing else |
| `Writable.Writable.Uncork` | backend/swagger-ui/swagger-ui-es-bundle-core.js:2 | counts down, and sends the list exactly when it reaches zero and the sink is idle, several chunks through `_writev` in one call |
| `Writable.Writable.End` | backend/swagger-ui/swagger-ui-es-bundle-core.js:2 | uncorks fully whatever the count, marks the end, and accepts nothing more; the callback of the first call is kept, that of any later call dropped |
| `Writable.Writable.Refuse` | backend/swagger-ui/swagger-ui-es-bundle-core.js:2 | `writeAfterEnd`: one error event and one deferred callback, and nothing else |
| `Writable.Writable.GiveToEnd` | backend/swagger-ui/swagger-ui-es-bundle-core.js:2 | the callback of `end` waits for finish, or is deferred if the stream has just finished |
| `Writable.Writable.SinkAnswers` | backend/swagger-ui/swagger-ui-es-bundle-core.js:2 | an asynchronous answer keeps the invariant; a corked stream sends nothing on it |
| `Writable.Writable.RunTick` | backend/swagger-ui/swagger-ui-es-bundle-core.js:2 | a deferred call keeps the invariant, sends nothing and runs its callbacks in order |
| `Writable.Writable.RunRefusal` | backend/swagger-ui/swagger-ui-es-bundle-core.js:2 | callbacks of refused writes run first come, first served |
| `Writable.Writable.RunEndTick` | backend/swagger-ui/swagger-ui-es-bundle-core.js:2 | a deferred callback of `end` runs once |
| `Writable.Writable.PopTick` | backend/swagger-ui/swagger-ui-es-bundle-core.js:2 | deferred calls run first come, first served |
| `Writable.UncorkedSince` | backend/swagger-ui/swagger-ui-es-bundle-core.js:2 | a script with an `end` and no `cork` after it leaves the stream uncorked |
| `Writable.RunsCount` | backend/swagger-ui/swagger-ui-es-bundle-core.js:2 | runs are counted as a multiset counts |
| `Writable.OccursCounts` | backend/swagger-ui/swagger-ui-es-bundle-core.js:2 | so are occurrences among chunks |
| `Writable.Writable.OrderKept` | backend/swagger-ui/swagger-ui-es-bundle-core.js:2 | accepted chunks are delivered ones then buffered ones in order, those in flight the last delivered; at most one call is open; `length` and `bufferedRequestCount` count what they name |
| `Writable.Writable.FinishMeansDone` | backend/swagger-ui/swagger-ui-es-bundle-core.js:2 | finish was emitted once, with every chunk acknowledged and every callback run |
| `Writable.Writable.NotFinishedMeansNoFinish` | backend/swagger-ui/swagger-ui-es-bundle-core.js:2 | before that it was not emitted at all |
| `Writable.Writable.EndIsAnswered` | backend/swagger-ui/swagger-ui-es-bundle-core.js:2 | the callback given to the first `end` has not run before finish; afterwards, unless still deferred, it has run once |
| `Writable.Writable.RefusalsAreAnswered` | backend/swagger-ui/swagger-ui-es-bundle-core.js:2 | as many errors as refused writes, whose callbacks run in order and, once none is deferred, have all run |
| `Writable.Writable.CallbacksRunAtMostOnce` | backend/swagger-ui/swagger-ui-es-bundle-core.js:2 | no callback runs more often than its chunks were accepted |
| `Writable.Writable.NothingForgotten` | backend/swagger-ui/swagger-ui-es-bundle-core.js:2 | once the sink and the loop are idle and the stream is uncorked, an ended stream has finished and an open one owes no drain |
| `Writable.Perform` | backend/swagger-ui/swagger-ui-es-bundle-core.js:2 | each action of user, sink or event loop keeps the invariant |
| `Writable.AnyRun` | backend/swagger-ui/swagger-ui-es-bundle-core.js:2 | so does any script of actions, from a new stream, and it accepts exactly the chunks written before the first `end`, refuses exactly the later ones, and owes the callback of that `end`; it is corked as often as the script says; with an `end` and no `cork` after it, once the sink and the loop are idle it has finished once with everything sent |
| `BufferList.FlattenCut` | backend/swagger-ui/swagger-ui-es-bundle-core.js:2 | some chunks and part of the next are a prefix of the whole, and what is left of them is its rest |
| `BufferList.ReadNode` | backend/swagger-ui/swagger-ui-es-bundle-core.js:2 | one turn of both loops: more is read, or the whole is divided at n |
| `BufferList.BufferList.constructor` | backend/swagger-ui/swagger-ui-es-bundle-core.js:2 | a new list is empty |
| `BufferList.BufferList.Push` | backend/swagger-ui/swagger-ui-es-bundle-core.js:2 | appends one chunk in a new node |
| `BufferList.BufferList.Unshift` | backend/swagger-ui/swagger-ui-es-bundle-core.js:2 | prepends one |
| `BufferList.BufferList.Shift` | backend/swagger-ui/swagger-ui-es-bundle-core.js:2 | removes and returns the first chunk, nothing when empty |
| `BufferList.BufferList.Clear` | backend/swagger-ui/swagger-ui-es-bundle-core.js:2 | empties the list |
| `BufferList.BufferList.Cut` | backend/swagger-ui/swagger-ui-es-bundle-core.js:2 | the list starts behind the last node read, or inside it; an emptied list has no head and no tail |
| `BufferList.BufferList.GetString` | backend/swagger-ui/swagger-ui-es-bundle-core.js:2 | returns the first n units and leaves exactly the rest, nodes and count consistent |
| `BufferList.BufferList.CopyNodes` | backend/swagger-ui/swagger-ui-es-bundle-core.js:2 | the copy loop fills the new buffer with the first n units |
| `BufferList.BufferList.GetBuffer` | backend/swagger-ui/swagger-ui-es-bundle-core.js:2 | the same result for buffers |
| `BufferList.BufferList.Consume` | backend/swagger-ui/swagger-ui-es-bundle-core.js:2 | for n up to the total, whatever the branch, the first n units come out and the rest stays |
| `BufferList.BufferList.Concat` | backend/swagger-ui/swagger-ui-es-bundle-core.js:2 | copies all chunks in order as far as the given size reaches |
| `BufferInts.TruncatedIsFloor` | backend/swagger-ui/swagger-ui-es-bundle-core.js:2 | dividing towards zero and taking the borrow off is dividing downwards |
| `BufferInts.BorrowStep` | backend/swagger-ui/swagger-ui-es-bundle-core.js:2 | the sticky borrow says that something lower is not zero |
| `BufferInts.NextByte` | backend/swagger-ui/swagger-ui-es-bundle-core.js:2 | a byte of the loop, 32-bit conversion included, is the floor of value / 256^a modulo 256 |
| `BufferInts.CheckInt` | backend/swagger-ui/swagger-ui-es-bundle-core.js:2 | value error before index error, on exactly the out-of-range inputs |
| `BufferInts.LittleEndianWeighs` | backend/swagger-ui/swagger-ui-es-bundle-core.js:2 | the byte at place i counts 256 to the power i |
| `BufferInts.BigEndianWeighs` | backend/swagger-ui/swagger-ui-es-bundle-core.js:2 | in the other form the byte i places from the end does |
| `BufferInts.RangesAre` | backend/swagger-ui/swagger-ui-es-bundle-core.js:2 | the ranges of one, two and four bytes |
| `BufferInts.WriteIntLE` | backend/swagger-ui/swagger-ui-es-bundle-core.js:2 | writes every byte of the two's complement, low first, and no other; the errors change nothing |
| `BufferInts.WriteIntBE` | backend/swagger-ui/swagger-ui-es-bundle-core.js:2 | the same, high first |
| `BufferInts.ReadIntLE` | backend/swagger-ui/swagger-ui-es-bundle-core.js:2 | the loop computes the little-endian number, made signed at half range, or reports the overrun |
| `BufferInts.ReadIntBE` | backend/swagger-ui/swagger-ui-es-bundle-core.js:2 | the same, big-endian |
| `BufferInts.ReadUndoesWriteLE` | backend/swagger-ui/swagger-ui-es-bundle-core.js:2 | any in-range value is read back from its bytes |
| `BufferInts.ReadUndoesWriteBE` | backend/swagger-ui/swagger-ui-es-bundle-core.js:2 | the same, big-endian |
| `BufferInts.WriteUndoesReadLE` | backend/swagger-ui/swagger-ui-es-bundle-core.js:2 | any bytes are the bytes of the in-range value read from them |
| `BufferInts.WriteUndoesReadBE` | backend/swagger-ui/swagger-ui-es-bundle-core.js:2 | the same, big-endian |
| `BufferSearch.SearchForward` | backend/swagger-ui/swagger-ui-es-bundle-core.js:2 | the scan that falls back to its candidate finds the least occurrence at or after the start, -1 exactly if there is none, and terminates |
| `BufferSearch.SearchBackward` | backend/swagger-ui/swagger-ui-es-bundle-core.js:2 | finds the greatest occurrence at or before the start, -1 exactly if there is none |
| `BufferSearch.ArrayIndexOf` | backend/swagger-ui/swagger-ui-es-bundle-core.js:2 | the direction picks one of the two |
| `BufferSearch.FromEnd` | backend/swagger-ui/swagger-ui-es-bundle-core.js:2 | an offset of minus k is the place k from the end; without one the search starts at the end it runs from |
| `BufferSearch.IndexOf` | backend/swagger-ui/swagger-ui-es-bundle-core.js:2 | `bidirectionalIndexOf` turns any offset, negative or none included, into that search |
| `Shell.ReadQuoted` | backend/swagger-ui/swagger-ui-es-bundle-core.js:2 | a quoted word is read back by the shell's rules whatever it holds and whatever follows |
| `Shell.ReadEscaped` | backend/swagger-ui/swagger-ui-es-bundle-core.js:2 | so is every word that `escapeShell` quotes, the empty one included |
| `Shell.ReadPlainWord` | backend/swagger-ui/swagger-ui-es-bundle-core.js:2 | so is a word left alone if all its characters are plain |
| `Shell.ReadGets` | backend/swagger-ui/swagger-ui-es-bundle-core.js:2 | a word read from a text has its first space no later than the text has, and earlier once a quote or backslash is dropped |
| `Shell.BadWordIsLost` | backend/swagger-ui/swagger-ui-es-bundle-core.js:2 | a word left alone with a character that is not plain never comes back, whatever follows it |
| `Shell.PrintedWordsAreReadBack` | backend/swagger-ui/swagger-ui-es-bundle-core.js:2 | a printed list of words is read back exactly when every word starting with `_`, `-` or `/` is plain |
| `Shell.QuotedWordsAreReadBack` | backend/swagger-ui/swagger-ui-es-bundle-core.js:2 | lists without such words always come back |
| `Shell.PathWithSpaceIsLost` | backend/swagger-ui/swagger-ui-es-bundle-core.js:2 | a concrete list that does not |
| `Shell.PrintsLookLike` | backend/swagger-ui/swagger-ui-es-bundle-core.js:2 | what is printed for an empty word, a blank, a quote, and words left alone |
| `Shell.PlainCharacters` | backend/swagger-ui/swagger-ui-es-bundle-core.js:2 | which characters are lost in a word left alone, and which are not |
| `TokenBucket.RefillInSteps` | backend/security/ratelimit.go:49-60 | refilling in two steps is refilling at once, never falls, never passes the burst and rises at most at the rate |
| `TokenBucket.WaitingIsRewarded` | backend/security/ratelimit.go:121-124 | a client that waits for one token is admitted, whatever came before |
| `TokenBucket.BurstIsExact` | backend/security/ratelimit.go:55 | at one instant a client with n tokens gets exactly n admissions, a new one its burst |
| `RateLimitRefinement.ServeLevels` | backend/security/ratelimit.go:49-60 | a request is admitted exactly if its client has a token, and takes one from no other client |
| `RateLimitRefinement.EvictLevels` | backend/security/ratelimit.go:63-77 | dropping a full bucket changes what no client has |
| `RateLimitRefinement.SweepsAreInvisible` | backend/security/ratelimit.go:49-77 | tables with the same levels give the same answers, one of them swept anywhere |
| `RateLimitRefinement.EvictionRefinesKeeping` | backend/security/ratelimit.go:49-77 | every request sequence gets the answers of the limiter that never evicts, wherever sweeps fall |
| `RateLimitRefinement.ClientsAreIndependent` | backend/security/ratelimit.go:49-77 | a client's answers are those it would get alone |
| `RateLimitProtocol.ApplyKeepsWellFormed` | backend/security/ratelimit.go:49-77 | each interleaved step keeps table, buckets and waiting requests consistent |
| `RateLimitProtocol.AskSpends` | backend/security/ratelimit.go:121-124 | an admission is counted fresh exactly when it takes a token the client could still count on |
| `RateLimitProtocol.StepKeepsBudget` | backend/security/ratelimit.go:49-77 | fresh admissions and tokens left stay within burst and refill across every step |
| `RateLimitProtocol.AdmissionBound` | backend/security/ratelimit.go:49-77 | for every interleaving, client and interval: at most burst + rate * length, plus one for each request admitted on a bucket evicted, or already condemned by the sweep, when it asked |
| `RateLimitProtocol.UndisturbedSweepsKeepPlainBound` | backend/security/ratelimit.go:63-77 | if nobody asks a bucket between the sweep's finding it full and deleting it, only evicted buckets add to burst + rate * length, whatever else is interleaved |
| `RateLimitProtocol.AtOnceIsUndisturbed` | backend/security/ratelimit.go:69-74 | schedules in which every look is followed at once by the deletion are such |
| `RateLimitProtocol.EvictedBucketsCount` | backend/security/ratelimit.go:69-73 | for every policy with a burst and every client, a reachable state with burst + 1 admissions at one instant, one of them on an evicted bucket: AdmissionBound is reached |
| `RateLimitProtocol.CondemnedBucketsCount` | backend/security/ratelimit.go:71-72 | the same with no request on an evicted bucket: `Allow` fell between `TokensAt` and `delete` |
| `RateLimitProtocol.PlainBoundIffNoBurst` | backend/security/ratelimit.go:49-77 | so over all runs the bound that counts only evicted buckets holds exactly for the policies with burst 0 |
| `RateLimitHandlers.Handlers.constructor` | backend/security/ratelimit.go:29-41 | a new limiter is the first state of the interleaved machine |
| `RateLimitHandlers.Handlers.Wait` | backend/security/ratelimit.go:63-77 | time passing is its Tick step |
| `RateLimitHandlers.Handlers.LookUp` | backend/security/ratelimit.go:49-60 | `GetLimiter` by a handler is its Lookup step |
| `RateLimitHandlers.Handlers.Answer` | backend/security/ratelimit.go:121 | `Allow` on the bucket looked up before, evicted since or not, is its Ask step, and says yes exactly when the step admits |
| `RateLimitHandlers.Handlers.Look` | backend/security/ratelimit.go:69-71 | the sweeper's `TokensAt` is its Measure step |
| `RateLimitHandlers.Handlers.Drop` | backend/security/ratelimit.go:72 | its `delete` is the Delete step |
| `RateLimiter.Limiter.constructor` | backend/security/ratelimit.go:55 | a new bucket is full |
| `RateLimiter.Limiter.Advance` | backend/security/ratelimit.go:71 | the tokens at a time, nothing stored |
| `RateLimiter.Limiter.Allow` | backend/security/ratelimit.go:121 | spends a token exactly if there is one |
| `RateLimiter.RateLimiter.constructor` | backend/security/ratelimit.go:29-41 | a new limiter has no buckets |
| `RateLimiter.RateLimiter.GetLimiter` | backend/security/ratelimit.go:49-60 | returns the client's bucket, or puts a new full one into the table, which is otherwise the same |
| `RateLimiter.RateLimiter.Ask` | backend/security/ratelimit.go:121 | changes only the client's bucket |
| `RateLimiter.RateLimiter.Admit` | backend/security/ratelimit.go:114-128 | OPTIONS requests pass and change nothing; any other is answered as the specification says |
| `RateLimiter.RateLimiter.Check` | backend/security/ratelimit.go:69-74 | drops the bucket exactly if it is full |
| `RateLimiter.RateLimiter.Cleanup` | backend/security/ratelimit.go:67-75 | a sweep that reads the clock for each key drops every bucket full at its start and none not full by its end |
| `RateLimiter.SweepChangesNoAnswer` | backend/security/ratelimit.go:67-75 | no later request can tell such a sweep from none |
| `RateLimiter.Handle` | backend/security/ratelimit.go:49-77 | any sequence of requests and checks through the limiter gets the specified answers |
| `FirstRequests.NewClientGetsBurst` | backend/security/ratelimit.go:121-124 | of requests at one instant a new client gets exactly the first ones admitted, as many as the burst |
| `StringOrder.OneIncreasingList` | backend/migration/migrate.go:102-109 | a set of names has only one increasing listing |
| `StringOrder.SortOfListing` | backend/migration/migrate.go:107 | sorting any listing of a set gives it |
| `StringOrder.OrderIsByFirstDifference` | backend/migration/migrate.go:107 | of two strings the prefix comes first, or the one with the smaller character at the first difference |
| `StringOrder.DigitsInOrder` | backend/migration/migrate.go:107 | ids of equally many digits stand in the order of the numbers they write |
| `StringOrder.SortedByNumber` | backend/migration/migrate.go:102-109 | so time stamps are sorted from the oldest to the newest |
| `StartupProcess.NextKnows` | backend/migration/migrate.go:35-81 | each step of a process keeps what it knows of the shared database |
| `StartupProcess.KnowsStill` | backend/migration/migrate.go:35-81 | steps of other processes do not invalidate it |
| `StartupProtocol.StepSound` | backend/migration/migrate.go:35-123 | every step of any process, start and crash included, keeps "recorded means executed" and only adds rows |
| `StartupProtocol.RunSound` | backend/migration/migrate.go:35-123 | so does every interleaving |
| `StartupProtocol.ReadyIsSafe` | backend/main.go:74-88 | a process at MarkReady has every id of its own registry recorded, each executed before unless recorded from the beginning, and nothing later undoes this |
| `StartupProtocol.RecordedIsInitialSegment` | backend/migration/migrate.go:48-55 | with one registry and any number of processes the recorded ids stay an initial segment of the sorted ids |
| `StartupProtocol.FromEmptyInitialSegment` | backend/migration/migrate.go:48-55 | in particular from an empty table |
| `StartupProtocol.NextBalanced` | backend/migration/migrate.go:102-123 | one step of a writer: an execution more is a run between `up` and record, which becomes a record or a stop |
| `StartupProtocol.ExecutionsAreAccountedFor` | backend/migration/migrate.go:35-57 | with one writer at a time, executions of an id = recorded + in flight + runs that stopped between `up` and record |
| `StartupProtocol.ExecutionBound` | backend/migration/migrate.go:102-123 | so they exceed one only by those stops |
| `StartupProtocol.RecordedNeverReruns` | backend/migration/migrate.go:48-51 | no step executes a recorded migration |
| `StartupProtocol.TwoWritersExecuteTwice` | backend/migration/migrate.go:43-51 | for every registry and table whose first missing id has a hook, a reachable state of two writers in which a step executes a recorded id again |
| `StartupProtocol.ManyWritersNeverRerunIffStuck` | backend/migration/migrate.go:43-51 | with any number of writers of one registry, from any table, no step ever executes a recorded id again exactly when nothing can be executed at all: the table is complete or the first id it lacks has a nil hook |
| `StartupProtocol.StuckWhenEmpty` | backend/migration/migrate.go:48-51 | from an empty table these are the empty registry and those whose least id has a nil hook |
| `Migration.Database.AutoMigrate` | backend/migration/migrate.go:83-88 | creates the table or changes nothing |
| `Migration.Database.HasTable` | backend/migration/migrate.go:66 | says yes only if the table is there |
| `Migration.Database.Find` | backend/migration/migrate.go:91-94 | returns all rows when it succeeds |
| `Migration.Database.CallUp` | backend/migration/migrate.go:116 | a successful `up` is one execution, a failed one none |
| `Migration.Database.Create` | backend/migration/migrate.go:119 | inserts a row only under a new primary key |
| `Migration.Runner.constructor` | backend/migration/migrate.go:12-13 | a new registry is empty |
| `Migration.Runner.Register` | backend/migration/migrate.go:20-26 | the first registration of an id stands |
| `Migration.Runner.ClearRegistry` | backend/migration/migrate.go:28-32 | empties the registry |
| `Migration.Runner.SortedRegistryIDs` | backend/migration/migrate.go:102-109 | the increasing list of the registered ids, whatever the map order |
| `Migration.PendingIsSorted` | backend/migration/migrate.go:48-55 | the ids a run executes are those without a row, in the order of the sorted ids |
| `Migration.Runner.ApplyMigration` | backend/migration/migrate.go:111-123 | on success executed and recorded; a record failure leaves the execution without its row; a nil `up` changes nothing |
| `Migration.Runner.ApplyNext` | backend/migration/migrate.go:48-55 | a missing id takes the machine on by `up` and its row, or stops it |
| `Migration.Runner.ApplyAll` | backend/migration/migrate.go:48-56 | the loop is a path of the process machine and applies exactly the pending ids in order |
| `Migration.Runner.Run` | backend/migration/migrate.go:35-57 | `Run` is a path of the process machine to Migrated or Failed; on success exactly the pending ids were executed, in order, and all are recorded; with nothing pending it changes no row |
| `Migration.Runner.VerifyApplied` | backend/migration/migrate.go:62-81 | succeeds only on a complete table; otherwise names the first missing id; changes nothing |
| `Migration.Runner.FindMissing` | backend/migration/migrate.go:75-80 | the loop succeeds exactly if every registered id is applied, and otherwise names the least that is not |
| `Migration.RunMakesVerifySucceed` | backend/migration/migrate.go:35-81 | after a successful run verification reaches success unless the database refuses a read |
| `Migration.SecondRunChangesNothing` | backend/migration/migrate.go:35-57 | over a complete table a run, whatever it meets, executes and records nothing |
| `Migration.Server.SeedUsers` | backend/startup_mutation.go:27-29 | a seed hook has succeeded or not |
| `Migration.Server.SeedHomepage` | backend/startup_mutation.go:30-32 | the same for the other |
| `Migration.Server.RunStartupMutations` | backend/startup_mutation.go:19-43 | the writer migrates, then seeds users, then the homepage, and seeds nothing unless every migration is recorded; any other process only verifies; missing hooks change nothing |
| `Migration.Server.Boot` | backend/main.go:74-88 | ready exactly after success, with every registered id recorded and, by a writer, both seeds written in order |
| `Quoting.UnescapeEscape` | backend/logger/simplelogging.go:301-362 | each escape of `strconv.Quote` is read back, whatever follows it |
| `Quoting.EscapeIsPrefixFree` | backend/logger/simplelogging.go:301-362 | escapes are a prefix code |
| `Quoting.QuoteIsSelfDelimiting` | backend/logger/simplelogging.go:301-362 | a quoted string and what follows it can be told apart in one way only |
| `Quoting.BodyIsPrintable` | backend/logger/simplelogging.go:301-362 | nothing unprintable is left in a quoted string |
| `LogLaws.EscapesByLetter` | backend/logger/simplelogging.go:301-362 | the escapes that have a letter |
| `LogLaws.EscapesByNumber` | backend/logger/simplelogging.go:301-362 | two, four or eight digits for the others |
| `LogLaws.HexAt` | backend/logger/simplelogging.go:301-362 | which digits these are |
| `LogKeys.KeyIsNormal` | backend/logger/simplelogging.go:414-442 | normal keys hold only lower-case letters, digits and single inner underscores |
| `LogKeys.KeyIsIdempotent` | backend/logger/simplelogging.go:92-97 | normalising twice, as happens to every field, is normalising once |
| `LogKeys.NormalizeKey` | backend/logger/simplelogging.go:414-442 | the loop with `lastUnderscore` computes the lower-case words of the key joined by underscores |
| `LogLaws.CharacterBetween` | backend/logger/simplelogging.go:414-442 | an underscore, dash or blank between two words becomes an underscore, any other character disappears |
| `LogLaws.CaseDoesNotMatter` | backend/logger/simplelogging.go:414-442 | a key that lower-casing makes one word is that word |
| `LogLaws.TrimTakesEnds` | backend/logger/simplelogging.go:414-442 | trimming takes off just what is to go, at both ends |
| `LogLine.IsShown` | backend/logger/simplelogging.go:324-344 | a field is shown exactly if it has a value, with that value |
| `LogLine.KeysOnce` | backend/logger/simplelogging.go:304-348 | every shown key stands in the line exactly once: the known ones in their order, then the others sorted |
| `LogLine.PairsAreUnambiguous` | backend/logger/simplelogging.go:350-364 | the printed fields determine keys, order and values |
| `LogLine.LineIsUnambiguous` | backend/logger/simplelogging.go:299-350 | two lines are equal exactly if level, message and shown fields are |
| `LogLine.CollectedKeys` | backend/logger/simplelogging.go:282-297 | every key a call collects is normal, so none holds a quote, a space or an equals sign |
| `LogLine.CallsAreUnambiguous` | backend/logger/simplelogging.go:277-351 | two calls print the same line exactly if level, sanitised message and final shown fields agree |
| `LogLine.OrderDoesNotMatter` | backend/logger/simplelogging.go:287-293 | fields with different normal keys may be permuted |
| `LogLine.SensitiveValuesAreHidden` | backend/logger/simplelogging.go:375-381 | a value under a sensitive key is always the redaction mark |
| `LogLaws.FragmentsAreHidden` | backend/logger/simplelogging.go:393-408 | a key that holds one of the nine fragments, underscores aside, shows only the mark |
| `LogLaws.ApiKeyIsHidden` | backend/logger/simplelogging.go:393-408 | for one, `api_key` |
| `LogLaws.OtherValuesAreShown` | backend/logger/simplelogging.go:375-391 | any other key shows what was passed last under it, trimmed and gone through the patterns |
| `LogLaws.ComponentIsShown` | backend/logger/simplelogging.go:282-286 | the component stands under its key unless a field replaces it |
| `LogLaws.SourceIsShown` | backend/logger/simplelogging.go:294-297 | the source replaces a field of that name |
| `LogLaws.KnownKeysComeFirst` | backend/logger/simplelogging.go:304-322 | the seventeen known keys stand in this order |
| `LogLaws.OthersComeLast` | backend/logger/simplelogging.go:334-348 | all others behind them, sorted |
| `LogLaws.LineLooksLike` | backend/logger/simplelogging.go:299-350 | what a line with two fields looks like |
| `LogLine.LineStaysOnLine` | backend/logger/simplelogging.go:299-350 | no argument can put a line break into the line |
| `LogLine.RuntimeLogger.constructor` | backend/logger/simplelogging.go:72-84 | a new logger has written nothing |
| `LogLine.RuntimeLogger.CollectValues` | backend/logger/simplelogging.go:282-297 | component first, then the fields with the last of equal keys winning, then the source |
| `LogLine.RuntimeLogger.FormatKnown` | backend/logger/simplelogging.go:324-332 | the known keys with a value, in their order, and the set of those used |
| `LogLine.RuntimeLogger.ExtraKeys` | backend/logger/simplelogging.go:334-344 | the other keys with a value, sorted, whatever the map order |
| `LogLine.RuntimeLogger.FormatExtra` | backend/logger/simplelogging.go:346-348 | appends them in that order |
| `LogLine.RuntimeLogger.FormatParts` | backend/logger/simplelogging.go:324-348 | both together |
| `LogLine.RuntimeLogger.Log` | backend/logger/simplelogging.go:277-351 | writes exactly the specified line |
| `SeedNames.LikePrefix` | backend/cmd/loadtestseed/main.go:178-196 | on a validated prefix, LIKE with a trailing percent sign finds exactly the names that start with it |
| `SeedNames.NamesAreInjective` | backend/cmd/loadtestseed/main.go:219-232 | prefix and six digits determine prefix and number, even when one prefix continues another |
| `SeedNames.RefusedConfigs` | backend/cmd/loadtestseed/main.go:156-191 | which configurations are refused |
| `SeedUsers.FirstFixtures` | backend/cmd/loadtestseed/main.go:212-245 | the first user and the first moderator with all their columns |
| `SeedUsers.WritableIff` | backend/cmd/loadtestseed/main.go:256-302 | when one user can be written, and what is then in the table |
| `SeedUsers.SeedsAreApart` | backend/cmd/loadtestseed/main.go:212-245 | all seeded users and moderators differ in name, and no two clash on a unique column |
| `SeedUsers.UpsertAllKeepsUnique` | backend/cmd/loadtestseed/main.go:256-302 | upserting keeps the unique columns unique |
| `SeedUsers.UpsertAllHolds` | backend/cmd/loadtestseed/main.go:256-302 | afterwards every seed's row is there and up to date |
| `SeedUsers.UpsertAgain` | backend/cmd/loadtestseed/main.go:256-302 | writing the same seeds again succeeds and changes nothing |
| `SeedUsers.HashDoesNotMatter` | backend/cmd/loadtestseed/main.go:213-217 | another password hash changes those passwords and nothing else |
| `SeedUsers.UsersTwiceIsOnce` | backend/cmd/loadtestseed/main.go:212-302 | seeding users twice is seeding them once with the second hash |
| `SeedUsers.WritableIffFree` | backend/cmd/loadtestseed/main.go:256-302 | seeds that differ from each other can all be written exactly when none of their own rows is soft-deleted and no row left alone, or to be written later, holds something unique of one |
| `SeedUsers.UsersSeededIffFree` | backend/cmd/loadtestseed/main.go:212-302 | hence the condition on the table before seeding under which the users can be seeded, whatever the password |
| `SeedUsers.DeletedFixtureBlocksSeeding` | backend/cmd/loadtestseed/main.go:259-302 | one soft-deleted fixture in an otherwise empty table makes seeding fail |
| `SeedMarkets.UpsertShows` | backend/cmd/loadtestseed/main.go:330-360 | after an upsert the market of that title and creator is found under the id returned |
| `SeedMarkets.UpsertDisturbsNoOther` | backend/cmd/loadtestseed/main.go:330-360 | and every other market is found as before |
| `SeedMarkets.UpsertMarketsShows` | backend/cmd/loadtestseed/main.go:304-362 | after the loop every title is found under its id, up to date |
| `SeedMarkets.MarketsTwiceIsOnce` | backend/cmd/loadtestseed/main.go:304-362 | seeding markets twice gives the same ids, no new rows, and what one seeding at the second time gives |
| `SeedMarkets.IdsGivenOut` | backend/cmd/loadtestseed/main.go:304-362 | seeding gives out one new id for each title with no live row before |
| `SeedMarkets.FirstTitle` | backend/cmd/loadtestseed/main.go:313 | the title of the first market |
| `SeedMarkets.TurnsInOrder` | backend/cmd/loadtestseed/main.go:312 | the first markets fall to the moderators in order, and so on from the first again |
| `SeedMarkets.FindIsFirst` | backend/cmd/loadtestseed/main.go:330-332 | of several rows of one title the least id is taken |
| `SeedMarkets.LoadIs` | backend/cmd/loadtestseed/main.go:312 | how many markets each moderator gets |
| `SeedMarkets.LoadsAreEven` | backend/cmd/loadtestseed/main.go:312 | loads differ by at most one |
| `Seeder.SeededIffFree` | backend/cmd/loadtestseed/main.go:84-102 | seeding succeeds, if the database refuses nothing else, exactly under that condition |
| `Seeder.FixturesAreReady` | backend/cmd/loadtestseed/main.go:212-302 | after seeding every fixture has a live row with the balance asked for, the new password and no duty to change it |
| `Seeder.CreatorsAreActiveModerators` | backend/cmd/loadtestseed/main.go:231-362 | after seeding, every id returned is a market whose creator has a live row, an active moderator |
| `Seeder.SeedTwiceIsOnce` | backend/cmd/loadtestseed/main.go:84-102 | seeding a consistent database that is free for the fixtures succeeds twice, equals seeding once with the second hash and time, and returns the same ids |
| `Seeder.ResetAfterSeed` | backend/cmd/loadtestseed/main.go:193-210 | resetting after seeding equals resetting, up to the next id, exactly if every bet on one of the next ids, as many as titles have no live row, is a fixture's own |
| `Seeder.ResetAfterSeedWithForeignKeys` | backend/cmd/loadtestseed/main.go:193-210 | in particular when every bet is on an existing market |
| `Seeder.LeftOverBetIsLost` | backend/cmd/loadtestseed/main.go:193-210 | an empty database with one bet on market 0: resetting keeps the bet, seeding and resetting does not |
| `Seeder.HotMarkets` | backend/cmd/loadtestseed/main.go:396-417 | the first markets are marked hot, as many as were asked for or all |
| `Seeder.LoginsAreRegularUsers` | backend/cmd/loadtestseed/main.go:377-394 | the logins written are the seeded regular users in order |
| `Seeder.Fixtures.constructor` | backend/cmd/loadtestseed/main.go:364-375 | nothing has been written |
| `Seeder.Fixtures.WriteUsersCSV` | backend/cmd/loadtestseed/main.go:377-394 | when it returns no error the lines handed to the CSV writer are the logins in order |
| `Seeder.Fixtures.WriteMarketsCSV` | backend/cmd/loadtestseed/main.go:396-417 | when it returns no error they are one line for each id in order, the first ones hot |
| `Seeder.Store.ResetFixtures` | backend/cmd/loadtestseed/main.go:193-210 | the four deletes, in order, leave exactly what is not a fixture |
| `Seeder.ResetKeepsOtherUsers` | backend/cmd/loadtestseed/main.go:206 | the reset takes exactly the users whose names start with a prefix, and leaves the others as they are |
| `Seeder.ResetKeepsOtherMarkets` | backend/cmd/loadtestseed/main.go:203 | the markets whose creators do |
| `Seeder.ResetKeepsOtherBets` | backend/cmd/loadtestseed/main.go:197-201 | and the bets by those users or on those markets |
| `Seeder.Store.UpsertUserRow` | backend/cmd/loadtestseed/main.go:256-302 | update or create; a clash on a unique column, or a deleted row of that name, fails |
| `Seeder.Store.UpsertUserRows` | backend/cmd/loadtestseed/main.go:212-245 | both loops write all seeds in order |
| `Seeder.Store.UpsertMarketRows` | backend/cmd/loadtestseed/main.go:304-362 | the loop finds or creates each market and collects the ids |
| `Seeder.Store.Transaction` | backend/cmd/loadtestseed/main.go:84-102 | reset if asked to, users, markets: all of it or, ids given out aside, nothing |
| `Seeder.Store.Run` | backend/cmd/loadtestseed/main.go:59-115 | refused exactly when unsafe; a failed transaction is undone, ids given out aside; when a file is refused the database stays seeded; when no error is reported the lines handed to both files match the ids returned |
| `Chart.NiceMaxIs` | scripts/readme-stargazers-chart.py:103-111 | which of the five multiples is chosen; the fall-through return is never reached |
| `Chart.NiceMaxIsLeast` | scripts/readme-stargazers-chart.py:103-111 | it is the least of 10, 20, 25, 50, 100, ... that is large enough |
| `Chart.NiceMaxIsClose` | scripts/readme-stargazers-chart.py:103-111 | above 10 it is at least the value and less than twice it |
| `Chart.NiceMaxIsMonotone` | scripts/readme-stargazers-chart.py:103-111 | monotone |
| `Chart.NiceMaxIsIdempotent` | scripts/readme-stargazers-chart.py:103-111 | idempotent |
| `Chart.CountMonths` | scripts/readme-stargazers-chart.py:34-38 | the counter holds exactly the months given, each with how often it came |
| `Chart.BuildMonthlyPoints` | scripts/readme-stargazers-chart.py:34-45 | months strictly increasing and exactly those given, each count the number of stars up to it |
| `Chart.CountsRise` | scripts/readme-stargazers-chart.py:39-45 | counts strictly increase, and the last counts every star |
| `Chart.CurveStaysInPlot` | scripts/readme-stargazers-chart.py:114-133 | every point is inside the plot box, right of and above the one before |
| `Chart.CurveFillsPlot` | scripts/readme-stargazers-chart.py:114-133 | no star is drawn at the bottom, the round maximum at the top, the first and last month on the two edges, equal steps equally far apart |
| `Chart.TimesIsMultiset` | scripts/readme-stargazers-chart.py:35 | months are counted as a multiset counts |

## Left out

- Sha512Digest.Digest: compresses the blocks after buffering all of them instead of in between; messages are below 2^53 bytes, where the byte count is exact.
- Utf8.Utf8Slice: the splitting of long results into pieces of 4096 code units is not modelled, since joining the pieces gives the same string.
- Utf8.Utf8ToBytes: the budget is an integer or absent.
- DecoderCuts.DecodeChunks: encodings of the decoder other than utf8 are not modelled.
- Writable.Writable.Write: refusing values that are no chunk, destruction, automatic or not, the `_final` hook and callbacks that call back into the stream are not modelled.
- Writable.Writable.RunRefusal: the deferred callbacks of refused writes and of `end` are kept in queues of their own, so their order relative to other deferred calls is not captured.
- Writable.Writable.End: a last chunk is a `Write` before it.
- Writable.Writable.ClearBuffer: the linked list of buffered requests is a sequence, and the object that stands for a batch of requests is a value instead of one taken from a pool.
- BufferList.BufferList.Consume: chunks are values, so that the slices of a Buffer share memory is not captured. `join`, `first` and the inspection method would add only easy members.
- BufferInts.WriteIntLE: values are integers; fractional arguments and sizes for which doubles are not exact are not modelled. With `noAssert` the caller answers for the range of the offset.
- BufferSearch.ArrayIndexOf: the two-byte mode is not modelled, nor searching for a single number through the runtime's own functions.
- Shell.PrintedWordsAreReadBack: unquoted pattern characters count as not read back, since what they expand to depends on the files; assignments and aliases concern command words, not arguments. The cmd and PowerShell printers are not modelled.
- RateLimitProtocol.AdmissionBound: the bucket library golang.org/x/time/rate is not part of this repository; its bucket is modelled over exact numbers and a clock that does not go back, with `Allow` as one step. Extraction of the client identity from the request is not modelled.
- RateLimiter.RateLimiter.Cleanup: the ticker is not modelled; a sweep may come at any time.
- Migration.Runner.Run: an `up` function is one atomic success or failure and does not touch the table of migrations; rows are never removed. A commit whose answer is lost is a record step followed by a crash.
- Migration.Server.RunStartupMutations: what the seed hooks write is not modelled, only that and in which order they succeeded.
- LogLine.RuntimeLogger.Log: the time in front of the line and the writing itself are not modelled; the redaction patterns are an arbitrary function of strings, the Unicode tables parameters, and strings that are not valid UTF-8 are left out.
- Seeder.Store.Run: the columns with fixed texts are one flag, and time stamps of rows are left out. A fixture file is the list of lines handed to its CSV writer, without the header and the password column; the flush, which comes after the code has asked for the writer's error, is not modelled.
- Seeder.Store.ResetFixtures: a foreign key that forbids deleting a user is one of the failures that undo the transaction.
- Chart.NiceMaxIs: arithmetic is exact, so values too large for a double are not covered.
- Chart.BuildMonthlyPoints: the months are given; reading them off the time stamps is library behaviour.
- Chart.CurveStaysInPlot: rounding of printed coordinates to one decimal is not modelled.
- React components, OAuth, HTTP handlers, routing, HTML sanitising, password hashing and the k6 scenarios are not modelled.
