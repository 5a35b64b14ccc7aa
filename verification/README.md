# Poolserver: work, shares and messages, verified

This project models the part of a Bitcoin mining pool server that must not be wrong: the work handed to a
miner is the work its shares are checked against, no job credits the same nonce and extranonce2 twice, and messages
and records survive the trip. It covers

- the byte codec (`Bytes`, `Buffer`, `Codec`, `Serialization`): the append buffer with its read pointer, and the
  VarInt, script, input, output, transaction and block operators;
- the Merkle tree (`Merkle`, `Blocks`): the flat vector, the left-spine patch and the branch read out of it by
  index, against a recursive definition;
- work assembly (`Work`, `Network`): templates and submitted blocks, the coinbase cut in two, the `mining.notify` fields, the header a
  Stratum miner assembles from them and the block the server assembles for a submission;
- difficulty and targets (`Targets`);
- what a header commits to (`Commitment`): from a header back to the whole block, as far as hashes do not collide;
- the per-client session (`Limiting`, `Stratum`, `Runs`, `JobIds`, `Accounting`, `Retargeting`, `Duplicates`,
  `Messages`): a state machine whose steps are the handlers, with theorems over every run, and the objects (`LimiterObject`, `ClientObject`) whose
  methods are proved to take exactly those steps;
- many clients (`Pool`, `Records`): the extranonce counter, headers across connections, and every client's share rows
  through one upload queue;
- runs on which expected properties fail (`Counterexamples`);
- share delivery (`Delivery`): the upload loop against arbitrary concurrent pushes;
- JSON (`Json`, `JsonReader`, `JsonRoundTrip`): the writer, the event-driven reader, and the exact set of trees on
  which reading undoes writing.

`dafny verify dfyconfig.toml` checks everything.

## How the model stands to the program

SHA256D is a parameter `H`: any function from byte strings to 32-byte strings. No theorem assumes it injective, which
it cannot be: `CollisionFree` speaks of the finite set of strings hashed for the blocks at hand. Config values, the
clock, the daemons' answers, the database's answer to an authorization and whether a daemon accepted a block are
inputs. Doubles are reals. Each client handler is one atomic step; a `SendJob` posted by the server is a step of its
own.

The classes follow the program: `ByteBuffer`, `Block`, `Job`, `ShareLimiter`, `Client`, `Server`, `DataMgr` and
`SemanticFunctions` have its fields and update them in place. Their methods' postconditions give the new state as a
function of the old one, and the functions are what the theorems are about. Two things are added to name objects
in theorems: a job's `serial` (how many jobs the client was given before it; the wire id is the serial modulo 2^32)
and the limiter's ghost `history` of all records. Credits carry the block they were granted for.

Three values the program leaves undefined are inputs that may be anything: the client's extranonce before it
subscribes and the limiter's share mark, which no constructor sets, and the `Noise` of a submission, which stands
for the variance when it does not fit 31 bits or the difficulty falls (src/server/poolserver/Stratum/ShareLimiter.cpp:58
subtracts unsigned values) and for an estimate that is no 64-bit number: a quotient by zero, or one out of range. The
VarInt reader has no return statement (src/server/shared/Bitcoin/Serialization.cpp:25-37); it is modelled as returning
its buffer.

The comment over the coinbase cut (src/server/poolserver/Stratum/Client.cpp:346-351) counts two bytes for the
script length and none for the input count; the code's total of 46 is right, and `CoinbaseLayout` proves it with
one byte for each.

Where a property one would expect is false of the code, the theorem says exactly when it holds, and a run or an input
shows it fail:

- a looked-up job stays in the map while the limiter runs: `JobSurvivesLimiter`, `DisplacedJob`;
- work from before a clean send stays dead: `CleanSendKillsOldWork`, `OldIdComesBack`;
- no header is credited twice: `HeaderOnce`, `HeaderCreditedTwice` (duplicates are kept per job, and one template can be
  sent as several jobs);
- only a repeated header is a duplicate: `DuplicateExact`, `RefusedHeaderRepeats`, `ResubscribedRefused` (time and
  extranonce are no part of the key, and a client can subscribe again);
- clients never share a header: `NoHeaderShared`, `SubscribersShareNoHeader`, `UnsubscribedSharesHeader` (work is also
  sent to clients that never subscribed);
- a root fixes the number of transactions: `RootCommits`, `RepeatedTailGoesUnseen`;
- the limiter weighs the last seconds: `WindowExact`, `SessionWindow`, `WindowGap` (a cutoff that wraps below zero drops
  records that are still missing later);
- the estimate divides by ten seconds or more: `IntervalAtLeastTen`;
- a miner is told its difficulty: `MinerMirrors`, `StartUnannounced` (the starting one is never announced);
- every request gets one response: `OneReplyEach` (none for a block the network refuses);
- reading JSON undoes writing: `RoundTrip`, `ApostropheComesBackEscaped`;
- a template is fit for jobs: `MakeTemplate`; an upload makes progress: `ZeroBulkSpins`.

## Model

| member | source | states |
|---|---|---|
| `Bytes.FromLEOfLE` | src/server/shared/ByteBuffer.h:45-81 | reading the little-endian bytes of any integer gives it modulo 256^width, so two's complement for negative values |
| `Bytes.LEOfFromLE` | src/server/shared/ByteBuffer.h:45-81 | writing what was read gives the same bytes, for every byte string |
| `Bytes.BinToASCII` | src/server/shared/Util.cpp:99-108 | the loop yields two lower-case digits per byte, high nibble first |
| `Bytes.ASCIIToBin` | src/server/shared/Util.cpp:86-97 | adding nibbles into a zeroed buffer decodes any text: odd lengths round up, foreign characters count as zero |
| `Bytes.FromHexToHex` | src/server/shared/Util.cpp:74-108 | decoding the hexadecimal text of any bytes gives the bytes back |
| `Bytes.HexUpperCase` | src/server/shared/Util.cpp:74-84 | upper-case digits count like lower-case ones |
| `Bytes.HexOther` | src/server/shared/Util.cpp:74-84 | every other character counts as zero |
| `Bytes.HexOfReversedHash` | src/server/poolserver/Stratum/Client.cpp:223-224 | the big number read from the reversed hash's text is the hash's little-endian value |
| `Buffer.ByteBuffer.AppendInt` | src/server/shared/ByteBuffer.h:45-50 | the shift loop appends exactly the little-endian bytes and moves no pointer |
| `Buffer.ByteBuffer.AppendBinary` | src/server/shared/ByteBuffer.h:52-55 | the bytes go to the end, the pointer stays |
| `Buffer.ByteBuffer.ReadInt` | src/server/shared/ByteBuffer.h:66-81 | the accumulation loop yields the little-endian value and advances; a short read yields zero and does not |
| `Buffer.ByteBuffer.ReadBinary` | src/server/shared/ByteBuffer.h:57-64 | a slice and an advance, or nothing and no advance |
| `Serialization.WriteVarInt` | src/server/shared/Bitcoin/Serialization.cpp:9-24 | the form `VarIntShortest` is about is appended |
| `Serialization.ReadVarInt` | src/server/shared/Bitcoin/Serialization.cpp:25-37 | value and pointer are those of reading at the old pointer, on any bytes |
| `Serialization.WriteScript` | src/server/shared/Bitcoin/Serialization.cpp:40-46 | length, then bytes |
| `Serialization.ReadScript` | src/server/shared/Bitcoin/Serialization.cpp:47-53 | script and pointer of reading at the old pointer, on any bytes |
| `Serialization.WriteTxIn` | src/server/shared/Bitcoin/Serialization.cpp:56-76 | outpoint, script and sequence are appended in order |
| `Serialization.ReadTxIn` | src/server/shared/Bitcoin/Serialization.cpp:62-83 | input and pointer of reading at the old pointer, on any bytes |
| `Serialization.WriteTxOut` | src/server/shared/Bitcoin/Serialization.cpp:86-91 | value and script are appended |
| `Serialization.ReadTxOut` | src/server/shared/Bitcoin/Serialization.cpp:92-97 | output and pointer of reading at the old pointer, on any bytes |
| `Serialization.WriteTx` | src/server/shared/Bitcoin/Serialization.cpp:100-119 | the whole transaction is appended, both loops included |
| `Serialization.ReadTx` | src/server/shared/Bitcoin/Serialization.cpp:120-143 | transaction and pointer of reading at the old pointer, on any bytes, complete or not |
| `Serialization.WriteBlock` | src/server/shared/Bitcoin/Serialization.cpp:146-162 | header and transactions are appended |
| `Serialization.ReadBlock` | src/server/shared/Bitcoin/Serialization.cpp:163-180 | block and pointer of reading at the old pointer, on any bytes |
| `Codec.VarIntAt` | src/server/shared/Bitcoin/Serialization.cpp:9-37 | every 64-bit value is read back wherever it was printed, across all four widths |
| `Codec.VarIntLength` | src/server/shared/Bitcoin/Serialization.cpp:9-24 | one, three, five or nine bytes on the four ranges |
| `Codec.VarIntShortest` | src/server/shared/Bitcoin/Serialization.cpp:9-37 | the form printed is the shortest of all strings read to their end as the number and, but for zero, the only one of its length |
| `Codec.TxAt` | src/server/shared/Bitcoin/Serialization.cpp:100-143 | round trip: a transaction with 32-byte hashes printed anywhere in a buffer, with anything before and after, is read back field for field, pointer at its end |
| `Codec.BlockAt` | src/server/shared/Bitcoin/Serialization.cpp:146-180 | round trip of a block, transactions included, anywhere in a buffer |
| `Codec.TxPrefixFree` | src/server/shared/Bitcoin/Serialization.cpp:100-143 | two byte strings that start with printed transactions are equal exactly when the transactions and the tails are, hence printing is injective and prefix-free |
| `Codec.BlockPrefixFree` | src/server/shared/Bitcoin/Serialization.cpp:146-180 | the same for blocks |
| `Merkle.FlatLayout` | src/server/shared/Bitcoin/Block.cpp:9-26 | level k is the contiguous block that starts at the sum of the earlier level sizes and holds exactly the nodes of the recursive definition; the last level is the single last entry |
| `Merkle.FlatEndsInRoot` | src/server/shared/Bitcoin/Block.cpp:25-26 | the last entry is the root of the recursive definition |
| `Merkle.HeightIsCeilLog2` | src/server/shared/Bitcoin/Block.cpp:13-23 | the loops run once per level, the logarithm of n rounded up |
| `Merkle.FlatSizeBound` | src/server/shared/Bitcoin/Block.cpp:13-23 | the vector has at most 2n - 1 + ceil(log2 n) entries |
| `Merkle.IndicesFit32` | src/server/shared/Bitcoin/Block.cpp:13-23 | every index of the loops fits their 32-bit variables exactly for lists of at most 2^31 transactions |
| `Merkle.PatchIsRebuild` | src/server/shared/Bitcoin/Block.cpp:29-44 | patching the left spine of a built vector equals building the vector with the new first leaf, for any number of leaves |
| `Merkle.FoldIsRoot` | src/server/poolserver/Stratum/Client.cpp:53-58 | folding any first leaf through the entries picked at index 1 of each level gives the root of the full tree with that leaf in front |
| `Merkle.BranchIgnoresFirstLeaf` | src/server/poolserver/Stratum/Client.cpp:53-58 | the picked branch does not depend on the coinbase |
| `Merkle.BranchLength` | src/server/poolserver/Stratum/Client.cpp:53-58 | the branch has ceil(log2 n) entries |
| `Blocks.GetTxHash` | src/server/shared/Bitcoin/Transaction.cpp:6-11 | the hash of the printed transaction |
| `Blocks.Block.BuildMerkleTree` | src/server/shared/Bitcoin/Block.cpp:5-27 | the nested loops leave the flat vector of the transactions' tree and its recursive root |
| `Blocks.Block.PushLevel` | src/server/shared/Bitcoin/Block.cpp:16-20 | the inner loop appends the next level of the last `size` entries |
| `Blocks.Block.RebuildMerkleTree` | src/server/shared/Bitcoin/Block.cpp:29-44 | for any vector of the right size, only the left spine is rewritten, from the new first leaf up |
| `Blocks.RebuildRefinesBuild` | src/server/shared/Bitcoin/Block.cpp:5-44 | if only transaction 0 changed since the build, the patch leaves the vector a fresh build would |
| `Blocks.Block.GetHash` | src/server/shared/Bitcoin/Block.cpp:46-56 | the hash of the 80 header bytes of the current fields |
| `Targets.DiffOneFromBits` | src/server/shared/Bitcoin/Bitcoin.h:13-34 | the constant is the target of compact form 0x1d00ffff, and 0xffff * 2^208 |
| `Targets.TargetMeaning` | src/server/shared/Bitcoin/Bitcoin.h:25-34 | for every exponent of at least three and every mantissa the target is the number whose little-endian bytes are exponent - 3 zeros and the three mantissa bytes |
| `Targets.TargetIncreases` | src/server/shared/Bitcoin/Bitcoin.h:25-34 | strictly increasing in the mantissa, and 256 times as much for one exponent more |
| `Targets.DiffRoundTrip` | src/server/shared/Bitcoin/Bitcoin.h:13-23 | difficulty to target and back is exact for every positive 64-bit difficulty, despite two floor divisions |
| `Targets.MeetsTarget` | src/server/shared/Bitcoin/Bitcoin.h:13-23 | a positive hash is at most the target of d exactly when its own difficulty is at least d, and exactly when hash * d <= 0xffff * 2^208 |
| `Work.CoinbaseLayout` | src/server/shared/Bitcoin/Bitcoin.h:36-63 | for every height, key and value the coinbase prints as a 46-byte head, the eight extranonce bytes and a tail that do not depend on each other |
| `Work.HeadMeaning` | src/server/shared/Bitcoin/Bitcoin.h:36-63 | the head byte by byte: version 1, one input, null outpoint, a script of twelve bytes that starts with the height |
| `Work.TailMeaning` | src/server/shared/Bitcoin/Bitcoin.h:36-63 | the tail byte by byte: sequence 0, one output with the value and a script of the key and 0xAC, lock time 0 |
| `Work.CutTemplate` | src/server/poolserver/Stratum/Client.cpp:341-354 | cutting at 46 and skipping 8 yields exactly that head and tail |
| `Work.CoinbaseSplice` | src/server/poolserver/Stratum/Client.cpp:208-215 | head + extranonces + tail parses, to the end, to the template coinbase with only script bytes 4..11 replaced, and that prints as the same bytes |
| `Work.SpliceInjective` | src/server/poolserver/Stratum/Client.cpp:208-215 | different extranonce pairs never give the same coinbase bytes |
| `Work.PrevHashFieldIsWordSwap` | src/server/poolserver/Stratum/Client.cpp:60-65 | reading eight words of the reversed hash and writing them back in the opposite order swaps the bytes of each 4-byte word |
| `Work.HeaderAgreement` | src/server/poolserver/Stratum/Client.cpp:50-76 | for every template, extranonce pair, ntime and nonce text, the header of the server's candidate block is byte for byte the header a miner assembles from the notification |
| `Work.SpliceCoinbase` | src/server/poolserver/Stratum/Client.cpp:208-212 | appending the four parts and parsing the buffer gives the coinbase with the extranonces in place |
| `Work.AssembleShare` | src/server/poolserver/Stratum/Client.cpp:201-218 | copy, splice, parse and patch yield a fresh block that is the candidate with a fully built tree; the template is not written |
| `Network.MakeTemplate` | src/server/poolserver/NetworkMgr/NetworkMgr.cpp:53-76 | the template has the coinbase first, the daemon's transactions in order, a full tree and root; it is fit for jobs exactly when the previous hash has 32 bytes and the compact target's exponent is at least three |
| `Network.TruncateMeaning` | src/server/poolserver/NetworkMgr/NetworkMgr.cpp:53-55 | version and time in range are taken as they are, others lose their high half |
| `Limiting.WindowIsSuffix` | src/server/poolserver/Stratum/ShareLimiter.cpp:32-37 | on records in time order, popping old ones off the front leaves exactly the records newer than the cutoff |
| `Limiting.UnsignedDifference` | src/server/poolserver/Stratum/ShareLimiter.cpp:15-43 | differences are those of 64-bit unsigned values |
| `Limiting.WindowExact` | src/server/poolserver/Stratum/ShareLimiter.cpp:10-42 | the deque stays a suffix of the whole history on every path, and when a submission gets as far as the estimate it is exactly the records newer than now - RetargetTimeBuffer if and only if the clock is at least the buffer and everything earlier calls dropped is too old by now |
| `Limiting.WrappedCutoffDropsAll` | src/server/poolserver/Stratum/ShareLimiter.cpp:34 | a clock below the time buffer wraps the cutoff and every record is dropped |
| `Limiting.RateMeaning` | src/server/poolserver/Stratum/ShareLimiter.cpp:45-49 | the estimate times the interval is the weight times the time per share: the constant cancels |
| `Limiting.TotalAdds` | src/server/poolserver/Stratum/ShareLimiter.cpp:39-41 | weights add up |
| `Limiting.TotalOfOne` | src/server/poolserver/Stratum/ShareLimiter.cpp:39-41 | one record weighs its difficulty |
| `Limiting.TotalOfSame` | src/server/poolserver/Stratum/ShareLimiter.cpp:39-41 | n records of difficulty d weigh n * d |
| `Limiting.NewDiffMeaning` | src/server/poolserver/Stratum/ShareLimiter.cpp:43-55 | the new difficulty is the whole part of weight times time per share over interval, or the limit it is beyond |
| `Limiting.TooSoonMeaning` | src/server/poolserver/Stratum/ShareLimiter.cpp:15-22 | with marks in the past no look is taken exactly while the interval has not passed and the threshold is not reached |
| `Limiting.VerdictMeaning` | src/server/poolserver/Stratum/ShareLimiter.cpp:57-74 | for a difficulty that rises: pass below the configured percentage, reset from 2001 percent, retarget between, both to the new difficulty; for one that falls the undefined value decides |
| `Retargeting.HistoryExact` | src/server/poolserver/Stratum/ShareLimiter.cpp:12-19 | over any run the limiter's records are the submissions that found a job, each with that job's difficulty and its time |
| `Retargeting.StepDifficulty` | src/server/poolserver/Stratum/ShareLimiter.cpp:66-73 | a submission moves the client to the difficulty of a retarget or reset, or the worker minimum above it, and otherwise not |
| `Retargeting.SessionWeight` | src/server/poolserver/Stratum/ShareLimiter.cpp:32-55 | at any point of any session a changed difficulty is, up to the limits, the sum of the difficulties of all the connection's submissions newer than now - RetargetTimeBuffer, times the time per share, over the window, whenever the window is true |
| `Retargeting.LookSpacing` | src/server/poolserver/Stratum/ShareLimiter.cpp:14-22 | after a look and any run without another, a submission that finds its job makes the limiter look exactly when the interval has passed since or it is the threshold's number of those since |
| `Limiting.BadRatio` | src/server/poolserver/Stratum/ShareLimiter.cpp:27 | the quotient test is ten times bad above nine times total |
| `LimiterObject.ShareLimiter.DropOld` | src/server/poolserver/Stratum/ShareLimiter.cpp:32-37 | the loop pops exactly the leading records not newer than the 64-bit cutoff, wrapped or not |
| `LimiterObject.ShareLimiter.Weigh` | src/server/poolserver/Stratum/ShareLimiter.cpp:39-41 | the loop sums the deque's difficulties: the weight `TotalOfOne` and `TotalAdds` describe |
| `LimiterObject.ShareLimiter.Propose` | src/server/poolserver/Stratum/ShareLimiter.cpp:43-55 | hashrate, estimate and limits give the new difficulty of the deque, at any clock |
| `LimiterObject.ShareLimiter.Judge` | src/server/poolserver/Stratum/ShareLimiter.cpp:10-74 | state and verdict are those of the decision `WindowExact` is about, whatever early-return or ban paths earlier calls took |
| `Stratum.StepKeepsInv` | src/server/poolserver/Stratum/Client.cpp:37-354 | every handler keeps: difficulty at least the worker and configured minimum, ordered history, and for each job a target from its own difficulty, coinbase halves from its own template and an id that is its serial modulo 2^32 |
| `Runs.DifficultyInRange` | src/server/poolserver/Stratum/Client.h:107-130 | in every reachable state the difficulty is positive, at least both minima, and at most any bound on start, maximum and worker minima |
| `Runs.IntervalAtLeastTen` | src/server/poolserver/Stratum/ShareLimiter.h:26-31 | at any point of any session the estimate's divisor is ten seconds or more exactly if the buffer is and, for a connection made in the first ten seconds of the clock, where the 32-bit backdating wraps, the clock is not in its last ten |
| `Runs.RunLater` | src/server/poolserver/Stratum/Client.cpp:37-45 | over any run a job in the map is either newly issued or the old one under its id with a grown share set |
| `JobIds.StepIssues` | src/server/poolserver/Stratum/Client.cpp:37-45 | no handler issues more than one job |
| `JobIds.OldWorkIsDead` | src/server/poolserver/Stratum/Client.cpp:109-122 | once only jobs from number k on are left, as after a clean send, every earlier id is answered "Job not found" after any run of inputs too few to bring the 32-bit counter round to it |
| `JobIds.CleanSendKillsOldWork` | src/server/poolserver/Stratum/Client.cpp:37-45 | a server-wide clean send followed by any such run: submissions for ids issued before it are answered "Job not found" |
| `JobIds.OldIdComesBack` | src/server/poolserver/Stratum/Client.cpp:43-45 | that bound is tight in every session: one plain send more brings the id back, and a submission for it goes on to the limiter |
| `JobIds.FreshIds` | src/server/poolserver/Stratum/Client.cpp:43-45 | before the counter wraps all keys are below it and a new id is never in the map |
| `JobIds.JobSurvivesLimiter` | src/server/poolserver/Stratum/Client.cpp:124-137 | when the limiter passes, no key is dropped and the job looked up before is still the entry exactly unless the decision on the state before is a retarget to another difficulty while the id is next in line; when it stops, the handler changes no job |
| `JobIds.NoneDisplacedEarly` | src/server/poolserver/Stratum/Client.cpp:124-137 | within the first 2^32 inputs of a connection every job survives |
| `JobIds.DisplacedJob` | src/server/poolserver/Stratum/Client.cpp:124-137 | a run from a new connection after which a submission passes the limiter and its job is no longer the entry |
| `Runs.CheckCredit` | src/server/poolserver/Stratum/Client.cpp:139-270 | a share is credited exactly when its sizes are four, its pair is new to the job and the hash of the miner-assembled header is at most the job's target and either above the block target or accepted |
| `Runs.StepCredit` | src/server/poolserver/Stratum/Client.cpp:86-271 | a step grants one credit exactly when it is such a submission, by a worker, for a job in the map, let through by the limiter; the credit names that job and its candidate block |
| `Runs.CreditOnce` | src/server/poolserver/Stratum/Client.cpp:178-270 | over every run the ledger of credits stays sound (hash * difficulty <= 0xffff * 2^208) and no job's nonce and extranonce2 pair is credited twice |
| `Runs.SessionLedger` | src/server/poolserver/Stratum/Client.h:28-32 | the same for everything a new connection is ever credited |
| `Runs.PackMeaning` | src/server/poolserver/Stratum/Client.cpp:178-182 | the nonce is the low half of the packed value and the extranonce2 the high half |
| `Runs.PackInjective` | src/server/poolserver/Stratum/Client.cpp:178-182 | the 64-bit packing is injective |
| `Duplicates.DuplicateExact` | src/server/poolserver/Stratum/Client.cpp:178-199 | over every session a submission is refused as a duplicate exactly when its pair already reached the check on the job of the same serial |
| `Duplicates.RefusedHeaderRepeats` | src/server/poolserver/Stratum/Client.cpp:178-221 | over every session a submission that reaches the check repeats the header of an earlier try on its job exactly when an earlier try had the same pair, time and extranonce, while the same pair alone has it refused; for templates and hashes as under `HeaderOnce` |
| `Duplicates.OtherHeaderRefused` | src/server/poolserver/Stratum/Client.cpp:178-221 | a checked pair sent again with any time and after any change of the extranonce is refused as a duplicate, and its header is the same exactly when both are |
| `Counterexamples.ResubscribedRefused` | src/server/poolserver/Stratum/Client.cpp:273-299 | the same on a run from a new connection: login, subscribe, submit, subscribe again, submit for the old job |
| `Duplicates.StepEvolves` | src/server/poolserver/Stratum/Client.cpp:37-271 | every handler issues at most one job, with the current work and no shares, and changes no other job but for the pair tried on it |
| `Duplicates.HeaderOnce` | src/server/poolserver/Stratum/Job.h:24-36 | over every session two credits have the same header exactly when they are for two jobs of the same work with the same coinbase, time and nonce, so never when all jobs had different work; for templates whose other transactions are no coinbases and do not repeat, as long as no strings hashed for the credited blocks collide |
| `Counterexamples.HeaderCreditedTwice` | src/server/poolserver/Stratum/Job.h:24-36 | a run on which one share sent under two ids of the same work is credited twice for one header |
| `Counterexamples.SomeShareIsWorthy` | src/server/poolserver/Stratum/Client.cpp:223-268 | there are a hash, a template and a share as that run asks for |
| `Commitment.RootExact` | src/server/shared/Bitcoin/Block.cpp:5-27 | two lists of any lengths have the same root exactly when they are the same with every duplicate the tree makes written out, if no strings hashed collide and no first leaf is the hash of 64 bytes |
| `Commitment.RootDeterminesLeaves` | src/server/shared/Bitcoin/Block.cpp:5-27 | so lists of different leaves have the same root exactly when they are equal |
| `Commitment.RepeatedTailGoesUnseen` | src/server/shared/Bitcoin/Block.cpp:16-20 | without different leaves the root does not fix their number |
| `Commitment.RootCommits` | src/server/shared/Bitcoin/Block.cpp:5-27 | the same for transactions: equal roots exactly for lists equal with the tree's duplicates written out, if no strings hashed collide and the first ones print to more than 64 bytes |
| `Commitment.DistinctRootCommits` | src/server/shared/Bitcoin/Block.cpp:5-27 | so exactly for equal lists when no transaction repeats |
| `Commitment.HeaderCommits` | src/server/shared/Bitcoin/Block.cpp:46-56 | under those conditions, without repeated transactions, equal header bytes mean equal blocks, transactions included |
| `Commitment.CandidateInjective` | src/server/poolserver/Stratum/Client.cpp:201-218 | a candidate determines the work, both extranonces, the time and the nonce it was assembled from |
| `Pool.Server.GetExtranonce` | src/server/poolserver/Stratum/Server.h:71-76 | call number n yields n modulo 2^32 |
| `Pool.ExtranonceRepeats` | src/server/poolserver/Stratum/Server.h:71-76 | no extranonce comes twice within 2^32 calls, and the next one does |
| `Pool.CoinbasesApart` | src/server/poolserver/Stratum/Client.cpp:208-215 | two subscribers make the same coinbase bytes from one template exactly when their places agree modulo 2^32 and their extranonce2 is the same |
| `Pool.NoHeaderShared` | src/server/poolserver/Stratum/Client.cpp:201-268 | over all runs of two connections a header is credited on both exactly when both were given the same work and sent the same coinbase, time and nonce, so never if they hold no common extranonce; for templates and hashes as under `HeaderOnce` |
| `Pool.SubscribersShareNoHeader` | src/server/poolserver/Stratum/Server.h:71-76 | any number of clients whose subscriptions are numbered calls of one counter, at most 2^32 in all: no header is credited on two of them after they subscribed |
| `Pool.LedgerFromIsSuffix` | src/server/poolserver/Stratum/Client.cpp:273-299 | what a client is credited from any input on is what its ledger ends in |
| `Counterexamples.UnsubscribedSharesHeader` | src/server/poolserver/Stratum/Server.cpp:27-33 | a client that never subscribed and whose undefined extranonce is a subscriber's is credited for the same header |
| `Accounting.CheckAnswers` | src/server/poolserver/Stratum/Client.cpp:139-270 | what is answered to a share, messages and rows in order, is decided by its sizes, its pair and the hash of the miner-assembled header against the targets of the job's difficulty and the template's bits |
| `Accounting.StepSubmits` | src/server/poolserver/Stratum/Client.cpp:236-249 | a step hands over exactly one block exactly when it is a submission the limiter lets through, well sized, with a new pair and that hash at most both targets: its candidate; a solution is credited only right after its block |
| `Accounting.EveryBlockSubmitted` | src/server/poolserver/Stratum/Client.cpp:236-260 | over any run the blocks handed to the network are exactly those of the submissions that solve one, each once and in order |
| `Accounting.SubmittedBlocks` | src/server/poolserver/Stratum/Client.cpp:201-249 | every block handed to the network over any run is the candidate of a job in the map at that point of the run: its template with the spliced coinbase, submitted time and nonce, the full Merkle root of its own transactions, and a hash at most the target of the job's difficulty and the target of the block's own bits |
| `Network.SubmitBlock` | src/server/poolserver/NetworkMgr/NetworkMgr.cpp:92-118 | every daemon is sent the hexadecimal text of the printed block until one accepts; true exactly if one does |
| `Network.DaemonGetsCandidate` | src/server/poolserver/NetworkMgr/NetworkMgr.cpp:92-102 | for every block a session hands over on any run, the text sent decodes and parses to that candidate, to the end, if its other transactions print faithfully |
| `Accounting.CountersExact` | src/server/poolserver/Stratum/ShareLimiter.cpp:12 | over any run the limiter's counters are the submissions that found a job and the rejected rows pushed |
| `Accounting.BanIsDeserved` | src/server/poolserver/Stratum/ShareLimiter.cpp:21-30 | at any point of any session a submission is answered with a ban exactly when it finds its job, interval and threshold do not spare it, it is at least number 201 of those and the rejected rows are above nine tenths of them |
| `Accounting.SessionWindow` | src/server/poolserver/Stratum/ShareLimiter.cpp:10-42 | at any point of any session the deque is a suffix of the connection's records, and at a new estimate the true window exactly under the condition of `WindowExact`, which always holds when the connection was made with the clock past the buffer or the clock is past twice the buffer |
| `Counterexamples.WindowGap` | src/server/poolserver/Stratum/ShareLimiter.cpp:32-37 | a run with the clock past the buffer at the estimate and a record missing from the window |
| `Messages.StepNotices` | src/server/poolserver/Stratum/Client.cpp:37-84 | a step sends a notification exactly if it issues a job: under the id the job has in the map, for the step's work and the difficulty in force, and its clean flag says truly whether older jobs were dropped, as the server asked or the limiter's reset demands |
| `Messages.MinerMirrors` | src/server/poolserver/Stratum/Client.cpp:37-84 | a miner that only reads its messages mirrors any session: the jobs it may work on are exactly those in the map, each notification is that of the job's template, the extranonce is the one checked with, and each job has the difficulty last announced before it or the starting one |
| `Messages.MessagesDecide` | src/server/poolserver/Stratum/Client.cpp:86-271 | at any point of any session "Job not found" is answered exactly for ids the messages do not name, and a share let through, well sized and no duplicate is credited, and its block submitted, exactly as the header assembled from subscription and notification and the difficulty announced demand |
| `Counterexamples.StartUnannounced` | src/server/poolserver/Stratum/Client.h:28-32 | the first job has the starting difficulty and no message says so |
| `Messages.OneReplyEach` | src/server/poolserver/Stratum/Client.cpp:86-331 | over any run every request gets exactly one response, but none for a block the network refuses |
| `Messages.LoginAnswered` | src/server/poolserver/Stratum/Client.cpp:301-331 | a login not found changes nothing and is refused; one found is confirmed, after the new difficulty if its minimum raises it |
| `Messages.LoginsExact` | src/server/poolserver/Stratum/Client.cpp:301-331 | over any run a name may submit exactly if a login under it was found, and the minimum in force is that of the last one found |
| `ClientObject.Job.SubmitShare` | src/server/poolserver/Stratum/Job.h:24-36 | true exactly for a share not in the set; the set grows by it and by nothing else |
| `ClientObject.MerkleBranch` | src/server/poolserver/Stratum/Client.cpp:50-58 | the index loop collects the hexadecimal branch |
| `ClientObject.SwappedPrevHash` | src/server/poolserver/Stratum/Client.cpp:60-65 | the two-buffer word shuffle, for a hash of any length |
| `ClientObject.NotifyMessage` | src/server/poolserver/Stratum/Client.cpp:47-76 | the message built from the job's flat vector and buffers is the one `HeaderAgreement` is about |
| `ClientObject.Decode` | src/server/poolserver/Stratum/Client.cpp:139-176 | the three submitted texts as bytes, time and nonce reversed |
| `ClientObject.PackShare` | src/server/poolserver/Stratum/Client.cpp:178-182 | nonce and extranonce2 through a buffer into 64 bits |
| `ClientObject.Client.constructor` | src/server/poolserver/Stratum/Client.h:28-32 | a new client is valid and stands for a fresh session |
| `ClientObject.Client.ValidLater` | src/server/shared/Util.cpp:21-27 | validity carries over as the clock advances, so handlers compose into runs |
| `ClientObject.Client.GetJob` | src/server/poolserver/Stratum/Client.cpp:333-357 | a fresh job for the current work: targets and coinbase halves of the session's offer |
| `ClientObject.Client.SendJob` | src/server/poolserver/Stratum/Client.cpp:37-84 | state and message of the session's step, which `StepNotices` is about; entries are kept objects or fresh ones with new serials |
| `ClientObject.Client.SetDifficulty` | src/server/poolserver/Stratum/Client.h:107-130 | clamped to the worker minimum, no message when unchanged, job resent when asked: the session's step |
| `ClientObject.Client.LimitShare` | src/server/poolserver/Stratum/ShareLimiter.cpp:10-74 | verdict and its effects on the client are the session's, and entries the limiter leaves are the same job objects |
| `ClientObject.Client.ShareBlock` | src/server/poolserver/Stratum/Client.cpp:201-224 | the assembled block is the candidate and the number compared is its header hash |
| `ClientObject.Client.GradeShare` | src/server/poolserver/Stratum/Client.cpp:223-270 | above target, credit, or block candidate handed over, as `CheckAnswers` states; a refused candidate gives no reply and no record |
| `ClientObject.Client.RememberShare` | src/server/poolserver/Stratum/Client.cpp:186 | the share enters exactly the looked-up job, in the map or not |
| `ClientObject.Client.CheckShare` | src/server/poolserver/Stratum/Client.cpp:139-270 | sizes, duplicate and target checks in order: the session's step on the job looked up before the limiter |
| `ClientObject.Client.AdmitShare` | src/server/poolserver/Stratum/Client.cpp:178-270 | pack, look for a duplicate, grade: the session's step on a share of the right sizes |
| `ClientObject.Client.OnMiningSubmit` | src/server/poolserver/Stratum/Client.cpp:86-271 | the whole handler takes the session's submit step and writes no template block |
| `ClientObject.Client.OnMiningSubscribe` | src/server/poolserver/Stratum/Client.cpp:273-299 | extranonce set, its text sent, a job sent: the session's step |
| `ClientObject.Client.OnMiningAuthorize` | src/server/poolserver/Stratum/Client.cpp:301-331 | worker added and difficulty raised to its minimum, or refused: the session's step |
| `Delivery.JoinedShape` | src/server/poolserver/DataMgr/DataMgr.cpp:16-28 | a query's text has rows at the even places, commas at the odd ones and a row at the end |
| `Delivery.NextKeepsInv` | src/server/poolserver/DataMgr/DataMgr.cpp:14-33 | each lock acquisition and each push keeps: every share pushed is, in order, in exactly one of sent queries, open query or deque; no pop meets an empty deque; sent queries are well formed |
| `Delivery.DeliveryInv` | src/server/poolserver/DataMgr/DataMgr.cpp:14-33 | so in every state reachable under any interleaving, for any bulk count of at least one |
| `Delivery.Delivered` | src/server/poolserver/DataMgr/DataMgr.cpp:14-33 | from the empty store, under any interleaving: everything pushed, in order, is what sent queries, open query and deque hold |
| `Delivery.UploadEnds` | src/server/poolserver/DataMgr/DataMgr.cpp:14-33 | left alone, an upload under way ends with at most the minimum left |
| `Delivery.TimerUploads` | src/server/poolserver/DataMgr/DataMgr.h:57-73 | a timer firing while the uploader is idle starts one |
| `Delivery.ZeroBulkSpins` | src/server/poolserver/DataMgr/DataMgr.cpp:14-33 | with a bulk count of zero an empty query is sent and nothing moves |
| `Delivery.DataMgr.Push` | src/server/poolserver/DataMgr/DataMgr.h:37-41 | the share goes to the back |
| `Delivery.DataMgr.Pop` | src/server/poolserver/DataMgr/DataMgr.h:43-49 | the front share leaves, the rest keeps its order |
| `Delivery.DataMgr.FillQuery` | src/server/poolserver/DataMgr/DataMgr.cpp:16-28 | one query: the first min(bulk, size) shares, comma-separated, no trailing comma, by steps of the interleaving machine |
| `Delivery.DataMgr.Upload` | src/server/poolserver/DataMgr/DataMgr.cpp:8-34 | without pushes it ends with at most the minimum left and every other share in exactly one query, in order; no query is begun with the minimum or fewer left, and only one that empties the deque is short; it is a run of the interleaving machine |
| `Records.BadRowsOfRun` | src/server/poolserver/Stratum/Client.cpp:109-232 | the rows a run pushes with our_result 0 are as many as its rejections |
| `Records.GoodRowsOfRun` | src/server/poolserver/Stratum/Client.cpp:262 | the rows a run pushes with our_result 1 weigh what it credits, solutions apart, and carry the client's address |
| `Records.RowsDelivered` | src/server/poolserver/Stratum/Client.cpp:109-262 | any number of sessions pushing in any interleaving with the uploader: each client's rows are in queries or deque exactly once and in order, those with our_result 0 are as many as its limiter's bad shares, and the others weigh what it was credited, solutions apart |
| `Json.EscapeString` | src/server/shared/JSON/JSON.cpp:85-109 | editing in place puts a backslash before each quote and apostrophe and changes nothing else |
| `Json.Write` | src/server/shared/JSON/JSON.cpp:32-83 | the recursive loops append the node's text to the stream |
| `Json.SetNewKeyAppends` | src/server/shared/JSON/JSON.h:105-121 | setting a new key appends it to the insertion order |
| `Json.SetOldKeyReplaces` | src/server/shared/JSON/JSON.h:105-121 | setting a key again keeps its place and changes only its value |
| `Json.ItemsJoined` | src/server/shared/JSON/JSON.cpp:54-64 | elements are separated by a comma and a space and nothing else |
| `Json.MembersJoined` | src/server/shared/JSON/JSON.cpp:66-79 | members are separated by a comma and nothing else |
| `Json.NoLeadingZero` | src/server/shared/JSON/JSON.cpp:45-46 | numbers have no leading zeros |
| `Json.SemanticFunctions.BeginNode` | src/server/shared/JSON/JSONReader.h:35-62 | an untyped top takes the type, otherwise a node is pushed |
| `Json.SemanticFunctions.EndNode` | src/server/shared/JSON/JSONReader.h:44-71 | the closed node goes into the one below or becomes the caller's |
| `Json.SemanticFunctions.Data` | src/server/shared/JSON/JSONReader.h:108-118 | a value goes to the open object under the last pending key, or to the open array; otherwise it throws |
| `JsonRoundTrip.ReadValue` | src/server/shared/JSON/JSONReader.h:156-164 | reading any quote-free tree's text, anywhere, hands the machine that tree with apostrophes escaped and leaves both stacks as they were |
| `JsonRoundTrip.ReaderNeverYieldsQuotes` | src/server/shared/JSON/JSONReader.h:156-191 | no text whatever is read into a tree with a double quote in a string or key |
| `JsonRoundTrip.DocumentAnywhere` | src/server/shared/JSON/JSONReader.h:179-190 | a quote-free object is read back whatever white space precedes it and whatever follows |
| `JsonRoundTrip.SpacesIgnored` | src/server/shared/JSON/JSONReader.h:135-164 | every ISO 8859-1 white space character is ignored before every token |
| `JsonRoundTrip.SignsRead` | src/server/shared/JSON/JSONReader.h:164 | a plus sign is ignored, a minus sign negates, leading zeros do not count |
| `JsonRoundTrip.ObjectRoundTrip` | src/server/shared/JSON/JSON.cpp:12-30 | a quote-free object is read back with its key order and its string values escaped |
| `JsonRoundTrip.OnlyObjectsRead` | src/server/shared/JSON/JSON.cpp:19-30 | the text of anything but an object, a wrapped array included, is refused |
| `JsonRoundTrip.RoundTrip` | src/server/shared/JSON/JSON.cpp:12-83 | for every tree, writing and reading gives the same tree exactly when the root is an object, no string or key has a double quote and no string value an apostrophe |
| `JsonRoundTrip.ApostropheComesBackEscaped` | src/server/shared/JSON/JSON.cpp:85-109 | the concrete tree on which an apostrophe comes back with a backslash |

## Left out

- Sockets, timers, strands, the ban list, the client set and HTTP: plumbing; handlers and timer firings are steps.
- Interleaving of a posted `SendJob` with a client's own handler: handlers are atomic steps.
- MySQL and query text: a query is its rows and commas, a share row its fields.
- SHA-256, GMP and Boost Base64: the hash is any function, numbers are unbounded.
- Script lengths whose 64-bit sum with the read pointer wraps, and vector sizes that exhaust memory: the pointer sum is mathematical.
- Lists of more than 2^31 transactions, where the 32-bit tree indices wrap (`IndicesFit32`).
- `TargetFromBits` with an exponent byte below three: a template with one is not fit for jobs.
- The text form of job ids: a submission carries the parsed number.
- Submit messages whose parameters are missing or not strings: the exception that ends the handler is not a step.
- JSON real numbers: a literal with a fraction or exponent makes the model's reader fail.
- The loop over daemons in `UpdateBlockTemplate`: only the template of one answer is modelled.
- The check for new blocks after an accepted one: the clean send it leads to is a step of its own.
- Limiter counters beyond 2^64 and double rounding: counters are mathematical and doubles are reals.
- `Script::operator+(BinaryData)` and `SynchronisedQueue`: easy members off the modelled paths.
- Retarget limits that contradict each other: the minimum is at least one, and at most the maximum and the start.
