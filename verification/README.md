# Verified model of the scheduling, exchange, encoding and bookkeeping cores

This project models, in Dafny, the parts of the repository whose correctness rests on an argument rather than on a
hardware result, and proves the properties those parts promise. The files are one module each:

- `Pipeline.dfy`, `InFlight.dfy`, `Rounds.dfy`: the passes in flight of the split check. A model cut into stages is an
  arbitrary stage function of a stage's state and the activation it is given; the rounds keep up to P passes in flight
  over P slots, and every logits row equals the one the same passes give when run one at a time, on the split and on a
  single device.
- `Exchange.dfy`, `SyncFiles.dfy`: the all-reduce of a tensor group through sync files. The first is a transition system
  over single reads and writes of every member, in every interleaving; the second is the host's submission order.
- `Bpe.dfy`: byte-pair encoding by merge ranks, the generator's pruning of a merge list to what its texts can reach, and
  the tokenizer's own loop.
- `PngRows.dfy`, `Adam7.dfy`, `PngFile.dfy`: the PNG writer of the image reference against the repository's own reader:
  bit packing, the five filters, the Adam7 passes, the division into IDAT chunks, and the chunk framing (RFC 2083,
  sections 2.3, 2.6, 3.2 and 6).
- `RowRuns.dfy`, `StateViews.dfy`, `Tickets.dfy`: the backend's bookkeeping: row runs and their scaling, the doubling
  copy, sizes that refuse to wrap, state storage and views, and the ticket ledger under concurrent calls.
- `Crc32c.dfy`, `CrcValues.dfy`: the checksum by the processor's instruction against the bit-serial register of section 12.1
  of RFC 3720, and the values that leave it one polynomial.
- `Mxfp4.dfy`: MXFP4 blocks over real numbers (OCP Microscaling Formats v1.0, sections 5.3.3 and 6.3).
- `AbRunner.dfy`: the rotation of the arms and the win threshold of the paired runner.
- `Common.dfy`: optional values, results, bytes and powers of two, shared by the others.
- `Layered.dfy`, `UnicodeTable.dfy`, `FileReference.dfy`: the layered reference's evaluation, the Unicode class table with
  its search, and the file reference's ranking and embedding reads.

Code that changes state step by step is a class or a method with loops, proved against functions or against the property
itself; concurrency is a state machine over single steps. Calls into code outside the model are parameters: the stages of
a split model, the layers of a network, a partial and its addition, compression and its inverse, the chunk check, the
key of a run, an op on a recurrent state. Choices by a random generator are arbitrary: the start sequence of a pass and
every interleaving. Where a method places the finished passes in order, the library's sort is an insertion that gives the
one order there is, as `InFlight.OrderIsUnique` shows.

Two statements turned out not to hold of the code as written, and the code is modelled as it is:

- `tools/ab_runner.py:10-13` says that no arm always runs first. With one base and one candidate the base runs first in
  every round (`AbRunner.TwoArmsFirst`); `AbRunner.SomeAlwaysFirst` gives the exact condition, and
  `AbRunner.PlacesOverRounds` how often every arm has every place, which is even only for an odd number of arms.
- The count of conv channels (`src/backends/backend.hpp:309`) doubles the key heads outside the checked product. It is exact,
  or refused as too large, if and only if the doubled count does not wrap, or the heads have no floats, or the wrapped sum is
  refused itself (`StateViews.ChannelsExact`); `StateViews.ChannelsWrap` is a shape that is counted wrongly.

## Model

| member | source | states |
|---|---|---|
| `Pipeline.PlanSequence` | tools/split_check.cpp:105-113 | a sequence's work covers its prompt in chunks of 32 tokens, of which the last may be shorter and alone wants logits, and then its 8 generated tokens one a pass, contiguously |
| `Pipeline.SerialStates` | tools/split_check.cpp:197-208 | one state a stage after any number of passes run one at a time; what they are is `Pipeline.ChainIsFold`'s |
| `Pipeline.SerialRows` | tools/split_check.cpp:197-209 | as many rows as `Pipeline.WantsCount` counts |
| `Pipeline.WantsCount` | tools/split_check.cpp:151-156 | the rows of a pass are counted by the places of its entries that want one |
| `Pipeline.StageLaws` | tools/split_check.cpp:143-147 | the states and activations start from the first states and the embeddings, and one step of a stage on a pass takes both on |
| `Pipeline.PassRowsAre` | tools/split_check.cpp:151-156 | a pass has a row for each entry that wants one, the head's of its last activation, in the interleaved and in the serial run |
| `Pipeline.FormedLater` | tools/split_check.cpp:161-190 | forming more passes changes nothing an earlier pass meets at any stage |
| `Pipeline.ChainIsFold` | tools/split_check.cpp:197-208 | stage by stage, the serial run reaches the state and activation of each stage's own fold over the passes |
| `Pipeline.FoldIsSerial` | tools/split_check.cpp:96-97 | any schedule in which every stage runs the passes in formation order gives the serial rows |
| `Pipeline.SingleDevice` | tools/split_check.cpp:196-214 | where the single device computes what the stages compute in a row, its serial rows are the split's |
| `Pipeline.NoDifferences` | tools/split_check.cpp:209 | rows equal to the serial ones count no difference |
| `Pipeline.Serial` | tools/split_check.cpp:196-212 | the replay counts the set of places, by pass and row, where a collected row differs from the serial one |
| `InFlight.EarlierRanFurther` | tools/split_check.cpp:132-160 | in every state the invariants allow, a live pass formed earlier has run at least as many stages as one formed later |
| `InFlight.StageLeavesOthers` | tools/split_check.cpp:143-147 | a stage run leaves every other slot's activation, every other slot's logits rows `[k*kPer, (k+1)*kPer)` and every other stage's state as they were |
| `InFlight.AfterStageData` | tools/split_check.cpp:143-147 | so every live pass's activation and rows are still there to be read, and the one that ran has its next ones |
| `InFlight.AfterStageStates` | tools/split_check.cpp:143-147 | a stage's state stays the fold over a prefix of the formed passes |
| `InFlight.StageKeeps` | tools/split_check.cpp:143-147 | running the next pass at a stage keeps queue and storage invariants together |
| `InFlight.NextToRetire` | tools/split_check.cpp:139-142 | the oldest finished pass is in its slot with all stages run and its rows in its own range |
| `InFlight.RetireKeeps` | tools/split_check.cpp:148-160 | retiring it keeps the invariants, and the rows collected are its own |
| `InFlight.FormKeeps` | tools/split_check.cpp:178-189 | a pass formed in a free slot keeps the invariants: no slot with two passes, no place overwritten |
| `InFlight.HeldOnce` | tools/split_check.cpp:163-168 | a pass holds a sequence at most once, and its entries of that sequence are that one |
| `InFlight.FormedWork` | tools/split_check.cpp:165-177 | forming a pass takes each held sequence's next entry, in order, and no other's |
| `InFlight.FormedFlying` | tools/split_check.cpp:165-177 | the sequences in flight become those that were and those of the new pass |
| `InFlight.FormedSupply` | tools/split_check.cpp:165-177 | the flags and counters keep telling which sequences are in flight and which entries are formed |
| `InFlight.RetiredSupply` | tools/split_check.cpp:158 | freeing a retired pass's sequences frees no sequence of another pass |
| `InFlight.ReadRows` | tools/split_check.cpp:149-156 | as many rows are read from the start of a slot's range as the pass has entries that want one |
| `InFlight.Mark` | tools/split_check.cpp:158 | exactly the pass's sequences change their flag |
| `InFlight.Advance` | tools/split_check.cpp:175-176 | exactly the pass's sequences move on by one entry |
| `InFlight.WaitingHead` | tools/split_check.cpp:132-138 | the first advance of a round is at the last stage with a pass waiting, and the rest are those below it |
| `InFlight.NextAtStage` | tools/split_check.cpp:136 | the oldest pass waiting at a stage is the stage's next in formation order, live in its slot |
| `InFlight.PendingStep` | tools/split_check.cpp:143-147 | an advance of the snapshot is still right when its turn comes, after those above it have run |
| `InFlight.PendingEnd` | tools/split_check.cpp:143-147 | after all advances every stage above the first with a pass waiting has run exactly one more |
| `InFlight.Oldest` | tools/split_check.cpp:134-136 | the live slot at a stage with the least formation number, or none |
| `InFlight.OldestIsNext` | tools/split_check.cpp:134-137 | there is such a slot if and only if a pass waits, and it holds the stage's next pass |
| `InFlight.Advances` | tools/split_check.cpp:132-138 | the snapshot is every stage's oldest waiting pass, from the last stage down |
| `InFlight.Place` | tools/split_check.cpp:142 | a slot is put in formation order among those in order |
| `InFlight.OrderIsUnique` | tools/split_check.cpp:142 | the finished slots have one formation order, so any sort gives it |
| `InFlight.Retirements` | tools/split_check.cpp:139-142 | the retirements are the finished passes, all of them, in formation order |
| `InFlight.ChosenEntries` | tools/split_check.cpp:164-168 | walking the sequences in turn from any start takes the eligible ones' next entries, each once, and misses none |
| `InFlight.TurnIs` | tools/split_check.cpp:165-166 | the turns go up from the start and around |
| `InFlight.ChosenInTurn` | tools/split_check.cpp:164-168 | what is taken are the next entries of free sequences in turn, none skipped, stopping at four or where there are no more |
| `InFlight.Choose` | tools/split_check.cpp:164-168 | the loop gives the first four of those entries |
| `InFlight.FormableChoice` | tools/split_check.cpp:164-177 | what is chosen holds no sequence in flight and no sequence twice |
| `InFlight.Prepare` | tools/split_check.cpp:170-177 | the flags and counters after forming, for exactly the sequences held |
| `InFlight.More` | tools/split_check.cpp:191-193 | another round is run exactly while a slot is live or an entry is unformed |
| `InFlight.RoundProgress` | tools/split_check.cpp:130-194 | a round that forms nothing while work is left advances or retires some pass |
| `InFlight.SomeEligible` | tools/split_check.cpp:162-169 | with nothing in flight and work left, some sequence can be taken |
| `InFlight.RoundMeasures` | tools/split_check.cpp:130-194 | every round with work left, whether it forms passes or not, lowers the unformed entries times S + 2 plus the stages and retirements of the passes in flight; with nothing left none is left after |
| `InFlight.AllDone` | tools/split_check.cpp:191-194 | when the loop ends every entry is formed and every pass has run every stage and retired |
| `InFlight.CollectedSerial` | tools/split_check.cpp:148-160 | the rows of a retired pass are those of the serial run |
| `Rounds.Flight.constructor` | tools/split_check.cpp:114-128 | slots, buffers and counters at the start, whatever the buffers hold |
| `Rounds.Flight.RunPassStage` | tools/split_check.cpp:143-147 | only the pass the stage is to run next runs, and its slot and the stage move on by one |
| `Rounds.Flight.Retire` | tools/split_check.cpp:148-160 | one pass retires, its slot alone is freed, and the invariants hold |
| `Rounds.Flight.BeginPass` | tools/split_check.cpp:178-186 | a pass is appended in formation order in the free slot alone |
| `Rounds.Flight.Form` | tools/split_check.cpp:162-190 | a pass of the first four free sequences in turn is formed and run through its first stage, or nothing changes and no sequence is eligible |
| `Rounds.Flight.FormNext` | tools/split_check.cpp:162-190 | the same from any start |
| `Rounds.Flight.AdvanceAll` | tools/split_check.cpp:143-147 | every stage above the first with a pass waiting runs exactly one more |
| `Rounds.Flight.RetireAll` | tools/split_check.cpp:148-160 | every pass of the snapshot retires, in formation order |
| `Rounds.Flight.Drain` | tools/split_check.cpp:131-160 | exactly the passes whose last stage ran in an earlier round retire: none in the round that ran it |
| `Rounds.Flight.FormAll` | tools/split_check.cpp:161-190 | new passes are formed until every slot is live or no sequence is eligible |
| `Rounds.Flight.Round` | tools/split_check.cpp:130-194 | the exact law of a round for stages, retirements and formations |
| `Rounds.Flight.Run` | tools/split_check.cpp:114-195 | for every stage function, work list and choice of starts it ends, every sequence's entries are formed once and in order, and every pass has a row for each entry that wants one, which is the head's of its last activation and the serial run's |
| `Rounds.PlanAll` | tools/split_check.cpp:104-113 | every sequence's work is planned to cover its tokens |
| `Rounds.InFlightCheck` | tools/split_check.cpp:98-214 | the check counts no differing row on the split, and none on a single device that computes the same model; the passes formed cover every sequence's tokens from first to last, contiguously and in order |
| `Exchange.SlotDistinct` | tools/shaders/exchange.glsl:9 | two partials share a place of an inbox only if their member, element and epoch parity agree |
| `Exchange.SlotIs` | tools/shaders/exchange.glsl:9 | the epoch's parity chooses the half of the inbox, in which the members' values follow in order |
| `Exchange.InitialInv` | tools/vulkan_handoff.cpp:928-956 | the invariant holds whatever the inboxes hold at first |
| `Exchange.ReadsItsEpoch` | tools/shaders/exchange_sum.comp:16-24 | every read of a sum is the partial of the sum's own epoch and of the member whose turn it is, neither missing nor replaced |
| `Exchange.AddedIsTotal` | tools/shaders/exchange_sum.comp:16-24 | what a sum adds up is ((p0 + p1) + ...) + p(W-1) of one epoch |
| `Exchange.LeftFold` | src/backends/backend.hpp:452-454 | that sum starts from the first member's partial and takes each next on the right |
| `Exchange.WriteKeeps` | tools/vulkan_handoff.cpp:860-863 | a write leaves in every place of every inbox the latest partial written to it |
| `Exchange.ReplacedIsRead` | tools/vulkan_handoff.cpp:860-863 | the partial a write replaces is the member's own of two epochs before, which the member written to has already summed |
| `Exchange.StepKeeps` | tools/vulkan_handoff.cpp:937-982 | every single send, read, start and end on any member keeps the invariant |
| `Exchange.RunKeeps` | tools/vulkan_handoff.cpp:928-983 | so does every interleaving |
| `Exchange.EveryRunSums` | src/backends/backend.hpp:446-455 | in every interleaving each epoch summed is the left fold of that epoch's partials, members agree, and started submissions differ by at most one |
| `Exchange.NeverStuck` | tools/vulkan_handoff.cpp:957-983 | until every member has ended every submission some step can be taken |
| `Exchange.MeasureShrinks` | tools/vulkan_handoff.cpp:957-983 | every step leaves less to do |
| `Exchange.EveryRunEnds` | tools/vulkan_handoff.cpp:957-983 | no interleaving is longer than what is left at its start |
| `Exchange.MaximalRunCompletes` | tools/vulkan_handoff.cpp:957-983 | a run that can go no further has ended epochs + 1 submissions and summed every epoch on every member |
| `SyncFiles.Device.Submit` | tools/vulkan_handoff.cpp:965 | a submission waits on imported semaphores not waited on and signals ones not signalled |
| `SyncFiles.Device.Move` | tools/vulkan_handoff.cpp:966-981 | a sync file is exported after its signal is submitted and imported once |
| `SyncFiles.Device.SubmitOne` | tools/vulkan_handoff.cpp:958-982 | submission i of a member waits on every peer's semaphore of the epoch before, for the first time, and signals one to each peer |
| `SyncFiles.Device.MoveAll` | tools/vulkan_handoff.cpp:966-981 | after it everything signalled is imported |
| `SyncFiles.Device.Chain` | tools/vulkan_handoff.cpp:957-982 | over the whole chain every semaphore is signalled, imported and waited on exactly once, and no wait precedes its import |
| `SyncFiles.Device.OrderPlace` | tools/vulkan_handoff.cpp:957-958 | submission i of member d is at place i W + d of the host's order |
| `SyncFiles.Device.StartWaits` | tools/vulkan_handoff.cpp:957-965 | a member of the exchange can start a submission exactly when it is idle, the host has made the submission, and the submissions whose semaphores it waits on have ended |
| `Bpe.BestIsLeftmostLowest` | src/tokenizer/tokenizer.hpp:321-326 | the pair merged has the lowest rank of all pairs and is the leftmost with it |
| `Bpe.RankIsLast` | src/tokenizer/tokenizer.hpp:114-121 | a pair's rank is the index of the last merge that matches it |
| `Bpe.MatchesAre` | src/tokenizer/tokenizer.hpp:117-120 | a pair matches a merge by its symbols, or by the string it forms |
| `Bpe.EncodeIsFinal` | src/tokenizer/tokenizer.hpp:320-331 | an encoding has no pair left with a rank |
| `Bpe.EncodeHasNoMatch` | src/tokenizer/tokenizer.hpp:320-331 | an encoding has no pair left that any merge matches |
| `Bpe.EncodeKeeps` | src/tokenizer/tokenizer.hpp:328-329 | the symbols of an encoding in a row are the word |
| `Bpe.EncodeKnown` | tools/gen_baseline.py:217-218 | every symbol is a character of the word or what a merge of the list forms |
| `Bpe.BuildRanks` | src/tokenizer/tokenizer.hpp:114-121 | the map holds exactly the strings the merges form, each with the index of the last merge that forms it |
| `Bpe.Lowest` | src/tokenizer/tokenizer.hpp:321-326 | the inner loop finds the pair to merge |
| `Bpe.Symbols` | src/tokenizer/tokenizer.hpp:313-332 | the tokenizer's loop ends, for up to 2^32 - 1 merges, with the encoding: the symbols are the word in a row, and no two neighbours form what a merge forms |
| `Bpe.PruningKeepsOrder` | tools/gen_baseline.py:215 | pruning keeps which reachable pairs have a rank and how their ranks compare |
| `Bpe.SameEncoding` | tools/gen_baseline.py:207-215 | the pruned list merges the same pairs all the way |
| `Bpe.PruningKeepsEncoding` | tools/gen_baseline.py:207-215 | every piece of a text encodes with the pruned list as with the whole one, however the text is cut |
| `Bpe.Reach` | tools/gen_baseline.py:209-213 | the set is exactly the substrings of two or more characters within the cap |
| `Bpe.WholeReaches` | tools/gen_baseline.py:213 | without a cap every substring is reached |
| `Bpe.CapKeepsMerges` | tools/gen_baseline.py:335-341 | capping substrings at the longest merge prunes the same merges away |
| `Bpe.Longest` | tools/gen_baseline.py:337 | the longest product of the list |
| `Bpe.Prune` | tools/gen_baseline.py:342 | the kept merges are those whose product is reached, in rank order |
| `Bpe.PrunedKeeps` | tools/gen_baseline.py:215 | what is kept is of the list and reached |
| `Bpe.Tokens` | tools/gen_baseline.py:217-219 | the token table has every alphabet, kept and added token's id, and each entry is the vocabulary's or an added one's |
| `Bpe.Vocabulary` | tools/gen_baseline.py:207-230 | the pruned vocabulary encodes every piece of every text as the whole one does, and every id it gives is in the table, capped or not |
| `PngRows.PaethIsNearest` | src/image/png.hpp:36-39 | the Paeth predictor is a nearest neighbour to a + b - c, ties in the order a, b, c |
| `PngRows.SamePrediction` | tools/image_reference.py:101-111 | the writer's five predictors are the reader's |
| `PngRows.FiltersAre` | tools/image_reference.py:97-112 | each filter by its neighbours: none, the byte before, the byte above, their mean rounded down, Paeth |
| `PngRows.FiltersTakeTurns` | tools/image_reference.py:93-95 | line k is led by filter k modulo 5 |
| `PngRows.UnfilterUndoes` | src/image/png.hpp:42-62 | reconstruction inverts each of the five filters on every line |
| `PngRows.FilteredLength` | src/image/png.hpp:145-150 | the filtered lines have the length the reader expects |
| `PngRows.ReadsFiltered` | src/image/png.hpp:42-62 | reading filtered lines gives the lines and leaves exactly what follows |
| `PngRows.FilterLine` | tools/image_reference.py:96-112 | one line filtered byte by byte |
| `PngRows.FilterLines` | tools/image_reference.py:91-116 | the writer's loops give the filtered stream, the filters in turn |
| `PngRows.DigitAt` | src/image/png.hpp:166-167 | a shift and a mask give back each sample shifted into a number |
| `PngRows.SampleOfRow` | src/image/png.hpp:166-167 | the reader's sample of a packed row is the one packed |
| `PngRows.PackLength` | src/image/png.hpp:156 | a packed row has the reader's stride |
| `PngRows.UnpackUndoes` | tools/image_reference.py:77-89 | unpacking inverts packing for every legal color type and depth, to the reader's stride |
| `PngRows.PackedBits` | tools/image_reference.py:77-89 | where a sample's bits are in the packed row, the earlier samples in the higher bits, and a pixel's bytes at eight bits |
| `PngRows.Formats` | tools/image_reference.py:74-75 | the legal color types and depths, their channels, and how far back the filters look |
| `PngRows.SameBpp` | tools/image_reference.py:75 | writer and reader look equally far back |
| `PngRows.PackBits` | tools/image_reference.py:80-89 | the accumulator loop gives the packed row |
| `Adam7.HitByOne` | tools/image_reference.py:120 | each pixel is in exactly one of the seven passes |
| `Adam7.Columns` | tools/image_reference.py:121 | a pass's columns inside the image are exactly those the reader counts |
| `Adam7.PassesCover` | src/image/png.hpp:138-140 | the passes hold every pixel |
| `Adam7.DecodesPixel` | src/image/png.hpp:161-188 | a pixel of a pass is read back as it was written |
| `Adam7.ReadsRaw` | src/image/png.hpp:141-189 | for any list of passes the data has the expected length and the pixels the passes reach are restored, the others untouched |
| `Adam7.ReadsImage` | src/image/png.hpp:141-189 | the reader gets the whole image, whatever its pixels were before |
| `Adam7.PassPixels` | tools/image_reference.py:121 | the pixels of one row of a pass |
| `Adam7.WritePass` | tools/image_reference.py:121-124 | a pass's data; empty rows are dropped and an empty pass writes nothing |
| `Adam7.WriteData` | tools/image_reference.py:118-126 | the image data before compression, interlaced or not |
| `PngFile.PartsJoin` | tools/image_reference.py:128 | the parts in a row are the stream, for any number of parts |
| `PngFile.SplitData` | tools/image_reference.py:128 | the parts as chunks, for any stream and any number of parts |
| `PngFile.ReadHeader` | src/image/png.hpp:103-117 | an accepted header has a size and a legal color type and depth |
| `PngFile.Take` | src/image/png.hpp:102-130 | the first chunk is the header, and the palette stays whole triples |
| `PngFile.ReadChunks` | src/image/png.hpp:94-132 | the chunks up to the end chunk, after which a header is known |
| `PngFile.ReadsChunk` | tools/image_reference.py:67-68 | a framed chunk is read back and what follows it is left |
| `PngFile.FrameIs` | tools/image_reference.py:67-68 | a frame is the length, the kind, the data and the check of kind and data, numbers with the highest byte first |
| `PngFile.ReadsFrames` | src/image/png.hpp:94-132 | a run of framed chunks is taken in one by one |
| `PngFile.HeaderBack` | tools/image_reference.py:129 | the header is read back where the size is within the reader's limits, and refused otherwise |
| `PngFile.TakesChunks` | src/image/png.hpp:94-132 | the chunks after the header are refused exactly where those before the first end chunk hold a second header or a malformed palette; otherwise the reader has their last palette and all their image data |
| `PngFile.TakesFile` | tools/image_reference.py:129-140 | after a written file the reader has its header, last palette and image data, or refuses exactly where the size or the chunks are not allowed |
| `PngFile.OpensAny` | src/image/png.hpp:86-189 | whatever chunks the caller adds, exactly when a written file opens, and to what |
| `PngFile.OpensFile` | tools/image_reference.py:71-140 | where the caller's own chunks hold none of the image, a written file opens to its header, samples and palette if and only if its size is within the limits, it has at least one data part, and a palette is of 1 to 256 colors and there for a palette image |
| `PngFile.WrittenOpens` | tools/image_reference.py:71-140 | the round trip: what the writer writes opens so, for every compression that inflation undoes on this image's data |
| `PngFile.AddChunks` | tools/image_reference.py:130-139 | chunks are framed in order behind what is written |
| `PngFile.FileHasChunks` | tools/image_reference.py:128-140 | the file is the signature and, read chunk by chunk, the header's 13 bytes, the chunks before, the palette and the transparency where given, the equal parts of the stream, the chunks after, and the end |
| `PngFile.PngBytes` | tools/image_reference.py:71-140 | the writer's loops give that file; every chunk's length must fit its field, and nothing else is asked of the compression |
| `RowRuns.CheckRuns` | src/backends/backend.hpp:196-201 | a list is refused exactly when its ends fall or do not end at the batch |
| `RowRuns.ForEachRun` | src/backends/backend.hpp:192-212 | a refused list makes no call; otherwise the calls are nonempty, cover the rows in order, have the key of the run of each row, and two neighbours have one key only where a run of another key ends between them |
| `RowRuns.OwnerExists` | src/backends/backend.hpp:192-195 | each row below the end has exactly one run that is first to end past it |
| `RowRuns.ScaleRuns` | src/backends/backend.hpp:805 | the scaled list, with the product's wrap |
| `RowRuns.ScaledValid` | src/backends/backend.hpp:818-822 | without a wrap the scaled list is in order, covers rows times k entries and keeps every extent |
| `RowRuns.ScaledOwner` | src/backends/backend.hpp:818-822 | entry r k + j belongs to a scaled run if and only if row r belongs to that run, which has its extent |
| `RowRuns.DoubleFills` | src/backends/backend.hpp:838-842 | copying done rows behind themselves leaves that many more done |
| `RowRuns.RepeatRow` | src/backends/backend.hpp:835-843 | every row of the block is the row, and nothing outside the block changes |
| `StateViews.SizeMul` | src/backends/backend.hpp:40-44 | the exact product, or refused if and only if it does not fit |
| `StateViews.SizeAdd` | src/backends/backend.hpp:45-49 | the exact sum, or refused if and only if it does not fit |
| `StateViews.ChannelsExact` | src/backends/backend.hpp:309 | the count is exact, or refused as too large, if and only if the doubled heads do not wrap, or have no floats, or the wrapped sum is refused itself |
| `StateViews.ChannelsWrap` | src/backends/backend.hpp:309 | a shape with 2^63 key heads of one float counts none of its 2^64 channels |
| `StateViews.SlotFloatsExact` | src/backends/backend.hpp:313-315 | exactly when a slot's floats, where given, are exact, and exactly when they are exact or refused as too large, for every shape |
| `StateViews.MakeStorage` | src/backends/backend.hpp:322-334 | a storage is made if and only if every layer's buffer is there and holds its slots with the tail, in the exact size where the doubled heads do not wrap, and it has that layout |
| `StateViews.SlotsApart` | src/backends/backend.hpp:317-341 | a slot is a byte range inside its layer's buffer and shares no byte with another |
| `StateViews.CheckStateViews` | src/backends/backend.hpp:365-389 | views are accepted, with their row count, if and only if each is well formed, none writes a slot another uses, and the count fits |
| `StateViews.AcceptedIs` | src/backends/backend.hpp:369-385 | what accepted means, field by field |
| `StateViews.AcceptedSlots` | src/backends/backend.hpp:361-389 | an accepted view's slots are byte ranges inside its layer's buffer, and the one it writes shares no byte with another view's |
| `StateViews.RunAtOnce` | src/backends/backend.hpp:352-363 | running views without conflict in any order is as if each read the first state |
| `StateViews.AnyOrder` | src/backends/backend.hpp:363 | two orders leave the same slots and give the same outputs |
| `StateViews.AcceptedAnyOrder` | src/backends/backend.hpp:363-389 | accepted views do not depend on their order |
| `StateViews.ConflictTells` | src/backends/backend.hpp:380-385 | two views with a conflict do depend on it: one op tells the two orders apart |
| `Tickets.StepKeeps` | src/backends/backend.hpp:60-74 | every step keeps done at most last and a returned call's ticket retired, never lowers done, and keeps retired tickets settled |
| `Tickets.RunKeeps` | src/backends/backend.hpp:60-74 | so does every interleaving of steps |
| `Tickets.EndsAtGreatest` | src/backends/backend.hpp:60-74 | when all calls have returned, every ticket reported is retired, done is its start or a ticket reported, last counts the tickets taken and given back, and exactly the tickets up to done or past last are settled |
| `Tickets.RunCalls` | src/backends/backend.hpp:68 | the calls are of the tickets reported, in order |
| `Tickets.NeverBlocked` | src/backends/backend.hpp:68-71 | a call in progress can always take its next step |
| `Tickets.FailureIsProgress` | src/backends/backend.hpp:70 | a try that fails for a reason means another call raised done, and brings the call nearer its end |
| `Crc32c.InstructionIsSerial` | src/core/crc32c.hpp:16-19 | the instruction's polynomial remainder is as many register steps as its operand has bits |
| `Crc32c.Crc32IsSerial` | src/core/crc32c.hpp:14-19 | an instruction on a little-endian load is the register over its bytes |
| `Crc32c.Continues` | src/core/crc32c.hpp:9-10 | a checksum continued over a second part is the checksum over both |
| `Crc32c.TailTells` | src/core/crc32c.hpp:10-21 | the register after the same bits tells what it was before them |
| `Crc32c.BurstsDiffer` | src/core/crc32c.hpp:9-21 | two messages of one length that differ only within four consecutive bytes never share a checksum |
| `Crc32c.Crc32c` | src/core/crc32c.hpp:10-21 | words and then bytes give the bit-serial checksum |
| `CrcValues.StepOfWord` | src/core/crc32c.hpp:16-19 | a step of the register is a shift and the polynomial 82F63B78h on a machine word |
| `CrcValues.CheckValue` | tests/disk_store.cpp:143 | the checksum of the nine digits is E3069283h |
| `CrcValues.Residue` | src/core/crc32c.hpp:9-21 | any message with its own checksum behind it has the checksum 48674BC7h |
| `Mxfp4.Log2Is` | tools/write_mxfp4.py:39 | the exponent of the greatest power of two not above a magnitude |
| `Mxfp4.MagnitudeIsE2M1` | tools/write_mxfp4.py:32 | the magnitudes are those of two exponent bits and one mantissa bit |
| `Mxfp4.CeilLog2Is` | tools/deepseek4_kernel.py:28-37 | the kernel's exponent is the least whose power of two is not below the value |
| `Mxfp4.NearestUnique` | tools/write_mxfp4.py:43 | one magnitude is nearest with ties to even |
| `Mxfp4.E2m1Index` | tools/write_mxfp4.py:42-48 | the loop gives that magnitude, 6 for anything past it |
| `Mxfp4.ThresholdIsNearest` | tools/write_mxfp4.py:69 | so do the array form's thresholds |
| `Mxfp4.ToE2m1` | tools/deepseek4_kernel.py:45-52 | so does the kernel's count of midpoints passed, up to 6 |
| `Mxfp4.AmaxIs` | tools/write_mxfp4.py:38 | the greatest magnitude is reached and never passed |
| `Mxfp4.WhereScaled` | tools/write_mxfp4.py:37-39 | the block's greatest magnitude is scaled into [4, 8), or below 4 where the exponent is clamped |
| `Mxfp4.ErrorBound` | tools/write_mxfp4.py:51-59 | a value's error is below a quarter of the greatest magnitude, or at most half the least scale where the exponent is clamped |
| `Mxfp4.NoMinusZero` | tools/write_mxfp4.py:57 | code 8 is never written |
| `Mxfp4.DecodesIntended` | tests/spec_decode.py:349-351 | the reader's value of scale and code is the intended one |
| `Mxfp4.EncodeBlock` | tools/write_mxfp4.py:51-59 | each code is of the nearest magnitude under the rule's scale, never minus zero, and decodes to the intended value |
| `Mxfp4.ExponentAgain` | tools/write_mxfp4.py:37-39 | the rounded block takes the same exponent |
| `Mxfp4.EncodesAgain` | tools/write_mxfp4.py:51-59 | encoding the intended values gives the identical block |
| `Mxfp4.UnpackUndoes` | tools/write_mxfp4.py:73-75 | the 17 bytes give back the scale and the 32 codes |
| `Mxfp4.ScaleIsByte` | tools/write_mxfp4.py:59 | the scale of a finite block fits its byte |
| `Mxfp4.FormsAgree` | tools/write_mxfp4.py:62-76 | the array form gives the readable form's scale, codes and values |
| `AbRunner.RoundOrderAt` | tools/ab_runner.py:171-174 | which arm the turned and reversed list has at each place |
| `AbRunner.Schedule` | tools/ab_runner.py:169-187 | the samples are all rounds' arms in order |
| `AbRunner.SampleIs` | tools/ab_runner.py:169-187 | no sample is dropped: each round and place has its own |
| `AbRunner.TwoArmsFirst` | tools/ab_runner.py:10-13 | with two arms the base runs first in every round |
| `AbRunner.SomeAlwaysFirst` | tools/ab_runner.py:10-13 | some arm always runs first if and only if there are at most two arms or at most two rounds |
| `AbRunner.PlacesOverRounds` | tools/ab_runner.py:171-174 | over any 2m rounds an odd m gives every arm every place exactly twice; an even m gives the places of its own parity four times and the others never |
| `AbRunner.TailMirror` | tools/ab_runner.py:60 | a tail and its mirror image are the whole row |
| `AbRunner.CombNext` | tools/ab_runner.py:57-60 | the entries of a row are the binomial coefficients |
| `AbRunner.TailSum` | tools/ab_runner.py:60 | the sum of a tail |
| `AbRunner.LeastCount` | tools/ab_runner.py:58-63 | the least count whose tail is at most a level |
| `AbRunner.WinThreshold` | tools/ab_runner.py:55-63 | the least count whose tail is at most alpha 2^n, at most one more than the pairs, 0 only for alpha of at least 1, and above half the pairs for alpha below one half |
| `Layered.Todo` | tools/gen_layered_reference.py:338-341 | each row not yet run, once |
| `Layered.ForwardIs` | tools/gen_layered_reference.py:345-376 | the full forward is the embedding, each layer in turn, the norm and the head |
| `Layered.RunLoadsOnce` | tools/gen_layered_reference.py:345-376 | what a run loads is every module of the model once and nothing else |
| `Layered.Reference.Load` | tools/gen_layered_reference.py:305-310 | a decoder layer is given weights only while no other holds any |
| `Layered.Reference.StepAll` | tools/gen_layered_reference.py:358-366 | all rows move on by one layer under one load of its weights |
| `Layered.Reference.HeadAll` | tools/gen_layered_reference.py:368-376 | the norm and head give each new row the full forward's logits and leave earlier ones |
| `Layered.Reference.Run` | tools/gen_layered_reference.py:335-376 | every row has the logits of the full forward over it alone, each module loaded once however many rows, and none holds weights after |
| `Layered.Reference.Call` | tools/gen_layered_reference.py:378-382 | a row that was run gives its full forward's logits, and any other is refused |
| `UnicodeTable.Ranges` | tools/gen_unicode_table.py:61-70 | the runs are sorted, disjoint and maximal and hold exactly the map |
| `UnicodeTable.Of` | tools/gen_unicode_table.py:97-107 | the search gives every code point's bits, 0 for one in no run |
| `UnicodeTable.RunsApart` | tools/gen_unicode_table.py:61-70 | the starts of two runs are in two runs of any other list of the map |
| `UnicodeTable.Shortest` | tools/gen_unicode_table.py:61-70 | no shorter list of sorted runs holds the map |
| `FileReference.OneRanking` | tools/qwen4exp_file_reference.py:489 | descending logits and then ascending ids order a set of tokens in one way |
| `FileReference.KeptUpward` | tools/qwen4exp_file_reference.py:486-488 | the tokens kept hold every token that ranks before one of them |
| `FileReference.CutoffOfRanking` | tools/qwen4exp_file_reference.py:486-488 | the logit of place `top` is a cutoff: fewer than `top` are above it and at least `top` are not below |
| `FileReference.TopIsPrefix` | tools/qwen4exp_file_reference.py:485-489 | the list by that cutoff, in rank order, is the first `top` of the whole ranking |
| `FileReference.Pack` | tools/qwen4exp_file_reference.py:96-103 | the packed rows of the distinct ids are the ids' own, read one span for each maximal run of neighbouring ids |
| `FileReference.Unique` | tools/qwen4exp_file_reference.py:93 | the distinct ids in order, and each id's place among them |
| `FileReference.Embedding` | tools/qwen4exp_file_reference.py:86-104 | for any ids, in any order and repeated: refused exactly where one is outside the table or the distinct rows pass the limit; otherwise the rows read, scattered through the inverse, are the direct gather, with one read for each maximal run |

## Left out

- `replay`, `verify` and `mixed` of the split check: they drive one model through its own interface, whose histories, marks and forks are not part of this model.
- The pass interface's storage behind `run_pass_stage` and `begin_pass`: one activation a slot and one range of rows a slot, as the calls name them.
- Random delays and the random generator of the split check: they only choose among schedules, all of which are covered.
- The flag-wait variant, timestamps, memory import and device memory ordering in the exchange: the model takes a submission's writes as visible to a submission that waits on its signal.
- Epoch numbers wrap at 2^32 in the exchange; the parity that chooses the half of an inbox is the same after a wrap, and the model counts without one.
- The tokenizer's splitting of bytes into characters, pretokenization, special tokens and NFC forms: words and texts are sequences of byte-level characters, and a normalized form is one more text.
- Bpe.Vocabulary: takes `added` tokens as given ids and contents; the order in which a text is split at them is not modelled.
- PngFile.OpensFile: an image has at least one row and one column; compression is an arbitrary function that inflation undoes on the image's data, and the chunk check an arbitrary function the same on both sides; the reader's conversion of samples to RGB, with its refusal of a palette index past the palette, and its text and EXIF chunks are left out.
- The reader of PNG is modelled as functions on values: its in-place lines and raster are not, since it is the specification here and the writer is what is proved against it.
- Layered.Reference.Run: the path of routed and qwen3 models, which loads modules by hooks around each row's call, is left out, and so is the release of modules after an error.
- FileReference.Embedding: a row is one value and its decoding is not modelled; the library's sort of distinct ids is an insertion.
- StateViews.CheckStateViews: the views and storages are values; a null list of views is not one.
- Tickets.StepKeeps: tickets are unbounded, so the wrap of a 64-bit counter is not modelled; loads may be stale but never older than one the same thread saw.
- Mxfp4: values are real numbers, so double precision's range is not modelled; every scaling is by a power of two.
- AbRunner.WinThreshold: the tail is compared exactly, not through a rounded quotient.
- Head permutations, the remaining tensor conversions, the class map's own construction from the Unicode files, and the provenance records: each would add only easy members.
- Neural arithmetic, file formats other than PNG, HTTP tools, benches, monitors and argument parsing.
