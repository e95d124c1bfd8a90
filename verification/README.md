# Verification of the L1 deposit and Blob ingestion

This project models, in Dafny, the four connected parts of `metis-l1dtl` that turn L1 data into the
records its HTTP readers see, and proves what they promise.

* **Blob packing, frames and channels** (`FieldElements`, `BlobCodec`, `Frames`, `Channels`,
  `ChannelDecoding`). A blob decodes exactly when it is the encoding of a payload; a payload parses exactly
  when it is the serialization of frames; a channel's state depends only on which frames arrived, not on
  their order, their split over transactions or the other channels between them.
* **Spans** (`WireFormat`, `SpanColumns`, `SpanReader`, `SpanRows`, `SpanBlocks`, `ChannelBlocks`). The
  reader with one sticky error refines a pure parser; the columns are the transposition of rows, in both
  directions; the four cursors of the decoder stand at prefix counts and end at the column lengths; decoding
  an encoded list of blocks gives those blocks back.
* **The store** (`RetainedSet`, `BlobStore`, `Keys`, `DepositQueue`, `Store`). The record families always
  stand for one abstract set: every transaction and channel ever committed whose timestamp is at or above the
  cutoff. A commit succeeds exactly when its abstract counterpart does. Deposits form a queue without gaps.
  A block read publishes a block with its batch or nothing, and all sources of its channel are in the window.
* **The two ingestion loops** (`ChainLogs`, `DepositReplay`, `DepositSync`; `SenderReplay`, `SenderAuth`,
  `AuthSync`, `InboxScan`, `WindowScan`, `BlobSync`). Whatever the providers answer and whenever they fail, each
  committed deposit checkpoint is one left fold over the chain's logs; and each committed Blob window carries
  exactly what the authorized submissions of its transactions contribute, each transaction judged by the history
  before it, with sender schedules that are discovered lazily and equal a full replay. With answers, both loops
  reach every confirmed height; every fatal end has its cause in the chain or the store.
* **What the folds mean** (`DepositMeaning`, `SenderMeaning`, `SpanMeaning`). Each specification that a loop is proved
  against is in turn characterized by the logs, rows and records alone: exactly which deposits are stored, who is the
  rightful sender, and what every field of a published transaction holds.
* **What the chain determines** (`Retention`, `InboxChain`). The contribution of a transaction is said of the chain
  alone. All channels ever stored are what the transactions of all blocks through the checkpoint contributed, no
  more and no less. Raising the cutoff commutes with decoding, so what is retained is what those transactions offer
  under the present cutoff, whenever and in whatever windows they were scanned.
* **The whole process** (`RunSafety`, `Node`, `Ingestion`). All actors are atomic steps over one state; the real
  status and store methods perform those steps, and both loops commit through them while other actors act in
  between. In every interleaving nothing is written after the first fatal error, readiness never returns, and cutoff
  and revision only grow; both loops only ask for commits that progress, so the heights only grow too. With both
  loops on one process, and restarts, every state between any two steps holds the fold of the deposits and exactly
  the Inbox's channels; what readers get is a submitted block joined with the fold's deposits; and two services at
  the same checkpoints and cutoff agree, if no blob was dropped.

Objects that the program updates in place are classes here (`ChannelInput`, `Reader`, `Database`, the two
`Syncer`s, `Authorization`, `Lookups`, `ScanResult`, `Status`, `Process`, `Service`), and a batch of writes is a copy of the record
maps that is installed or dropped. Each method is proved against a specification function or predicate, and
the properties are proved about those. The outside world is a parameter: a fixed chain of logs and blocks, providers
that answer a query with the matching logs in any order and with any repetition or not at all, beacon answers that
may fail or say that a blob is no longer kept, and functions for decompression, RLP and signatures.

`dafny verify dfyconfig.toml` checks everything.

## What does not hold as it stands

* A channel that lists one block index twice, with the same block both times, is accepted, and once it has to
  expire no commit of anything can raise the cutoff past it (`RetainedSet.RepeatedNeverPrunes`;
  `RetainedSet.RepeatedIndexBlocksPruning` is an example). `RetainedSet.PruneFailsIff` gives the exact condition
  for the store. On the wire, a channel never repeats an index exactly when its spans do not overlap
  (`ChannelBlocks.DistinctIffDisjoint`); `ChannelBlocks.OverlapBlocksPruning` follows overlapping spans into the
  store, and `ChannelBlocks.TwiceAnEmptyBlock` shows how little it takes: one empty block said twice.
* A stored deposit placeholder whose queue index is 2^64-1 makes a block read report corruption.
  `DepositQueue.HydrateExact` gives the exact condition for the read, `ChannelBlocks.WireCorruptIff` the one on
  the wire for every codec, `ChannelBlocks.LargestNonceCorrupts` the answer of the read, and
  `ChannelBlocks.CorruptExample` bytes that decode to such a block under a small codec of its own.

## Model

| member | source | states |
|---|---|---|
| FieldElements.JoinHeads | internal/blob/testdata/generate.cjs:26-30 | the decoder's three joined bytes are the bytes the encoder spread over four heads, and every head is a field element |
| FieldElements.HeadJoins | internal/blob/frames.go:48-50 | any four legal heads are the heads of the three bytes joined from them |
| FieldElements.TopBits | internal/blob/frames.go:40-42 | the mask test on a head is the bound 64 on its value |
| FieldElements.JoinSixBits | internal/blob/frames.go:48-50 | the six-bit masks and shifts compute the arithmetic join of the first and third byte |
| FieldElements.JoinFourBits | internal/blob/frames.go:49-49 | the four-bit masks and shifts compute the arithmetic join of the second byte |
| BlobCodec.UnpackPack | internal/blob/testdata/generate.cjs:26-30 | for any number of rounds, unpacking a packed stream gives it back and all its heads are legal |
| BlobCodec.PackUnpack | internal/blob/frames.go:33-54 | for any number of rounds, packing the unpacked stream of legal raw bytes gives them back |
| BlobCodec.FramedLayout | internal/blob/testdata/generate.cjs:24-30 | where version, length, payload and padding stand in the packed stream |
| BlobCodec.AcceptsEncoding | internal/blob/frames.go:16-66 | every payload up to the capacity has an accepted encoding that carries this payload |
| BlobCodec.AcceptedIsEncoding | internal/blob/frames.go:16-66 | every accepted blob is the encoding of its payload, so a payload has one blob |
| BlobCodec.ZeroTail | internal/blob/frames.go:60-64 | raw bytes after the last round read are all zero exactly when they are legal rounds of a zero stream |
| BlobCodec.PaddingDecides | internal/blob/frames.go:51-65 | after the early exit the two padding checks decide acceptance of the whole blob, and the output prefix is the payload |
| BlobCodec.DecodeElements | internal/blob/frames.go:38-46 | the element loop stops exactly at an illegal head, and otherwise keeps all heads and plain bytes at the right offsets, in bounds, touching nothing else |
| BlobCodec.DecodeRound | internal/blob/frames.go:34-50 | a round is refused exactly for an illegal head and otherwise extends the output by the 127 bytes of the unpacked round |
| BlobCodec.DecodeRounds | internal/blob/frames.go:18-66 | for any number of rounds the cursor decoder accepts exactly the accepted blobs and returns their payload |
| BlobCodec.DecodeBlob | internal/blob/frames.go:18-66 | with 1024 rounds: what is returned encodes to the input, and a refused input encodes no payload of at most 130044 bytes |
| BlobCodec.EncodeInjective | internal/blob/testdata/generate.cjs:24-30 | different payloads never share an encoding |
| Frames.HeadLayout | internal/blob/frames.go:74-90 | exactly which bytes are a frame, and where its fields stand |
| Frames.HeadOfSerialized | internal/blob/frames.go:74-90 | the frame at the head of serialized bytes is the serialized frame, and what follows it is left |
| Frames.SerializedHead | internal/blob/frames.go:74-90 | any frame accepted at the head of the input is serialized there byte for byte |
| Frames.ParseSerialized | internal/blob/frames.go:73-91 | parsing the serialization of valid frames gives these frames |
| Frames.SerializedParse | internal/blob/frames.go:73-91 | serializing what was parsed gives the input |
| Frames.ParseFrames | internal/blob/frames.go:67-96 | accepts exactly the serializations of non-empty lists of valid frames and returns that list |
| Frames.SerializeInjective | internal/blob/frames.go:67-96 | different frame lists never share a serialization |
| Channels.AddFrame | internal/blob/frames.go:184-210 | an accepted frame keeps the numbers consistent and below a closing frame |
| Channels.ChannelInput.constructor | internal/blob/frames.go:117-121 | a new channel is empty with size zero |
| Channels.ChannelInput.Truncate | internal/blob/frames.go:197-202 | in whatever order the map is visited, exactly the frames beyond the closing number go and the size follows |
| Channels.ChannelInput.Add | internal/blob/frames.go:184-210 | one arrival is accepted exactly when the specification accepts it, and the size stays the sum of the stored lengths |
| Channels.RunRepresents | internal/blob/frames.go:184-210 | after any accepted arrivals the state is exactly all frames up to the closing one, or all frames |
| Channels.RepresentsUnique | internal/blob/frames.go:184-210 | that state depends only on the set of arrivals |
| Channels.AcceptedIff | internal/blob/frames.go:184-210 | exactly which arrival sequences are accepted: numbers never repeat, nothing at or beyond a closing frame follows it, and every prefix fits the limit |
| Channels.Confluence | internal/blob/frames.go:184-210 | two accepted orders of the same frames end in the same frames, end and size |
| Channels.CompleteAccepted | internal/blob/frames.go:184-210 | a complete channel within the limit is accepted in whatever order and keeps every frame |
| Channels.CompleteOrderIndependent | internal/blob/frames.go:184-210 | every permutation of a complete channel is accepted with the same state |
| Channels.FullChannelHasNoGap | internal/blob/frames.go:145-157 | having as many frames as the closing number demands means having each of them, so the gap error is unreachable |
| ChannelDecoding.CollectTransaction | internal/blob/frames.go:112-126 | one transaction's frames take every channel object to what its own arrivals determine |
| ChannelDecoding.CollectChannels | internal/blob/frames.go:110-126 | all transactions are collected exactly when no channel refuses any of its own frames |
| ChannelDecoding.AssembleFrames | internal/blob/frames.go:149-166 | the loop over the numbers yields the data in number order, the distinct sources in order and the oldest timestamp |
| ChannelDecoding.CommittedIndexes | internal/blob/frames.go:174-180 | the indexes of the blocks, exactly when all of them are inside the commitment |
| ChannelDecoding.AssembleMeans | internal/blob/frames.go:149-166 | the sources are the frames' transactions, each once, and the expiry is the least of their times |
| ChannelDecoding.AssembleGrows | internal/blob/frames.go:149-166 | bytes and sources come in the order of the frame numbers |
| ChannelDecoding.ReadyMeans | internal/blob/frames.go:145-182 | a channel is pending exactly while it is open or has a gap; it is decoded with its bytes' blocks if there are some and all are in the batch's range, under the record that says so, and rejected otherwise |
| ChannelDecoding.ChannelIdInjective | internal/blob/frames.go:167-182 | different submissions and frame ids never share a record id |
| ChannelDecoding.DecodeReady | internal/blob/frames.go:145-182 | a channel is pending, rejected or decoded as specified, and never has a gap |
| ChannelDecoding.SortIds | internal/blob/frames.go:127-131 | whatever order the map is visited in, the ids come out in byte order |
| ChannelDecoding.DecodeInOrder | internal/blob/frames.go:132-142 | channels are decoded in id order, and the first rejected one refuses all |
| ChannelDecoding.DecodeChannels | internal/blob/frames.go:110-143 | the result is the outcome that the submission's arrivals determine |
| ChannelDecoding.OutcomeOrderIndependent | internal/blob/frames.go:110-143 | two accepted arrival orders, however split and interleaved, give the same channels |
| ChannelDecoding.CompleteChannelsDecode | internal/blob/frames.go:110-143 | complete channels are accepted in every arrival order with one and the same outcome |
| ChannelDecoding.WholeChannelReady | internal/blob/frames.go:145-166 | after any order of arrival a whole channel is ready and its data are the frames' data in number order |
| WireFormat.VarintRoundTrip | internal/blob/span.go:47-56 | a written varint is read back, whatever follows it |
| WireFormat.VarintMeans | internal/blob/span.go:47-56 | a varint is the number its bytes spell seven bits at a time, low ones first, up to the first byte below 128 and ten bytes at most |
| WireFormat.Uint64RoundTrip | internal/blob/testdata/generate.cjs:18-18 | every 64-bit value fits ten varint bytes and is read back |
| WireFormat.BitsRoundTrip | internal/blob/span.go:57-63 | a written bit set of any length is read back and has no unused bit set |
| WireFormat.ManyRoundTrip | internal/blob/span.go:64-70 | repeated fields are read back when each of them is |
| SpanColumns.ParsedSpanFits | internal/blob/span.go:189-228 | whatever bytes are accepted, all column lengths fit: sparse columns have one entry for each clear creation bit, set queue bit and legacy payload |
| SpanColumns.TransactionsRoundTrip | internal/blob/span.go:111-145 | the twelve transaction columns are read back in wire order |
| SpanColumns.TransactionsSpace | internal/blob/span.go:218-220 | the signature size guard never refuses an encoded span |
| SpanColumns.BodySpace | internal/blob/span.go:197-199 | the block count size guard never refuses an encoded span |
| SpanColumns.SpanLayout | internal/blob/span.go:111-216 | the bytes of a span are its twenty columns one after the other, in the order the decoder reads them |
| SpanColumns.SpanRoundTrip | internal/blob/span.go:189-228 | parsing written columns gives them back with nothing left over |
| SpanReader.Reader.Data | internal/blob/span.go:35-46 | reads exactly the bytes asked for or sets the sticky error |
| SpanReader.Reader.U64 | internal/blob/span.go:47-56 | reads one varint or sets the sticky error |
| SpanReader.Reader.Bits | internal/blob/span.go:57-63 | reads a bit set, refusing unused high bits |
| SpanReader.Reader.Numbers | internal/blob/span.go:64-70 | reads the given number of varints; once one fails, all later ones do |
| SpanReader.Reader.Accounts | internal/blob/span.go:117-121 | reads one address for every flag with the wanted value |
| SpanReader.Reader.RawTx | internal/blob/span.go:71-100 | reads a payload with type 1 or 2 or a legacy one, up to the end of its RLP item |
| SpanReader.Reader.Payloads | internal/blob/span.go:122-129 | reads all payloads and counts the legacy ones |
| SpanReader.Reader.ReadTransactions | internal/blob/span.go:111-145 | the chain of sticky reads yields what the pure column parser yields, or the error |
| SpanReader.CheckedTotal | internal/blob/span.go:204-210 | the guarded running total is the sum of the counts, or a refusal exactly when it passes the limit |
| SpanReader.ReadSpan | internal/blob/span.go:189-228 | the imperative reader accepts exactly what the pure parser accepts, with the same columns |
| SpanRows.PickedColumn | internal/blob/span.go:238-242 | the entry of a marked row stands at its rank in the sparse column |
| SpanRows.RowsRoundTrip | internal/blob/span.go:236-282 | rows turned into columns and back are the same rows |
| SpanRows.ColumnsRoundTrip | internal/blob/span.go:236-282 | columns turned into rows and back are the same columns |
| SpanRows.TransposeRoundTrip | internal/blob/span.go:231-291 | for whole blocks: the columns fit and give the same blocks of rows back |
| SpanRows.UntransposeRoundTrip | internal/blob/span.go:231-291 | every fitting set of columns is that of exactly one list of blocks of rows |
| SpanBlocks.NextRow | internal/blob/span.go:236-248 | the cursors stay at the prefix counts, every column is read in range, and the row is the one at that position |
| SpanBlocks.DeriveBlock | internal/blob/span.go:234-288 | a block takes exactly its rows and leaves the cursors where the next block starts |
| SpanBlocks.DeriveBlocks | internal/blob/span.go:231-291 | the derived blocks are those of the rows, and at the end all four cursors stand at the column lengths |
| SpanBlocks.BlocksExact | internal/blob/span.go:235-288 | blocks are numbered from start minus one, stamped with the batch, keep their extra data, lose the timestamp only when empty, and have one entry a row |
| SpanBlocks.DecodeSpan | internal/blob/span.go:189-229 | the decoder returns what the bytes stand for, or refuses; what each field then holds is `SpanMeaning.DecodedShows` |
| SpanBlocks.DecodedEncoding | internal/blob/span.go:189-291 | decoding the encoding of a list of blocks gives the blocks of that list |
| SpanBlocks.DecodedIsEncoding | internal/blob/span.go:189-291 | whatever bytes decode, they decode as the encoding of some list of blocks |
| SpanMeaning.DecodedShows | internal/blob/span.go:231-335 | an encoded span decodes exactly when every row restores, recovers and encodes; every block and every transaction then shows its row field by field, deposits and sequencer transactions each in their form |
| SpanMeaning.AnyDecodedShows | internal/blob/span.go:189-335 | whatever bytes decode, the blocks show all rows of some span |
| ChannelBlocks.DecodeChannel | internal/blob/span.go:147-188 | a channel decodes to the blocks of its batches in order, and any bad batch refuses it |
| ChannelBlocks.DecoderStamps | internal/blob/span.go:147-188 | every block of a decoded channel carries the batch index it was decoded for |
| ChannelBlocks.ChannelRoundTrip | internal/blob/span.go:147-188 | a packed list of spans decodes to the blocks of those spans |
| ChannelBlocks.DepositsWellFormedIff | internal/blob/span.go:254-261 | the deposits of a decoded block have readable queue indexes exactly when no deposit's nonce is 2^64-1 |
| ChannelBlocks.DecodedCorruptIff | internal/store/blob.go:381-397 | joining a decoded block reports corruption exactly when a deposit with nonce 2^64-1 comes before any deposit not stored yet |
| ChannelBlocks.LargestNonceCorrupts | internal/store/blob.go:386-388 | every read of a block that begins with such a deposit answers corruption, whatever deposits are stored |
| ChannelBlocks.WireCorruptIff | internal/blob/span.go:189-291 | for every codec: joining a block of an encoded and decoded span reports corruption exactly when its rows hold a deposit with nonce 2^64-1 before any deposit not stored yet |
| ChannelBlocks.CorruptBlockOnWire | internal/blob/span.go:254-261 | for every codec: bytes of a span with a block whose first row is such a deposit decode to a block that no deposit queue makes readable |
| ChannelBlocks.CorruptExample | internal/blob/span.go:254-261 | one such span written out, under a codec with one-byte items |
| ChannelBlocks.DistinctIffDisjoint | internal/blob/span.go:171-186 | the block indexes of a decoded channel are pairwise distinct exactly when its spans do not overlap |
| ChannelBlocks.OverlapBlocksPruning | internal/store/blob.go:276-296 | once a channel of overlapping spans is accepted, no commit of anything can raise the cutoff past its expiry |
| ChannelBlocks.TwiceAnEmptyBlock | internal/store/blob.go:221-231 | a channel that says one empty block twice decodes, overlaps and is accepted |
| RetainedSet.PutTxsKeeps | internal/store/blob.go:145-158 | putting transactions changes no stored one and adds exactly the new live ones |
| RetainedSet.PutTxsFailsIff | internal/store/blob.go:145-158 | putting transactions fails exactly on one that is malformed or differs from a stored or earlier one with its hash |
| RetainedSet.PutChannelsKeeps | internal/store/blob.go:194-233 | putting channels changes no stored channel or transaction, adds exactly the new live ones, and keeps the invariant |
| RetainedSet.RetainKeeps | internal/store/blob.go:235-308 | raising the cutoff never takes a source from a surviving channel |
| RetainedSet.CommitExact | internal/store/blob.go:127-177 | after a commit exactly the old and new transactions and channels at or above the cutoff are retained |
| RetainedSet.SourcesInWindow | internal/store/blob.go:370-378 | every source of a retained channel is stored, available and at or above the cutoff |
| RetainedSet.DistinctPrunable | internal/store/blob.go:267-308 | if channels never repeat an index, pruning never fails |
| RetainedSet.PruneFailsIff | internal/store/blob.go:276-296 | raising the cutoff fails exactly when an expiring channel repeats an index |
| RetainedSet.RepeatedNeverPrunes | internal/store/blob.go:276-296 | while an expiring channel repeats an index, no commit of any transactions and channels can raise the cutoff past it |
| RetainedSet.RepeatedIndexBlocksPruning | internal/store/blob.go:221-231 | an example: one literal channel that repeats an index is accepted, and then no commit can raise the cutoff past its expiry |
| BlobStore.PutTransaction | internal/store/blob.go:145-158 | one transaction and its expiry key are staged exactly when the abstract put succeeds |
| BlobStore.SourcesOldest | internal/store/blob.go:199-211 | all sources are available or not, and the minimum is their oldest timestamp |
| BlobStore.PutBlocks | internal/store/blob.go:221-231 | pointers and blocks are staged exactly when the channel is well indexed and conflicts with no other channel |
| BlobStore.PutOneChannel | internal/store/blob.go:194-233 | a channel is staged exactly when the abstract put succeeds, and the families stand for its result |
| BlobStore.RemoveBlocks | internal/store/blob.go:276-296 | deletion succeeds exactly when no index repeats, and removes exactly the listed pointers and blocks |
| BlobStore.ExpireChannel | internal/store/blob.go:267-308 | an expired channel leaves with its record, expiry key, pointers and blocks and nothing else |
| BlobStore.PruneChannels | internal/store/blob.go:243-266 | in whatever order the keys are visited, exactly the channels below the cutoff go |
| BlobStore.PruneTransactions | internal/store/blob.go:243-308 | never fails, and exactly the transactions below the cutoff go |
| BlobStore.LatestIndex | internal/store/blob.go:309-330 | the latest index is the greatest pointer, or none when there is none |
| BlobStore.StageCommit | internal/store/blob.go:143-176 | a whole batch succeeds exactly when the abstract commit does, and the families stand for its result |
| Keys.BigEndianOrder | internal/store/blob.go:18-24 | byte order of big-endian keys is numeric order, with ties broken by what follows |
| Keys.PrefixFree | internal/store/blob.go:15-24 | no key family's prefix starts a key of another family, deposit keys included |
| Keys.BytesInjective | internal/store/blob.go:15-24 | different records never share a key |
| Keys.PruneRange | internal/store/blob.go:243-246 | the pruning range holds exactly the expiry keys of its kind below the cutoff |
| Keys.LatestRange | internal/store/blob.go:309-311 | the range scanned for the latest index holds exactly the pointer keys |
| Keys.PointerOrder | internal/store/blob.go:316-322 | the last key of that range is the greatest index |
| DepositQueue.AppendAllKeeps | internal/store/commit.go:30-61 | a commit keeps the indexes exactly 0 to the newest, changes no stored record, and stores every given one |
| DepositQueue.ReplayIsNoop | internal/store/commit.go:36-45 | replaying committed records changes nothing and does not move the newest index |
| DepositQueue.StoredIndexIncreasing | internal/store/blob.go:389-393 | the queue map of block reads is strictly increasing |
| DepositQueue.StoredIndexOnto | internal/store/blob.go:389-393 | it reaches every index but 20397 |
| DepositQueue.HydrateExact | internal/store/blob.go:381-404 | all deposits of a block are joined or none, and corruption is reported exactly when a malformed deposit comes before any missing one |
| DepositQueue.HydrateMeans | internal/store/blob.go:381-404 | transactions are joined exactly when each deposit's record is stored, and a deposit is then published with its record's fields under its queue index, one further from 20397 on, with its own time unless that is zero |
| DepositQueue.AppendIff | internal/store/commit.go:36-59 | a record is taken exactly when it is stored already or the stored indexes are those below it |
| Store.Database.constructor | internal/store/blob.go:89-97 | a new database holds nothing and satisfies the invariant |
| Store.Database.Reopen | internal/store/store.go:18-32 | a database opened again holds everything committed before |
| Store.Database.Commit | internal/store/commit.go:11-71 | the deposit commit installs the appended queue exactly when the checkpoint matches and nothing conflicts or leaves a gap, and otherwise changes nothing |
| Store.Database.CommitBlob | internal/store/blob.go:127-177 | the Blob commit installs the abstract result exactly when the snapshot, revision and cutoff allow it and the batch is clean, and otherwise changes nothing; the retained set stays what was ever committed inside the window |
| Store.Database.ReadEnqueue | internal/store/read.go:74-100 | the missing-committed error is unreachable; the answer is the stored deposit or none |
| Store.Database.JoinDeposits | internal/store/blob.go:381-404 | the in-place rewrite gives every transaction as it is to be published, exactly when all can be joined |
| Store.Database.GetBlock | internal/store/blob.go:332-407 | block and batch together or neither; corruption only for a malformed deposit; a returned block is a block of a retained channel, its own fields kept and each transaction as the channel and the deposit queue say, under the channel's batch |
| Store.OwnedReadable | internal/store/blob.go:355-378 | everything a read checks about a stored pointer holds in every valid database |
| ChainLogs.PrecedesIff | internal/blobingest/auth.go:92-100 | log order is block, then transaction index, then log index |
| ChainLogs.SortedAnswer | internal/blobingest/auth.go:215-232 | whatever order and repetition an answer has, sorting and dropping repeats restores the chain's own order |
| DepositReplay.ReplayExtends | internal/ingest/syncer_step.go:149-197 | folding window by window is folding once |
| DepositReplay.FoldRecords | internal/ingest/syncer_step.go:149-197 | a window can be folded from an empty record list and appended |
| DepositReplay.AddressedFold | internal/ingest/syncer_step.go:115-146 | leaving out logs of addresses never in force does not change the fold |
| DepositReplay.PageContinues | internal/ingest/bootstrap.go:141-148 | seeding a page from its own first change is seeding it with what older pages led to |
| DepositReplay.BackwardEqualsForward | internal/ingest/bootstrap.go:39-149 | the first non-empty page from the end decides the same contract address as the fold from block 0 |
| DepositMeaning.ReplayMeans | internal/ingest/syncer_step.go:149-197 | the fold over the logs through a block fails exactly on a naming that does not decode or continue or a deposit of the contract in force that does not decode; otherwise its contract is the one named last, and its records are, in chain order, this chain's deposits by the contracts in force |
| DepositMeaning.WindowMeans | internal/ingest/syncer_step.go:149-197 | a window folded from a contract says the same of its own logs |
| DepositMeaning.QueueIff | internal/store/commit.go:30-61 | records make a queue exactly when each repeats an earlier one or has the next index |
| DepositMeaning.QueueStored | internal/store/commit.go:30-61 | a deposit is stored exactly when such a log exists, as that log says |
| DepositSync.Syncer.LoadLogs | internal/ingest/syncer_step.go:110-147 | the two queries yield exactly the relevant logs of the addresses asked for, which cover every address in force in the window |
| DepositSync.Syncer.DecodeLogs | internal/ingest/syncer_step.go:149-197 | the decoder fails exactly on a faulty log of the window, and otherwise returns the contract named last and this chain's deposits by the contracts in force, in chain order and each log once |
| DepositSync.Syncer.WindowFold | internal/ingest/syncer_step.go:110-197 | what the queries left out does not matter: the window folds as all its relevant logs do |
| DepositSync.Syncer.DecodePage | internal/ingest/bootstrap.go:122-149 | a page decodes to what its changes lead to from its own first old address |
| DepositSync.Syncer.Discover | internal/ingest/bootstrap.go:39-84 | a found address is the forward fold's; the search never fails on a consistent chain and, when answered, ends or gets closer to its end |
| DepositSync.Syncer.InitializeCtc | internal/ingest/bootstrap.go:39-84 | the address a window starts from is that of the fold up to it |
| DepositSync.Syncer.FoldWindow | internal/ingest/syncer_step.go:101-197 | the decoded window leads from the checkpoint's fold to the fold up to its end; fatal only when the chain cannot be synchronized |
| DepositSync.Syncer.CommitWindow | internal/ingest/syncer_step.go:199-234 | whatever other actors do in between, the window is committed through the shared barrier on the step's snapshot or nothing of the checkpoint changes, and the commit progresses on its snapshot |
| DepositSync.Syncer.ScanWindow | internal/ingest/syncer_step.go:71-98 | a window is committed with its end's hash and, when it reaches the confirmed height, with a contract; otherwise the checkpoint stays |
| DepositSync.Syncer.Step | internal/ingest/syncer_step.go:24-98 | after every step exactly the deposits that the logs through the checkpoint call for are stored; the window is the next one of at most the batch size; readiness says whether the confirmed height is reached; and an answered step gets closer to every confirmed height |
| DepositSync.SyncedExact | internal/ingest/syncer_step.go:149-234 | a checkpoint that is the fold stores exactly those deposits, with the contract named last, over logs without a fault |
| DepositSync.Syncer.HealthyMeans | internal/ingest/syncer_step.go:149-234 | a chain synchronizes through a height exactly when no log up to it is faulty, the deposits come in sequence and a contract is named |
| DepositSync.Syncer.Turn | internal/ingest/ingest.go:38-57 | an error is published exactly as the loop does, and a helpful turn gets closer to the goal |
| DepositSync.Syncer.Run | internal/ingest/ingest.go:28-69 | over any sequence of providers the checkpoint stays the fold and moves only forward, and enough answered steps reach any confirmed height |
| DepositSync.RunSynced | internal/store/commit.go:11-71 | in any run whose deposit commits carry the next stretch of the fold, whoever asks for them, every checkpoint is the one-shot fold |
| SenderReplay.InForceUnique | internal/blobingest/auth.go:47-64 | a schedule has one sender in force at a height |
| SenderReplay.SenderOf | internal/blobingest/auth.go:47-64 | every history authorizes exactly one sender at a height |
| SenderReplay.ApplyAllNamed | internal/blobingest/auth.go:141-145 | no schedule ever names the zero sender |
| SenderReplay.CoverStep | internal/blobingest/auth.go:122-156 | applying an asked event, or leaving out one that was not asked for, keeps the state in agreement with the history |
| SenderReplay.ApplyFailsOnlyOnBadEvents | internal/blobingest/auth.go:122-156 | exactly when an asked event is fatal; the unknown-manager error never happens |
| SenderReplay.CoverAll | internal/blobingest/auth.go:160-195 | applying only the asked events of a stretch agrees with all of its history |
| SenderReplay.SoundApplies | internal/blobingest/auth.go:122-156 | on a chain whose manager events are sound no asked event is fatal |
| SenderMeaning.ManagerMeans | internal/blobingest/auth.go:123-133 | the current manager is the one the registry named last, or none |
| SenderMeaning.ScheduleMeans | internal/blobingest/auth.go:134-156 | a manager's batch schedule holds exactly the senders of its last batch setting for each block, its blob schedule those of its blob settings |
| SenderMeaning.SenderMeans | internal/blobingest/auth.go:47-64 | the sender in force is the one of the last setting, of that kind, for the greatest effective block not above the height; without one it is the configured sender |
| SenderMeaning.RightfulUnique | internal/blobingest/auth.go:47-64 | logs make one sender rightful |
| SenderAuth.Authorization.Sender | internal/blobingest/auth.go:47-64 | whatever order the map is visited in, the sender is the entry with the greatest effective block not above the height, or the fallback |
| SenderAuth.Authorization.Apply | internal/blobingest/auth.go:122-156 | a batch setting writes the manager's batch table and a blob setting its blob table at the effective block; a manager change that continues from the current manager replaces it; anything else is refused and changes nothing |
| SenderAuth.CoveredAt | internal/blobingest/scan.go:27-33 | having applied exactly the asked events before a position, the state agrees with the whole history before it |
| SenderAuth.ScanApplies | internal/blobingest/scan.go:27-43 | on a sound chain none of a scan's events is fatal |
| SenderAuth.ApplyUpTo | internal/blobingest/scan.go:28-33 | applies exactly the logs that precede the transaction |
| SenderAuth.ApplyBlockEnd | internal/blobingest/scan.go:38-43 | applies the rest of the block's logs and no later one |
| SenderAuth.Judge | internal/blobingest/auth.go:47-64 | the sender found for a transaction is the rightful one of the logs before it: what the manager named last has set last for the greatest effective block reached, or the configured one |
| SenderAuth.VerdictMeans | internal/blobingest/scan.go:181-216 | the batch sender and the blob sender a transaction is judged by are the rightful ones of the logs before it |
| AuthSync.OrderedLogs | internal/blobingest/auth.go:215-232 | the ordered logs are the sorted ones without repeats; a chain has no conflicting repeat |
| AuthSync.PageExtends | internal/blobingest/auth.go:275-291 | a manager's past up to a page and the page itself give its schedule up to the end of the page |
| AuthSync.Lookups.NextPage | internal/blobingest/auth.go:266-291 | a page extends the kept schedule to its end; lost only without an answer, fatal only on an unsound chain |
| AuthSync.Lookups.BackfillManager | internal/blobingest/auth.go:244-303 | a finished backfill is the manager's schedule over its whole past; an unfinished one has come at least one page further |
| AuthSync.Lookups.AuthLogs | internal/blobingest/auth.go:160-195 | the window's logs make the scan ready: every manager of the window is known with its full past; a pending answer has strictly less left to backfill |
| AuthSync.Lookups.ReplayPage | internal/blobingest/syncer.go:237-260 | a page before the Inbox start leads to agreement with the history through the page |
| AuthSync.Lookups.Initialize | internal/blobingest/syncer.go:210-266 | the state a scan starts from agrees with the whole history before its window |
| InboxScan.AssembleSources | internal/blob/frames.go:149-166 | the sources of a full channel are available and its oldest timestamp is their minimum |
| InboxScan.DecodedAcceptable | internal/blob/frames.go:145-182 | a decoded channel passes every source, length and index check of the store |
| InboxScan.SourcesNamed | internal/blobingest/scan.go:208-218 | every source of a submission is a reference it names, authorized for it and inside the window |
| InboxScan.ResolveMeans | internal/blobingest/scan.go:103-178 | a reference is denied exactly when it may not be named, its stored time disagrees or its blobs are corrupt, awaited exactly when it or its blobs are not known yet, and otherwise stands for its stored record or for what L1 and the beacon say |
| InboxScan.SourcesMean | internal/blobingest/scan.go:206-216 | the references of a submission are denied or awaited exactly as the first bad one demands |
| InboxScan.ScanResult.ResolveSource | internal/blobingest/scan.go:226-253 | with the cache the answer is the one without it: only successful transactions to the Inbox by the authorized blob sender, not after the submission, are let through; each is fetched once |
| InboxScan.ScanResult.Submit | internal/blobingest/scan.go:208-225 | a submission adds exactly the channels its sources decode to; it waits exactly when its first bad reference is awaited, is fatal when that is denied, and every reference of one that counts may be named |
| InboxScan.TransactionsPut | internal/blobingest/scan.go:226-253 | the transactions a scan collects never conflict with the store or with each other |
| InboxScan.CommitFailsOnlyOnConflict | internal/store/blob.go:194-233 | with a current snapshot a scan's transactions are all put, and its channels fail to be put exactly on a conflict with a retained channel, an earlier one or with themselves |
| InboxScan.CommitIffNoConflict | internal/store/blob.go:143-176 | so the whole commit, pruning included, fails exactly on such a conflict |
| InboxScan.CommitKeepsFrames | internal/store/blob.go:127-177 | commits keep every stored frame valid, so stored transactions can be decoded again |
| WindowScan.HandledMeans | internal/blobingest/scan.go:181-225 | others' transactions never matter; the authorized sender's are fatal, waited for or counted as chain, receipt, outcome, commitment and references demand, in this order |
| WindowScan.Submission | internal/blobingest/scan.go:181-225 | a transaction is ignored, waited for, fatal or contributes exactly as the senders that the history before it authorizes demand |
| WindowScan.ScanBlock | internal/blobingest/scan.go:27-43 | each transaction of a block is handled after exactly the logs before it, and the block's channels come in order |
| WindowScan.Scan | internal/blobingest/scan.go:16-52 | the window's channels are its contributions in chain order, every log is applied once, the first failure decides, and the unapplied-logs error is unreachable |
| BlobSync.Syncer.constructor | internal/blobingest/syncer.go:31-39 | a loop over whatever any earlier loop, or none, has left in the store satisfies the invariant |
| BlobSync.Syncer.Commit | internal/blobingest/syncer.go:120-130 | whatever other actors do in between, the guarded commit on the step's snapshot installs exactly its batch or leaves all Blob records, and why it was refused |
| BlobSync.Syncer.RaiseCutoff | internal/blobingest/syncer.go:299-317 | retention raises the cutoff and drops exactly what is below it, leaving checkpoint and all other records; it is refused only when an expiring channel repeats an index, at the revision bound or on a closed store |
| BlobSync.Syncer.Prepare | internal/blobingest/syncer.go:268-319 | the cutoff becomes the later of the old one and a week before the confirmed block's time, and a record stays exactly when it is not older than either; a failure leaves everything |
| BlobSync.Syncer.DecodeAuth | internal/blobingest/auth.go:65-91 | a stored state is read back exactly when it passes every check |
| BlobSync.Syncer.CommittedAuth | internal/blobingest/syncer.go:210-217 | the state of a committed checkpoint always reads back and agrees with the history through its height |
| BlobSync.Syncer.InitialState | internal/blobingest/syncer.go:210-266 | the state a scan starts from agrees with the whole history before its window |
| BlobSync.Syncer.WalkWindow | internal/blobingest/syncer.go:163-173 | scanning gathers exactly the window's contributions, which are those of the chain, and a state that agrees with the history behind it |
| BlobSync.Syncer.CommitScan | internal/blobingest/syncer.go:185-195 | the commit of a scan is refused exactly on a conflict, at the revision bound or on a closed store, and otherwise installs exactly its transactions and channels |
| BlobSync.Syncer.ScanWindow | internal/blobingest/syncer.go:163-202 | a committed window carries exactly its contributions in chain order; otherwise scan checkpoint and records are untouched, for a stated cause |
| BlobSync.Syncer.Step | internal/blobingest/syncer.go:131-202 | a step drops only what is below the raised cutoff and then commits nothing or exactly what the next window contributes under it; the store stays exactly what the chain demands; each failure has its cause, and otherwise the loop has caught up or is strictly closer |
| BlobSync.Syncer.MovedClimbs | internal/blobingest/syncer.go:131-202 | whatever a step does, height and cutoff never drop and no channel ever stored is forgotten |
| BlobSync.Syncer.MovedMeans | internal/blobingest/syncer.go:131-202 | a step that moved has aged the store by the confirmed time, and a new height ends the next window of at most a batch of blocks |
| BlobSync.Syncer.NeverWaits | internal/blobingest/scan.go:103-126 | when receipts, references and beacon all answer, no window waits |
| BlobSync.Syncer.Round | internal/blobingest/syncer.go:90-116 | a round is a step whose failure takes back readiness and whose fatal error is published for everybody |
| BlobSync.Syncer.Drive | internal/blobingest/syncer.go:80-118 | over any sequence of honest providers, answering or not, the store stays exactly what the chain demands and nothing is ever taken back |
| BlobSync.Syncer.Run | internal/blobingest/syncer.go:80-118 | under answering providers the loop arrives at every confirmed height, or publishes a fatal error explained by the chain or the store |
| BlobSync.Syncer.ReadBlock | internal/store/blob.go:332-407 | every block a reader gets is one that an authorized submission within the checkpoint contributed, its transactions being those of the channel joined with the stored deposits |
| Retention.YoungStays | internal/blob/frames.go:184-210 | a whole channel with no frame below a cutoff is the same channel without any arrival below it |
| Retention.YoungWhole | internal/blob/frames.go:184-210 | a channel that is whole without the arrivals below a cutoff was the same whole channel with them |
| Retention.CutoffCommutes | internal/blob/frames.go:110-143 | what a submission offers without its sources below a cutoff is exactly what it decoded to with them and does not expire below it |
| InboxChain.SourcesLive | internal/blobingest/scan.go:199-216 | the sources of a submission are its references inside the window in order, each authorized, with the frames L1 has or none if its blobs were dropped |
| InboxChain.HandledBrings | internal/blobingest/scan.go:181-225 | a handled transaction adds exactly what the chain says it contributes, and nothing unless it is a successful Inbox transaction of the authorized batch sender |
| InboxChain.AcceptedMeans | internal/blobingest/scan.go:127-139 | an accepted submission was sent by the rightful batch sender of the logs before it, and all its references went to the Inbox, successfully and not later, from the rightful blob sender |
| InboxChain.WindowGathers | internal/blobingest/scan.go:16-52 | a scanned window has gathered exactly the contributions of its blocks' transactions |
| InboxChain.GatheredConcat | internal/blobingest/syncer.go:155-162 | stretches of blocks add up whatever their windows and cutoffs were |
| InboxChain.StepHolds | internal/blobingest/syncer.go:120-130 | one step of anybody keeps the store exactly what the Inbox contributed, if scan commits carry the next stretch |
| InboxChain.RunHolds | internal/blobingest/syncer.go:120-130 | so does every run, whoever acts in it |
| InboxChain.ScannedEarlier | internal/blobingest/scan.go:181-225 | what a transaction contributed and has not expired is what it offers under the later cutoff |
| InboxChain.RetainedExactly | internal/store/blob.go:127-177 | the retained channels are exactly what the transactions of all blocks through the checkpoint offer under the present cutoff |
| InboxChain.Converge | internal/store/blob.go:127-177 | two stores at the same checkpoint and cutoff retain the same channels if no blob was dropped |
| InboxChain.PublishedBrought | internal/store/blob.go:332-407 | whatever a read of an owned index publishes was contributed by the Inbox, with its deposits joined |
| RunSafety.Status.constructor | internal/ingest/status.go:10-16 | a new status is not ready, not fatal and has no halt channel |
| RunSafety.Status.Snapshot | internal/ingest/status.go:18-22 | readiness needs the Blob loop too once it is enabled, and is never reported together with a fatal error |
| RunSafety.Status.Set | internal/ingest/status.go:40-51 | the first error is kept, the channel is closed once and only then, and readiness needs that there is no error |
| RunSafety.Status.SetBlobReady | internal/ingest/status.go:31-35 | Blob readiness is only raised while there is no fatal error |
| RunSafety.Status.Done | internal/ingest/status.go:54-61 | the channel is made once and is closed exactly when there is a fatal error |
| RunSafety.StepExists | internal/ingest/status.go:66-73 | every actor can always take its next step |
| RunSafety.StartInv | internal/ingest/status.go:10-16 | the initial system satisfies the invariant |
| RunSafety.RestartInv | cmd/metis-l1dtl/service.go:33-47 | a new status over a good database is a good system again |
| RunSafety.StepSafe | internal/blobingest/syncer.go:120-130 | one step keeps the invariant and takes nothing back; only a scan commit moves the scan height and it leaves the cutoff; a commit that progresses on its snapshot strictly raises its height or the cutoff |
| RunSafety.RunInv | internal/ingest/status.go:63-73 | every state of every run satisfies the invariant |
| RunSafety.RunForward | internal/ingest/status.go:63-73 | in any interleaving nothing is written after the first fatal error, readiness does not return, cutoff and revision never decrease, and nothing stored of the deposits changes |
| RunSafety.RunClimbs | internal/ingest/status.go:63-73 | if only progressing commits are asked for, as both loops prove of theirs, both heights only grow |
| RunSafety.OneCommitPerSnapshot | internal/store/blob.go:137-142 | of all Blob commits that took one snapshot at most one gets through |
| RunSafety.OthersKeep | internal/ingest/status.go:63-73 | actors that commit no deposits leave the deposits, those that commit no Blob records leave these, and peaceful ones leave the process running |
| Node.Process.constructor | internal/ingest/status.go:10-16 | a new process is in the initial state |
| Node.Process.Restart | cmd/metis-l1dtl/service.go:33-47 | a process started again has a new status over everything the database held |
| Node.Process.Safe | internal/ingest/status.go:63-73 | in the run that any use of the process leaves behind, everything RunForward and RunClimbs promise holds |
| Node.Process.CommitDeposits | internal/ingest/syncer_step.go:224-233 | the guarded deposit commit is one step of the system |
| Node.Process.CommitBlob | internal/blobingest/syncer.go:120-130 | the guarded Blob commit is one step of the system, with the latest index of the new retained set |
| Node.Process.Perform | internal/ingest/status.go:37-73 | whatever an actor does next is one step of the system |
| Node.Process.Interleave | internal/ingest/status.go:37-73 | whatever other actors do extends the process's run by exactly their steps |
| Ingestion.Service.constructor | cmd/metis-l1dtl/service.go:22-74 | both loops over an empty database satisfy the joint invariant |
| Ingestion.Service.Restart | cmd/metis-l1dtl/service.go:22-74 | after a stop at any point, what the database holds is enough to start both loops again |
| Ingestion.Service.Always | cmd/metis-l1dtl/service.go:96-106 | in every state between any two steps of anybody the deposits are the chain's fold and the Blob records exactly the Inbox's contributions |
| Ingestion.Service.Readers | internal/store/blob.go:332-407 | in every such state a published block is one the Inbox contributed, joined with the deposits of the fold |
| Ingestion.Service.Read | internal/store/blob.go:332-407 | the same of a read of the present store, and it is the block asked for |
| Ingestion.Service.Act | cmd/metis-l1dtl/service.go:96-106 | one round of either loop, whoever acts in its middle, keeps the invariant of both, and on its own leaves the other's records alone |
| Ingestion.Service.Serve | cmd/metis-l1dtl/service.go:96-106 | so do rounds of both loops in any order |
| Ingestion.RunConsistent | cmd/metis-l1dtl/service.go:96-106 | in any run of good commits every state is consistent with the chain |
| Ingestion.Converge | cmd/metis-l1dtl/service.go:96-106 | two services at the same checkpoints and cutoff hold the same deposits, channels and latest index if no blob was dropped |
| Ingestion.SameAnswer | internal/store/blob.go:332-407 | and answer a block read alike |

## Left out

- HTTP routes, flags, start-up, health checks, timers, polling, logging and context timeouts: routing and parsing; cancellation is the `alive` flag of a commit.
- The beacon client, KZG checks and slot lookup: what they return is the `frames` of an L1 blob, or nothing when the blobs are gone.
- zlib and Brotli with the size limit of the uncompressed channel, and the RLP list of batches: one function from channel bytes to batches, any refusal being None.
- RLP items, transaction bodies, signature recovery and transaction encoding: functions of `SpanBlocks.Codec`; of RLP items only that they are self-delimiting and not empty is used.
- Hex, decimal and JSON text: hashes, addresses and identifiers are byte strings, the zero address is the empty one, amounts are numbers, and the sequencer signature is kept as its three parts instead of their text.
- Pebble: a batch is a copy of the record maps that is installed or dropped as a whole, and a range scan is a set visited in any order; `Keys` shows why the keys allow this.
- Database identities, event ABI details and big-integer range checks: single-branch validations; an event that fails them is a `Bad...` event.
- Header hashes at window ends, checkpoints and bootstrap anchors: folded into whether header requests are answered; nothing is claimed about L1 reorganizations beyond that.
- The commitment layout of `parseSubmission`, signature recovery and receipt contents: an L1 transaction carries its signer, its outcome and what its data commit to; a commitment that does not parse is fatal, a receipt is answered or not.
- BlobCodec.DecodeRounds: proved for any number of rounds; the 1024 rounds of the program are the instance `BlobCodec.DecodeBlob`.
- Store.Database.GetBlock: a block is a value that is read, rewritten and returned, so aliasing with stored records is not modelled.
- Store.Database.Close: only sets the flag that the other operations test; waiting for open readers is not modelled.
- BlobStore.StageCommit: works on a copy of the record maps passed in and returned, not on a mutable batch object.
- DepositSync.Syncer.Step: other actors act between the step's snapshot and its commit, not at every point in between; this loop reads nothing of theirs elsewhere.
- BlobSync.Syncer.Step: other actors act before each of the step's two commits, not at every point in between; this loop reads nothing of theirs elsewhere.
- BlobSync.Syncer.Run: every step of it is answered; rounds without answers are covered by `BlobSync.Syncer.Drive`, which promises no arrival.
- InboxChain.Converge: with blobs dropped at different times two stores can differ in the channels those blobs carried; each then holds what `InboxChain.RetainedExactly` says.
- AuthSync.Lookups.Initialize: progress in memory is an object of its own beside the loop, and the JSON text of a state is a pair of functions that are inverse to each other.
