# Verified models of the helper library

Dafny models of the parts of this Go library whose correctness is not visible from one function
body: the timestamp skip-scan over sorted keys, the streaming filter pipeline and its clients, the
concurrent state machine, the batch queue, the download manager, period statistics, hex-key
successors and the rate limiter. `dafny verify dfyconfig.toml` checks everything.

| file | what it models |
|---|---|
| `Bytes.dfy`, `Fields.dfy`, `Decimal.dfy` | bytewise key order and seeks; keys made of fields and the rewriting of one field; decimal timestamps in a fixed-width field |
| `Rounds.dfy` | the outer loop of the timestamp scan for any rewriting of keys: where it lands, what it visits, when it ends |
| `SkipScan.dfy`, `Deletion.dfy` | that scan with the library's own rewriter, and what it has to do with filtering every key; what a delete over a range leaves for its repetition |
| `KeyValue.dfy` | the RocksDB and bolt wrappers as classes: range get, limit, cancellation, delete |
| `Streams.dfy` | filters, `Source.Read`, `Sink.Write`, `pump.Step` and `pump.All` on values; chunking is invisible |
| `Pump.dfy` | the same loops on memory: slices of a shared buffer, in place, at an offset or fresh |
| `HashFilters.dfy`, `Cbc.dfy`, `Codec.dfy` | the hash, hex and CBC filters, and decrypting or hashing a whole input through the pump |
| `StateMachine.dfy` | the state machine as an interleaving transition system, and what all its runs keep |
| `Callable.dfy` | which actions can still be called, exactly: in general, after a switch of states, and when added again |
| `StateLoop.dfy` | the state machine object as a class whose methods are steps of that system |
| `Queue.dfy`, `Downloader.dfy` | the queue's and the downloader's operations as methods, and all their interleavings |
| `Stats.dfy`, `HexKey.dfy`, `RateLimit.dfy` | the three small pieces with exact bounds |
| `Options.dfy`, `Sequences.dfy` | results that may be nil; counting in sequences |

## What comes out

**Skip-scan.** With no limit and no cancellation the scan ends if and only if no key it lands on has
a prefix of nothing but 0xff, for every separator that does not begin with 0xff
(`SkipScan.EndsIff`); for any rewriting of keys it ends if and only if it does within as many rounds
as there are keys (`Rounds.EndsIffSoon`). Keys that are never landed on may hold anything. In every
store exactly the keys are visited that some landing selects from its group
(`SkipScan.VisitedIffLanding`). Where every landing advances, the visited keys ascend strictly
although `Seek(keyStart)` may move back, and with timestamps of one width nothing outside the window
is visited. When the timestamp also stands last, the scan visits exactly the keys in the window, in
order, once each, for every window whose bounds fit the field *if and only if* the groups are clean:
no key of another group lies between a key and the seek target of its group
(`Decimal.SkipScanExactIffClean`). This is said of the keys before the one that ends the scan: the
first key with too few fields or an empty prefix that no earlier group's target jumps over. Of the
whole store it holds if and only if, besides, no key with a timestamp stands behind that one
(`Decimal.WholeStoreExactIff`). A get or a delete with a positive StartTS or EndTS is over exactly
the keys whose timestamp lies between the two, or between StartTS and now if EndTS is 0. Prefixes
that do not end in 0xff and none of which extends another are clean; a group whose prefix extends an
earlier one ("d10" after "d1" with the default comma) never is, and its keys are missed. A window
bound fits when it is 0 or negative (start), negative (end), of the field's own width, or longer
with nothing but nines kept (end); exactly these work. With fields after the timestamp the two end
points of the window depend on the tail of each group's first key; everything strictly inside is
visited. Where every landing advances, the groups are clean and the timestamps have one width,
repeating a timestamp delete finds something if and only if some group whose first key is in the
window holds the end timestamp with a tail beyond that key's, before the key that ends the repeat
(`Deletion.TsRepeatFindsNothingIff`). With the timestamp last the repeat finds nothing, and a delete
over all timestamps removes every key the scan can get to exactly when the groups are clean.

**Pipeline.** For chains of filters that obey the contract of `filter.go`, however the input is cut
into reads, the pump writes the sink filters' meaning of the source filters' meaning of the whole
input and reports the length of what the source side produced, in memory and on values. It returns
if and only if some read reports end of file or, when the source has no filter, any error
(`Streams.ReturnsIff`): a read error is lost as soon as one filter is chained, and a reader that
fails for ever is then read for ever. Without filters the error is what `pump.All` returns, with
everything read before it written (`Streams.ReadErrorIsReturned`); so is the error of a failing
filter at either end. A consuming hash drops the chunk that comes with end of file: it writes the
digest of what came before, which is that of the input exactly when those two digests agree. CBC
encryption followed by decryption returns the input followed by its padding, so the input itself
exactly when it is aligned; reads of other sizes pad every chunk.

**State machine.** In every reachable state of every interleaving the action list and the live
threads are in bijection, each record is in exactly one stage, and the handler calls are a fold of
the `SetState` names. Whenever the loop is idle, a record can still be called if and only if it has
not come to its end, its thread has not taken the exit branch, and it is bound to no state or to a
registered one (`Callable.CallableIff`). Two things one would expect fail, and this says exactly
when. A state-bound action that is listed when a switch begins never runs once that `ClearActions`
has returned; one that is alive and not listed, in `actCtrl` or on its way there or to the list, can
(`Callable.OutlivesSwitchIff`, with a run in which it is called on a second visit of its state). An
`AddAction` that meets a listed entry is lost if and only if that entry's thread has taken the exit
branch or the new state is not registered (`Callable.ReAddedIff`, with a run that comes to such a
message). On every run the F called is the one its `AddAction` was given, or a later `AddAction` of
the id that found it listed, and actions are taken in the order in which they reached `actCtrl`.
`ClearActions` can return if and only if the threads still to be stopped are all at their select,
and a run comes to one that hangs.

**Queue and downloader.** On every stretch of every run, whatever was lost before it, the queue
delivers its contents and the values accepted meanwhile, in order, if and only if it is not flushed
on that stretch without a flush function: by `Flush`, by an `Add` that reaches the capability left
over from before `StopFlushThread`, or by a tick of a thread left behind by two overlapping
`StartFlushThread` calls. So while a function is set nothing is lost. `StopFlushThread` can return
if and only if a flush thread is at its select or can get there, and a run comes to one that hangs.
A run comes to a flush thread without a ticker if and only if some thread reaches its select before
any `StartFlushThread` with a positive duration. If the first of these calls has one, that never
happens; if it has none and the calls do not overlap, it is bound to happen; an overlapping second
call can set the ticker in time. The downloader's line is the channel-send order without the
cancelled and cleared entries, the worker never sleeps on a non-empty queue, and left to itself it
finishes the whole line in a bounded number of steps. No two entries of one name wait at any point
of a run if and only if no `Download` passes the duplicate check, which looks only at the queue,
while an entry of its name is on its way there.

**Small pieces.** `Min` and `Max` are exact; `ValueAvgMin` is, for averages that are never negative,
exactly when no average was 0 or the last one was. Messages that end a checked period are not
counted. `NextKey` is the least string above the key among keys of its width and letter case, even
where 9 becomes a colon, and is one greater in value exactly when the incremented digit is not 9. A
call passes exactly when its interval has gone by since the last one that passed. A stretch of w
seconds holds at most w / interval + 1 emissions for any clock, and that many do occur.

## Where the code and its comments differ

- The comment on `RangeForeachByTS` promises all entries whose timestamp falls in the window
  (`rocksdb/rocksdb.go:749`); the code meets that only under the conditions above.
- `HijackTsInKey` returning nil means "no further group" to the scan, and `bytes.Join` of a single
  empty field is nil too, so an empty first field ends the scan (`rocksdb/rocksdb.go:773`).
- `StopFlushThread` says that all items left will be flushed (`queue/queue.go:112-113`); without a
  flush function it leaves them where they are.
- The PKCS#7 comment (`codec/aescbc.go:53`): an aligned chunk gets no padding, unlike section 6.3
  of RFC 5652, and nothing is stripped. Block chaining is that of section 6.2 of NIST SP 800-38A.
- `bytes.go:7-9` promises the key increased by 1; after a 9 comes a colon.

## Model

| member | source | states |
|---|---|---|
| Bytes.LowerBound | rocksdb/rocksdb.go:779 | Seek lands on the first key not below the target |
| Bytes.RunMembers | rocksdb/rocksdb.go:736 | a seek followed by Next up to the end key meets exactly the stored keys in the closed range |
| Fields.JoinSplit | rocksdb/rocksdb.go:184 | joining the fields of a key gives the key back, for every separator, the empty one included |
| Fields.FirstFieldIs | rocksdb/rocksdb.go:184 | the first field ends at the leftmost separator |
| Fields.FieldsAreFree | rocksdb/rocksdb.go:184 | no field holds a separator |
| Fields.EncodedRune | rocksdb/rocksdb.go:184 | for the empty separator, the UTF-8 sequence of a character is one field |
| Fields.DecodedRune | rocksdb/rocksdb.go:184 | and a field of several bytes, or one below 0x80, is the UTF-8 sequence of a character |
| Fields.HeadIsShared | rocksdb/rocksdb.go:195 | a string that starts with a group prefix and the separator is in that group |
| Fields.BumpInPlace | rocksdb/rocksdb.go:196-201 | the in-place loop increments the last byte that is not 0xff and leaves the rest |
| Fields.BumpAdvances | rocksdb/rocksdb.go:196-201 | the seek target is past every string of the group if and only if the prefix has a byte other than 0xff |
| Fields.BumpGap | rocksdb/rocksdb.go:196-201 | when the prefix does not end in 0xff, only the prefix's own extensions lie below the seek target |
| Fields.Hijack | rocksdb/rocksdb.go:182-207 | the closure's two results for every separator, with the error returns for short keys |
| Fields.HijackParts | rocksdb/rocksdb.go:192-205 | only the timestamp field is replaced, at its old width; there is no next group exactly for an empty prefix |
| Rounds.AdvancesIffNoFallback | rocksdb/rocksdb.go:769-795 | for any rewriting of keys, each landing is followed by a later one if and only if none of the keys landed on seeks to itself or back |
| Rounds.EndsIffSoon | rocksdb/rocksdb.go:769-795 | for any rewriting of keys, the unlimited, uncancelled outer loop ends if and only if it ends within as many rounds as there are keys |
| SkipScan.AdvancesIff | rocksdb/rocksdb.go:196-201 | the landing index grows every round if and only if every prefix landed on has a byte other than 0xff |
| SkipScan.EndsIff | rocksdb/rocksdb.go:769-795 | unless the separator begins with 0xff, the unlimited, uncancelled loop ends if and only if no key landed on has an all-0xff prefix |
| SkipScan.EndsDespiteAnFFPrefix | rocksdb/rocksdb.go:773 | with 0xff as separator a scan that lands on an all-0xff prefix can still end |
| SkipScan.FallbackIffNoRoom | rocksdb/rocksdb.go:791 | landing on an all-0xff prefix, and only that, seeks to the landing or before it |
| SkipScan.RoundMembers | rocksdb/rocksdb.go:772-790 | one round visits exactly the keys of the landing key's group that its rewritten bounds select |
| SkipScan.VisitedIffLanding | rocksdb/rocksdb.go:769-795 | for every store and any number of rounds, a key is visited if and only if one of the keys landed on in these rounds is in its group and selects it |
| SkipScan.ScanIffLanding | rocksdb/rocksdb.go:769-795 | the same of the whole scan, when every landing advances |
| SkipScan.ScanAscends | rocksdb/rocksdb.go:769-795 | when every landing advances the visited keys strictly ascend although a round may seek back |
| SkipScan.ScanIsSound | rocksdb/rocksdb.go:749-798 | with timestamps of one width and every landing advancing, nothing outside the window is visited, whatever the groups look like |
| SkipScan.VisitedWithinReach | rocksdb/rocksdb.go:773 | with clean groups nothing is visited at or behind the first key that ends the scan |
| SkipScan.CleanScanVisits | rocksdb/rocksdb.go:769-795 | with clean groups a key before that one that every landing of its group selects is visited |
| SkipScan.CleanScanExact | rocksdb/rocksdb.go:769-795 | with clean groups a key before that one is visited if and only if the first key of its group selects it |
| SkipScan.ScanSandwich | rocksdb/rocksdb.go:772-790 | with fields after the timestamp all keys strictly inside the window are visited and none outside it |
| SkipScan.ScanIsFilter | rocksdb/rocksdb.go:749-798 | with clean groups and the timestamp last the scan equals the plain filter over the keys before the first one that ends it |
| SkipScan.FullScanIffClean | rocksdb/rocksdb.go:769-795 | a window over all timestamps is visited completely, as far as the scan reaches, if and only if the groups are clean |
| SkipScan.VisitingBothMeansSameGroup | rocksdb/rocksdb.go:791 | a scan that visits two keys, the later one below the earlier one's seek target, proves them one group |
| SkipScan.PrefixFreeIsClean | rocksdb/rocksdb.go:195-201 | prefixes that do not end in 0xff and do not extend one another are clean |
| SkipScan.ExtendedPrefixIsNotClean | rocksdb/rocksdb.go:195-201 | a group that extends an earlier group's prefix is never clean |
| SkipScan.DeviceTenIsSkipped | rocksdb/rocksdb.go:159 | with the default comma, asking d1 and d10 for all timestamps visits d1 only |
| Decimal.StampOrder | rocksdb/rocksdb.go:770-771 | digit strings of one width order bytewise as their values do |
| Decimal.ValueOfDigits | rocksdb/rocksdb.go:770-771 | the decimal text of a timestamp denotes it |
| Decimal.LowerExact | rocksdb/rocksdb.go:770 | exactly which StartTS select the right field values: none, or one of the field's width |
| Decimal.UpperExact | rocksdb/rocksdb.go:771 | exactly which EndTS do: negative, of the field's width, or longer with only nines kept |
| Decimal.SkipScanExactIffClean | rocksdb/rocksdb.go:749-798 | the scan equals the filter by timestamp value, as far as it reaches, in every fitting window if and only if the groups are clean |
| Decimal.WholeStoreExactIff | rocksdb/rocksdb.go:749-798 | it equals the filter of the whole store in every fitting window if and only if the groups are clean and no key with a timestamp stands behind the key that ends the scan |
| KeyValue.LimitTakesFirst | rocksdb/rocksdb.go:739-741 | a positive limit yields the first keys of the unlimited enumeration, in both range modes |
| KeyValue.AfterSlice | rocksdb/rocksdb.go:780-790 | stopping inside a slice is stopping at that place of the whole enumeration |
| KeyValue.LimitOrCancelled | rocksdb/rocksdb.go:782-789 | cancelled from callback j on: a limit up to j ends the scan first and without error; else it ends after j callbacks with the cancellation |
| KeyValue.HaltsIffEnds | rocksdb/rocksdb.go:769-795 | without limit and cancellation the scan halts exactly when its outer loop ends |
| KeyValue.AdvancingHalts | rocksdb/rocksdb.go:769-795 | when every landing advances the scan halts under any limit and context, with the skip-scan cut there |
| KeyValue.ChosenIsScan | rocksdb/rocksdb.go:919-970 | in timestamp mode what a get lists and a delete removes is the skip-scan cut at the limit or the cancellation |
| KeyValue.RDB.RangeForeach | rocksdb/rocksdb.go:719-747 | visits the keys of the closed range, cut at the limit or the cancellation, and reports the latter |
| KeyValue.RDB.VisitSlice | rocksdb/rocksdb.go:780-790 | the inner loop visits a prefix of the slice, all of it unless limit or cancellation stops it |
| KeyValue.RDB.LandAndScan | rocksdb/rocksdb.go:770-791 | the landing key's slice, the early ends, and the seek to the next group |
| KeyValue.RDB.Round | rocksdb/rocksdb.go:770-794 | one turn ends the scan with the right result or lands where the remaining rounds start |
| KeyValue.RDB.AllRounds | rocksdb/rocksdb.go:769-795 | the outer loop visits what its rounds visit, cut, wherever the landings go |
| KeyValue.RDB.RangeForeachByTS | rocksdb/rocksdb.go:750-798 | for any rewriter, whenever the loops end, by limit and cancellation too: the visited keys and the error |
| KeyValue.RDB.Range | rocksdb/kvdb.go:46-57 | the unlimited key range under the caller's context |
| KeyValue.RDB.DeleteRangeByTS | rocksdb/rocksdb.go:871-880 | removes exactly the keys the same scan visits, whenever that scan ends |
| KeyValue.RDB.DeleteRangeByKey | rocksdb/rocksdb.go:882-890 | removes exactly the keys the same range visits |
| KeyValue.ChosenMeans | rocksdb/rocksdb.go:935-941 | for every option without a key: with a positive StartTS or EndTS the keys whose timestamp lies between StartTS and EndTS, or now if EndTS is 0, else those between StartKey and EndKey; as many as the limit allows |
| KeyValue.RDB.GetRange | rocksdb/rocksdb.go:919-942 | dispatch, unknown family, missing key, filling in of EndTS with the clock, what is listed when cancelled, and uncancelled exactly these keys, where the window fits the store |
| KeyValue.RDB.DeleteRange | rocksdb/rocksdb.go:944-970 | removes exactly what GetRange with the same option lists, so uncancelled these keys or the one key, and nothing from another family |
| KeyValue.OutsideIsLeft | rocksdb/rocksdb.go:871-880 | without a limit what is left are the keys outside the window |
| Deletion.KeyRepeatFindsNothing | rocksdb/rocksdb.go:882-890 | after an unlimited key-range delete the same range is empty |
| Deletion.TsRepeatFindsNothingIff | rocksdb/rocksdb.go:871-880 | when every landing advances, the groups are clean and the timestamps have one width, the repeat of an unlimited timestamp delete finds nothing if and only if no group whose first key is in the window has, within the repeat's reach, the end timestamp with a tail beyond that key's |
| Deletion.TsRepeatFindsNothing | rocksdb/rocksdb.go:871-880 | with the timestamp last besides, the repeat finds nothing |
| Deletion.TsDeleteCompleteIffClean | rocksdb/rocksdb.go:871-880 | with the timestamp last, one delete over all timestamps removes every key with a timestamp before the one that ends the scan if and only if the groups are clean; the repeat finds nothing if and only if the first key left has no timestamp; if all keys have one, both mean that the family is empty |
| KeyValue.BoltDB.Range | boltdb/kvdb.go:146-169 | visits the closed range until the context is cancelled, nothing for an unknown bucket |
| KeyValue.StoresAgreeIff | boltdb/kvdb.go:156-166 | both stores visit the same keys unless the context is cancelled before the first of at least one |
| KeyValue.CancelledDuringCallback | boltdb/kvdb.go:157-159 | cancelled during callback j, both stores stop after j callbacks |
| Streams.EofEnds | iohelper/pump/pump.go:81-94 | a read at end of file ends the pump whatever the filters do |
| Streams.ChainOnChunk | iohelper/source/source.go:68-83 | one chunk through lawful filters, early return included, advances the composed meaning by its output |
| Streams.ChainOnEof | iohelper/source/source.go:68-83 | at end of file the chain gives the rest of the composed meaning and EOF |
| Streams.SinkOnChunk | iohelper/sink/sink.go:55-74 | one write advances the sink filters' composed meaning by what reaches the writer |
| Streams.PumpMeansComposition | iohelper/pump/pump.go:76-95 | for every cut of the input into reads, with read errors wherever a filter is chained, the pump writes the composed meaning of the whole input and counts the source side's output |
| Streams.EndDecides | iohelper/pump/pump.go:81-94 | what the loop returns is decided by the reads up to its end, whatever the reader would answer later |
| Streams.ReturnsIff | iohelper/pump/pump.go:81-94 | over readers that may go on for ever, the loop with lawful filters returns if and only if some read reports end of file or, without source filters, any error |
| Streams.FailingReader | iohelper/source/source.go:69-78 | a reader that fails for ever ends the loop if and only if no filter is chained to it |
| Streams.ReadErrorIsReturned | iohelper/pump/pump.go:63-64 | without source filters a read error is what pump.All returns; all reads before it have been written through the sink filters, and the bytes that came with it are counted only |
| Streams.ErrorOfFirstEnding | iohelper/pump/pump.go:81-94 | with lawful filters the result has no error if and only if the first read that ends the loop is end of file, and else that read's error |
| Streams.StopsAfter | iohelper/pump/pump.go:81-94 | a read that ends the loop adds its own step to what the reads before it made, and what follows does not matter |
| Streams.SourceFilterFails | iohelper/source/source.go:69-73 | a failing source filter ends pump.All with its error; nothing of that chunk is written, and its output is counted |
| Streams.SilentAtEof | iohelper/source/source.go:76-80 | a filter that hands on neither data nor end of file at end of file is reported as an error |
| Streams.EarlyEofEndsIff | iohelper/source/source.go:87-104 | a filter that answers end of file early ends the loop if and only if its output lies in the read buffer or is empty |
| Streams.SinkFilterFails | iohelper/sink/sink.go:55-64 | a failing sink filter ends pump.All with its error, at end of file too; nothing of that chunk is written |
| Streams.ReadErrorKeptIffNoFilter | iohelper/source/source.go:69 | a read error is reported without filters and treated as an ordinary read with any |
| Pump.Filter.Process | iohelper/filter/filter.go:9-17 | a filter's output lies in the given memory at an offset when it fits, and is fresh otherwise |
| Pump.Source.Chain | iohelper/source/source.go:110-118 | appends the filters in order |
| Pump.Source.RunFilters | iohelper/source/source.go:68-83 | the loop on memory computes the chain of the value model, with its early returns |
| Pump.Source.HandOver | iohelper/source/source.go:85-106 | the output is moved to the front of the buffer when it lies in it, overlapping or not, and handed over otherwise |
| Pump.Source.Read | iohelper/source/source.go:52-107 | what the caller finds in the buffer or in DataFilterOutput is the chain's output, with the matching error |
| Pump.Sink.Chain | iohelper/sink/sink.go:29-37 | appends the filters in order |
| Pump.Sink.Write | iohelper/sink/sink.go:55-74 | the writer gets the sink chain's output and the count is that of the input, or the error's |
| Pump.Fetch | iohelper/pump/pump.go:38-53 | the slice to write holds the chain's output in all four cases of the sentinel errors |
| Pump.Deliver | iohelper/pump/pump.go:54-67 | what is written and returned for each outcome of the read; a read error comes back as it is, with nothing written |
| Pump.PumpOnce | iohelper/pump/pump.go:32-68 | one step on memory is one step of the value model |
| Pump.All | iohelper/pump/pump.go:76-95 | the loop on memory with one reused buffer is the whole run of the value model |
| HashFilters.Hash.Process | iohelper/filter/filter.go:45-61 | both modes on the digest's state, with the chunk at eof dropped by the consuming one |
| HashFilters.HexInjective | iohelper/filter/filter.go:63-72 | different bytes have different hex texts |
| HashFilters.HexReads | iohelper/filter/filter.go:63-72 | the text is lowercase hex digits, the high one of a byte first, that read as the bytes |
| HashFilters.SnoopingHashLawful | iohelper/filter/filter.go:49-54 | the on-the-fly hash is chunk-independent |
| HashFilters.ConsumingHashLawful | iohelper/filter/filter.go:55-60 | the consuming hash is chunk-independent when eof brings no data |
| HashFilters.ToHexLawful | iohelper/filter/filter.go:63-72 | the hex filter is chunk-independent as a source and as a sink filter |
| HashFilters.SnoopingHashPump | iohelper/filter/filter.go:45-61 | on the fly: the stream is unchanged and the final digest is that of all bytes, data at eof or not |
| HashFilters.CleanEofDigest | iohelper/filter/filter.go:55-58 | when end of file brings no data, hash then hex writes the hex digest of all bytes |
| HashFilters.ConsumingHashPump | iohelper/filter/filter.go:55-58 | hash then hex writes the digest of the bytes before the chunk at eof, for any hash; that of all bytes if and only if the two digests agree |
| Cbc.CBCCrypto.Process | codec/aescbc.go:51-67 | pads the chunk, crypts it and keeps the chaining block |
| Cbc.Pad | codec/aescbc.go:52-57 | whole blocks; the bytes added all carry their number, none for an aligned chunk |
| Cbc.XorByteBits | codec/aescbc.go:60-62 | a bit of a combined byte is set exactly when it is set in one operand and not in the other |
| Cbc.XorByteOnly | codec/aescbc.go:60-62 | and no other byte has these bits |
| Cbc.EncryptedBlock | codec/aescbc.go:42-43 | each ciphertext block is the encryption of its plaintext block combined with the ciphertext block before it, the first with the IV |
| Cbc.DecryptedBlock | codec/aescbc.go:44-45 | each plaintext block is the decryption of its ciphertext block combined with the ciphertext block before it, the first with the IV |
| Cbc.DecryptEncrypt | codec/aescbc.go:42-44 | CBC decryption inverts CBC encryption for any inverse pair of block permutations |
| Cbc.EncryptAppend | codec/aescbc.go:60-62 | encrypting in two aligned pieces with the chaining block carried over is encrypting the whole |
| Cbc.DecryptAppend | codec/aescbc.go:60-62 | the same for decrypting |
| Cbc.CbcLawful | codec/aescbc.go:51-67 | chunks of whole blocks, and any last chunk, are invisible to the CBC filter |
| Cbc.PumpedIsCrypt | codec/aescbc.go:76-82 | a whole input pumped through the filter is the CBC of the padded input |
| Cbc.AnyChunking | codec/aescbc.go:51-67 | for reads of any size the filter crypts the concatenation of the chunks, each padded on its own |
| Cbc.AnyChunkingRoundTrip | codec/aescbc.go:51-83 | decrypting that gives every chunk back with its own padding |
| Cbc.RoundTrip | codec/aescbc.go:51-83 | encrypt then decrypt gives the input and its padding; the input itself if and only if it was aligned |
| Codec.DecryptBytes | codec/aescbc.go:69-83 | Decrypt returns the CBC decryption of the padded input |
| Codec.EncryptThenDecrypt | codec/aescbc.go:69-83 | both through the pump on memory: the input and its padding, the input if and only if aligned |
| Codec.Hashsum | iohelper/iohelper.go:92-98 | the digest of all the bytes of the file |
| StateMachine.ListThreadBijection | StateMachine/sm.go:72-90 | in every reachable state an id is listed with an action exactly when that action is live under it, so an id has one live thread and a delete removes its own entry only |
| StateMachine.ActionsConserved | StateMachine/sm.go:168-201 | every AddAction record is in exactly one stage, runs at most once, and a state-bound one only in its state |
| StateMachine.HandlerCallsAreAFold | StateMachine/sm.go:203-248 | the handler calls and the fields they see are the fold of the SetState names taken, which are the first ones sent |
| Callable.ActionsInOrder | StateMachine/sm.go:261-273 | actions are called or dropped in the order in which they were put into actCtrl |
| Callable.CallsItsF | StateMachine/sm.go:272 | on every run in which no other AddAction of its id is taken, the calls of a record are calls of its own F |
| Callable.AddedIsCalled | StateMachine/sm.go:310-328 | what is called is the F that AddAction was given, in the state it was given |
| StateMachine.NoListedActionOutlivesASwitch | StateMachine/sm.go:157-166 | a state-bound action listed when a switch begins never runs once its ClearActions has returned |
| StateMachine.ClearedActionsNeverRun | StateMachine/sm.go:157-166 | every entry ClearActions found has taken the exit branch and never reaches actCtrl |
| StateMachine.StoppedActionNeverRuns | StateMachine/sm.go:92-96 | after a Stop that returned the action is never called |
| Callable.CallableIff | StateMachine/sm.go:250-276 | when the loop is idle in a reachable state, a record can still be called if and only if it is not at its end, its thread did not take the exit branch, and its state is none or registered |
| Callable.OutlivesSwitchIff | StateMachine/sm.go:157-166 | when a switch begins with all listed state-bound threads at their select, a state-bound action alive then can run after that ClearActions returned if and only if it is not listed and its state is registered |
| StateMachine.OldActionRunsInASecondVisit | StateMachine/sm.go:261-273 | a run from the start in which an action queued before a switch is called on the second visit of its state |
| Callable.ReAddedIff | StateMachine/sm.go:177-189 | an AddAction of a listed id: the listed record can be called with the new FireInState if and only if its thread has not taken the exit branch and that state is none or registered; the new record never is |
| Callable.ReAddedCallsNewF | StateMachine/sm.go:188-189 | after an AddAction of a listed id the listed record is called with the new F and FireInState, on every continuation up to a further one |
| Callable.ReAddedTooLate | StateMachine/sm.go:177-189 | a run from the start to an AddAction whose listed entry has taken the exit branch |
| StateMachine.ReAddedActionIsLost | StateMachine/sm.go:178-189 | after such an AddAction neither record is called on any continuation |
| StateMachine.ClearReturnsIff | StateMachine/sm.go:157-166 | ClearActions can return if and only if all threads it still has to stop are at their select |
| StateMachine.StuckForEver | StateMachine/sm.go:82-94 | a thread that took its timer and ClearActions that sends to it wait for each other on every continuation |
| Callable.ClearCanHang | StateMachine/sm.go:157-166 | a run from the start to a ClearActions that never returns |
| StateMachine.LookupsSucceed | StateMachine/sm.go:177 | every record a step looks up exists |
| StateMachine.InvKept | StateMachine/sm.go:250-276 | each step of loop, threads and clients keeps the whole invariant |
| StateMachine.InvOverRuns | StateMachine/sm.go:250-276 | so does every run |
| StateLoop.SMObject.AddAction | StateMachine/sm.go:310-328 | with room in the channel, a delayed action is sent to msgCtrl and any other straight to actCtrl, as two steps |
| StateLoop.SMObject.SendStateMessage | StateMachine/sm.go:289-299 | SetState appends its name to msgCtrl |
| StateLoop.SMObject.OnState | StateMachine/sm.go:203-236 | ignored, repeated and unknown names change nothing; otherwise Leave or the switch comes next |
| StateLoop.SMObject.RestartTimer | StateMachine/sm.go:179-184 | the timer of a listed record runs again, and a value it had already sent is taken back |
| StateLoop.SMObject.OnAddAction | StateMachine/sm.go:168-201 | a listed id has the FireInState and F of its record replaced and its timer restarted, a new one has its timer set and is on its way to the list |
| StateLoop.SMObject.OnMessage | StateMachine/sm.go:253-260 | taking a message is the transition system's step |
| StateLoop.SMObject.InsertAction | StateMachine/sm.go:195-197 | the list update under the lock is the step |
| StateLoop.SMObject.PassesGuard | StateMachine/sm.go:262-271 | an action passes if it is bound to no state or to the current one |
| StateLoop.SMObject.OnAction | StateMachine/sm.go:261-273 | taking an action calls its F exactly if it is bound to no state or to the current one, and drops it otherwise, as the step says |
| StateLoop.SMObject.ClearActions | StateMachine/sm.go:157-166 | the loop over the list stops exactly the listed state-bound threads, each by a step, and their timers, when all are at their select |
| StateLoop.SMObject.FinishSwitch | StateMachine/sm.go:224-226 | ClearActions and Enter are a stretch of steps that ends idle in the same state |
| StateLoop.SMObject.HandleSetState | StateMachine/sm.go:203-236 | a SetState message from receive to the return of Enter: a stretch of steps that leaves the machine in the named state if it is registered |
| StateLoop.SMObject.HandleAction | StateMachine/sm.go:261-273 | an action from receive to the return of F, as one or two steps |
| StateLoop.SMObject.TimerBranch | StateMachine/sm.go:74-78 | the select takes the value the timer has sent, as the step says |
| StateLoop.SMObject.Stop | StateMachine/sm.go:92-94 | a client's Stop stops the timer and then meets the thread at its select, which is the step |
| StateLoop.SMObject.DeleteAction | StateMachine/sm.go:82-84 | the thread's delete under the lock is the step |
| StateLoop.SMObject.ActionThread | StateMachine/sm.go:72-90 | with the lock free and room in actCtrl: the entry leaves the list, and the action goes to actCtrl exactly when the timer was taken |
| Queue.Queue.Add | queue/queue.go:42-57 | accepts exactly values of the element type; the contents become a batch for the function that is set if and only if the capability is reached |
| Queue.Queue.FlushQueue | queue/queue.go:80-90 | hands all elements over in order, or discards them without a flush function, and empties the queue |
| Queue.Queue.ThreadArrives | queue/queue.go:92-98 | a thread comes to its select exactly when there is a ticker, as the step says |
| Queue.Queue.Tick | queue/queue.go:98-103 | a tick is one or two steps, by whether a flush function is set |
| Queue.Queue.StopFlushThread | queue/queue.go:114-126 | nothing without a flush function; else the flush, the abort and the end of thread k as steps, with an empty queue and no function left |
| Queue.Queue.StartLocked | queue/queue.go:138-148 | sets the function, and capability and ticker only when positive |
| Queue.Queue.StartFlushThread | queue/queue.go:131-149 | ends the running thread, if there is one, and then starts the new one, as steps |
| Queue.Queue.Elements | queue/queue.go:68-77 | returns the contents |
| Queue.AllValuesAccountedFor | queue/queue.go:42-126 | over all interleavings flushed values followed by the contents are the accepted values, in order |
| Queue.StepBatch | queue/queue.go:52-54 | exactly which steps turn the contents into a batch, all of them and for the function that is set, and that all others leave them |
| Queue.SettingsAreLast | queue/queue.go:125-148 | at every point of every run the function is the one last started and not yet stopped, and the capability the last positive one |
| Queue.NothingLostIff | queue/queue.go:42-126 | from any state on, delivered batches and contents grow by exactly the values accepted meanwhile, in order, if and only if no step flushes a non-empty queue without a function |
| Queue.SetMeansNothingLost | queue/queue.go:42-126 | on a stretch with a flush function set throughout nothing is lost, whatever was lost before |
| Queue.TicksDeliver | queue/queue.go:92-110 | if StartFlushThread calls do not overlap there is one thread exactly while a function is set, and no tick discards |
| Queue.OverlappingStartsLoseATick | queue/queue.go:131-149 | two overlapping StartFlushThread calls lead to a tick that discards |
| Queue.StopReturnsIff | queue/queue.go:114-126 | StopFlushThread can return if and only if some flush thread is at its select, or on its way there with a ticker |
| Queue.StopCanHang | queue/queue.go:98-122 | a run from the start to a StopFlushThread that never returns |
| Queue.StopDelivers | queue/queue.go:112-126 | when it returns the queue is empty; and of any stretch before, the contents at its start and everything accepted meanwhile have been delivered if and only if nothing was discarded on it |
| Queue.CrashesIff | queue/queue.go:98 | a run comes to a flush thread without a ticker if and only if some thread reaches its select before any start with a positive duration |
| Queue.FirstTickIsEnough | queue/queue.go:131-149 | if the first StartFlushThread has a positive duration that never happens, overlapping calls or not |
| Queue.SerialCrashIff | queue/queue.go:131-149 | if the calls do not overlap, it has happened or is bound to if and only if the first of them has no positive duration |
| Queue.OverlappingStartHelps | queue/queue.go:131-149 | a run in which an overlapping second call sets the ticker before the first call's thread needs it |
| Downloader.Downloader.Ask | dlmgr/dlmgr.go:118-130 | refuses exactly a name that is queued; the step of the transition system |
| Downloader.Downloader.Download | dlmgr/dlmgr.go:118-147 | the check and, when the channel has room, the send of a name that is not queued, as steps |
| Downloader.Downloader.QueueLoopTurn | dlmgr/dlmgr.go:149-172 | a receive and then EnQueue, as two steps |
| Downloader.Downloader.ClearQueue | dlmgr/dlmgr.go:60-65 | the queue is emptied, as the step says |
| Downloader.Downloader.CancelDownload | dlmgr/dlmgr.go:79-116 | takes out the first queued entry of that name and no other, else cancels the running one, else reports failure |
| Downloader.Downloader.TakeJob | dlmgr/dlmgr.go:260-266 | the oldest entry becomes the job, or the worker waits, as the step says |
| Downloader.Downloader.WorkTurn | dlmgr/dlmgr.go:174-268 | one turn of Work that finds an entry, as two steps, after which there is nothing to cancel |
| Downloader.DownloadsInOrder | dlmgr/dlmgr.go:145-172 | over all interleavings: one stage each, channel-send order without cancelled and cleared entries, one callback each, no lost wake-up |
| Downloader.EverythingInLineFinishes | dlmgr/dlmgr.go:247-269 | left alone, queueLoop and worker stop within a bound, and then the whole line has finished in order |
| Downloader.CancelKeepsOrder | dlmgr/dlmgr.go:83-93 | cancelling takes one entry out of the line and leaves the order |
| Downloader.CancelTakesNamed | dlmgr/dlmgr.go:83-93 | a cancel takes the first queued entry of the name out of the line and changes nothing else |
| Downloader.CancelledByName | dlmgr/dlmgr.go:79-97 | over every run, each entry taken out by a cancel has a name that some cancel gave |
| Downloader.ClearKeepsOrder | dlmgr/dlmgr.go:60-65 | clearing takes the queue out of the line and leaves the rest |
| Downloader.TwinsIff | dlmgr/dlmgr.go:118-145 | a step leaves no two waiting entries of one name if and only if it is not a Download that passes the check while an entry of its name is in toSend, the channel or queueLoop's hand |
| Downloader.DuplicatesIff | dlmgr/dlmgr.go:118-156 | over every run from the start: never two waiting entries of one name if and only if there is never such a Download |
| Downloader.SameNameTwice | dlmgr/dlmgr.go:118-145 | a run from the start after which two entries of one name are queued |
| Stats.Statistic.Reset | stats/stats.go:68-88 | closes the period unless it is empty |
| Stats.Counter.OnMessage | stats/stats.go:108-123 | every term handles the message, checked terms by their elapsed time |
| Stats.Counter.Serve | stats/stats.go:106-131 | the loop over messages and timer resets takes every term through the events meant for it |
| Stats.TotalsBalance | stats/stats.go:108-123 | closed totals plus the running one are all counts except those of messages that end a checked period |
| Stats.TimerTermsCountAll | stats/stats.go:119-129 | for timer-driven terms they are all counts |
| Stats.MinMaxAreTrue | stats/stats.go:68-88 | Min and Max are the extremes of the closed totals and ValueAvg is the last average; ValueAvgMin is the least average if and only if none was 0 or the last one was |
| Stats.QuotientTruncates | stats/stats.go:79 | an average is truncated towards zero |
| Stats.RunningMinIff | stats/stats.go:83-85 | a running minimum that takes 0 for "none yet" is the true one if and only if there is no 0 or the last is 0 |
| Stats.AveragesBoundValues | stats/stats.go:79-87 | the two average figures bound the sum of the values by the sum of the counts |
| HexKey.NextKey | bytes.go:10-28 | the backward loop with carry, and the key unchanged on error |
| HexKey.Successor | bytes.go:11-26 | errs exactly for the empty key and all f |
| HexKey.SuccessorIsNext | bytes.go:7-9 | among keys of one width and one letter case, above the key means not below its successor |
| HexKey.MixedCaseSkips | bytes.go:17 | with both cases it can fail: 0a lies between 0F and its successor |
| HexKey.SeekSuccessorSkipsOnlyKey | bytes.go:7-9 | there, seeking the successor of a stored key lands on the next stored key |
| HexKey.SuccessorValue | bytes.go:16-21 | for letters of either case: a hex key one greater if and only if the incremented digit is not 9 |
| RateLimit.RateLimiter.Pass | iohelper/iohelper.go:165-184 | the record of the key decides and is updated; other cached records stay |
| RateLimit.RateLimiter.WriteWithRate | iohelper/iohelper.go:162-186 | writes exactly when the record lets it |
| RateLimit.RateLimiter.ErrorfWithRate | iohelper/iohelper.go:188-214 | wraps the error exactly when the record does not |
| RateLimit.WindowBound | iohelper/iohelper.go:172-174 | a stretch of w holds at most w / interval + 1 emissions, for any clock |
| RateLimit.PassesIff | iohelper/iohelper.go:168-184 | a call passes if and only if its interval has gone by since the last emission, however many were suppressed since |
| RateLimit.SteadyAllPass | iohelper/iohelper.go:172-174 | calls one interval apart are all let through, so the bound is met |
| RateLimit.Counted | iohelper/iohelper.go:171-184 | the record counts all calls and all emissions |

## Left out

- Values, JSON output and its errors: the key-value model keeps keys only.
- RocksDB and bolt themselves: a store is a strictly sorted key sequence per family or bucket, an iterator walks
  a snapshot of it, a delete never fails, and the default bucket is just a name.
- KeyValue.RDB.RangeForeach: does not model a nil oper, or a family that does not exist (a nil handle the
  library call would crash on); GetRange and DeleteRange do check the family.
- KeyValue.RDB.RangeForeachByTS: has no result when the source's own loops never end, which `SkipScan.EndsIff`
  and `KeyValue.Terminates` describe. It is split into VisitSlice, LandAndScan, Round and AllRounds.
- The theorems of SkipScan, Decimal and Deletion are about a non-empty separator and a field index of at least
  1; at index 0 there is no next group, so nothing is visited.
- SkipScan.EndsIff: does not cover a separator that begins with 0xff, because its equivalence is false there
  (`SkipScan.EndsDespiteAnFFPrefix`); `Rounds.EndsIffSoon` covers it.
- Source.Read is split into RunFilters, HandOver and Filtered, and pump.Step into Fetch and Deliver.
- Filters are objects that hold their Process function as a value, since the model has no interface dispatch.
  Not modelled: the same object chained twice or at both ends, a filter that returns Read's own sentinel errors,
  one that returns a slice with a cut-off capacity or keeps writing to memory it has returned, and padding bytes
  the CBC filter's append may leave in the buffer behind the chunk.
- The sink's writer is a bytes.Buffer, which never fails. Closing the ends is not modelled.
- AES, key and IV errors and random IVs: any inverse pair of 16-byte block permutations. Hashes are any function
  of the bytes written.
- StateMachine is a transition system on values, since its steps are those of several goroutines; StateLoop ties
  the object's methods to the steps, longer ones for the case that no other goroutine comes in between. Timers
  may fire at any time, also between T.Stop and the send on Exit; states are registered before Start; handlers
  and F do not write the fields, and F does not block. The transition system has no timer channels, only the
  object has; a receive from a channel emptied between the length check and the receive
  (`StateMachine/sm.go:180-181`) is not modelled, nor that two stopping clients wait for each other.
- StateLoop.SMObject.ActionThread: is stated for a thread that finds the lock free and room in actCtrl, because a
  method cannot be interrupted; threads that wait are those of the transition system.
- The queue and the downloader: methods that wait for another goroutine are tied to the steps for the case that
  it is where they need it; all other interleavings are those of the transition systems.
- The queue: a flush function returns and does not call the queue; a tick that finds no function is a step that
  changes nothing; stopping another thread's ticker is not modelled.
- The downloader: StopAllWorker, URL parsing, the transfer and its result; the worker's unlocked fields are read
  atomically; submitting the same entry object twice.
- Stats.Statistic.Reset: does not model 64-bit wrap-around, because no bound on the sums is promised.
- RateLimit.RateLimiter.Pass: the cache may push other keys out at any insertion; which ones is a parameter. The
  caller's program counter is part of the key. Concurrent calls for one key are not modelled.
- HTTP, RPC, redis, SQL, configuration, logging, process and signal helpers, backups and transactions.
