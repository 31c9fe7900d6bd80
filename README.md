# generate — a Dafny model

`generate` is a command-line tool that writes `count` random 64-bit numbers to a file. Each number is printed as 16 lower-case hex characters followed by a newline. Several goroutines ("workers") share the work. Each worker fills an output buffer with records in batches of `n = bufferSize * 1024 * 4`. It flushes that buffer to the shared writer at the start of every batch and once more at the end.

This project models the parts of `main.go` that decide what gets written, and proves what the source promises about them:

- `hex.dfy`: the `hex.Encode` step that turns random bytes into hex characters, and its inverse.
- `batches.dfy`: what one worker hands to `Write`, as pure functions of its random source. This covers each record, each batch, every write call, and all of them concatenated.
- `worker.dfy`: the worker itself, as a class with its three buffers, and the shared writer as a class that logs every `Write` call. The worker's loop is proved to make exactly the planned write calls, up to and including the first one that fails.
- `partition.dfy`: how `main` picks the worker count and divides `count` among the workers, using Go's truncating integer division.
- `filename.dfy`: how the output file name gets its `_%04d` index. This includes `strings.Split`, `strings.Join`, `strconv.Atoi` and `%04d`.
- `filesize.dfy`: `humanReadableFilesize`, which picks the unit used to report the amount written.

## Model

| member | source | states |
|---|---|---|
| Hex.Encode | main.go:119 | every byte becomes two characters, all of them lower-case hex digits |
| Hex.DecodeEncode | main.go:119 | decoding the hex text gives back exactly the random bytes it came from |
| Hex.EncodeByTable | main.go:119 | filling each character by a table lookup on the high or low nibble produces exactly `Encode` |
| Hex.EncodeSlice | main.go:132 | the hex characters of bytes `a..b` of a block sit at positions `2a..2b` of the block's encoding |
| Batches.Block | main.go:107-108 | each random read fills 8 bytes per record of a batch |
| Batches.Digits | main.go:109 | the hex buffer holds `lineLength-1` bytes per record of a batch |
| Batches.Line | main.go:132-133 | each record is `lineLength` bytes and ends in a newline |
| Batches.Lines | main.go:125-134 | records `a..b-1` together take `(b-a) * lineLength` bytes |
| Batches.LinesAt | main.go:132-133 | record `j` sits at offset `(j-a) * lineLength` among records `a..b-1` |
| Batches.LineFormat | main.go:132-133 | with the default line length, a record is the hex of its 8 random bytes plus a newline, and its 16 characters decode back to those bytes |
| Batches.FlushesCount | main.go:125-131 | the closed form `ceil(m/n)` counts the records whose index is a multiple of `n`, which are the flushes inside the loop |
| Batches.PlannedWriteCount | main.go:125-136 | a worker makes one write call per multiple of `n` below `m`, plus the final one, and the first call is empty |
| Batches.PlannedConcat | main.go:125-136 | a worker's write calls, concatenated, are its records `0..m-1` in order: `m * lineLength` bytes, or nothing when `m <= 0` |
| Batches.PlannedEntry | main.go:125-136 | each write call carries a run of consecutive records, at most `n` of them |
| Batches.PlannedBatchBound | main.go:110 | no write call exceeds `n * lineLength` bytes, the buffer's capacity, and each one is a whole number of records |
| Worker.Sink.Write | main.go:115 | every call is logged; it reports an error exactly when its call number is one that fails |
| Worker.Worker.constructor | main.go:102-110 | `n = bufferSize*1024*4`; buffers of `8n`, `(lineLength-1)n` and `lineLength*n+1` bytes; the first random block is drawn |
| Worker.Worker.FlushRefreshReuse | main.go:112-123 | writes the buffered records, draws and encodes the next random block, and empties the buffer; the error is the write's, and the refresh happens even when the write fails |
| Worker.Worker.ReadBlock | main.go:118 | the byte buffer becomes the generator's next block |
| Worker.Worker.EncodeBlock | main.go:119 | the first `16n` hex bytes become the encoding of the random block; the rest keep their zeros |
| Worker.Worker.Run | main.go:125-136 | the write calls made are a prefix of the planned ones and end at the first failing call; every earlier call succeeded; without a failure all planned calls were made |
| Worker.Worker.Step | main.go:126-133 | one iteration: the batch-opening flush when `j % n == 0`, then record `j`; on a flush error the worker stops with a prefix of the plan written |
| Worker.Worker.StartBatch | main.go:126-131 | the flush at the head of a batch writes the previous batch; on success a new batch begins at record `j` |
| Worker.Worker.Finish | main.go:136 | the last flush completes the plan, or fails as its own call |
| Worker.Worker.AppendRecord | main.go:132-133 | appends record `j` (its hex slice and a newline) and stays within the buffer's capacity |
| Worker.Worker.Append | main.go:132-133 | Go's `append` within capacity: the slice grows by exactly `data` |
| Worker.FailedInLoop | main.go:127-130 | a flush failing inside the loop leaves exactly a prefix of the plan written, with the error reported |
| Worker.FinalFlush | main.go:136 | the final flush writes the last, possibly short, batch, which completes the plan |
| Worker.RecordSlot | main.go:132 | record `j`'s hex slice lies inside the hex block, and with a newline it is `Line(j)`; the buffer has room for it |
| Partition.GoDivision | main.go:187-188 | Go's `/` and `%`: `a == q*b + r`, `|r| < |b|`, and `r` takes the sign of `a` |
| Partition.Workers | main.go:157-163 | the worker count used as a divisor is never 0 |
| Partition.WorkersChoice | main.go:157-163 | the worker count is the flag when it is between 1 and `count`, `count` when the flag is larger, and `GOMAXPROCS` when the clamped value is 0 |
| Partition.PartitionSplits | main.go:157-188 | exactly `count == 0` is rejected; otherwise `total = perWorker * workers`, and what is dropped is smaller than the worker count and has the sign of `count` |
| Partition.ClampBeforeFallback | main.go:157-163 | with `count = 3`, the flag at 0 and `GOMAXPROCS = 8`, the source runs 8 workers of 0 records each |
| Partition.PartitionFixedWritesRecords | main.go:157-188 | with the fallback applied before the clamp, a positive count gives 1 to `count` workers with at least one record each, and fewer than one record per worker is dropped |
| Partition.FixedAgreesUnlessFallbackExceedsCount | main.go:157-163 | the corrected order differs from the source only when the flag is 0 and `GOMAXPROCS > count > 0` |
| Partition.TotalOutput | main.go:104-195 | workers start exactly when `count > 0` and the flag is not negative; then, when no write fails, they write `total * lineLength` bytes, the size `main` reports; otherwise no worker starts and nothing is written |
| Partition.NegativeFlagReportsUnwritten | main.go:157-195 | `-count 10 -goroutine -3` gives a plan of -3 workers and a total of 9: nothing is written, yet `9 * lineLength` bytes are reported |
| Filename.Split | main.go:175-178 | `strings.Split` returns at least one piece, more than one exactly when the separator occurs, and no piece contains it |
| Filename.JoinSplit | main.go:175-182 | joining the pieces of a split with the same separator gives back the original string |
| Filename.SplitPath | main.go:175-176 | the last piece after splitting on '/' is the text after the last '/' |
| Filename.StemAndExtension | main.go:177-178 | the stem is the text before the first '.'; the stem, that '.' and the rest make up the base name; the extension is only the text between the first and second '.' |
| Filename.RebaseShape | main.go:179-183 | the rebuilt name keeps everything up to and including the last '/' and replaces only the base name |
| Filename.IndexedFilenameShape | main.go:175-183 | the indexed name is the original directory part followed by `<stem>_<index>.<ext>` |
| Filename.Atoi | main.go:171 | any accepted value lies in the 64-bit range |
| Filename.AtoiFormatIndex | main.go:180 | `Atoi` reads back the index that `%04d` printed, for every 64-bit index |
| Filename.FormatIndexWidth | main.go:180 | `%04d` gives at least four characters, and exactly four exactly for indexes -999..9999 |
| Filename.OutputNameCases | main.go:170-185 | no index leaves the name unchanged; an index `Atoi` rejects and a base name without '.' are the two failures; otherwise the result is the indexed name |
| Filesize.Humanize | main.go:57-66 | plain bytes exactly below 1024; otherwise `div = 1024^(exp+1)` with `div <= size < 1024*div`, and `exp` indexes "kMGTPE" within bounds |
| Filesize.DivTwice | main.go:63 | dividing `n` by 1024 again is the same as dividing `size` by the next power of 1024 |
| Filesize.ScaleUnique | main.go:57-66 | the bounds `Humanize` promises admit only one exponent, so they determine its result |
| Filesize.Symbol | main.go:60-67 | the unit is "B" for plain bytes and the prefix then "B" otherwise |

## Left out

- Goroutines, the `errgroup` and the file mutex are not modelled. One worker is modelled against a sink that logs its own calls. How the calls of different workers interleave, and which error `errs.Wait` returns, are not modelled.
- Random numbers are not modelled. Each worker's generator is a parameter `rand(readNo, pos)`, and seeding it from the clock is not modelled.
- `writeToFile` is not modelled: opening the file, the `bufio.Writer` in front of it, and its final `Flush`. The sink receives the worker's `Write` calls directly.
- A write error is modelled as a fixed set of failing call numbers, not as the reason it happened.
- `humanReadableFilesize` prints its quotient with `%.1f`, a floating-point format. That formatting is not modelled; `Humanize` returns the divisor and the unit prefix it would print with.
- `log.Fatalln` and `os.Exit(1)` are modelled as the outcomes `Failed(BadIndex)` and `NoData`. The panic of `strings.Split(file, ".")[1]` is modelled as `Failed(NoExtension)`.
- Command-line flags, logrus logging, `MemUsage`, timing, `HOSTNAME` and `-version` are not modelled. Their values enter as parameters.
- The `context` passed to `write` is not modelled, because nothing reads it.
- `generateNumberHex`, `appendNumberHex` and `appendInt16` are not part of this model.
- Worker.Worker.constructor: requires `lineLength >= 17`. A shorter line makes `hex.Encode` panic because the destination is too small. Longer lines are modelled, with their trailing zero bytes.
- Worker.Worker.constructor: requires `bufferSize >= 1`. With 0 and at least one record per worker, `j % n` divides by zero; with 0 and no records the source makes one empty write, which the model does not cover. A negative size makes the buffer allocation panic.
- Go strings are bytes; the file name is modelled as characters. Every character the model inspects is ASCII.
- Partition.TotalOutput: does not model the 64-bit wrap-around of `count * linelength` on line 195; it states the size for unbounded integers.
- Partition.PartitionFixedWritesRecords: states the corrected order only for a flag that is not negative. With a negative flag, both orders start no worker, as `Partition.TotalOutput` states for the source's order.

## Findings

| source | as written | input that shows it | evidently intended | confidence | as-written member | corrected member |
|---|---|---|---|---|---|---|
| main.go:157-163 | `goroutine` is clamped to `count` before the fallback to `GOMAXPROCS` | `-count 3`, `-goroutine` left at 0, `GOMAXPROCS` 8: 8 workers of `3/8 = 0` records, so the adjusted count is 0 and nothing is written | apply the fallback first and then the clamp: 3 workers of 1 record | not executed | Partition.ClampBeforeFallback | Partition.PartitionFixedWritesRecords |
