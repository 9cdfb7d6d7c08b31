# pngmeta / pmt: a verified model of the PNG text-chunk tools

This project models two variants of a small command-line tool that adds,
dumps and removes PNG `tEXt` chunks. The model is written in Dafny.

- The first variant, `src/`, covers two things:
  - `dosomething`'s three operations on one file buffer: build a text chunk, dump the text chunks, and rewrite the file without the selected chunks;
  - the helpers in `src/util.h`: `endianswap`, `getfilename`, `custom_strdup` and `strtol_or_die`.
- The second variant, `pngmeta/`, covers three things:
  - the option loop of `main` with its post-parse checks;
  - the output-path construction of the batch loop;
  - the decisions `process` takes around its chunk engine: DUMP decoding and the ADD/REMOVE size checks.
- It also models the helpers in `pngmeta/util.h`:
  - the growable arrays `dynstr`/`dynint`;
  - `numcmp`;
  - `strtol_or_die`.

Files and modules:

- `wrappers.dfy` (`Wrappers`): `Option` and `Result`. `Err` stands for a call to `die`.
- `libc.dfy` (`LibC`): the C library pieces the code relies on.
  - `memchr` and `strrchr` are first and last occurrence searches.
  - `int` is a 32-bit newtype, and a `long` assigned to an `int` wraps modulo 2^32.
  - The outcome of a `strtol` call (value, characters consumed, `ERANGE`) is a value the caller supplies.
- `png.dfy` (`Png`): the container format.
  - It covers the signature (section 5.2 of the PNG Specification, ISO/IEC 15948), the chunk layout (section 5.3) and the `tEXt` payload `keyword NUL text` (section 11.3.4.3).
  - Bytes and 32-bit unsigned values are integer newtypes, and byte `k` of a value is `ByteOf(v, k)`.
  - It also covers big-endian encoding and the serialisation of a chunk list with its size formula.
- `src_util.dfy` (`SrcUtil`): `src/util.h`.
- `pngmeta_util.dfy` (`PngmetaUtil`): `pngmeta/util.h`.
  - `dynstr`/`dynint` is one generic class, `DynArray<T>`, whose fields are `capacity`, `size` and `ptr`.
  - `Add` reallocates to a fresh array of double capacity when the array is full.
- `src_main.dfy` (`SrcMain`): `src/main.c`, `dosomething`.
- `pngmeta_main.dfy` (`PngmetaMain`): `pngmeta/main.c`, the option loop and its checks.
- `pngmeta_process.dfy` (`PngmetaProcess`): `pngmeta/main.c`, the output path of the batch loop and the decisions of `process`.

The option loop is proved against a specification function in two forms:
- `ParseOptions` is the imperative loop over the three `DynArray` objects;
- `Parse` is a left fold of `Step` over the token sequence, followed by `Finish`.

The lemmas describe `Parse` in terms of independent reference functions:
- `LastMode` gives the last mode option;
- `KvArgs` gives the key and text arguments in order;
- `Positionals` gives the file arguments.

The two "last option" registers are exactly as in the source.
- `lastopt` is updated only by long options, and `lastsopt` only by short ones.
- So after `-k a --text b`, `lastsopt` still holds `'k'`. Any option other than a text option is then fatal (`MixedPairThenModeFails`), and a second `--text` is accepted (`SecondTextPassesLoop`).
- The same pair written `--key a --text b` is accepted (`LongPairThenModeAccepted`).

The two variants compute the dump's `valsize` differently.
- `src/main.c` sets `valsize` to `length - keysize`, which counts the NUL. It is never used afterwards.
- `pngmeta/main.c` sets it to `length - keysize - 1`, which is the text's length.
- `ValSizeVariants` relates the two.

## Model

| member | source | states |
|---|---|---|
| LibC.ToInt32 | src/util.h:62 | a `long` stored in an `int` is congruent to it modulo 2^32, and unchanged when it is in `int` range |
| LibC.FirstIndexOf | src/main.c:90 | `memchr`: no result exactly when the byte is absent; otherwise the position holds the byte and no earlier position does |
| LibC.LastIndexOf | src/util.h:40 | `strrchr`: no result exactly when the character is absent; otherwise the position holds it and no later position does |
| LibC.LastIndexOfAt | src/util.h:40-42 | an occurrence with none after it is the one `strrchr` returns |
| Png.FromBytesDigits | src/util.h:27-32 | the four bytes assembled into a 32-bit value are the bytes of that value, least significant first |
| Png.ByteOfDecompose | src/util.h:27-32 | every 32-bit value is the sum of its four bytes times powers of 256 |
| Png.ChunkBytesLength | src/main.c:137 | one chunk on disk takes 12 + length bytes |
| Png.Serialize | src/main.c:124-137 | the on-disk form of a chunk list: its chunks' bytes (length, type, data, CRC) one after another, in order |
| Png.SerializeLength | src/main.c:124-140 | a serialised chunk list is as long as the size formula: the sum of 12 + length over its chunks |
| Png.SerializedSizeAppend | src/main.c:117-118 | the size formula adds over concatenation |
| Png.DecodeText | src/main.c:90-94 | splitting at the first NUL fails exactly when there is no NUL; otherwise the data is keyword, NUL, text, with a NUL-free keyword |
| Png.DecodeTextPayload | src/main.c:40-44 | decoding a built payload gives back its NUL-free keyword and any text |
| SrcUtil.EndianSwap | src/util.h:21-35 | the `endianswap` byte reversal: each of the four bytes, selected by shift and mask, is moved to the mirrored position (its properties are the next two rows) |
| SrcUtil.EndianSwapMovesBytes | src/util.h:27-32 | input byte k is byte 3 - k of the result |
| SrcUtil.EndianSwapInvolution | src/util.h:21-35 | swapping twice gives back the value |
| SrcUtil.StoreSwappedIsBigEndian | src/main.c:131-136 | storing the swapped value on a little-endian host writes the value's big-endian bytes |
| SrcUtil.GetFileName | src/util.h:37-47 | the offset of the last backslash if there is one, else of the last slash, else 0; the separator is kept in the suffix |
| SrcUtil.BackslashBeatsLaterSlash | src/util.h:40-46 | the last backslash is chosen even when a slash follows it |
| SrcUtil.CustomStrdup | src/util.h:49-56 | a fresh buffer of `strlen + 1` characters holding the string and then a NUL |
| SrcUtil.StrtolOrDie | src/util.h:58-69 | rejected exactly when nothing was consumed, something remains, or the truncated value equals LONG_MIN/LONG_MAX with ERANGE; otherwise the truncated value |
| SrcUtil.StrtolRangeClauseInert | src/util.h:62-65 | since the truncated value never equals a 64-bit limit, acceptance is "something consumed and nothing remains" |
| SrcUtil.StrtolOverflowAccepted | src/util.h:62-68 | an overflowing number (LONG_MAX with ERANGE) is accepted as -1 |
| PngmetaUtil.DynArray.Init | pngmeta/util.h:33-34 | `capacity` is the requested size, `size` is 0, and the array holds nothing |
| PngmetaUtil.DynArray.Add | pngmeta/util.h:36-60 | the value is stored at the old `size`, `size` grows by one, earlier elements are kept across a reallocation, and capacity doubles exactly when the array was full |
| PngmetaUtil.NumCmp | pngmeta/util.h:87-96 | -1, 1 or 0 exactly when x < y, x > y or x == y |
| PngmetaUtil.NumCmpIsTotalOrder | pngmeta/util.h:87-96 | antisymmetric in sign; the induced order is reflexive, antisymmetric, transitive and total |
| PngmetaUtil.StrtolOrDie | pngmeta/util.h:74-85 | rejected exactly when nothing was consumed, something remains, or ERANGE is set; otherwise the truncated value |
| PngmetaUtil.StrtolTruncatesLong | pngmeta/util.h:78-84 | a number that fits a `long` but not an `int` is accepted and truncated |
| PngmetaUtil.StrtolVariantsAgree | pngmeta/util.h:80-82 | without ERANGE the two variants' acceptance rules agree |
| PngmetaUtil.GetFileNameOfJoin | pngmeta/util.h:62-72 | for `dir/name` the suffix returned is "/name" |
| SrcMain.BuildTextChunk | src/main.c:40-49 | the chunk has type tEXt, length `strlen(key) + 1 + strlen(text)`, data key, NUL, text with no trailing NUL, and it decodes back to key and text |
| SrcMain.DumpPrefix | src/main.c:86-104 | a failure names a tEXt chunk without NUL and carries the entries already printed, which are the dump of the chunks before it; otherwise every entry reports a tEXt chunk whose data is its keyword, NUL, text, in increasing chunk order |
| SrcMain.DumpSpec | src/main.c:81-104 | the DUMP path: a NULL list or no chunk is fatal; otherwise the dump loop over all chunks |
| SrcMain.Dump | src/main.c:81-104 | the loop returns exactly `DumpSpec`: no chunks or a NULL list is fatal, otherwise the `DumpPrefix` result over all chunks, the entries printed before a fatal chunk included |
| SrcMain.DumpPrefixErrSticky | src/main.c:91-92 | once the dump has died, later chunks change nothing |
| SrcMain.DumpPrefixComplete | src/main.c:86-102 | a successful dump reports every tEXt chunk |
| SrcMain.DumpMissingNulFatal | src/main.c:90-92 | any tEXt chunk without NUL makes the whole dump fail |
| SrcMain.DumpPrefixOkWithoutBad | src/main.c:86-102 | with no NUL-less tEXt chunk among them, the dump loop gets through the first `n` chunks |
| SrcMain.DumpDiesAtFirstBad | src/main.c:86-102 | the dump dies at the first NUL-less tEXt chunk, after printing the entries of every tEXt chunk before it |
| SrcMain.DumpPrintsBeforeDie | src/main.c:86-102 | a valid tEXt chunk followed by a NUL-less one: its entry is printed, then the dump dies at index 1 |
| SrcMain.DumpValSize | src/main.c:94-95 | `valsize` is the text length plus one: it counts the NUL |
| SrcMain.SwappedChunkIsChunkBytes | src/main.c:131-136 | the four `memcpy`s write the chunk's on-disk bytes |
| SrcMain.WriteChunk | src/main.c:131-137 | the bytes written are the chunk's on-disk form, 12 + length of them |
| SrcMain.CopiedAsWritten | src/main.c:124-140 | what the nested loop as written copies for the first `n` chunks: each chunk's on-disk bytes once per selector that differs from its index |
| SrcMain.RemoveAsWritten | src/main.c:112-140 | no chunks is fatal; otherwise the output is the signature followed by each chunk repeated once per selector that differs from its index |
| SrcMain.CopyPerSelector | src/main.c:126-139 | the inner loop appends the chunk once for each differing selector among `selchunks[0..selchunk]` |
| SrcMain.RemoveChunks | src/main.c:117-140 | the corrected loop: the signature followed by the chunks whose index is not a selector, each once, in order |
| SrcMain.KeepUnselected | src/main.c:117-140 | the chunks the loop is meant to keep, per the comment at :117: those among the first `n` whose index is not a selector, in order |
| SrcMain.SingleSelectorAsIntended | src/main.c:124-140 | with one selector the loop as written produces the corrected output |
| SrcMain.KeepUnselectedSingle | src/main.c:124-140 | with one selector k, the kept chunks are all chunks except index k, in original order |
| SrcMain.KeepUnselectedSize | src/main.c:117-118 | the kept chunks never take more room than the input chunks |
| SrcMain.RemoveFitsInput | src/main.c:117-118 | the corrected output fits the `fsize` buffer: at most the signature plus the input chunks |
| SrcMain.RemoveTwoSelectorsOverrun | src/main.c:118-137 | with two selectors that miss the only chunk, 32 bytes are written into a 20-byte buffer, while the corrected loop writes 20 |
| PngmetaMain.ScanErrSticky | pngmeta/main.c:178-257 | a fatal option ends the scan; later tokens change nothing |
| PngmetaMain.ChunkValue | pngmeta/main.c:209-210 | `strtol_or_die(GETS())` for `--chunk` (and for `-c` at :249): the argument's value as `StrtolOrDie` accepts it, or the fatal exit for a rejected number |
| PngmetaMain.LongStep | pngmeta/main.c:179-214 | the LONGOPT handler on the abstract state: the key check, then the if-chain's update of mode, `kv`, `outdir`, flags or `chunks` or its fatal exit, then `lastopt` set to the option's name |
| PngmetaMain.ShortStep | pngmeta/main.c:215-253 | the SHORTOPT handler on the abstract state: the key check, then the `switch` (no `default`, so an unknown letter changes nothing), then `lastsopt` set to the letter |
| PngmetaMain.Step | pngmeta/main.c:178-256 | one token: a long option, a short option, or a positional argument appended to `infiles` |
| PngmetaMain.ScanPrefix | pngmeta/main.c:172-257 | the option loop over the first `n` tokens from the zeroed locals; the first fatal exit ends it |
| PngmetaMain.Finish | pngmeta/main.c:259-264 | the checks after ENDOPT in order: odd `kv`, then no mode or no file, then add mode without a pair |
| PngmetaMain.Parse | pngmeta/main.c:172-264 | the option loop followed by the post-parse checks |
| PngmetaMain.StepCollects | pngmeta/main.c:186-256 | one accepted token sets the mode if it is a mode option, appends its argument to `kv` if it is a key or text option, and appends to `infiles` if positional |
| PngmetaMain.StepRegisters | pngmeta/main.c:213-253 | an accepted long option sets `lastopt` to its name, a short one sets `lastsopt` to its letter, and each leaves the other register as it was |
| PngmetaMain.StepSettings | pngmeta/main.c:203-251 | one accepted token appends its parsed index to `chunks` if it is a chunk option (whose number was then accepted), sets `outdir` if it is a directory option, and sets `exclusive`/`human` if it is that option; otherwise they are unchanged |
| PngmetaMain.ScanCollects | pngmeta/main.c:178-257 | a scan that has not failed holds the last mode given, the key/text arguments in order, the positional arguments in order, the chunk indices in order, the last directory given, and each flag exactly when its option occurs, and in `lastopt`/`lastsopt` the name of the last long option and the letter of the last short option |
| PngmetaMain.ParseOutcome | pngmeta/main.c:259-264 | a successful parse has the last mode, never `OpNone`, an even `kv` of the key/text arguments (non-empty for add), a non-empty `infiles`, the chunk indices in order, the last directory and the flags given |
| PngmetaMain.KeyNotFollowedByTextFails | pngmeta/main.c:182-184 | after a key option, any option other than a text option is fatal |
| PngmetaMain.TextNeedsKeyRegister | pngmeta/main.c:196-201 | a text option is accepted exactly when the last long option before it was `--key` or the last short option before it was `-k`; otherwise it fails with the text-needs-key error |
| PngmetaMain.MixedPairThenModeFails | pngmeta/main.c:213 | `-k a --text b -A f` is rejected: the long option does not clear `lastsopt` |
| PngmetaMain.LongPairThenModeAccepted | pngmeta/main.c:182-213 | `--key a --text b -A f` parses to add mode with `kv` ["a","b"] and file "f" |
| PngmetaMain.SecondTextPassesLoop | pngmeta/main.c:196-201 | while `lastsopt` stays 'k', a second `--text` is accepted; a following option is fatal, and otherwise only the parity check rejects it |
| PngmetaMain.TrailingKeyIsIncompletePair | pngmeta/main.c:259-260 | a key option given last leaves an odd `kv`, which is rejected after the loop |
| PngmetaMain.LongOption | pngmeta/main.c:179-214 | the LONGOPT body changes the locals and arrays exactly as `LongStep` says, or dies with the error it names |
| PngmetaMain.ShortOption | pngmeta/main.c:215-253 | the SHORTOPT body changes the locals and arrays exactly as `ShortStep` says, or dies with the error it names |
| PngmetaMain.LongSetting | pngmeta/main.c:194-212 | the if-chain after the mode options and `help` (key, text, dir, exclusive, human, chunk, unrecognised) performs `LongStep`'s update or dies with the error it names |
| PngmetaMain.ShortSetting | pngmeta/main.c:233-251 | the `switch` cases after the mode letters and 'h' perform `ShortStep`'s update; an unknown letter changes nothing |
| PngmetaMain.PairOption | pngmeta/main.c:194-202 | a text option with neither register saying key dies with `kv` unchanged; otherwise the argument is appended to `kv` |
| PngmetaMain.ChunkOption | pngmeta/main.c:209-210 | a rejected number dies with `chunks` unchanged; an accepted one is appended to `chunks` |
| PngmetaMain.ScanToken | pngmeta/main.c:178-256 | one pass of the option loop performs `Step` on the state the locals and arrays hold |
| PngmetaMain.ParseOptions | pngmeta/main.c:172-264 | the option loop with its checks returns exactly `Parse` of the tokens |
| PngmetaMain.ChecksDetermineFinish | pngmeta/main.c:259-264 | the failure conditions with their precedence, and passing the options on unchanged otherwise, determine the outcome: it is `Finish`'s |
| PngmetaMain.CheckOptions | pngmeta/main.c:259-264 | an odd `kv` fails first; with whole pairs, no mode or no input file fails; then add mode without a pair fails; otherwise the options pass unchanged, and only when all of this holds |
| PngmetaProcess.OutfileAsWritten | pngmeta/main.c:274-283 | the output-path code as written: buffer size `outdirlen + fnlen + 1` with `fnlen = filename - infile`, the directory then `fnlen` characters from the file-name suffix (flagging a read past the input's NUL), and the NUL index `outdirlen + fnlen + 1` |
| PngmetaProcess.OutfileAsWrittenOverruns | pngmeta/main.c:274-283 | as written, the NUL is stored at index `size`, one past the buffer, and as many characters are copied as the input's directory part has |
| PngmetaProcess.OutfileAsWrittenExample | pngmeta/main.c:276-283 | `-d out dir/x.png` gives a 7-character buffer holding "out/x." with the NUL at index 7, instead of "out/x.png" |
| PngmetaProcess.OutPath | pngmeta/main.c:271-286 | the corrected output path (minimal fix: no separator added): the input path without `--dir`, else the directory followed by the input's whole file-name suffix, which keeps its own separator when the input has one |
| PngmetaProcess.OutPathShape | pngmeta/main.c:271-286 | with no output directory the output path is the input path; with one it starts with the directory's characters, followed by all of the input or a suffix of it starting at a separator |
| PngmetaProcess.OutPathOfJoin | pngmeta/main.c:274-283 | for `dir/name` the intended output path is outdir, "/", name |
| PngmetaProcess.OutfileAsWrittenDropsPlainName | pngmeta/main.c:274-283 | for `-d out x.png`, `fnlen` is 0: the 4-character buffer receives "out", its last slot is never written and the NUL goes to index 4, past the end; the corrected path is "outx.png", with no separator added |
| PngmetaProcess.CopyInto | pngmeta/main.c:281-282 | `memcpy`: the source characters land at the offset, and the rest of the buffer is unchanged |
| PngmetaProcess.BuildOutfile | pngmeta/main.c:275-283 | the corrected construction fills a fresh buffer with the output path and one NUL, all within bounds |
| PngmetaProcess.AddAsWritten | pngmeta/main.c:82-99 | the ADD size check as written: `newfsize` stays 0 and is compared with the removed size under `--exclusive`, else with `fsize` |
| PngmetaProcess.AddCheckIgnoresResult | pngmeta/main.c:82-99 | as written, ADD dies exactly when the compared size is 0, whatever the engine returned |
| PngmetaProcess.AddUnchangedSizeSlipsThrough | pngmeta/main.c:96-98 | an add that leaves a 100-byte file at 100 bytes is written as written, but stopped by the intended check |
| PngmetaProcess.AddChecked | pngmeta/main.c:87-99 | intended ADD check: dies exactly when the size after adding equals the size before, otherwise writes that many bytes |
| PngmetaProcess.AddChecksAgreeOnChange | pngmeta/main.c:82-99 | when the compared size is nonzero and the size changed, both checks write the new size |
| PngmetaProcess.RemoveChecked | pngmeta/main.c:141-143 | REMOVE dies exactly when the engine's result equals the input size, otherwise writes that many bytes |
| PngmetaProcess.RemoveCheckMatchesIntendedAdd | pngmeta/main.c:141-143 | the REMOVE check is the intended ADD check without `--exclusive` |
| PngmetaProcess.LineFor | pngmeta/main.c:119-133 | a non-tEXt chunk gives nothing; a tEXt chunk without NUL gives the invalid line; otherwise the count, length, NUL-free keyword and `length - keysize - 1` value bytes whose payload is the data |
| PngmetaProcess.DumpLines | pngmeta/main.c:117-135 | the whole output of the DUMP loop: the lines of each chunk in chunk order, nothing for a non-tEXt chunk, the invalid message for one without NUL, otherwise its entry |
| PngmetaProcess.DumpText | pngmeta/main.c:113-135 | dies exactly when the parser cannot be created; otherwise the DUMP loop returns exactly `DumpLines` of the parsed chunks |
| PngmetaProcess.DumpLinesAppend | pngmeta/main.c:121-125 | the dump of a concatenation is the concatenation of the dumps: an invalid chunk does not stop later ones |
| PngmetaProcess.DumpLinesCount | pngmeta/main.c:117-134 | one line per tEXt chunk, valid or not, and none for other types |
| PngmetaProcess.DumpTextRoundTrip | pngmeta/main.c:119-133 | a tEXt chunk built from a NUL-free keyword and any text is dumped as that keyword and text |
| PngmetaProcess.ValSizeVariants | pngmeta/main.c:127-128 | this `valsize` is the text length, one less than the other variant's |

## Left out

- File I/O (`fopen`, `fread`, `fwrite`) is left out. The input is the parsed chunk list, and the produced buffer or decision is the output.
- `printf` is left out. The dump returns records instead of printed lines, so the model does not capture that `%s`/`%.*s` stop at an embedded NUL.
- The chunk engines are foreign code and are not part of this model: `rpng_chunk_*`, `png_parser_*`, `png_add_text_chunks`, `png_remove_chunk_by_type` and `png_remove_chunks`. Their results are parameters: a chunk list (`None` for NULL) or the sizes they return. In `src/main.c` the ADD path's chunk insertion and `--exclusive` removal belong to the engine; `BuildTextChunk` models the payload construction.
- CRC-32 is left out because it is never computed in the modelled code. The stored CRC is copied verbatim.
- `src/main.c`'s `main`, `src/argv.h` and `monolithic-main.c` are not part of this model. They are argument plumbing over an option library that is not available.
- The STARTOPT/GETS macros are abstracted: each token arrives with the argument `GETS()` would return.
- The syntax of `strtol` is abstracted: the caller supplies the outcome (value, consumed characters, ERANGE).
- Allocation failures (`malloc`/`realloc` returning NULL) are left out, and so is the overflow of the `size_t`/`int` size arithmetic.
- PngmetaUtil.DynArray.Init: requires a capacity of at least 1, as every call in the program passes; with 0 the array could never grow.
- The batch loop over `infiles` and the dispatch in `process` are modelled per file, not as a loop. As written, the output path is `OutfileAsWritten` and the ADD check `AddAsWritten`; their corrected counterparts are `BuildOutfile` (with `OutPath`) and `AddChecked`. The REMOVE check is `RemoveChecked` and the DUMP path `DumpText`, both as written. The `PNGMETA_OP_NONE` case of `process` is unreachable by `ParseOutcome`.
- PngmetaProcess.OutPath: the corrected output path only copies the whole file-name suffix and keeps the NUL in bounds. It adds no separator, so `-d out x.png` gives "outx.png" rather than the evidently intended "out/x.png". With `dir/x.png` the suffix carries its own separator. The same holds for `BuildOutfile`.
- Png.Signature: its value, the 8-byte PNG signature of section 5.2 of the PNG Specification, is an assumption. `png_signature` is declared in `rpng.h`, which is not part of this model.
- SrcMain.Dump: the model assumes that the `realloc` at `src/main.c:97` extends the block in place. When the block moves, the old pointer is already freed, so the `free(chunks[i].data)` at `src/main.c:103` is a double free (undefined behaviour, an abort under glibc) and the new block leaks. The dump can then stop after any earlier entry; the model reports every entry.
- The host is taken to be little-endian: `memcpy` of an `unsigned int` writes its least significant byte first.
- `long` is taken to be 64 bits wide and `int` 32 bits (LP64, as on Linux and macOS). On a 64-bit Windows build `long` is 32 bits, `LONG_MAX == INT_MAX`, and the three members below make statements that do not hold there.
- SrcUtil.StrtolRangeClauseInert: holds only with a 64-bit `long`. With a 32-bit `long` the range test of `src/util.h` does fire on a saturated value.
- SrcUtil.StrtolOverflowAccepted: holds only with a 64-bit `long`. With a 32-bit `long` an overflowing number is rejected.
- PngmetaUtil.StrtolTruncatesLong: holds only with a 64-bit `long`. With a 32-bit `long`, `strtol` saturates a number above `INT_MAX` and sets ERANGE, so it is rejected.
- PngmetaProcess.DumpText: the results of `png_parser_next` are not modelled. The input sequence stands for whatever chunk each call left before the first `PNG_END`, whether that call succeeded or failed, since the loop at `pngmeta/main.c:117` stops only on `PNG_END`. A parser that keeps failing without ever returning `PNG_END` makes the loop run forever; that case is not modelled.
- SrcUtil.EndianSwap: masks and shifts whole bytes, so it is written with `ByteOf` and powers of 256, and the `|` of its disjoint parts is written as `+`.
- SrcMain.RemoveAsWritten: the `malloc(fsize)` buffer is modelled as a growing byte sequence, so the overrun is stated by lengths (`RemoveTwoSelectorsOverrun`) rather than as a write out of bounds.
- PngmetaProcess.OutfileAsWritten: models the two out-of-bounds effects as values: the NUL index and an `overread` flag for reading past the input's terminator. It is not an array write.
- The `-h`/`--help` handler (`usage()`) is modelled only as its fatal exit.

## Findings

| source | as written | input that shows it | evidently intended | confidence | as-written member | corrected member |
|---|---|---|---|---|---|---|
| src/main.c:126-138 | the inner `j` loop copies chunk `i` once for every selector that differs from `i` | one IEND chunk, selectors 5 and 6: 32 bytes written into a 20-byte `malloc(fsize)` buffer | copy each chunk once unless its index is one of the selectors | not executed | SrcMain.RemoveTwoSelectorsOverrun | SrcMain.RemoveChunks |
| pngmeta/main.c:276-283 | `fnlen = filename - infile` is the directory-part length, and the NUL is stored at `outdirlen + fnlen + 1` | `-d out dir/x.png`: buffer of 7 holds "out/x.", NUL written at index 7 | copy the file-name suffix and store the NUL right after it | not executed | PngmetaProcess.OutfileAsWrittenExample | PngmetaProcess.BuildOutfile |
| pngmeta/main.c:82-98 | the "size unchanged" check compares `newfsize`, which stays 0, with `fsize` | a 100-byte file that the add leaves at 100 bytes: the check passes | die when the size after adding equals the size before | not executed | PngmetaProcess.AddUnchangedSizeSlipsThrough | PngmetaProcess.AddChecked |
