# Sweeper in Dafny

A model of `sweeper.go`. `Sweeper` is a buffered reader derived from Go's
`bufio.Reader`. It pulls bytes from an `io.Reader` into a growable buffer and
scans that buffer for a multi-byte delimiter (`ReadSliceWithString`). It also
offers a plain bounded `Read`.

Files:

- `source.dfy` (module `Source`): the `io.Reader` a Sweeper is bound to.
  - The reader is a class `Reader` over a script of answers (`Chunk`: bytes plus an error).
  - `Read(room)` hands over the next chunk. A chunk longer than `room` is split: its first `room` bytes come now, without an error; the rest and the chunk's error come on later calls. An exhausted script answers `(0, io.EOF)` for ever.
  - Every count is between 0 and `len(p)`, and the reader writes only `p[:n]`.
  - `Stream` and `Weight` give the bytes the script holds and its size.
- `bytes.dfy` (module `Bytes`): the byte-slice primitives the code uses.
  - `bytes.Index` (`IndexOf`), the built-in `copy` (`CopyInto` on values, `Copy` on an array), `make([]byte, n)` (`Zeros`), and the all-zero test (`AllZero`).
- `sweeper.dfy` (module `Sweeper`): the core. It has two layers.
  - The first layer gives each operation as a function on a `State`: buffer, `r`, `w`, the latched error, and what the reader's script has left. These are `Grow`, `PullLoop` and `Filled` for `fill`; `ScanFrom` and `ReadSliceResult` for `ReadSliceWithString`; and `ReadResult` for `Read`.
  - The second layer is the class `Sweeper`, with the Go struct's fields, which are updated in place. Each method is proved to leave exactly the state the matching function computes.
  - `fill`'s two phases are the methods `GrowBuffer` and `PullIntoBuffer`. The latter runs the bounded retry loop (`Retry`) and lands what it brought (`Deposit`).
  - One turn of `ReadSliceWithString`'s `for` loop is `SearchOnce`, which reports `Done(outcome)` or `Refilled`.
  - What a call does with its input is stated twice: relative to the buffer (`ScanMeaning`, for every state), and relative to the input itself, the buffered bytes followed by what the source still holds (`ScanTracksInput`, for delimiters without a zero byte).
  - `Read`'s final copy is `CopyOutTo`.
- `properties.dfy` (module `SweeperProperties`): lemmas that relate operations or whole runs:
  - when `fill` panics;
  - how its retry loop ends;
  - that `Read` loses no byte;
  - that the endless branch of `ReadSliceWithString` is a fixpoint;
  - concrete runs that pin down behaviour of the code that its comments do not describe.

Outcomes the Go code expresses by unwinding or by never returning are values here:

- `Fill` returns `panicked`, the "tried to fill full buffer" panic, together with the state the panic leaves.
- `ReadSliceWithString` returns an `Outcome`: `Returned(line, err)`, `Panicked` or `Diverged`.
- `Read` returns `panicked` for the panic of slicing `buf[r:w]` with `r > w`; its specification `ReadResult` ends in `SlicePanic`.
- `Diverged` is the branch in which the Go loop repeats itself unchanged for ever. The model proves that this branch is a fixpoint (`DivergedRepeats`).

## Model

| member | source | states |
|---|---|---|
| Source.Stream | sweeper.go:110 | the bytes a source delivers, in order; a source of empty answers delivers none |
| Source.Respond | sweeper.go:110 | one Read into `room` bytes returns at most `room` bytes; an exhausted source answers (0, EOF); a (0, nil) answer is consumed |
| Source.WeightCounts | sweeper.go:110 | a script's size counts its answers and the bytes they deliver |
| Source.RespondConserves | sweeper.go:110 | a Read loses and invents no byte: returned bytes followed by the rest of the stream are the stream; the script shrinks unless exhausted or `room` is 0 |
| Source.Reader.Read | sweeper.go:110 | the reader's answer and new script are those of `Respond` |
| Bytes.IndexOf | sweeper.go:140 | `bytes.Index`: the result is an occurrence with none before it, and it is -1 exactly when there is no occurrence |
| Bytes.IndexOfIs | sweeper.go:140 | an occurrence at k with none before it is what `bytes.Index` returns |
| Bytes.NotIn | sweeper.go:140 | a needle whose first byte the buffer never holds is not found |
| Bytes.OccursInPrefix | sweeper.go:140 | an occurrence that ends inside a prefix is an occurrence in the whole, and back |
| Bytes.OccursBeforePadding | sweeper.go:140 | a delimiter whose last byte is not zero cannot end inside zero padding beyond w |
| Bytes.PrefixEndsWithOccurrence | sweeper.go:141 | `buf[:k]` ends with delim iff delim occurs at `k - len(delim)` |
| Bytes.Zeros | sweeper.go:92 | `make([]byte, n)` is n zero bytes |
| Bytes.CopyInto | sweeper.go:93 | `copy`: the first min(len(dst), len(src)) bytes come from src, the others stay |
| Bytes.WriteAt | sweeper.go:110 | a reader writing into `buf[w:]` changes exactly `buf[w:w+n]` |
| Bytes.Copy | sweeper.go:217 | `copy` into an array: returns min of the lengths, the prefix is src's, the rest is unchanged |
| Sweeper.BufferSize | sweeper.go:36-38 | the buffer size is max(size, minReadBufferSize) |
| Sweeper.Fresh | sweeper.go:36-40 | a new Sweeper's state: a zeroed buffer of max(size, 1) bytes, r = w = 0, no error, the reader's script |
| Sweeper.Grow | sweeper.go:85-98 | one zero byte is appended; with r > 0 the buffer becomes 256 bytes, r becomes 0 and w becomes len(buf) - r (not w - r) |
| Sweeper.CompactionKeepsTail | sweeper.go:88-98 | compaction puts the old `buf[r:]` at the front of the fresh buffer and zeros after it |
| Sweeper.FillPanics | sweeper.go:101-103 | fill panics when, after growing, w is not inside the buffer; from r == 0 with w in bounds it never does |
| Sweeper.PullLoop | sweeper.go:106-124 | the retry loop makes between 1 and 100 calls, returns at most `room` bytes, and bytes arrived whenever no error is latched |
| Sweeper.PullLoopConserves | sweeper.go:106-124 | the loop's bytes followed by the rest of the stream are the stream; the source shrinks unless an error is latched |
| Sweeper.PullLoopStops | sweeper.go:115-122 | unfolding lemma (a rewrite rule for `PullLoop`, used by the proofs): an answer carrying bytes or an error ends the loop after that call |
| Sweeper.PullLoopRetries | sweeper.go:106-123 | unfolding lemma (a rewrite rule for `PullLoop`): a (0, nil) answer makes the loop try again with one attempt fewer |
| Sweeper.Pulled | sweeper.go:106-124 | what the retry loop brings in on a grown state fits in the room after w |
| Sweeper.PulledStops | sweeper.go:115-122 | unfolding lemma (a rewrite rule for `Pulled`): on a grown state, a first answer with bytes or an error is the whole of what the loop brings in, after one call |
| Sweeper.Filled | sweeper.go:84-125 | after fill, r == 0 and cursors are in bounds; when no error is latched, w has advanced |
| Sweeper.FilledAfterGrow | sweeper.go:84-125 | unfolding lemma (a rewrite rule for `Filled`): when fill does not panic, its state is the retry loop's result delivered onto the grown buffer |
| Sweeper.DeliverWrites | sweeper.go:115-124 | the state once the retry loop has ended (`Deliver`): exactly `buf[w:w+n]` changes into the pulled bytes, w advances by n, r stays, the loop's error is latched only when it ended with one, and the script is what the loop left |
| Sweeper.DeliverConserves | sweeper.go:115-124 | delivering a loop result keeps the buffer's length and the bytes outside `buf[w:w+n]`; the written bytes followed by the rest of the stream are the stream; the source shrinks unless an error is latched |
| Sweeper.FillConserves | sweeper.go:105-124 | fill keeps the bytes before w and after the new w, writes exactly the next bytes of the stream, and either latches an error or consumes input |
| Sweeper.ScanFrom | sweeper.go:138-173 | the search loop, entered with r == 0, never panics and leaves cursors in bounds |
| Sweeper.ScanFromMeaning | sweeper.go:134-173 | err != nil iff the line does not end in delim; found: line is `buf[:i+len(delim)]` at the first occurrence and r is just past it; other error: line is `buf[:w]`, r = w, latch cleared; EOF over zeros: the whole buffer, r = w, EOF stays latched; otherwise the state is unchanged with EOF, a non-zero byte and no delimiter |
| Sweeper.FoundMeaning | sweeper.go:140-145 | the match branch keeps that promise: the line ends in delim, is the buffer up to the first occurrence, and r is just past it |
| Sweeper.ErrorMeaning | sweeper.go:148-153 | the branch for a latched error other than EOF keeps it: `buf[:w]` without delim is returned with the error, r = w and the latch is cleared |
| Sweeper.EndMeaning | sweeper.go:161-171 | the EOF branch keeps it: an all-zero buffer without delim is returned whole with EOF, and otherwise the loop goes round unchanged |
| Sweeper.ScanFromFound | sweeper.go:140-145 | unfolding lemma (a rewrite rule for `ScanFrom`): a match ends the loop with `buf[:i+len(delim)]` and r = i + len(delim) |
| Sweeper.ScanFromError | sweeper.go:148-153 | unfolding lemma (a rewrite rule for `ScanFrom`): a latched non-EOF error ends the loop with `buf[r:w]`, r = w, and the error, which is cleared |
| Sweeper.ScanFromRefill | sweeper.go:159-160 | unfolding lemma (a rewrite rule for `ScanFrom`): without a latched error the loop refills (which cannot panic) and goes round |
| Sweeper.ScanFromEnd | sweeper.go:161-171 | unfolding lemma (a rewrite rule for `ScanFrom`): with EOF latched: an all-zero buffer is returned whole; otherwise the loop goes round unchanged |
| Sweeper.ReadSliceResult | sweeper.go:135-176 | a call panics exactly when its first fill does, leaving the grown buffer; otherwise cursors stay in bounds |
| Sweeper.ReadSliceMeaning | sweeper.go:134 | unless fill panics, a call's result has every property of `ScanFromMeaning`, including err != nil iff line does not end in delim |
| Sweeper.FirstMatchInInput | sweeper.go:140 | with zero padding beyond w and a delimiter without zero bytes, a match in the buffer ends before w and is the input's first occurrence; with no match, `buf[:w]` holds none |
| Sweeper.FillKeepsInput | sweeper.go:84-125 | fill from a grown buffer with zero padding beyond w leaves zero padding beyond the new w and the same input: the grown `buf[:w]`, then the old stream |
| Sweeper.PaddingShrinks | sweeper.go:115 | zero padding beyond w stays zero padding beyond a later w when the bytes from there on are untouched |
| Sweeper.WritePastPadding | sweeper.go:115-118 | a write at w over zero padding that takes the next bytes of the stream leaves zero padding beyond the new w and the same input |
| Sweeper.FillKeepsSettled | sweeper.go:84-125 | from r == 0 with zero padding beyond w, fill cannot panic, keeps r == 0 and the padding, and keeps the input |
| Sweeper.ScanFromInput | sweeper.go:127-173 | for a delimiter without zero bytes, from r == 0 with zero padding beyond w: a nil error returns the input up to and including its first occurrence of delim and r is just past it; another error returns all input taken in, which holds no delim; EOF or the endless branch: the input taken in holds no delim; the buffer up to w and the rest of the source are still the input |
| Sweeper.Pending | sweeper.go:88-97 | the buffered bytes the next call takes as input: `buf[:w]` when r == 0; all of `buf[r:]` after a match |
| Sweeper.GrowKeepsPending | sweeper.go:85-98 | growing puts the pending bytes before w and zeros after it |
| Sweeper.ReadSliceInput | sweeper.go:127-176 | unless fill panics, a call tracks its input (the pending bytes, then the source), with every property of `ScanFromInput`: when it returns nil, the line is that input up to and including the first occurrence of delim and the rest is kept. It does not say that the call returns nil; `ReadSliceFindsDelim` does, for steady sources |
| Sweeper.FillSteady | sweeper.go:106-124 | against a steady source (every answer carries bytes and no error) with nothing latched, fill latches no error, leaves the source steady and shrinks its `Weight` |
| Sweeper.ScanFromReturnsNil | sweeper.go:138-173 | liveness of the search loop: from a settled state against a steady source (or a dry one), when the input holds delim, the loop keeps refilling until it finds it and returns with a nil error; it never stops with an error, EOF, or the endless branch |
| Sweeper.ScanFromFindsDelim | sweeper.go:127-173 | under the conditions of `ScanFromReturnsNil`, the loop returns `Returned(input[:first delim end], nil)` |
| Sweeper.FilledSettled | sweeper.go:84-125 | unless fill panics, from r == 0 with zero padding (or r > 0), fill leaves r == 0, zero padding beyond w, and the call's input (pending bytes, then the source) |
| Sweeper.FilledFromDry | sweeper.go:106-124 | against a dry source, fill leaves the source dry |
| Sweeper.FilledSteady | sweeper.go:84-125 | against a steady source with nothing latched, fill leaves a settled state with the call's input, a steady source, and an error latched only once the source is dry |
| Sweeper.ReadSliceReturnsNil | sweeper.go:127-176 | a call with nothing latched, against a steady source, returns with a nil error whenever its input holds delim |
| Sweeper.ReadSliceFindsDelim | sweeper.go:127-176 | unless fill panics, a call with nothing latched, against a steady source and with a delimiter without zero bytes, returns its input (pending bytes, then the source) up to and including the first occurrence of delim, with a nil error |
| Sweeper.CopyOut | sweeper.go:216-220 | the copy-out hands over `buf[r:r+n]` with n = min(len(p), w - r), advances r by n, and returns nil |
| Sweeper.ReadResult | sweeper.go:184-221 | Read keeps cursors in bounds and returns at most len(p) bytes |
| Sweeper.ReadResultMeaning | sweeper.go:184-221 | a non-empty p with r > w panics and changes nothing, and nothing else panics; empty p: no pull, latch returned and cleared; buffered bytes: no pull, min(len(p), w-r) bytes, latch kept; latched error on an empty buffer: returned and cleared; large p: one pull straight into p, buffer untouched; small p: one pull into buf from 0, a zero count returns the cleared latch; r <= w is kept; an error returned leaves the latch empty |
| Sweeper.Sweeper.constructor | sweeper.go:30-42 | NewSweeperSize: a zeroed buffer of max(size, 1) bytes, r = w = 0, no error; the state is `Fresh(size, script)` |
| Sweeper.Sweeper.Default | sweeper.go:45-47 | NewSweeper: a zeroed 256-byte buffer |
| Sweeper.Sweeper.Size | sweeper.go:50 | Size is len(buf), at least 1 |
| Sweeper.Sweeper.Buffered | sweeper.go:53 | Buffered is the length of `buf[r:w]` |
| Sweeper.Sweeper.ResetTo | sweeper.go:61-66 | reset installs the buffer and reader and zeroes r, w and the latch |
| Sweeper.Sweeper.Reset | sweeper.go:57-59 | Reset keeps buf, switches reader, r = w = 0, no error |
| Sweeper.Sweeper.ReadErr | sweeper.go:68-72 | readErr returns the latched error and leaves nil, so a second call returns nil |
| Sweeper.Sweeper.IsBufZero | sweeper.go:75-82 | true iff every byte of the whole buffer is zero |
| Sweeper.Sweeper.Fill | sweeper.go:84-125 | fill panics exactly as `FillPanics` says, with the grown state; otherwise leaves the state `Filled` computes |
| Sweeper.Sweeper.GrowBuffer | sweeper.go:85-99 | the growth and compaction steps leave the state `Grow` computes |
| Sweeper.Sweeper.PullIntoBuffer | sweeper.go:105-124 | the read step, run on the grown state g, writes `Pulled(g)`'s bytes at w, advances w by their count, latches the loop's error, and leaves the script the loop leaves |
| Sweeper.Sweeper.Retry | sweeper.go:106-124 | the bounded retry loop ends with the bytes, error and script `Pulled(g)` gives (`PullLoop` with 100 attempts), io.ErrNoProgress after 100 empty answers |
| Sweeper.Sweeper.Deposit | sweeper.go:115-118 | the pulled bytes land at w, w moves past them, and an error is latched |
| Sweeper.Sweeper.ReadSliceWithString | sweeper.go:135-176 | the call's outcome and final state are `ReadSliceResult`'s; r == 0 at the top of every turn of its loop |
| Sweeper.Sweeper.SearchOnce | sweeper.go:139-172 | one turn of the loop either ends the call as `ScanFrom` says (`Done`), or refills (`Refilled`), keeping r == 0 and shrinking the source or latching an error |
| Sweeper.Sweeper.Read | sweeper.go:184-221 | Read's state, panic, count, error and bytes in p are `ReadResult`'s; the rest of p is untouched |
| Sweeper.Sweeper.CopyOutTo | sweeper.go:216-220 | the copy-out writes `CopyOut`'s bytes to p and advances r |
| SweeperProperties.FillPanicsExactly | sweeper.go:85-103 | fill panics iff r > 0 and len(buf) - r >= 256; with r == 0 it only appends one zero byte |
| SweeperProperties.FillAtStart | sweeper.go:85-124 | from r == 0, fill grows the buffer by one byte, keeps `buf[:w]`, and writes the next bytes of the stream at w |
| SweeperProperties.EmptyRunGivesUp | sweeper.go:106-124 | k answers of (0, nil) make the loop call k times and give up with io.ErrNoProgress |
| SweeperProperties.PullLoopFirstProgress | sweeper.go:106-122 | after j answers of (0, nil), the first answer with bytes or an error ends the loop at call j + 1 with that answer |
| SweeperProperties.FillGivesUp | sweeper.go:124 | 100 answers of (0, nil) latch io.ErrNoProgress and leave the grown buffer |
| SweeperProperties.PulledGivesUp | sweeper.go:106-124 | on a grown state, 100 answers of (0, nil) bring in nothing and end with io.ErrNoProgress after 100 calls |
| SweeperProperties.DeliverNothing | sweeper.go:115-124 | a loop that ends with an error and no bytes leaves the buffer and cursors as they were and only latches the error |
| SweeperProperties.SilentSourceGivesUp | sweeper.go:135-153 | against such a source, the first call on a new Sweeper, with a delimiter whose first byte is not zero, returns an empty line with io.ErrNoProgress instead of looping |
| SweeperProperties.ZeroDelimiterSilentSource | sweeper.go:135-145 | against the same source, the delimiter `[0]` matches the zero byte appended at w: the call returns `[0]` with nil, leaves r = 1 beyond w = 0, and io.ErrNoProgress stays latched |
| SweeperProperties.CopyOutSplits | sweeper.go:217-218 | the copy-out hands over a prefix of `buf[r:w]` and keeps the rest |
| SweeperProperties.ReadConservesStream | sweeper.go:184-221 | returned bytes, then still-buffered bytes, then the rest of the source, are what was buffered and held before; r <= w is kept |
| SweeperProperties.RefillConservesStream | sweeper.go:202-219 | a Read that refills the empty buffer with one call and copies out of it loses and invents no byte: returned bytes, still-buffered bytes and the rest of the source are the source as it was |
| SweeperProperties.FirstCallReadsToDelimiter | sweeper.go:127-134 | the first call on a new Sweeper, with a delimiter without zero bytes, never panics and tracks the stream: when it returns nil, the line is the stream up to and including the first occurrence of delim and the rest is kept; on an error other than EOF it returns everything received, which holds no delim. That it returns nil is `FirstCallFindsDelim` |
| SweeperProperties.FirstCallFindsDelim | sweeper.go:127-173 | against a steady source, the first call on a new Sweeper, with a delimiter without zero bytes, returns the stream up to and including the first occurrence of delim with a nil error whenever the stream holds delim |
| SweeperProperties.DivergedRepeats | sweeper.go:159-172 | in the endless branch, running the loop again from the state it leaves ends the same way from the same state |
| SweeperProperties.FillTakesFirstAnswer | sweeper.go:84-125 | from r == 0, a first answer with bytes is written at w and ends fill |
| SweeperProperties.LineThenEndOfStream | sweeper.go:135-176 | "foo\|" then end of stream through a 4-byte Sweeper: "foo\|", then 256 zero bytes with EOF |
| SweeperProperties.FooBarFirstCall | sweeper.go:136-145 | the first of those calls, with the state it leaves |
| SweeperProperties.FooBarSecondCall | sweeper.go:88-98 | the second: compaction to 256 zeros, EOF, drain returns the whole buffer |
| SweeperProperties.ResetKeepsStaleBytes | sweeper.go:55-66 | after "foo\|", a Reset to a reader answering one byte c other than '\|' keeps the buffer; the next call returns c then "oo\|" with nil, the old bytes beyond w |
| SweeperProperties.FillOneByte | sweeper.go:84-125 | from r == w == 0, a one-byte answer c replaces the buffer's first byte, w becomes 1, and one zero byte is appended |
| SweeperProperties.ResetScan | sweeper.go:140-145 | the search over c then "oo\|" with w = 1 finds the '\|' at index 3, beyond w |
| SweeperProperties.UnterminatedLineNeverReturns | sweeper.go:159-172 | "abc" then end of stream: the call never returns |
| SweeperProperties.AbcFirstFill | sweeper.go:84-125 | the first fill of a 4-byte Sweeper takes "abc" and stops |
| SweeperProperties.AbcRefills | sweeper.go:140-160 | with "abc" and no '\|' in the buffer and nothing latched, the loop refills |
| SweeperProperties.AbcSecondFill | sweeper.go:84-125 | the second fill appends a zero byte and latches EOF |
| SweeperProperties.AbcDrainLoops | sweeper.go:161-172 | with EOF latched and "abc" still in the buffer, the loop goes round unchanged |
| SweeperProperties.CompactionPadsLine | sweeper.go:88-98 | "a\|" then "b\|" through a 4-byte Sweeper: the second line is three zero bytes then "b\|" |
| SweeperProperties.APipeFirstCall | sweeper.go:135-145 | the first call returns "a\|" and leaves r = w = 2 |
| SweeperProperties.APipeFirstFill | sweeper.go:84-125 | its fill writes "a\|" at the front of the grown 5-byte buffer and leaves "b\|" in the source |
| SweeperProperties.FillTakesTwoBytes | sweeper.go:84-125 | a fill from r = w = 0 over four zero bytes, whose first answer is two bytes with no error, writes them at the front of the grown 5-byte buffer, sets w = 2 and leaves the rest of the script |
| SweeperProperties.APipeFirstScan | sweeper.go:140-145 | its search finds '\|' at index 1 |
| SweeperProperties.APipeSecondCall | sweeper.go:88-145 | the second call compacts to 256 zero bytes with w = 3, takes "b\|" and returns the line with three zero bytes in front |
| SweeperProperties.APipeSecondFill | sweeper.go:84-125 | its fill compacts "a\|\0\0\0" to 256 zero bytes with w = 3 (not 0) and writes "b\|" there, so w = 5 |
| SweeperProperties.APipeSecondScan | sweeper.go:140-145 | its search finds '\|' at index 4 and returns the three zero bytes with "b\|" |
| SweeperProperties.EarlyMatchInLargeBufferPanics | sweeper.go:101-103 | a delimiter at the start of a 300-byte Sweeper's buffer makes the next call panic in fill |
| SweeperProperties.ZeroDelimiterPassesW | sweeper.go:140-142 | a zero delimiter matched in the padding leaves r > w, and a following Read into a non-empty p panics |
| SweeperProperties.OneByteFill | sweeper.go:84-125 | the first fill of a 4-byte Sweeper from a source answering "a" leaves `[97, 0, 0, 0, 0]` with w = 1 |

## Left out

- Concrete `io.Reader` implementations: the reader is a finite script of answers, each with a count between 0 and `len(p)`.
- Scratch writes: `io.Reader` lets `Read` use all of `p` as scratch space even when it returns `n < len(p)`. The scripted reader writes only `p[:n]` (`WriteAt`). `bytes.Index` (sweeper.go:140) and `isBufZero` (sweeper.go:75-82) read past `w`, so every result about the bytes beyond `w` holds only for readers that leave `p[n:]` alone: `FillConserves` (the bytes after the new `w`), `FillKeepsInput`, `ScanFromInput`, `ReadSliceInput`, `FirstCallReadsToDelimiter`, the liveness lemmas (`ScanFromFindsDelim`, `ReadSliceFindsDelim`, `FirstCallFindsDelim`) and the concrete runs.
- Endless sources: a script is finite, so a source that never runs dry cannot be expressed. Against such a source the loop at sweeper.go:138-173 can refill for ever without returning; every modelled run of that loop ends. Its measure is the script's `Weight`, the number of answers left plus the bytes they deliver (`WeightCounts`).
- The negative-count panics (sweeper.go:111-113, 197-199, 207-209): a scripted answer never has a negative count.
- The reuse of an existing `*Sweeper` in `NewSweeperSize` (sweeper.go:32-35): a Go interface type assertion. Only the size clamp is modelled.
- Aliasing: returned lines are `seq<byte>` values, not slices that share the buffer's storage.
- SweeperProperties.ReadConservesStream: stated for `r <= w` only, where `buf[r:w]` is the buffered data. With `r > w` a Read into a non-empty `p` panics (`ReadResultMeaning`), and there is no buffered data to conserve.
- Sweeper.ScanFromInput, Sweeper.ReadSliceInput, SweeperProperties.FirstCallReadsToDelimiter, Sweeper.ReadSliceFindsDelim, SweeperProperties.FirstCallFindsDelim: stated for delimiters with no zero byte, and, when `r == 0`, for buffers with only zeros beyond `w`. Otherwise a match can fall in the padding (`ZeroDelimiterPassesW`) or in stale bytes beyond `w` (`ResetKeepsStaleBytes`), and the line is then not a prefix of the input. For every state, `ScanFromMeaning` describes the line relative to the buffer.
- Sweeper.ScanFromReturnsNil, Sweeper.ScanFromFindsDelim, Sweeper.ReadSliceReturnsNil, Sweeper.ReadSliceFindsDelim, SweeperProperties.FirstCallFindsDelim: liveness (the call reads on until it has delim and returns nil) is proved for steady sources only, where every answer carries bytes and no error. A source that answers (0, nil) or an error before delim arrives is covered by the tracking lemmas (`ScanFromInput`, `ReadSliceInput`) and the retry lemmas, not by these.
- Sweeper.Sweeper.ReadSliceWithString: the endless branch returns `Diverged` instead of looping. The Go loop repeats a turn that changes nothing (`DivergedRepeats`). The method stops after one such turn.
- The panic messages and the `errNegativeRead` value: a panic is a `panicked` result, the `Panicked` outcome or `SlicePanic`. Errors other than EOF and io.ErrNoProgress are numbered.
- Performance: one-byte growth per fill and rescanning from the buffer start are not visible in the contracts.

## Where the code and its comments disagree

The model follows the code. The concrete-run lemmas show each disagreement on a small input:

- Compaction. The comment at sweeper.go:95-96 speaks of resetting the positions to scan from the start. The code sets `w = len(buf) - r` (sweeper.go:97), not the number of unread bytes (`w - r`). Zero padding can then sit before new data, and it shows up in the next line (`CompactionPadsLine`). In terms of the input, a call after a match takes all of `buf[r:]`, padding included, as its buffered input (`Pending`, `ReadSliceInput`).
- Drain at end of stream. The comments at sweeper.go:130-133 say the call returns the data in the buffer when it hits an error. At EOF, the drain returns the whole compacted buffer: after "foo|" it returns 256 zero bytes, not an empty line (`LineThenEndOfStream`). It also leaves EOF latched (sweeper.go:163-165).
- An unterminated last line. When EOF arrives with real bytes and no delimiter, the loop re-slices `buf[r:]` with `r` already 0 and never returns (`UnterminatedLineNeverReturns`, `DivergedRepeats`).
- Panic in fill. After a delimiter found early in a buffer of 257 bytes or more, the next call panics in `fill`, because compaction keeps at least 256 bytes (`EarlyMatchInLargeBufferPanics`, `FillPanicsExactly`).
- The comment at sweeper.go:155-157 says `r` is always zero in the loop. That holds at the top of every turn (the loop invariant of `ReadSliceWithString`). But the found branch can leave `r` beyond `w` (`ZeroDelimiterPassesW`), and a Read into a non-empty `p` then panics.
- A delimiter of zero bytes matches the zero padding. Against a source that answers (0, nil) 100 times, the first call with the delimiter `[0]` does not return an empty line with io.ErrNoProgress. It returns `[0]`, the padding byte at `w`, with a nil error, and io.ErrNoProgress stays latched for a later call. `SilentSourceGivesUp` therefore asks for a delimiter whose first byte is not zero (`ZeroDelimiterSilentSource`).
- Reset. The comment at sweeper.go:55 says Reset discards any buffered data. `reset` (sweeper.go:61-66) keeps `buf` and only zeroes the cursors and the latch, and the search at sweeper.go:140 scans the whole buffer, old bytes included. After a call that returned "foo|", a Reset to a reader answering "x" makes the next call return "xoo|" with a nil error (`ResetKeepsStaleBytes`).
