/** sweeper.go: Sweeper, a buffered reader derived from Go's bufio.Reader that
    scans its source for a multi-byte delimiter.

    The first half of the module gives each operation as a function on an
    abstract State (buffer, cursors, latched error, what the source has left);
    the class Sweeper at the end is the mutable object of the source, and each
    of its methods is proved to leave the state those functions compute. */
module Sweeper {
  import opened Source
  import opened Bytes

  const DefaultBufSize: nat := 256
  const MinReadBufferSize: nat := 1
  const MaxConsecutiveEmptyReads: nat := 100

  /** The fields of a Sweeper, together with the script its reader has left. */
  datatype State = State(buf: seq<byte>, r: nat, w: nat, err: Err, src: seq<Chunk>)

  /** Both cursors lie inside a buffer that is never empty. Nothing here
      orders r and w: ReadSliceWithString may leave r beyond w. */
  predicate CursorsInBounds(buf: seq<byte>, r: nat, w: nat)
  {
    r <= |buf| && w <= |buf| && |buf| >= MinReadBufferSize
  }

  predicate WellFormed(st: State)
  {
    CursorsInBounds(st.buf, st.r, st.w)
  }

  /** NewSweeperSize's clamp: the buffer size for a requested size, max(size, 1). */
  function BufferSize(size: int): (n: nat)
    ensures n >= size && n >= MinReadBufferSize
    ensures n == size || n == MinReadBufferSize
  {
    if size < MinReadBufferSize then MinReadBufferSize else size
  }

  /** The state NewSweeperSize(size) leaves over a reader with this script:
      a zeroed buffer of max(size, 1) bytes, both cursors at 0, no error. */
  function Fresh(size: int, script: seq<Chunk>): (st: State)
    ensures WellFormed(st) && |st.buf| == BufferSize(size) && AllZero(st.buf)
    ensures st.r == 0 && st.w == 0 && st.err == Nil && st.src == script
  {
    State(Zeros(BufferSize(size)), 0, 0, Nil, script)
  }

  // ---------------------------------------------------------------- fill

  /** The first steps of fill: append one zero byte; then, when r > 0, move
      buf[r:] to the front of a fresh defaultBufSize buffer (truncating it if
      longer) and set w to len(buf[r:]) - 1, which is the old length minus r,
      whatever w was. */
  function Grow(st: State): (g: State)
    requires st.r <= |st.buf|
    ensures g.r == 0 && g.err == st.err && g.src == st.src
    ensures st.r == 0 ==> g.buf == st.buf + [0] && g.w == st.w
    ensures st.r > 0 ==> |g.buf| == DefaultBufSize && g.w == |st.buf| - st.r
  {
    var grown := st.buf + [0];
    if st.r > 0 then
      var temp := grown[st.r..];
      st.(buf := CopyInto(Zeros(DefaultBufSize), temp), r := 0, w := |temp| - 1)
    else
      st.(buf := grown)
  }

  /** Compaction moves buf[r:] to the front of the fresh buffer, as far as it
      fits, and zeros the rest. */
  lemma CompactionKeepsTail(st: State)
    requires 0 < st.r <= |st.buf|
    ensures forall i :: 0 <= i < DefaultBufSize ==>
              Grow(st).buf[i] == if st.r + i < |st.buf| then st.buf[st.r + i] else 0
  {
  }

  /** fill panics with "tried to fill full buffer" when, after growing, w is
      not inside the buffer: without compaction only when w was already past
      the end, with compaction when buf[r:] has defaultBufSize bytes or more. */
  predicate FillPanics(st: State)
    requires st.r <= |st.buf|
    ensures st.r == 0 && st.w <= |st.buf| ==> !FillPanics(st)
  {
    Grow(st).w >= |Grow(st).buf|
  }

  /** The result of fill's retry loop: the bytes pulled, the error to latch
      (Nil when bytes arrived without one), the script left, and the number of
      calls made on the reader. */
  datatype Pull = Pull(data: seq<byte>, err: Err, rest: seq<Chunk>, calls: nat)

  /** fill's loop with `tries` attempts left, each a Read into room bytes: it
      stops at the first answer with an error or with bytes, and gives up with
      io.ErrNoProgress when the attempts run out. */
  function PullLoop(src: seq<Chunk>, room: nat, tries: nat): (p: Pull)
    ensures p.calls <= tries && (tries > 0 ==> p.calls >= 1)
    ensures |p.data| <= room
    ensures p.err == Nil ==> |p.data| > 0
    decreases tries
  {
    if tries == 0 then Pull([], NoProgress, src, 0)
    else
      var resp := Respond(src, room);
      if resp.err != Nil || |resp.data| > 0 then Pull(resp.data, resp.err, resp.rest, 1)
      else
        var p := PullLoop(resp.rest, room, tries - 1);
        p.(calls := p.calls + 1)
  }

  /** fill's loop loses no byte and invents none, and when it ends without an
      error the script has shrunk. */
  lemma {:induction false} PullLoopConserves(src: seq<Chunk>, room: nat, tries: nat)
    ensures var p := PullLoop(src, room, tries);
            p.data + Stream(p.rest) == Stream(src)
            && Weight(p.rest) <= Weight(src)
            && (room > 0 && p.err == Nil ==> Weight(p.rest) < Weight(src))
    decreases tries
  {
    if tries > 0 {
      RespondConserves(src, room);
      var resp := Respond(src, room);
      if resp.err == Nil && |resp.data| == 0 {
        PullLoopConserves(resp.rest, room, tries - 1);
      }
    }
  }

  /** p and q end fill's loop the same way, whatever the number of calls. */
  predicate SameEnd(p: Pull, q: Pull)
  {
    p.data == q.data && p.err == q.err && p.rest == q.rest
  }

  /** A turn of fill's loop that gets bytes or an error ends the loop. */
  lemma PullLoopStops(src: seq<Chunk>, room: nat, tries: nat)
    requires tries > 0
    requires Respond(src, room).err != Nil || |Respond(src, room).data| > 0
    ensures var resp := Respond(src, room);
            PullLoop(src, room, tries) == Pull(resp.data, resp.err, resp.rest, 1)
  {
  }

  /** A turn of fill's loop that gets neither bytes nor an error tries again. */
  lemma PullLoopRetries(src: seq<Chunk>, room: nat, tries: nat)
    requires tries > 0
    requires Respond(src, room).err == Nil && |Respond(src, room).data| == 0
    ensures SameEnd(PullLoop(src, room, tries), PullLoop(Respond(src, room).rest, room, tries - 1))
  {
  }

  /** What fill's retry loop brings into the room after g's write position. */
  function Pulled(g: State): (p: Pull)
    requires g.w <= |g.buf|
    ensures g.w + |p.data| <= |g.buf|
  {
    PullLoop(g.src, |g.buf| - g.w, MaxConsecutiveEmptyReads)
  }

  /** PullLoopStops for the loop as fill runs it: an answer with bytes or an
      error is what fill delivers. */
  lemma PulledStops(g: State)
    requires g.w <= |g.buf|
    requires var resp := Respond(g.src, |g.buf| - g.w);
             resp.err != Nil || |resp.data| > 0
    ensures var resp := Respond(g.src, |g.buf| - g.w);
            Pulled(g) == Pull(resp.data, resp.err, resp.rest, 1)
  {
    PullLoopStops(g.src, |g.buf| - g.w, MaxConsecutiveEmptyReads);
  }

  /** The state fill leaves when it does not panic. */
  function Filled(st: State): (f: State)
    requires WellFormed(st) && !FillPanics(st)
    ensures WellFormed(f) && f.r == 0
    // an error is latched, or bytes arrived
    ensures f.err == Nil ==> st.err == Nil && f.w > Grow(st).w
  {
    var g := Grow(st);
    Deliver(g, Pulled(g))
  }

  lemma FilledAfterGrow(st: State)
    requires WellFormed(st) && !FillPanics(st)
    ensures var g := Grow(st);
            Filled(st) == Deliver(g, Pulled(g))
  {
  }

  /** The state fill's steps leave, one field at a time, is Filled's. */
  lemma FilledFromSteps(st: State, g: State, f: State)
    requires WellFormed(st) && g == Grow(st) && g.w < |g.buf|
    requires f == Deliver(g, Pulled(g))
    ensures !FillPanics(st) && f == Filled(st)
  {
    FilledAfterGrow(st);
  }

  /** The state once fill's loop has ended with p: the bytes are written at w,
      w moves past them, and an error, if any, is latched. */
  function Deliver(g: State, p: Pull): (f: State)
    requires g.w + |p.data| <= |g.buf|
  {
    g.(buf := WriteAt(g.buf, g.w, p.data), w := g.w + |p.data|,
       err := if p.err == Nil then g.err else p.err, src := p.rest)
  }

  /** fill writes exactly the next bytes of the stream after the old write
      position, and it either latches an error or shrinks the script. */
  lemma FillConserves(st: State)
    requires WellFormed(st) && !FillPanics(st)
    ensures var f := Filled(st);
            var g := Grow(st);
            |f.buf| == |g.buf| && g.w <= f.w
            // the bytes before the old write position are kept, and those after the new one
            && f.buf[..g.w] == g.buf[..g.w] && f.buf[f.w..] == g.buf[f.w..]
            // the bytes in between are the next ones of the stream
            && f.buf[g.w..f.w] + Stream(f.src) == Stream(st.src)
            && Weight(f.src) <= Weight(st.src)
            && (f.err == Nil ==> Weight(f.src) < Weight(st.src))
  {
    var g := Grow(st);
    FilledAfterGrow(st);
    PullLoopConserves(g.src, |g.buf| - g.w, MaxConsecutiveEmptyReads);
    DeliverConserves(g, Pulled(g), st.src);
  }

  /** Delivering what the retry loop pulled from src keeps the stream. */
  lemma DeliverConserves(g: State, p: Pull, src: seq<Chunk>)
    requires g.w + |p.data| <= |g.buf|
    requires p.data + Stream(p.rest) == Stream(src)
    requires Weight(p.rest) <= Weight(src) && (p.err == Nil ==> Weight(p.rest) < Weight(src))
    ensures var f := Deliver(g, p);
            |f.buf| == |g.buf| && g.w <= f.w
            && f.buf[..g.w] == g.buf[..g.w] && f.buf[f.w..] == g.buf[f.w..]
            && f.buf[g.w..f.w] + Stream(f.src) == Stream(src)
            && Weight(f.src) <= Weight(src)
            && (f.err == Nil ==> Weight(f.src) < Weight(src))
  {
    DeliverWrites(g, p);
  }

  /** A state whose fields are those Deliver sets is Deliver's state. */
  lemma DeliverFromFields(g: State, p: Pull, f: State)
    requires g.w + |p.data| <= |g.buf|
    requires f.buf == WriteAt(g.buf, g.w, p.data) && f.r == g.r && f.w == g.w + |p.data|
    requires f.err == (if p.err == Nil then g.err else p.err) && f.src == p.rest
    ensures f == Deliver(g, p)
  {
  }

  /** Delivering writes the pulled bytes at w and leaves every other byte. */
  lemma DeliverWrites(g: State, p: Pull)
    requires g.w + |p.data| <= |g.buf|
    ensures var f := Deliver(g, p);
            |f.buf| == |g.buf| && f.r == g.r && f.w == g.w + |p.data| && f.src == p.rest
            && f.buf[..g.w] == g.buf[..g.w] && f.buf[g.w..f.w] == p.data && f.buf[f.w..] == g.buf[f.w..]
            && f.err == (if p.err == Nil then g.err else p.err)
  {
  }

  // ------------------------------------------------- ReadSliceWithString

  /** How a call of ReadSliceWithString ends: it returns (line, err), or
      panics inside fill, or loops for ever. */
  datatype Outcome = Returned(line: seq<byte>, err: Err) | Panicked | Diverged

  datatype Scan = Scan(st: State, out: Outcome)

  /** How one turn of the search loop ends: the call is over with out, or
      the buffer has been refilled and the loop goes round again. */
  datatype Turn = Done(out: Outcome) | Refilled

  /** The search loop of ReadSliceWithString, entered with r == 0 (fill always
      leaves r at 0, and so does every path that stays in the loop). What its
      outcomes mean is stated by ScanFromMeaning. Every refill either latches
      an error or shrinks the script's Weight, which WeightCounts shows is the
      number of answers left plus the bytes they deliver; so the loop refills
      at most that many times before an error is latched. */
  function ScanFrom(st: State, delim: seq<byte>): (s: Scan)
    requires WellFormed(st) && st.r == 0
    ensures WellFormed(s.st) && !s.out.Panicked?
    decreases Weight(st.src), if st.err == Nil then 1 else 0
  {
    var i := IndexOf(st.buf[st.r..], delim);
    if i >= 0 then
      Scan(st.(r := i + |delim|), Returned(st.buf[..i + |delim|], Nil))
    else if st.err != Nil && st.err != EOF then
      Scan(st.(r := st.w, err := Nil), Returned(st.buf[st.r..st.w], st.err))
    else if st.err != EOF then
      FillConserves(st);
      ScanFrom(Filled(st), delim)
    else if AllZero(st.buf) then
      Scan(st.(r := st.w), Returned(st.buf, st.err))
    else
      Scan(st.(buf := st.buf[st.r..], r := 0), Diverged)
  }

  /** What ReadSliceWithString's search loop returns. */
  predicate ScanMeaning(s: Scan, delim: seq<byte>)
  {
    // the documented promise: err != nil iff line does not end in delim
    (s.out.Returned? ==> (s.out.err != Nil <==> !EndsWith(s.out.line, delim)))
    // found: line is the buffer up to and including the first occurrence of
    // delim, and reading resumes right after it
    && (s.out.Returned? && s.out.err == Nil ==>
          s.st.r <= |s.st.buf| && s.out.line == s.st.buf[..s.st.r] && IndexOf(s.st.buf, delim) == s.st.r - |delim|)
    // a latched error other than EOF: buf[0:w] is returned and the latch is cleared
    && (s.out.Returned? && s.out.err != Nil && s.out.err != EOF ==>
          s.st.w <= |s.st.buf| && s.out.line == s.st.buf[..s.st.w] && s.st.r == s.st.w && s.st.err == Nil
          && IndexOf(s.st.buf, delim) == -1)
    // EOF over an all-zero buffer: the whole buffer is returned and EOF stays latched
    && (s.out.Returned? && s.out.err == EOF ==>
          s.out.line == s.st.buf && AllZero(s.st.buf) && s.st.r == s.st.w && s.st.err == EOF
          && IndexOf(s.st.buf, delim) == -1)
    // EOF over a buffer with a non-zero byte and no delimiter: the loop body
    // re-slices buf[r:] with r == 0 and goes round unchanged for ever
    && (s.out.Diverged? ==>
          s.st.r == 0 && s.st.buf[s.st.r..] == s.st.buf && s.st.err == EOF
          && !AllZero(s.st.buf) && IndexOf(s.st.buf, delim) == -1)
  }

  lemma {:induction false} ScanFromMeaning(st: State, delim: seq<byte>)
    requires WellFormed(st) && st.r == 0
    ensures ScanMeaning(ScanFrom(st, delim), delim)
    decreases Weight(st.src), if st.err == Nil then 1 else 0
  {
    if IndexOf(st.buf, delim) >= 0 {
      FoundMeaning(st, delim);
    } else if st.err != Nil && st.err != EOF {
      ErrorMeaning(st, delim);
    } else if st.err != EOF {
      ScanFromRefill(st, delim);
      FillConserves(st);
      ScanFromMeaning(Filled(st), delim);
    } else {
      EndMeaning(st, delim);
    }
  }

  /** The match branch of the search loop keeps the documented promise. */
  lemma FoundMeaning(st: State, delim: seq<byte>)
    requires WellFormed(st) && st.r == 0 && IndexOf(st.buf, delim) >= 0
    ensures ScanMeaning(ScanFrom(st, delim), delim)
  {
    ScanFromFound(st, delim);
    PrefixEndsWithOccurrence(st.buf, IndexOf(st.buf, delim) + |delim|, delim);
  }

  /** So does the branch for a latched error other than EOF. */
  lemma ErrorMeaning(st: State, delim: seq<byte>)
    requires WellFormed(st) && st.r == 0 && IndexOf(st.buf, delim) < 0
    requires st.err != Nil && st.err != EOF
    ensures ScanMeaning(ScanFrom(st, delim), delim)
  {
    ScanFromError(st, delim);
    PrefixEndsWithOccurrence(st.buf, st.w, delim);
  }

  /** And so does the EOF branch, whether it returns or goes round for ever. */
  lemma EndMeaning(st: State, delim: seq<byte>)
    requires WellFormed(st) && st.r == 0 && IndexOf(st.buf, delim) < 0 && st.err == EOF
    ensures ScanMeaning(ScanFrom(st, delim), delim)
  {
    ScanFromEnd(st, delim);
    assert st.buf[st.r..] == st.buf;
    if AllZero(st.buf) {
      PrefixEndsWithOccurrence(st.buf, |st.buf|, delim);
    }
  }

  /** The four ways one turn of the search loop can go. */
  lemma ScanFromFound(st: State, delim: seq<byte>)
    requires WellFormed(st) && st.r == 0 && IndexOf(st.buf, delim) >= 0
    ensures var k := IndexOf(st.buf, delim) + |delim|;
            ScanFrom(st, delim) == Scan(st.(r := k), Returned(st.buf[..k], Nil))
  {
    assert st.buf[st.r..] == st.buf;
    assert IndexOf(st.buf[st.r..], delim) == IndexOf(st.buf, delim);
  }

  lemma ScanFromError(st: State, delim: seq<byte>)
    requires WellFormed(st) && st.r == 0 && IndexOf(st.buf, delim) < 0
    requires st.err != Nil && st.err != EOF
    ensures ScanFrom(st, delim) == Scan(st.(r := st.w, err := Nil), Returned(st.buf[..st.w], st.err))
  {
    assert st.buf[st.r..] == st.buf;
  }

  lemma ScanFromRefill(st: State, delim: seq<byte>)
    requires WellFormed(st) && st.r == 0 && IndexOf(st.buf, delim) < 0 && st.err == Nil
    ensures !FillPanics(st) && ScanFrom(st, delim) == ScanFrom(Filled(st), delim)
  {
    assert st.buf[st.r..] == st.buf;
  }

  lemma ScanFromEnd(st: State, delim: seq<byte>)
    requires WellFormed(st) && st.r == 0 && IndexOf(st.buf, delim) < 0 && st.err == EOF
    ensures ScanFrom(st, delim)
            == if AllZero(st.buf) then Scan(st.(r := st.w), Returned(st.buf, EOF)) else Scan(st, Diverged)
  {
    assert st.buf[st.r..] == st.buf;
  }

  /** A whole call of ReadSliceWithString: one fill, then the search loop. */
  function ReadSliceResult(st: State, delim: seq<byte>): (s: Scan)
    requires WellFormed(st)
    ensures s.out.Panicked? <==> FillPanics(st)
    ensures s.out.Panicked? ==> s.st == Grow(st)
    ensures !s.out.Panicked? ==> WellFormed(s.st)
  {
    if FillPanics(st) then Scan(Grow(st), Panicked)
    else ScanFrom(Filled(st), delim)
  }

  /** Unless fill panics, a call of ReadSliceWithString ends as its search
      loop does, in particular with err != nil iff the line does not end in
      delim. */
  lemma ReadSliceMeaning(st: State, delim: seq<byte>)
    requires WellFormed(st)
    ensures var s := ReadSliceResult(st, delim);
            !s.out.Panicked? ==> ScanMeaning(s, delim)
  {
    if !FillPanics(st) {
      ScanFromMeaning(Filled(st), delim);
    }
  }

  // ------------------------------------ ReadSliceWithString and the input

  /** The input a state has taken in and has still to give: the bytes
      written to the buffer, then what the source still holds. */
  function Input(st: State): (input: seq<byte>)
    requires st.w <= |st.buf|
    ensures |input| >= st.w && input[..st.w] == st.buf[..st.w]
  {
    st.buf[..st.w] + Stream(st.src)
  }

  /** Once the source is dry, the input is what the buffer holds up to w. */
  lemma DryInput(st: State)
    requires st.w <= |st.buf|
    ensures st.src == [] ==> Input(st) == st.buf[..st.w]
  {
  }

  /** A state the search loop starts from with its place in the input
      intact: r == 0 and nothing but zero padding beyond w. */
  predicate Settled(st: State)
  {
    WellFormed(st) && st.r == 0 && AllZero(st.buf[st.w..])
  }

  /** A delimiter that zero padding cannot complete: not empty and with no
      zero byte. */
  predicate NonZero(delim: seq<byte>)
  {
    |delim| > 0 && forall k :: 0 <= k < |delim| ==> delim[k] != 0
  }

  /** What the search loop does with the input it was given. */
  predicate ScanTracksInput(s: Scan, delim: seq<byte>, input: seq<byte>)
  {
    s.st.r <= s.st.w <= |s.st.buf|
    // nothing is lost: the buffer up to w and the rest of the source are still the input
    && Input(s.st) == input
    // found: the line is the input up to and including the first occurrence of
    // delim, and reading resumes right after it
    && (s.out.Returned? && s.out.err == Nil ==>
          IndexOf(input, delim) >= 0 && s.out.line == input[..IndexOf(input, delim) + |delim|]
          && s.st.r == |s.out.line|)
    // an error other than EOF: the line is all the input taken in, which holds no delim
    && (s.out.Returned? && s.out.err != Nil && s.out.err != EOF ==>
          IndexOf(s.out.line, delim) == -1 && s.out.line + Stream(s.st.src) == input)
    // EOF, returned or looping for ever: the input taken in holds no delim
    && ((s.out.Returned? && s.out.err == EOF) || s.out.Diverged? ==>
          IndexOf(s.st.buf[..s.st.w], delim) == -1)
  }

  /** With zero padding beyond w and a delimiter free of zero bytes, a match
      in the buffer lies before w, and it is the input's first one; without a
      match, buf[:w] holds none. */
  lemma FirstMatchInInput(st: State, delim: seq<byte>)
    requires Settled(st) && NonZero(delim)
    ensures var i := IndexOf(st.buf, delim);
            (i >= 0 ==> i + |delim| <= st.w && IndexOf(Input(st), delim) == i)
            && (i < 0 ==> IndexOf(st.buf[..st.w], delim) == -1)
  {
    var i := IndexOf(st.buf, delim);
    var pre, pad := st.buf[..st.w], st.buf[st.w..];
    assert st.buf == pre + pad;
    if i >= 0 {
      OccursBeforePadding(st.buf, st.w, delim, i);
      OccursInPrefix(pre, pad, delim, i);
      OccursInPrefix(pre, Stream(st.src), delim, i);
      forall j | 0 <= j < i
        ensures !OccursAt(Input(st), delim, j)
      {
        OccursInPrefix(pre, pad, delim, j);
        OccursInPrefix(pre, Stream(st.src), delim, j);
      }
      IndexOfIs(Input(st), delim, i);
    } else {
      forall j | 0 <= j && j + |delim| <= st.w
        ensures !OccursAt(pre, delim, j)
      {
        OccursInPrefix(pre, pad, delim, j);
      }
    }
  }

  /** fill from a grown state with zero padding beyond w: the result is
      settled and its input is the grown buffer up to w, then the old source. */
  lemma FillKeepsInput(st: State)
    requires WellFormed(st) && !FillPanics(st)
    requires AllZero(Grow(st).buf[Grow(st).w..])
    ensures Settled(Filled(st))
    ensures Input(Filled(st)) == Grow(st).buf[..Grow(st).w] + Stream(st.src)
  {
    FillConserves(st);
    WritePastPadding(Grow(st), Filled(st), st.src);
  }

  /** A buffer g with zero padding beyond its w, after bytes from src were
      written at w and nothing else changed: the padding beyond the new w is
      still zero, and the bytes up to it, then what src has left, are g's
      bytes up to w, then src. */
  lemma WritePastPadding(g: State, f: State, src: seq<Chunk>)
    requires g.w <= f.w <= |f.buf| == |g.buf| && AllZero(g.buf[g.w..])
    requires f.buf[..g.w] == g.buf[..g.w] && f.buf[f.w..] == g.buf[f.w..]
    requires f.buf[g.w..f.w] + Stream(f.src) == Stream(src)
    ensures AllZero(f.buf[f.w..]) && Input(f) == g.buf[..g.w] + Stream(src)
  {
    var taken := f.buf[g.w..f.w];
    assert f.buf[..f.w] == g.buf[..g.w] + taken by {
      assert f.buf[..f.w] == f.buf[..g.w] + taken;
    }
    assert Input(f) == g.buf[..g.w] + (taken + Stream(f.src));
    PaddingShrinks(g.buf, f.buf, g.w, f.w);
  }

  /** Zero padding beyond w stays zero padding beyond a later w' when the
      bytes from w' on are left alone. */
  lemma PaddingShrinks(before: seq<byte>, after: seq<byte>, w: nat, w': nat)
    requires w <= w' <= |before| == |after|
    requires AllZero(before[w..]) && after[w'..] == before[w'..]
    ensures AllZero(after[w'..])
  {
    forall k | 0 <= k < |after| - w'
      ensures after[w'..][k] == 0
    {
      assert after[w'..][k] == before[w..][k + w' - w];
    }
  }

  /** From r == 0 with zero padding beyond w, fill keeps the input. */
  lemma FillKeepsSettled(st: State)
    requires Settled(st)
    ensures !FillPanics(st) && Settled(Filled(st)) && Input(Filled(st)) == Input(st)
  {
    var g := Grow(st);
    assert g.buf[..g.w] == st.buf[..st.w];
    assert g.buf[g.w..] == st.buf[st.w..] + [0];
    FillKeepsInput(st);
  }

  /** The search loop, from a settled state and with a delimiter free of zero
      bytes, returns the input up to its first delimiter and keeps the rest. */
  lemma {:induction false} ScanFromInput(st: State, delim: seq<byte>)
    requires Settled(st) && NonZero(delim)
    ensures ScanTracksInput(ScanFrom(st, delim), delim, Input(st))
    decreases Weight(st.src), if st.err == Nil then 1 else 0
  {
    FirstMatchInInput(st, delim);
    var i := IndexOf(st.buf, delim);
    if i >= 0 {
      ScanFromFound(st, delim);
    } else if st.err != Nil && st.err != EOF {
      ScanFromError(st, delim);
    } else if st.err != EOF {
      ScanFromRefill(st, delim);
      FillKeepsSettled(st);
      FillConserves(st);
      ScanFromInput(Filled(st), delim);
    } else {
      ScanFromEnd(st, delim);
    }
  }

  /** The bytes a call of ReadSliceWithString takes as buffered input: buf[:w]
      when r == 0; after a match (r > 0), compaction keeps all of buf[r:],
      including whatever lies beyond w. */
  function Pending(st: State): (pending: seq<byte>)
    requires st.r <= |st.buf| && st.w <= |st.buf|
    ensures st.r == 0 ==> pending == st.buf[..st.w]
    ensures st.r > 0 ==> |pending| == |st.buf| - st.r
  {
    if st.r == 0 then st.buf[..st.w] else st.buf[st.r..]
  }

  /** Growing either state keeps the pending bytes up to w, then zeros. */
  lemma GrowKeepsPending(st: State)
    requires WellFormed(st) && !FillPanics(st)
    requires st.r == 0 ==> AllZero(st.buf[st.w..])
    ensures var g := Grow(st);
            g.w <= |g.buf| && g.buf[..g.w] == Pending(st) && AllZero(g.buf[g.w..])
  {
    var g := Grow(st);
    if st.r == 0 {
      assert g.buf[..g.w] == st.buf[..st.w];
      assert g.buf[g.w..] == st.buf[st.w..] + [0];
    } else {
      CompactionKeepsTail(st);
      assert g.buf[..g.w] == st.buf[st.r..];
      forall k | 0 <= k < |g.buf| - g.w
        ensures g.buf[g.w..][k] == 0
      {
        assert g.buf[g.w..][k] == g.buf[g.w + k];
      }
    }
  }

  /** "ReadSliceWithString reads until the first occurrence of the delimiter
      in the input": unless fill panics, and for a delimiter free of zero
      bytes, a call returns its input up to and including the first
      occurrence of delim and keeps the rest for the next call; on an error
      other than EOF it returns all its input, which holds no delim. The
      input is the pending bytes, then what the source still holds. */
  lemma ReadSliceInput(st: State, delim: seq<byte>)
    requires WellFormed(st) && NonZero(delim)
    requires st.r == 0 ==> AllZero(st.buf[st.w..])
    ensures var s := ReadSliceResult(st, delim);
            !s.out.Panicked? ==> ScanTracksInput(s, delim, Pending(st) + Stream(st.src))
  {
    if !FillPanics(st) {
      GrowKeepsPending(st);
      FillKeepsInput(st);
      ScanFromInput(Filled(st), delim);
    }
  }

  /** A source that, until it runs dry, answers every call with bytes and
      no error. */
  predicate Steady(src: seq<Chunk>)
  {
    forall k :: 0 <= k < |src| ==> src[k].err == Nil && src[k].data != []
  }

  /** Against a steady source that still holds something, fill takes its
      first answer (or the part of it that fits): no error is latched, the
      source stays steady, and its Weight shrinks. */
  lemma FillSteady(st: State)
    requires WellFormed(st) && !FillPanics(st) && st.err == Nil
    requires Steady(st.src) && st.src != []
    ensures var f := Filled(st);
            f.err == Nil && Steady(f.src) && Weight(f.src) < Weight(st.src)
  {
    var g := Grow(st);
    FilledAfterGrow(st);
    PulledStops(g);
    DeliverWrites(g, Pulled(g));
    FillConserves(st);
    RespondSteady(g.src, |g.buf| - g.w);
  }

  /** A steady source answers a call with room for at least one byte with
      bytes and no error, and stays steady. */
  lemma RespondSteady(script: seq<Chunk>, room: nat)
    requires Steady(script) && script != [] && room > 0
    ensures var resp := Respond(script, room);
            resp.data != [] && resp.err == Nil && Steady(resp.rest)
  {
    var resp := Respond(script, room);
    var c := script[0];
    if |c.data| > room {
      assert resp.rest == [Chunk(c.data[room..], c.err)] + script[1..];
      forall k | 0 <= k < |resp.rest|
        ensures resp.rest[k].err == Nil && resp.rest[k].data != []
      {
        if k > 0 {
          assert resp.rest[k] == script[k];
        }
      }
    } else {
      forall k | 0 <= k < |resp.rest|
        ensures resp.rest[k].err == Nil && resp.rest[k].data != []
      {
        assert resp.rest[k] == script[k + 1];
      }
    }
  }

  /** The search loop keeps reading while the source answers with bytes and
      no error: from a settled state with nothing latched (or with the source
      already dry), when the input holds delim, the call returns a line with
      a nil error. */
  lemma {:induction false} ScanFromReturnsNil(st: State, delim: seq<byte>)
    requires Settled(st) && NonZero(delim) && Steady(st.src) && (st.err == Nil || st.src == [])
    requires IndexOf(Input(st), delim) >= 0
    ensures var s := ScanFrom(st, delim);
            s.out.Returned? && s.out.err == Nil
    decreases Weight(st.src)
  {
    FirstMatchInInput(st, delim);
    DryInput(st);
    if IndexOf(st.buf, delim) >= 0 {
      ScanFromFound(st, delim);
    } else {
      ScanFromRefill(st, delim);
      FillKeepsSettled(st);
      FillSteady(st);
      ScanFromReturnsNil(Filled(st), delim);
    }
  }

  /** The input up to and including the first occurrence of delim. */
  function FirstLine(input: seq<byte>, delim: seq<byte>): seq<byte>
    requires IndexOf(input, delim) >= 0
  {
    input[..IndexOf(input, delim) + |delim|]
  }

  /** A search that tracks its input and returns nil returns that input up to
      and including the first occurrence of delim. */
  lemma TracksFound(s: Scan, delim: seq<byte>, input: seq<byte>)
    requires ScanTracksInput(s, delim, input) && s.out.Returned? && s.out.err == Nil
    ensures IndexOf(input, delim) >= 0
    ensures s.out == Returned(FirstLine(input, delim), Nil)
  {
  }

  /** Under the conditions of ScanFromReturnsNil, the line is the input up to
      and including the first occurrence of delim. */
  lemma ScanFromFindsDelim(st: State, delim: seq<byte>)
    requires Settled(st) && NonZero(delim) && Steady(st.src) && (st.err == Nil || st.src == [])
    requires IndexOf(Input(st), delim) >= 0
    ensures ScanFrom(st, delim).out == Returned(FirstLine(Input(st), delim), Nil)
  {
    ScanFromReturnsNil(st, delim);
    ScanFromInput(st, delim);
    TracksFound(ScanFrom(st, delim), delim, Input(st));
  }

  /** Unless fill panics, it leaves a settled state whose input is the
      call's: the pending bytes, then the source. */
  lemma FilledSettled(st: State)
    requires WellFormed(st) && !FillPanics(st)
    requires st.r == 0 ==> AllZero(st.buf[st.w..])
    ensures Settled(Filled(st)) && Input(Filled(st)) == Pending(st) + Stream(st.src)
  {
    GrowKeepsPending(st);
    FillKeepsInput(st);
  }

  /** A dry source leaves the source dry after fill. */
  lemma FilledFromDry(st: State)
    requires WellFormed(st) && !FillPanics(st) && st.src == []
    ensures Filled(st).src == []
  {
    var g := Grow(st);
    FilledAfterGrow(st);
    PulledStops(g);
  }

  /** Filling against a steady source, with nothing latched, leaves a settled
      state whose input is the call's and whose source is still steady; an
      error is latched there only once the source is dry. */
  lemma FilledSteady(st: State)
    requires WellFormed(st) && !FillPanics(st) && st.err == Nil && Steady(st.src)
    requires st.r == 0 ==> AllZero(st.buf[st.w..])
    ensures var f := Filled(st);
            && Settled(f) && Input(f) == Pending(st) + Stream(st.src)
            && Steady(f.src) && (f.err == Nil || f.src == [])
  {
    FilledSettled(st);
    if st.src == [] {
      FilledFromDry(st);
    } else {
      FillSteady(st);
    }
  }

  /** A call's input: the pending bytes, then the source. */
  function CallInput(st: State): seq<byte>
    requires st.r <= |st.buf| && st.w <= |st.buf|
  {
    Pending(st) + Stream(st.src)
  }

  /** A call with nothing latched, against a steady source, returns with a
      nil error whenever its input holds delim. */
  lemma ReadSliceReturnsNil(st: State, delim: seq<byte>)
    requires WellFormed(st) && NonZero(delim) && !FillPanics(st) && st.err == Nil && Steady(st.src)
    requires st.r == 0 ==> AllZero(st.buf[st.w..])
    requires IndexOf(CallInput(st), delim) >= 0
    ensures var s := ReadSliceResult(st, delim);
            s.out.Returned? && s.out.err == Nil
  {
    FilledSteady(st);
    ScanFromReturnsNil(Filled(st), delim);
  }

  /** Hence, unless fill panics, such a call returns its input up to and
      including the first occurrence of delim, with a nil error. */
  lemma ReadSliceFindsDelim(st: State, delim: seq<byte>)
    requires WellFormed(st) && NonZero(delim) && !FillPanics(st) && st.err == Nil && Steady(st.src)
    requires st.r == 0 ==> AllZero(st.buf[st.w..])
    requires IndexOf(CallInput(st), delim) >= 0
    ensures ReadSliceResult(st, delim).out == Returned(FirstLine(CallInput(st), delim), Nil)
  {
    ReadSliceReturnsNil(st, delim);
    ReadSliceInput(st, delim);
    TracksFound(ReadSliceResult(st, delim), delim, CallInput(st));
  }

  // ---------------------------------------------------------------- Read

  /** How a Read ends: it hands back the new state, the bytes written to the
      front of p (n is their number) and the error returned; or it panics
      slicing buf[r:w] with r beyond w, leaving the state as it was. */
  datatype Served = Served(st: State, data: seq<byte>, err: Err) | SlicePanic(st: State)

  /** The copy-out step of Read: as much of buf[r:w] as fits into p. */
  function CopyOut(st: State, plen: nat): (s: Served)
    requires st.r <= st.w <= |st.buf|
    ensures s.Served?
    ensures |s.data| == Min(plen, st.w - st.r)
    ensures s.data == st.buf[st.r..st.r + |s.data|]
    ensures s.st == st.(r := st.r + |s.data|) && s.err == Nil
  {
    var n := Min(plen, st.w - st.r);
    Served(st.(r := st.r + n), st.buf[st.r..st.r + n], Nil)
  }

  /** A call Read(p) with len(p) == plen. What it returns is stated by
      ReadResultMeaning. */
  function ReadResult(st: State, plen: nat): (s: Served)
    requires WellFormed(st)
    ensures WellFormed(s.st) && (s.Served? ==> |s.data| <= plen)
  {
    if plen == 0 then Served(st.(err := Nil), [], st.err)
    else if st.r == st.w && st.err != Nil then Served(st.(err := Nil), [], st.err)
    else if st.r == st.w && plen >= |st.buf| then
      var resp := Respond(st.src, plen);
      Served(st.(err := Nil, src := resp.rest), resp.data, resp.err)
    else if st.r == st.w then
      var resp := Respond(st.src, |st.buf|);
      var st1 := st.(buf := WriteAt(st.buf, 0, resp.data), r := 0, w := 0, err := resp.err, src := resp.rest);
      if |resp.data| == 0 then Served(st1.(err := Nil), [], resp.err)
      else CopyOut(st1.(w := |resp.data|), plen)
    else if st.r > st.w then
      SlicePanic(st)
    else
      CopyOut(st, plen)
  }

  /** The cases of Read. */
  lemma ReadResultMeaning(st: State, plen: nat)
    requires WellFormed(st)
    ensures var s := ReadResult(st, plen);
            // a non-empty p with r beyond w: slicing buf[r:w] panics, and nothing changes
            (s.SlicePanic? <==> plen > 0 && st.r > st.w) && (s.SlicePanic? ==> s.st == st)
            && (st.r <= st.w ==> s.st.r <= s.st.w)
            // an error is reported once: whenever Read returns one, the latch is empty
            && (s.Served? && s.err != Nil ==> s.st.err == Nil)
            // an empty p: nothing is read, and the latched error is returned and cleared
            && (plen == 0 ==> s == Served(st.(err := Nil), [], st.err))
            // buffered bytes are served without touching the source; a latched error stays
            && (plen > 0 && st.r < st.w ==>
                  var n := Min(plen, st.w - st.r);
                  s == Served(st.(r := st.r + n), st.buf[st.r..st.r + n], Nil))
            // an empty buffer with a latched error: the error is returned and cleared
            && (plen > 0 && st.r == st.w && st.err != Nil ==> s == Served(st.(err := Nil), [], st.err))
            // empty buffer, large p: one Read straight into p, buffer and cursors untouched
            && (plen > 0 && st.r == st.w && st.err == Nil && plen >= |st.buf| ==>
                  s.Served? && s.st == st.(src := s.st.src)
                  && Response(s.data, s.err, s.st.src) == Respond(st.src, plen))
            // empty buffer, small p: one Read into the whole buffer, then copy out
            && (plen > 0 && st.r == st.w && st.err == Nil && plen < |st.buf| ==>
                  var resp := Respond(st.src, |st.buf|);
                  s.Served? && s.st.src == resp.rest && s.st.buf == WriteAt(st.buf, 0, resp.data)
                  && s.data == resp.data[..Min(plen, |resp.data|)]
                  && (resp.data == [] ==> s.st.r == 0 && s.st.w == 0 && s.st.err == Nil && s.err == resp.err)
                  && (resp.data != [] ==>
                        s.st.w == |resp.data| && s.st.r == |s.data| && s.st.err == resp.err && s.err == Nil))
  {
  }

  // ---------------------------------------------------------- the object

  class Sweeper {
    var buf: seq<byte>
    var rd: Reader
    var r: nat
    var w: nat
    var err: Err

    ghost predicate Valid()
      reads this
    {
      CursorsInBounds(buf, r, w)
    }

    /** NewSweeperSize: a Sweeper over src with a zeroed buffer of max(size, 1) bytes. */
    constructor (src: Reader, size: int)
      ensures Valid() && rd == src
      ensures |buf| == BufferSize(size) && AllZero(buf)
      ensures r == 0 && w == 0 && err == Nil
      ensures State(buf, r, w, err, rd.script) == Fresh(size, src.script)
    {
      rd := src;
      new;
      ResetTo(Zeros(BufferSize(size)), src);
    }

    /** NewSweeper: a Sweeper over src with the default buffer size. */
    constructor Default(src: Reader)
      ensures Valid() && rd == src
      ensures |buf| == DefaultBufSize && AllZero(buf)
      ensures r == 0 && w == 0 && err == Nil
    {
      rd := src;
      new;
      ResetTo(Zeros(BufferSize(DefaultBufSize)), src);
    }

    /** Size: the length of the buffer, never below the minimum. */
    function Size(): (n: nat)
      reads this
      ensures n == |buf|
      ensures Valid() ==> n >= MinReadBufferSize
    {
      |buf|
    }

    /** Buffered: the number of bytes in the unread region buf[r:w]. */
    function Buffered(): (n: int)
      reads this
      ensures r <= w <= |buf| ==> n == |buf[r..w]|
    {
      w - r
    }

    /** reset: rebind to src over buffer b, dropping cursors and latched error. */
    method ResetTo(b: seq<byte>, src: Reader)
      modifies this
      ensures buf == b && rd == src && r == 0 && w == 0 && err == Nil
      ensures Valid() <==> |b| >= MinReadBufferSize
    {
      buf, rd, r, w, err := b, src, 0, 0, Nil;
    }

    /** Reset: rebind to src, keeping the buffer. */
    method Reset(src: Reader)
      requires Valid()
      modifies this
      ensures Valid()
      ensures buf == old(buf) && rd == src && r == 0 && w == 0 && err == Nil
    {
      ResetTo(buf, src);
    }

    /** readErr: return the latched error and clear the latch, so that a
        second call returns Nil. */
    method ReadErr() returns (e: Err)
      modifies this`err
      ensures e == old(err) && err == Nil
    {
      e := err;
      err := Nil;
    }

    /** isBufZero: every byte of the whole buffer (not just buf[r:w]) is zero. */
    method IsBufZero() returns (zero: bool)
      ensures zero <==> AllZero(buf)
    {
      for i := 0 to |buf|
        invariant forall j :: 0 <= j < i ==> buf[j] == 0
      {
        if buf[i] != 0 {
          return false;
        }
      }
      return true;
    }

    /** fill: grow the buffer by a zero byte (compacting it when r > 0), then
        read from the source until bytes or an error arrive, at most
        maxConsecutiveEmptyReads times. panicked reports the "tried to fill
        full buffer" panic, with the state as the panic leaves it. */
    method Fill() returns (panicked: bool)
      requires Valid()
      modifies this`buf, this`r, this`w, this`err, rd
      ensures panicked == FillPanics(State(old(buf), old(r), old(w), old(err), old(rd.script)))
      ensures panicked ==> State(buf, r, w, err, rd.script) == Grow(State(old(buf), old(r), old(w), old(err), old(rd.script)))
      ensures !panicked ==> State(buf, r, w, err, rd.script) == Filled(State(old(buf), old(r), old(w), old(err), old(rd.script))) && Valid()
    {
      ghost var st := State(buf, r, w, err, rd.script);
      GrowBuffer();
      if w >= |buf| {
        return true;
      }
      ghost var g := State(buf, r, w, err, rd.script);
      PullIntoBuffer(g);
      DeliverFromFields(g, Pulled(g), State(buf, r, w, err, rd.script));
      FilledFromSteps(st, g, State(buf, r, w, err, rd.script));
      return false;
    }

    /** The first steps of fill: append a zero byte, and compact when r > 0. */
    method GrowBuffer()
      requires Valid()
      modifies this`buf, this`r, this`w
      ensures State(buf, r, w, err, rd.script) == Grow(State(old(buf), old(r), old(w), old(err), rd.script))
    {
      buf := buf + [0];
      if r > 0 {
        var temp := buf[r..];
        buf := CopyInto(Zeros(DefaultBufSize), temp);
        w := |temp| - 1;
        r := 0;
      }
    }

    /** fill's read step: pull with the retry loop into buf[w:], then land
        what it brought. */
    method PullIntoBuffer(ghost g: State)
      requires r == 0 && w < |buf| && g == State(buf, r, w, err, rd.script)
      modifies this`buf, this`w, this`err, rd
      ensures var p := Pulled(g);
              buf == WriteAt(g.buf, g.w, p.data) && r == g.r && w == g.w + |p.data|
              && err == (if p.err == Nil then g.err else p.err) && rd.script == p.rest
    {
      var data, e := Retry(|buf| - w, g);
      Deposit(data, e);
    }

    /** fill's retry loop: Read into room bytes until bytes or an error
        arrive, at most maxConsecutiveEmptyReads times, then give up with
        io.ErrNoProgress. It ends as PullLoop says. */
    method Retry(room: nat, ghost g: State) returns (data: seq<byte>, e: Err)
      requires g.w <= |g.buf| && room == |g.buf| - g.w && rd.script == g.src
      modifies rd
      ensures SameEnd(Pull(data, e, rd.script, 0), Pulled(g))
    {
      ghost var target := PullLoop(rd.script, room, MaxConsecutiveEmptyReads);
      assert target == Pulled(g);
      var i: nat := MaxConsecutiveEmptyReads;
      while i > 0
        invariant i <= MaxConsecutiveEmptyReads
        invariant SameEnd(PullLoop(rd.script, room, i), target)
      {
        ghost var before := rd.script;
        data, e := rd.Read(room);
        if e != Nil || |data| > 0 {
          PullLoopStops(before, room, i);
          return;
        }
        PullLoopRetries(before, room, i);
        i := i - 1;
      }
      return [], NoProgress;
    }

    /** The end of fill's loop once an answer brought bytes or an error: the
        bytes land at w, w moves past them, and an error is latched. */
    method Deposit(data: seq<byte>, e: Err)
      requires w + |data| <= |buf|
      modifies this`buf, this`w, this`err
      ensures buf == WriteAt(old(buf), old(w), data) && w == old(w) + |data|
      ensures err == if e == Nil then old(err) else e
    {
      buf := WriteAt(buf, w, data);
      w := w + |data|;
      if e != Nil {
        err := e;
      }
    }

    /** ReadSliceWithString: read until the first occurrence of delim. */
    method ReadSliceWithString(delim: seq<byte>) returns (res: Outcome)
      requires Valid()
      modifies this`buf, this`r, this`w, this`err, rd
      ensures Scan(State(buf, r, w, err, rd.script), res)
              == ReadSliceResult(State(old(buf), old(r), old(w), old(err), old(rd.script)), delim)
      ensures !res.Panicked? ==> Valid()
    {
      ghost var goal := ReadSliceResult(State(buf, r, w, err, rd.script), delim);
      var panicked := Fill();
      if panicked {
        return Panicked;
      }
      while true
        invariant Valid() && r == 0
        invariant ScanFrom(State(buf, r, w, err, rd.script), delim) == goal
        decreases Weight(rd.script), if err == Nil then 1 else 0
      {
        var turn := SearchOnce(delim);
        if turn.Done? {
          return turn.out;
        }
      }
    }

    /** One turn of ReadSliceWithString's loop, entered with r == 0: Done
        when the turn ends the call (or would loop for ever); Refilled when it
        has refilled the buffer, and then the script has shrunk or an error
        has been latched. */
    method SearchOnce(delim: seq<byte>) returns (turn: Turn)
      requires Valid() && r == 0
      modifies this`buf, this`r, this`w, this`err, rd
      ensures Valid()
      ensures turn.Done? ==> Scan(State(buf, r, w, err, rd.script), turn.out)
                             == ScanFrom(State(old(buf), old(r), old(w), old(err), old(rd.script)), delim)
      ensures turn.Refilled? ==> r == 0
                                 && ScanFrom(State(buf, r, w, err, rd.script), delim)
                                    == ScanFrom(State(old(buf), old(r), old(w), old(err), old(rd.script)), delim)
                                 && old(err) == Nil && Weight(rd.script) <= Weight(old(rd.script))
                                 && (err == Nil ==> Weight(rd.script) < Weight(old(rd.script)))
    {
      ghost var st := State(buf, r, w, err, rd.script);
      assert buf[r..] == buf;
      var i := IndexOf(buf[r..], delim);
      if i >= 0 {
        ScanFromFound(st, delim);
        var line := buf[..i + |delim|];
        r := i + |delim|;
        return Done(Returned(line, Nil));
      }
      if err != Nil && err != EOF {
        ScanFromError(st, delim);
        var line := buf[r..w];
        r := w;
        var e := ReadErr();
        return Done(Returned(line, e));
      }
      if err != EOF {
        // cannot panic here: r == 0 and w <= len(buf)
        ScanFromRefill(st, delim);
        FillConserves(st);
        var panicked := Fill();
        return Refilled;
      }
      ScanFromEnd(st, delim);
      var zero := IsBufZero();
      if zero {
        r := w;
        return Done(Returned(buf, err));
      }
      buf := buf[r..];
      r := 0;
      // r was already 0, so this turn changed nothing and Go's loop
      // repeats it for ever
      return Done(Diverged);
    }

    /** Read: read up to p.Length bytes into p, from at most one Read on the
        source. panicked reports the panic of slicing buf[r:w] when r is
        beyond w; nothing has changed then. */
    method Read(p: array<byte>) returns (n: nat, e: Err, panicked: bool)
      requires Valid()
      modifies this`buf, this`r, this`w, this`err, rd, p
      ensures Valid() && n <= p.Length
      ensures var s := ReadResult(State(old(buf), old(r), old(w), old(err), old(rd.script)), p.Length);
              State(buf, r, w, err, rd.script) == s.st && panicked == s.SlicePanic?
              && (s.Served? ==> n == |s.data| && e == s.err && p[..n] == s.data)
      ensures p[n..] == old(p[n..])
    {
      if p.Length == 0 {
        e := ReadErr();
        return 0, e, false;
      }
      if r == w {
        if err != Nil {
          e := ReadErr();
          return 0, e, false;
        }
        if p.Length >= |buf| {
          // large read, empty buffer: the source writes straight into p
          var data;
          data, err := rd.Read(p.Length);
          n := Copy(p, data);
          e := ReadErr();
          return n, e, false;
        }
        r, w := 0, 0;
        var data;
        data, err := rd.Read(|buf|);
        buf := WriteAt(buf, 0, data);
        if |data| == 0 {
          e := ReadErr();
          return 0, e, false;
        }
        w := w + |data|;
      }
      if r > w {
        // buf[r:w] is out of range
        return 0, Nil, true;
      }
      n := CopyOutTo(p);
      return n, Nil, false;
    }

    /** The end of Read: copy as much of buf[r:w] as fits into p, and advance r. */
    method CopyOutTo(p: array<byte>) returns (n: nat)
      requires r <= w <= |buf|
      modifies this`r, p
      ensures var s := CopyOut(State(buf, old(r), w, err, rd.script), p.Length);
              State(buf, r, w, err, rd.script) == s.st && n == |s.data| && p[..n] == s.data
      ensures p[n..] == old(p[n..])
    {
      n := Copy(p, buf[r..w]);
      r := r + n;
    }
  }
}
