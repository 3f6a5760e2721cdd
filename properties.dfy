/** Properties of the Sweeper model that relate several operations or
    whole runs: when fill panics, how its retry loop ends, that Read loses
    no byte, that the endless branch of ReadSliceWithString is a fixpoint,
    and a few concrete runs. */
module SweeperProperties {
  import opened Source
  import opened Bytes
  import opened Sweeper

  // ------------------------------------------------------------ fill

  /** fill panics exactly when it compacts and the unread tail (buf[r:], plus
      the appended zero byte) does not fit below defaultBufSize. Without
      compaction it never panics: it only appends one zero byte. */
  lemma FillPanicsExactly(st: State)
    requires WellFormed(st)
    ensures FillPanics(st) <==> st.r > 0 && |st.buf| - st.r >= DefaultBufSize
    ensures st.r == 0 ==> Grow(st).buf == st.buf + [0] && Grow(st).w == st.w
  {
  }

  /** Starting from r == 0, fill keeps every byte before w and the buffer
      grows by exactly one byte. */
  lemma FillAtStart(st: State)
    requires WellFormed(st) && st.r == 0
    ensures !FillPanics(st)
    ensures var f := Filled(st);
            |f.buf| == |st.buf| + 1 && st.w <= f.w
            && f.buf[..st.w] == st.buf[..st.w]
            && f.buf[st.w..f.w] + Stream(f.src) == Stream(st.src)
            && f.buf[f.w..] == (st.buf + [0])[f.w..]
  {
    var g := Grow(st);
    assert g.buf == st.buf + [0] && g.w == st.w;
    assert g.buf[..g.w] == st.buf[..st.w];
    FillConserves(st);
  }

  /** The first k answers of the script are (0, nil). */
  predicate EmptyRun(src: seq<Chunk>, k: nat)
  {
    k <= |src| && forall j :: 0 <= j < k ==> src[j] == Chunk([], Nil)
  }

  lemma EmptyRunTail(src: seq<Chunk>, k: nat)
    requires k > 0 && EmptyRun(src, k)
    ensures EmptyRun(src[1..], k - 1) && src[1..][k - 1..] == src[k..]
  {
    forall j | 0 <= j < k - 1
      ensures src[1..][j] == Chunk([], Nil)
    {
      assert src[1..][j] == src[j + 1];
    }
  }

  /** tries answers of (0, nil) in a row: fill's loop makes exactly tries
      calls, gets nothing, and gives up with io.ErrNoProgress. */
  lemma {:induction false} EmptyRunGivesUp(src: seq<Chunk>, room: nat, tries: nat)
    requires EmptyRun(src, tries)
    ensures PullLoop(src, room, tries) == Pull([], NoProgress, src[tries..], tries)
    decreases tries
  {
    if tries > 0 {
      assert src[0] == Chunk([], Nil);
      EmptyRunTail(src, tries);
      EmptyRunGivesUp(src[1..], room, tries - 1);
    }
  }

  /** After j answers of (0, nil), with attempts to spare, the first answer
      that carries bytes or an error ends fill's loop at call j + 1, and
      that answer is what fill delivers. */
  lemma {:induction false} PullLoopFirstProgress(src: seq<Chunk>, room: nat, tries: nat, j: nat)
    requires j < tries && EmptyRun(src, j)
    requires Respond(src[j..], room).err != Nil || |Respond(src[j..], room).data| > 0
    ensures var resp := Respond(src[j..], room);
            PullLoop(src, room, tries) == Pull(resp.data, resp.err, resp.rest, j + 1)
    decreases j
  {
    if j > 0 {
      assert src[0] == Chunk([], Nil);
      EmptyRunTail(src, j);
      PullLoopFirstProgress(src[1..], room, tries - 1, j - 1);
    }
  }

  /** maxConsecutiveEmptyReads answers of (0, nil): fill latches
      io.ErrNoProgress and leaves the buffer as grown. */
  lemma FillGivesUp(st: State)
    requires WellFormed(st) && !FillPanics(st) && EmptyRun(st.src, MaxConsecutiveEmptyReads)
    ensures Filled(st) == Grow(st).(err := NoProgress, src := st.src[MaxConsecutiveEmptyReads..])
  {
    var g := Grow(st);
    FilledAfterGrow(st);
    PulledGivesUp(g);
    DeliverNothing(g, Pulled(g));
  }

  /** The same, for the loop as fill runs it on a grown buffer. */
  lemma PulledGivesUp(g: State)
    requires g.w <= |g.buf| && EmptyRun(g.src, MaxConsecutiveEmptyReads)
    ensures Pulled(g) == Pull([], NoProgress, g.src[MaxConsecutiveEmptyReads..], MaxConsecutiveEmptyReads)
  {
    EmptyRunGivesUp(g.src, |g.buf| - g.w, MaxConsecutiveEmptyReads);
  }

  /** A loop that ended with no bytes leaves the buffer and w alone. */
  lemma DeliverNothing(g: State, p: Pull)
    requires g.w <= |g.buf| && p.data == [] && p.err != Nil
    ensures Deliver(g, p) == g.(err := p.err, src := p.rest)
  {
    assert WriteAt(g.buf, g.w, p.data) == g.buf;
  }

  /** A source that answers (0, nil) maxConsecutiveEmptyReads times in a
      row: the first call of ReadSliceWithString on a new Sweeper gives up
      with io.ErrNoProgress and an empty line instead of looping. */
  lemma SilentSourceGivesUp(size: int, script: seq<Chunk>, delim: seq<byte>)
    requires EmptyRun(script, MaxConsecutiveEmptyReads) && |delim| > 0 && delim[0] != 0
    ensures ReadSliceResult(Fresh(size, script), delim).out == Returned([], NoProgress)
  {
    var st0 := Fresh(size, script);
    FillGivesUp(st0);
    var f := Filled(st0);
    assert f.buf == st0.buf + [0] && f.w == 0 && f.err == NoProgress;
    NotIn(f.buf, delim);
    ScanFromError(f, delim);
  }

  /** With the delimiter [0] the same silent source gives a different answer:
      the zero byte appended at w matches, so the call returns [0] with a nil
      error, leaves r beyond w, and io.ErrNoProgress stays latched. */
  lemma ZeroDelimiterSilentSource(size: int, script: seq<Chunk>)
    requires EmptyRun(script, MaxConsecutiveEmptyReads)
    ensures var s := ReadSliceResult(Fresh(size, script), [0]);
            s.out == Returned([0], Nil) && s.st.err == NoProgress && s.st.r == 1 && s.st.w == 0
  {
    var st0 := Fresh(size, script);
    FillGivesUp(st0);
    var f := Filled(st0);
    assert f.buf == st0.buf + [0] && f.w == 0 && f.err == NoProgress;
    assert f.buf[0..1] == [0];
    IndexOfIs(f.buf, [0], 0);
    ScanFromFound(f, [0]);
  }

  // ------------------------------------------------------------ Read

  /** The copy-out step hands over a prefix of buf[r:w] and keeps the rest. */
  lemma CopyOutSplits(st: State, plen: nat)
    requires st.r <= st.w <= |st.buf|
    ensures var s := CopyOut(st, plen);
            s.st.r <= s.st.w && s.data + s.st.buf[s.st.r..s.st.w] == st.buf[st.r..st.w]
  {
    var s := CopyOut(st, plen);
    assert s.data == st.buf[st.r..s.st.r];
  }

  /** Read loses no byte and invents none: what it returns, followed by what
      is still buffered and what the source still holds, is what was buffered
      and held before. It also keeps r <= w. */
  lemma ReadConservesStream(st: State, plen: nat)
    requires WellFormed(st) && st.r <= st.w
    ensures var s := ReadResult(st, plen);
            s.Served? && s.st.r <= s.st.w <= |s.st.buf|
            && s.data + s.st.buf[s.st.r..s.st.w] + Stream(s.st.src) == st.buf[st.r..st.w] + Stream(st.src)
  {
    if plen == 0 || (st.r == st.w && st.err != Nil) {
    } else if st.r == st.w && plen >= |st.buf| {
      RespondConserves(st.src, plen);
    } else if st.r == st.w {
      RefillConservesStream(st, plen);
    } else {
      CopyOutSplits(st, plen);
    }
  }

  /** The same for a Read that refills the empty buffer and copies out of it. */
  lemma RefillConservesStream(st: State, plen: nat)
    requires WellFormed(st) && st.r == st.w && 0 < plen < |st.buf| && st.err == Nil
    ensures var s := ReadResult(st, plen);
            s.Served? && s.st.r <= s.st.w <= |s.st.buf|
            && s.data + s.st.buf[s.st.r..s.st.w] + Stream(s.st.src) == Stream(st.src)
  {
    RespondConserves(st.src, |st.buf|);
    var resp := Respond(st.src, |st.buf|);
    if |resp.data| > 0 {
      var st1 := st.(buf := WriteAt(st.buf, 0, resp.data), r := 0, w := |resp.data|, err := resp.err, src := resp.rest);
      assert st1.buf[st1.r..st1.w] == resp.data;
      CopyOutSplits(st1, plen);
    }
  }

  // ------------------------------------------------ ReadSliceWithString

  /** The endless branch changes nothing: running the search loop again from
      the state it leaves ends the same way from the same state, so the Go
      loop goes round for ever. */
  lemma DivergedRepeats(st: State, delim: seq<byte>)
    requires WellFormed(st) && st.r == 0
    ensures var s := ScanFrom(st, delim);
            s.out.Diverged? ==> s.st.r == 0 && ScanFrom(s.st, delim) == s
  {
    var s := ScanFrom(st, delim);
    ScanFromMeaning(st, delim);
    if s.out.Diverged? {
      ScanFromEnd(s.st, delim);
    }
  }

  /** The first call on a new Sweeper, with a delimiter free of zero bytes,
      reads the stream itself and never panics. Whenever it returns nil, the
      line is the stream up to and including the first occurrence of delim,
      and the rest is kept for the next call; when it returns an error other
      than EOF, the line is everything received, which holds no delim.
      FirstCallFindsDelim says when it does return nil. */
  lemma FirstCallReadsToDelimiter(size: int, script: seq<Chunk>, delim: seq<byte>)
    requires NonZero(delim)
    ensures var s := ReadSliceResult(Fresh(size, script), delim);
            !s.out.Panicked? && ScanTracksInput(s, delim, Stream(script))
  {
    var st := Fresh(size, script);
    assert st.buf[st.w..] == st.buf;
    ReadSliceInput(st, delim);
  }

  /** Against a steady source (every answer carries bytes and no error), the
      first call on a new Sweeper reads on until it has the first occurrence
      of delim, whenever the stream holds one, and returns the stream up to
      and including it with a nil error. */
  lemma FirstCallFindsDelim(size: int, script: seq<Chunk>, delim: seq<byte>)
    requires NonZero(delim) && Steady(script) && IndexOf(Stream(script), delim) >= 0
    ensures ReadSliceResult(Fresh(size, script), delim).out
            == Returned(FirstLine(Stream(script), delim), Nil)
  {
    var st := Fresh(size, script);
    assert st.buf[st.w..] == st.buf;
    assert CallInput(st) == Stream(script);
    ReadSliceFindsDelim(st, delim);
  }

  // ------------------------------------------------------- concrete runs

  const Bar: byte := 124  // '|'

  /** fill from r == 0 when the first answer carries bytes: they land at w. */
  lemma FillTakesFirstAnswer(st: State)
    requires WellFormed(st) && st.r == 0 && st.src != []
    requires |st.src[0].data| > 0 && |st.src[0].data| <= |st.buf| + 1 - st.w
    ensures !FillPanics(st)
    ensures Filled(st) == st.(buf := WriteAt(st.buf + [0], st.w, st.src[0].data), w := st.w + |st.src[0].data|,
                              err := if st.src[0].err == Nil then st.err else st.src[0].err, src := st.src[1..])
  {
    var g := Grow(st);
    FilledAfterGrow(st);
    PulledStops(g);
  }

  const FooBar: seq<byte> := [102, 111, 111, Bar]  // "foo|"

  /** The first call over "foo|": the line and the state after it. */
  lemma FooBarFirstCall()
    ensures ReadSliceResult(Fresh(4, [Chunk(FooBar, Nil)]), [Bar])
            == Scan(State(FooBar + [0], 4, 4, Nil, []), Returned(FooBar, Nil))
  {
    var st0 := Fresh(4, [Chunk(FooBar, Nil)]);
    FillTakesFirstAnswer(st0);
    var f1 := Filled(st0);
    assert f1.buf == FooBar + [0] && f1.w == 4 && f1.err == Nil && f1.src == [];
    forall j | 0 <= j < 3
      ensures !OccursAt(f1.buf, [Bar], j)
    {
      assert f1.buf[j..j + 1][0] == f1.buf[j] != Bar;
    }
    IndexOfIs(f1.buf, [Bar], 3);
    ScanFromFound(f1, [Bar]);
  }

  /** The second call, with nothing left in the stream: fill compacts into a
      fresh all-zero buffer, the source reports EOF, and the drain branch
      returns the whole buffer. */
  lemma FooBarSecondCall()
    ensures ReadSliceResult(State(FooBar + [0], 4, 4, Nil, []), [Bar]).out
            == Returned(Zeros(DefaultBufSize), EOF)
  {
    var st1 := State(FooBar + [0], 4, 4, Nil, []);
    var g := Grow(st1);
    assert g.buf == Zeros(DefaultBufSize) by {
      CompactionKeepsTail(st1);
    }
    assert !FillPanics(st1);
    FilledAfterGrow(st1);
    var f2 := Filled(st1);
    assert f2 == g.(err := EOF);
    NotIn(f2.buf, [Bar]);
    ScanFromEnd(f2, [Bar]);
  }

  /** "foo|" and then the end of the stream, through a 4-byte Sweeper: the
      first call returns "foo|"; the second does not return an empty line
      with EOF but the whole 256-byte compacted buffer, all zeros, with EOF. */
  lemma LineThenEndOfStream()
    ensures var s1 := ReadSliceResult(Fresh(4, [Chunk(FooBar, Nil)]), [Bar]);
            s1.out == Returned(FooBar, Nil)
            && ReadSliceResult(s1.st, [Bar]).out == Returned(Zeros(DefaultBufSize), EOF)
  {
    FooBarFirstCall();
    FooBarSecondCall();
  }

  const Abc: seq<byte> := [97, 98, 99]  // "abc"

  /** "abc" and then the end of the stream, with no delimiter anywhere: the
      call does not return "abc" with EOF. After the second fill latches EOF
      the buffer holds non-zero bytes, so ReadSliceWithString loops for ever. */
  lemma UnterminatedLineNeverReturns()
    ensures ReadSliceResult(Fresh(4, [Chunk(Abc, Nil)]), [Bar]).out == Diverged
  {
    AbcFirstFill();
    AbcRefills();
    AbcDrainLoops();
  }

  /** The first search finds no '|' in "abc" and refills. */
  lemma AbcRefills()
    ensures ScanFrom(State(Abc + [0, 0], 0, 3, Nil, []), [Bar])
            == ScanFrom(State(Abc + [0, 0, 0], 0, 3, EOF, []), [Bar])
  {
    var f1 := State(Abc + [0, 0], 0, 3, Nil, []);
    NotIn(f1.buf, [Bar]);
    ScanFromRefill(f1, [Bar]);
    AbcSecondFill();
  }

  /** With EOF latched and "abc" still in the buffer, the loop repeats. */
  lemma AbcDrainLoops()
    ensures ScanFrom(State(Abc + [0, 0, 0], 0, 3, EOF, []), [Bar]).out == Diverged
  {
    var f2 := State(Abc + [0, 0, 0], 0, 3, EOF, []);
    NotIn(f2.buf, [Bar]);
    assert f2.buf[0] != 0;
    ScanFromEnd(f2, [Bar]);
  }

  lemma AbcFirstFill()
    ensures Filled(Fresh(4, [Chunk(Abc, Nil)])) == State(Abc + [0, 0], 0, 3, Nil, [])
  {
    FillTakesFirstAnswer(Fresh(4, [Chunk(Abc, Nil)]));
  }

  lemma AbcSecondFill()
    ensures !FillPanics(State(Abc + [0, 0], 0, 3, Nil, []))
    ensures Filled(State(Abc + [0, 0], 0, 3, Nil, [])) == State(Abc + [0, 0, 0], 0, 3, EOF, [])
  {
    FilledAfterGrow(State(Abc + [0, 0], 0, 3, Nil, []));
  }

  const ABar: seq<byte> := [97, Bar]  // "a|"
  const BBar: seq<byte> := [98, Bar]  // "b|"

  /** Reset does not discard what the buffer holds. FooBarFirstCall leaves
      State(FooBar + [0], 4, 4, Nil, []); a Reset to a reader answering one
      byte c other than '|' keeps that buffer and sets r = w = 0, which is st. The next
      fill writes c over the 'f', and the search, which scans the whole
      buffer, finds the old '|' at index 3: the line is c followed by "oo|",
      with a nil error. */
  lemma ResetKeepsStaleBytes(st: State, c: byte)
    requires st.buf == FooBar + [0] && st.r == 0 && st.w == 0 && st.err == Nil
    requires st.src == [Chunk([c], Nil)] && c != Bar
    ensures ReadSliceResult(st, [Bar]).out == Returned([c, 111, 111, Bar], Nil)
  {
    FillOneByte(st, c);
    var f := Filled(st);
    assert f.buf == [c, 111, 111, Bar, 0, 0] by {
      assert st.buf + [0] == [102, 111, 111, Bar, 0, 0];
    }
    ResetScan(f, c);
  }

  /** fill from r == w == 0 when the first answer is a single byte c: c
      replaces the buffer's first byte. */
  lemma FillOneByte(st: State, c: byte)
    requires WellFormed(st) && st.r == 0 && st.w == 0 && st.src == [Chunk([c], Nil)]
    ensures !FillPanics(st)
    ensures Filled(st) == st.(buf := [c] + (st.buf + [0])[1..], w := 1, src := [])
  {
    FillTakesFirstAnswer(st);
    var b := WriteAt(st.buf + [0], 0, [c]);
    assert b == [c] + b[1..];
  }

  /** After the Reset and a fill of c, the search finds the old '|' at
      index 3, beyond w = 1. */
  lemma ResetScan(f: State, c: byte)
    requires c != Bar && f.buf == [c, 111, 111, Bar, 0, 0] && f.r == 0 && f.w == 1 && f.err == Nil
    ensures ScanFrom(f, [Bar]).out == Returned([c, 111, 111, Bar], Nil)
  {
    forall j | 0 <= j < 3
      ensures !OccursAt(f.buf, [Bar], j)
    {
      assert f.buf[j..j + 1][0] == f.buf[j] != Bar;
    }
    assert f.buf[3..4] == [Bar];
    IndexOfIs(f.buf, [Bar], 3);
    ScanFromFound(f, [Bar]);
  }

  /** "a|" then "b|" through a 4-byte Sweeper: the second line comes back
      as "\0\0\0b|". Compaction sets w to len(buf[r:]) - 1, three here,
      although no unread byte was buffered, so three zero bytes of padding
      precede "b|" in the line. */
  lemma CompactionPadsLine()
    ensures var s1 := ReadSliceResult(Fresh(4, [Chunk(ABar, Nil), Chunk(BBar, Nil)]), [Bar]);
            s1.out == Returned(ABar, Nil)
            && ReadSliceResult(s1.st, [Bar]).out == Returned([0, 0, 0] + BBar, Nil)
  {
    APipeFirstCall();
    APipeSecondCall();
  }

  lemma APipeFirstCall()
    ensures ReadSliceResult(Fresh(4, [Chunk(ABar, Nil), Chunk(BBar, Nil)]), [Bar])
            == Scan(State(ABar + [0, 0, 0], 2, 2, Nil, [Chunk(BBar, Nil)]), Returned(ABar, Nil))
  {
    APipeFirstFill();
    APipeFirstScan();
  }

  lemma APipeFirstFill()
    ensures Filled(Fresh(4, [Chunk(ABar, Nil), Chunk(BBar, Nil)]))
            == State(ABar + [0, 0, 0], 0, 2, Nil, [Chunk(BBar, Nil)])
  {
    FillTakesTwoBytes(Fresh(4, [Chunk(ABar, Nil), Chunk(BBar, Nil)]), ABar);
  }

  /** fill from r == w == 0 over four zero bytes, when the first answer is
      two bytes with no error. */
  lemma FillTakesTwoBytes(st: State, d: seq<byte>)
    requires st.buf == [0, 0, 0, 0] && st.r == 0 && st.w == 0 && st.err == Nil
    requires |st.src| > 0 && st.src[0] == Chunk(d, Nil) && |d| == 2
    ensures Filled(st) == State(d + [0, 0, 0], 0, 2, Nil, st.src[1..])
  {
    FillTakesFirstAnswer(st);
    assert st.buf + [0] == [0, 0, 0, 0, 0];
    var b := WriteAt([0, 0, 0, 0, 0], 0, d);
    assert b == d + b[2..] && b[2..] == [0, 0, 0];
  }

  lemma APipeFirstScan()
    ensures ScanFrom(State(ABar + [0, 0, 0], 0, 2, Nil, [Chunk(BBar, Nil)]), [Bar])
            == Scan(State(ABar + [0, 0, 0], 2, 2, Nil, [Chunk(BBar, Nil)]), Returned(ABar, Nil))
  {
    var f1 := State(ABar + [0, 0, 0], 0, 2, Nil, [Chunk(BBar, Nil)]);
    assert !OccursAt(f1.buf, [Bar], 0) by {
      assert f1.buf[0..1][0] == f1.buf[0];
    }
    IndexOfIs(f1.buf, [Bar], 1);
    ScanFromFound(f1, [Bar]);
  }

  lemma APipeSecondCall()
    ensures ReadSliceResult(State(ABar + [0, 0, 0], 2, 2, Nil, [Chunk(BBar, Nil)]), [Bar]).out
            == Returned([0, 0, 0] + BBar, Nil)
  {
    var st1 := State(ABar + [0, 0, 0], 2, 2, Nil, [Chunk(BBar, Nil)]);
    APipeSecondFill(st1);
    APipeSecondScan(Filled(st1));
  }

  /** Its fill compacts to 256 zero bytes with w = 3 and writes "b|" there. */
  lemma APipeSecondFill(st1: State)
    requires st1 == State(ABar + [0, 0, 0], 2, 2, Nil, [Chunk(BBar, Nil)])
    ensures !FillPanics(st1)
    ensures var f := Filled(st1);
            f.r == 0 && f.w == 5 && f.buf[..5] == [0, 0, 0] + BBar && f.err == Nil
  {
    var g := Grow(st1);
    assert g.buf == Zeros(DefaultBufSize) && g.w == 3 by {
      CompactionKeepsTail(st1);
    }
    assert !FillPanics(st1);
    FilledAfterGrow(st1);
    PulledStops(g);
  }

  /** Its search finds '|' at index 4, after the three zero bytes and 'b'. */
  lemma APipeSecondScan(f: State)
    requires WellFormed(f) && f.r == 0 && f.w == 5 && f.buf[..5] == [0, 0, 0] + BBar && f.err == Nil
    ensures ScanFrom(f, [Bar]).out == Returned([0, 0, 0] + BBar, Nil)
  {
    forall j | 0 <= j < 4
      ensures !OccursAt(f.buf, [Bar], j)
    {
      assert f.buf[j..j + 1][0] == f.buf[..5][j];
    }
    assert f.buf[4..5] == [Bar];
    IndexOfIs(f.buf, [Bar], 4);
    ScanFromFound(f, [Bar]);
  }

  /** A delimiter found early in a buffer of 257 bytes or more makes the next
      call panic in fill: compaction keeps len(buf) - r >= 256 bytes, which do
      not fit below defaultBufSize. */
  lemma EarlyMatchInLargeBufferPanics()
    ensures var s1 := ReadSliceResult(Fresh(300, [Chunk([Bar], Nil)]), [Bar]);
            s1.out == Returned([Bar], Nil) && ReadSliceResult(s1.st, [Bar]).out == Panicked
  {
    var st0 := Fresh(300, [Chunk([Bar], Nil)]);
    FillTakesFirstAnswer(st0);
    var f1 := Filled(st0);
    assert f1.buf[0] == Bar && |f1.buf| == 301;
    assert f1.buf[0..1] == [Bar];
    IndexOfIs(f1.buf, [Bar], 0);
    ScanFromFound(f1, [Bar]);
    FillPanicsExactly(f1.(r := 1));
  }

  lemma OneByteFill()
    ensures Filled(Fresh(4, [Chunk([97], Nil)])) == State([97, 0, 0, 0, 0], 0, 1, Nil, [])
  {
    var st := Fresh(4, [Chunk([97], Nil)]);
    FillOneByte(st, 97);
    assert (st.buf + [0])[1..] == [0, 0, 0, 0];
  }

  /** A zero delimiter can match in the padding beyond w, leaving r > w:
      after this call a Read into a non-empty p slices buf[r:w] with r > w,
      which panics. */
  lemma ZeroDelimiterPassesW()
    ensures var s1 := ReadSliceResult(Fresh(4, [Chunk([97], Nil)]), [0]);
            s1.out == Returned([97, 0], Nil) && s1.st.r == 2 && s1.st.w == 1
            && ReadResult(s1.st, 1) == SlicePanic(s1.st)
  {
    var f1 := State([97, 0, 0, 0, 0], 0, 1, Nil, []);
    OneByteFill();
    assert !OccursAt(f1.buf, [0], 0) by {
      assert f1.buf[0..1][0] == f1.buf[0];
    }
    assert f1.buf[1..2] == [0];
    IndexOfIs(f1.buf, [0], 1);
    ScanFromFound(f1, [0]);
  }
}
