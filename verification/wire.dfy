/** The byte stream from the serial port: the start-up line and title, then the reader
    thread's fixed-width frames. The stream is a finite byte sequence; where the program
    would block in `read`/`readline` waiting for more bytes, the model stops. */
module Wire {
  import opened Wrappers
  import opened Ascii
  import opened Series
  import opened Utf8

  /** tag, time, value and terminator, eight bytes each */
  const FRAME_SIZE: nat := 32

  /** Why reading stopped: the stream ran out in the middle of a read (the program would
      block there), `int()` failed on the time or on the value field, or the title's
      `decode()` failed before the reader thread was started. */
  datatype Halt = Starved | BadTime | BadValue | BadTitle

  /** The buffers as the plot sees them once the reader has stopped, and why it stopped. */
  datatype Outcome = Outcome(series: TimeSeries, halt: Halt)

  /** Everything the program makes of one stream: the plot title, if it was read, and the
      reader's final state. */
  datatype Session = Session(title: Option<seq<byte>>, outcome: Outcome)

  /** `readline()`: the bytes after the first '\n', or `None` if there is none (the read
      would block for ever). */
  function SkipLine(s: seq<byte>): (r: Option<seq<byte>>)
    ensures r.None? <==> NL !in s
    ensures r.Some? ==> |r.value| < |s| && s[|s| - |r.value|..] == r.value
    ensures r.Some? ==> s[|s| - |r.value| - 1] == NL && NL !in s[..|s| - |r.value| - 1]
    decreases |s|
  {
    if |s| == 0 then None
    else if s[0] == NL then Some(s[1..])
    else
      var r := SkipLine(s[1..]);
      assert r.Some? ==> s[..|s| - |r.value| - 1] == [s[0]] + s[1..][..|s| - 1 - |r.value| - 1];
      r
  }

  /** `readline()` consumes exactly one line: everything up to and including its '\n'. */
  lemma {:induction false} SkipLineOfLine(line: seq<byte>, rest: seq<byte>)
    requires NL !in line
    ensures SkipLine(line + [NL] + rest) == Some(rest)
    decreases |line|
  {
    var s := line + [NL] + rest;
    if |line| == 0 {
      assert s[1..] == rest;
    } else {
      assert s[0] == line[0] != NL;
      assert s[1..] == line[1..] + [NL] + rest;
      SkipLineOfLine(line[1..], rest);
    }
  }

  /** The reader thread's `while` loop from the state `b` on the remaining bytes `s`. Each
      iteration reads the tag (ignored), the time (appended at once), the value (appended
      at once) and the terminator (ignored, never compared with "end_msg\n"), and only then
      runs the zig-zag check. */
  function Loop(b: TimeSeries, s: seq<byte>): (o: Outcome)
    ensures Aligned(b) ==>
              Aligned(o.series) || (|o.series.times| == |o.series.values| + 1 && o.halt != BadTime)
    ensures o.halt != BadTitle
    // a stream that ends before the time field is complete: nothing is appended
    ensures |s| < 2 * FIELD_WIDTH ==> o == Outcome(b, Starved)
    // `int()` fails on the time field: the thread dies with the buffers untouched
    ensures |s| >= 2 * FIELD_WIDTH && DecodeInt(s[FIELD_WIDTH..2 * FIELD_WIDTH]).None? ==>
              o == Outcome(b, BadTime)
    // the time is appended as soon as it is read, before the value field is looked at
    ensures |s| >= 2 * FIELD_WIDTH && DecodeInt(s[FIELD_WIDTH..2 * FIELD_WIDTH]).Some? &&
            (|s| < 3 * FIELD_WIDTH || DecodeInt(s[2 * FIELD_WIDTH..3 * FIELD_WIDTH]).None?) ==>
              && o.series.times == b.times + [DecodeInt(s[FIELD_WIDTH..2 * FIELD_WIDTH]).value]
              && o.series.values == b.values
              && o.halt == (if |s| < 3 * FIELD_WIDTH then Starved else BadValue)
    // both fields read but the terminator is cut off: both appended, no zig-zag check
    ensures |s| >= 3 * FIELD_WIDTH && |s| < FRAME_SIZE &&
            DecodeInt(s[FIELD_WIDTH..2 * FIELD_WIDTH]).Some? &&
            DecodeInt(s[2 * FIELD_WIDTH..3 * FIELD_WIDTH]).Some? ==>
              && o.series.times == b.times + [DecodeInt(s[FIELD_WIDTH..2 * FIELD_WIDTH]).value]
              && o.series.values == b.values + [DecodeInt(s[2 * FIELD_WIDTH..3 * FIELD_WIDTH]).value]
              && o.halt == Starved
    decreases |s|
  {
    if |s| < 2 * FIELD_WIDTH then Outcome(b, Starved)
    else match DecodeInt(s[FIELD_WIDTH..2 * FIELD_WIDTH])
      case None => Outcome(b, BadTime)
      case Some(t) =>
        var b1 := AppendTime(b, t);
        if |s| < 3 * FIELD_WIDTH then Outcome(b1, Starved)
        else match DecodeInt(s[2 * FIELD_WIDTH..3 * FIELD_WIDTH])
          case None => Outcome(b1, BadValue)
          case Some(v) =>
            var b2 := AppendValue(b1, v);
            if |s| < FRAME_SIZE then Outcome(b2, Starved)
            else Loop(Resync(b2), s[FRAME_SIZE..])
  }

  /** Taking one frame off a stream of whole frames leaves whole frames. */
  lemma WholeFramesLeft(n: nat)
    requires n >= FRAME_SIZE && n % FRAME_SIZE == 0
    ensures (n - FRAME_SIZE) % FRAME_SIZE == 0
  {
  }

  /** A stream of whole frames, read to its end, leaves the lists of equal length and in
      time order. */
  lemma {:induction false} LoopKeepsOrder(b: TimeSeries, s: seq<byte>)
    requires Aligned(b) && NonDecreasing(b.times)
    requires Loop(b, s).halt == Starved && |s| % FRAME_SIZE == 0
    ensures Aligned(Loop(b, s).series) && NonDecreasing(Loop(b, s).series.times)
    decreases |s|
  {
    if |s| >= FRAME_SIZE {
      var ft, fv := s[FIELD_WIDTH..2 * FIELD_WIDTH], s[2 * FIELD_WIDTH..3 * FIELD_WIDTH];
      assert DecodeInt(ft).Some? && DecodeInt(fv).Some?;
      var t, v := DecodeInt(ft).value, DecodeInt(fv).value;
      var rest := s[FRAME_SIZE..];
      WholeFramesLeft(|s|);
      LoopConsumesFrame(b, s, t, v);
      StepKeepsOrder(b, t, v);
      LoopKeepsOrder(Step(b, t, v), rest);
    } else {
      assert |s| == 0;
    }
  }

  /** Start-up followed by the reader thread: the main thread discards one line, reads the
      eight title bytes and decodes them as UTF-8 (an exception ends the program before the
      reader thread starts); the reader thread discards one more line and loops. */
  function Open(s: seq<byte>): (session: Session)
    ensures session.title.Some? ==> |session.title.value| == FIELD_WIDTH && IsUtf8(session.title.value)
    ensures session.title.None? ==>
              session.outcome.series == Empty && session.outcome.halt in {Starved, BadTitle}
    ensures session.outcome.halt == BadTitle ==> session.title.None?
    ensures NL !in s ==> session.title.None? && session.outcome.halt == Starved
    ensures Aligned(session.outcome.series) || session.outcome.halt != BadTime
    // the stream ends inside the title field: `read(8)` blocks, which is no decode failure
    ensures SkipLine(s).Some? && |SkipLine(s).value| < FIELD_WIDTH ==>
              session == Session(None, Outcome(Empty, Starved))
    // eight bytes after the first line: they are the title exactly when they are UTF-8
    ensures SkipLine(s).Some? && |SkipLine(s).value| >= FIELD_WIDTH ==>
              var title := SkipLine(s).value[..FIELD_WIDTH];
              && (IsUtf8(title) ==> session.title == Some(title))
              && (!IsUtf8(title) ==> session == Session(None, Outcome(Empty, BadTitle)))
    // a title with no '\n' after it is shown, and the reader thread waits in `readline`
    ensures SkipLine(s).Some? && |SkipLine(s).value| >= FIELD_WIDTH &&
            IsUtf8(SkipLine(s).value[..FIELD_WIDTH]) && NL !in SkipLine(s).value[FIELD_WIDTH..] ==>
              session.outcome == Outcome(Empty, Starved)
  {
    match SkipLine(s)
    case None => Session(None, Outcome(Empty, Starved))
    case Some(r1) =>
      if |r1| < FIELD_WIDTH then Session(None, Outcome(Empty, Starved))
      else
        var title := r1[..FIELD_WIDTH];
        if !IsUtf8(title) then Session(None, Outcome(Empty, BadTitle))
        else match SkipLine(r1[FIELD_WIDTH..])
        case None => Session(Some(title), Outcome(Empty, Starved))
        case Some(r2) => Session(Some(title), Loop(Empty, r2))
  }

  predicate SampleFits(x: Sample) {
    Fits(x.time) && Fits(x.value)
  }

  /** The 32 bytes a sender writes for one sample, with a given tag and terminator. */
  function EncodeFrame(tag: seq<byte>, x: Sample, term: seq<byte>): (f: seq<byte>)
    requires |tag| == FIELD_WIDTH && |term| == FIELD_WIDTH && SampleFits(x)
    ensures |f| == FRAME_SIZE
    ensures f[..FIELD_WIDTH] == tag && f[3 * FIELD_WIDTH..] == term
    ensures DecodeInt(f[FIELD_WIDTH..2 * FIELD_WIDTH]) == Some(x.time)
    ensures DecodeInt(f[2 * FIELD_WIDTH..3 * FIELD_WIDTH]) == Some(x.value)
  {
    var et, ev := EncodeInt(x.time), EncodeInt(x.value);
    FieldsOfFrame(tag, et, ev, term);
    DecodeEncode(x.time);
    DecodeEncode(x.value);
    tag + et + ev + term
  }

  /** The four fields of a frame are where the reader slices them. */
  lemma FieldsOfFrame(a: seq<byte>, b: seq<byte>, c: seq<byte>, d: seq<byte>)
    requires |a| == |b| == |c| == |d| == FIELD_WIDTH
    ensures var f := a + b + c + d;
            && f[..FIELD_WIDTH] == a && f[FIELD_WIDTH..2 * FIELD_WIDTH] == b
            && f[2 * FIELD_WIDTH..3 * FIELD_WIDTH] == c && f[3 * FIELD_WIDTH..] == d
            && f[..FRAME_SIZE - 1] == a + b + c + d[..FIELD_WIDTH - 1]
  {
  }

  /** The frames of a whole sequence of samples, back to back. */
  function EncodeStream(tag: seq<byte>, ss: seq<Sample>, term: seq<byte>): (s: seq<byte>)
    requires |tag| == FIELD_WIDTH && |term| == FIELD_WIDTH
    requires forall i :: 0 <= i < |ss| ==> SampleFits(ss[i])
    ensures |s| == FRAME_SIZE * |ss|
  {
    if |ss| == 0 then []
    else EncodeFrame(tag, ss[0], term) + EncodeStream(tag, ss[1..], term)
  }

  /** Each iteration consumes exactly one 32-byte frame and applies `Step` to its time and
      value fields. */
  lemma LoopConsumesFrame(b: TimeSeries, s: seq<byte>, t: int, v: int)
    requires |s| >= FRAME_SIZE
    requires DecodeInt(s[FIELD_WIDTH..2 * FIELD_WIDTH]) == Some(t)
    requires DecodeInt(s[2 * FIELD_WIDTH..3 * FIELD_WIDTH]) == Some(v)
    ensures Loop(b, s) == Loop(Step(b, t, v), s[FRAME_SIZE..])
  {
  }

  /** One iteration reads the loop's result off the time field, the value field and the
      bytes after the frame, nothing else. */
  lemma LoopReadsOnlyFields(b: TimeSeries, s: seq<byte>, s': seq<byte>)
    requires |s| >= FRAME_SIZE && |s'| >= FRAME_SIZE
    requires s[FIELD_WIDTH..3 * FIELD_WIDTH] == s'[FIELD_WIDTH..3 * FIELD_WIDTH]
    requires s[FRAME_SIZE..] == s'[FRAME_SIZE..]
    ensures Loop(b, s) == Loop(b, s')
  {
    assert s[FIELD_WIDTH..2 * FIELD_WIDTH] == s[FIELD_WIDTH..3 * FIELD_WIDTH][..FIELD_WIDTH];
    assert s'[FIELD_WIDTH..2 * FIELD_WIDTH] == s'[FIELD_WIDTH..3 * FIELD_WIDTH][..FIELD_WIDTH];
    assert s[2 * FIELD_WIDTH..3 * FIELD_WIDTH] == s[FIELD_WIDTH..3 * FIELD_WIDTH][FIELD_WIDTH..];
    assert s'[2 * FIELD_WIDTH..3 * FIELD_WIDTH] == s'[FIELD_WIDTH..3 * FIELD_WIDTH][FIELD_WIDTH..];
  }

  /** Only bytes 8..24 of a frame matter: any tag and any terminator, right or wrong,
      give the same result. */
  lemma LoopIgnoresLabelAndTerminator(b: TimeSeries, tag: seq<byte>, tag': seq<byte>,
                                      fields: seq<byte>, term: seq<byte>, term': seq<byte>,
                                      rest: seq<byte>)
    requires |tag| == |tag'| == |term| == |term'| == FIELD_WIDTH
    requires |fields| == 2 * FIELD_WIDTH
    ensures Loop(b, tag + fields + term + rest) == Loop(b, tag' + fields + term' + rest)
  {
    var s := tag + fields + term + rest;
    var s' := tag' + fields + term' + rest;
    assert s[FIELD_WIDTH..3 * FIELD_WIDTH] == fields == s'[FIELD_WIDTH..3 * FIELD_WIDTH];
    assert s[FRAME_SIZE..] == rest == s'[FRAME_SIZE..];
    LoopReadsOnlyFields(b, s, s');
  }

  lemma FrameThenRest(f: seq<byte>, rest: seq<byte>)
    requires |f| == FRAME_SIZE
    ensures (f + rest)[FIELD_WIDTH..2 * FIELD_WIDTH] == f[FIELD_WIDTH..2 * FIELD_WIDTH]
    ensures (f + rest)[2 * FIELD_WIDTH..3 * FIELD_WIDTH] == f[2 * FIELD_WIDTH..3 * FIELD_WIDTH]
    ensures (f + rest)[FRAME_SIZE..] == rest
  {
  }

  /** Decoding what a sender encodes: a well-formed stream of frames leaves the buffers
      exactly where folding `Step` over its samples does, waiting for the next frame. */
  lemma {:induction false} LoopReadsEncodedStream(b: TimeSeries, tag: seq<byte>, ss: seq<Sample>,
                                                  term: seq<byte>)
    requires |tag| == FIELD_WIDTH && |term| == FIELD_WIDTH
    requires forall i :: 0 <= i < |ss| ==> SampleFits(ss[i])
    ensures Loop(b, EncodeStream(tag, ss, term)) == Outcome(Run(b, ss), Starved)
    decreases |ss|
  {
    if |ss| > 0 {
      var f := EncodeFrame(tag, ss[0], term);
      var rest := EncodeStream(tag, ss[1..], term);
      FrameThenRest(f, rest);
      LoopConsumesFrame(b, f + rest, ss[0].time, ss[0].value);
      LoopReadsEncodedStream(Step(b, ss[0].time, ss[0].value), tag, ss[1..], term);
    }
  }

  /** The start-up reads on a stream laid out as a partial line, the title field and one
      more line for the reader thread to discard: the reader loop starts right after it. */
  lemma OpenLayout(junk: seq<byte>, title: seq<byte>, line: seq<byte>, rest: seq<byte>)
    requires NL !in junk && NL !in line && |title| == FIELD_WIDTH && IsUtf8(title)
    ensures Open(junk + [NL] + title + line + [NL] + rest) == Session(Some(title), Loop(Empty, rest))
  {
    var tail := line + [NL] + rest;
    var r1 := title + tail;
    assert junk + [NL] + title + line + [NL] + rest == junk + [NL] + r1;
    SkipLineOfLine(junk, r1);
    assert r1[..FIELD_WIDTH] == title;
    assert r1[FIELD_WIDTH..] == tail;
    SkipLineOfLine(line, rest);
  }

  /** A title field that is not UTF-8 stops the program at start-up: there is no title and
      nothing after it is read, whatever follows. */
  lemma OpenRejectsBadTitle(junk: seq<byte>, title: seq<byte>, rest: seq<byte>)
    requires NL !in junk && |title| == FIELD_WIDTH && !IsUtf8(title)
    ensures Open(junk + [NL] + title + rest) == Session(None, Outcome(Empty, BadTitle))
  {
    var r1 := title + rest;
    assert junk + [NL] + title + rest == junk + [NL] + r1;
    SkipLineOfLine(junk, r1);
    assert r1[..FIELD_WIDTH] == title;
  }

  /** The whole program on a stream laid out as a partial line, the title field, one more
      line for the reader thread to discard, and then well-formed frames. */
  lemma OpenReadsTitleThenFrames(junk: seq<byte>, title: seq<byte>, line: seq<byte>,
                                 tag: seq<byte>, ss: seq<Sample>, term: seq<byte>)
    requires NL !in junk && NL !in line && |title| == FIELD_WIDTH && IsUtf8(title)
    requires |tag| == FIELD_WIDTH && |term| == FIELD_WIDTH
    requires forall i :: 0 <= i < |ss| ==> SampleFits(ss[i])
    ensures Open(junk + [NL] + title + line + [NL] + EncodeStream(tag, ss, term))
            == Session(Some(title), Outcome(Run(Empty, ss), Starved))
  {
    OpenLayout(junk, title, line, EncodeStream(tag, ss, term));
    LoopReadsEncodedStream(Empty, tag, ss, term);
  }

  /** A frame whose tag has no '\n' and whose terminator is "end_msg\n" (or anything else
      with its only '\n' last) is exactly one line. */
  lemma FrameIsOneLine(tag: seq<byte>, x: Sample, term: seq<byte>)
    requires |tag| == FIELD_WIDTH && |term| == FIELD_WIDTH && SampleFits(x)
    requires NL !in tag && NL !in term[..FIELD_WIDTH - 1] && term[FIELD_WIDTH - 1] == NL
    ensures var f := EncodeFrame(tag, x, term);
            f == f[..FRAME_SIZE - 1] + [NL] && NL !in f[..FRAME_SIZE - 1]
  {
    var f := EncodeFrame(tag, x, term);
    var et, ev := EncodeInt(x.time), EncodeInt(x.value);
    FieldsOfFrame(tag, et, ev, term);
    assert f[FRAME_SIZE - 1] == term[FIELD_WIDTH - 1];
  }

  lemma EncodeStreamCons(tag: seq<byte>, x: Sample, ss: seq<Sample>, term: seq<byte>)
    requires |tag| == FIELD_WIDTH && |term| == FIELD_WIDTH
    requires SampleFits(x) && forall i :: 0 <= i < |ss| ==> SampleFits(ss[i])
    ensures EncodeStream(tag, [x] + ss, term) == EncodeFrame(tag, x, term) + EncodeStream(tag, ss, term)
  {
    assert ([x] + ss)[1..] == ss;
  }

  /** Regrouping a concatenation, stated over plain variables: inside the proof below, where
      the parts are frame encodings, the same step costs the solver far more. */
  lemma Regroup(a: seq<byte>, b: seq<byte>, c: seq<byte>, d: seq<byte>)
    ensures a + (b + c + d) == a + b + c + d
  {
  }

  /** When frames follow the title directly and the terminator is "end_msg\n", the reader
      thread's `readline` swallows the whole first frame: its sample is never plotted. */
  lemma OpenDropsFirstFrame(junk: seq<byte>, title: seq<byte>, tag: seq<byte>,
                            first: Sample, ss: seq<Sample>, term: seq<byte>)
    requires NL !in junk && |title| == FIELD_WIDTH && IsUtf8(title)
    requires |tag| == FIELD_WIDTH && |term| == FIELD_WIDTH
    requires NL !in tag && NL !in term[..FIELD_WIDTH - 1] && term[FIELD_WIDTH - 1] == NL
    requires SampleFits(first) && forall i :: 0 <= i < |ss| ==> SampleFits(ss[i])
    ensures Open(junk + [NL] + title + EncodeStream(tag, [first] + ss, term))
            == Session(Some(title), Outcome(Run(Empty, ss), Starved))
  {
    var f := EncodeFrame(tag, first, term);
    var rest := EncodeStream(tag, ss, term);
    EncodeStreamCons(tag, first, ss, term);
    FrameIsOneLine(tag, first, term);
    var line := f[..FRAME_SIZE - 1];
    var head := junk + [NL] + title;
    Regroup(head, line, [NL], rest);
    OpenLayout(junk, title, line, rest);
    LoopReadsEncodedStream(Empty, tag, ss, term);
  }
}
