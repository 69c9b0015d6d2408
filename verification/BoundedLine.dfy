/**
 The bounded newline-frame reader of `src/bounded_io.rs`, over a reader that hands
 out its bytes in arbitrary non-empty chunks. The reader's outcome is proved equal to
 a specification that looks at the whole input at once, for every chunking.
 */
module BoundedLine {
  import opened ByteStrings

  const NEWLINE: Byte := 10

  datatype Outcome = Eof | Line(bytes: seq<Byte>) | TooLong

  // ---------------------------------------------------------------- whole-input view

  function Flatten(chunks: seq<seq<Byte>>): seq<Byte> {
    if chunks == [] then [] else chunks[0] + Flatten(chunks[1..])
  }

  /** The position of the first newline, or the length when there is none. */
  function NewlineIndex(s: seq<Byte>): (k: nat)
    ensures k <= |s|
    ensures k < |s| ==> s[k] == NEWLINE
    ensures forall j :: 0 <= j < k ==> s[j] != NEWLINE
  {
    if s == [] || s[0] == NEWLINE then 0 else 1 + NewlineIndex(s[1..])
  }

  function FrameLength(s: seq<Byte>): (n: nat)
    ensures n <= |s|
    ensures s != [] ==> 0 < n
  {
    if NewlineIndex(s) < |s| then NewlineIndex(s) + 1 else |s|
  }

  function Classify(frame: seq<Byte>, limit: nat): Outcome {
    if |frame| <= limit then Line(frame) else TooLong
  }

  function OneShot(s: seq<Byte>, limit: nat): Outcome {
    if s == [] then Eof else Classify(s[..FrameLength(s)], limit)
  }

  /** The input cut after every newline. */
  function Frames(s: seq<Byte>): seq<seq<Byte>> {
    if s == [] then [] else [s[..FrameLength(s)]] + Frames(s[FrameLength(s)..])
  }

  function ClassifyAll(frames: seq<seq<Byte>>, limit: nat): (r: seq<Outcome>)
    ensures |r| == |frames|
    ensures forall i :: 0 <= i < |r| ==> r[i] == Classify(frames[i], limit)
  {
    seq(|frames|, i requires 0 <= i < |frames| => Classify(frames[i], limit))
  }

  // ---------------------------------------------------------------- the reader

  /** A buffered reader: `buffers` is what its successive refills deliver. */
  class ChunkedReader {
    var buffers: seq<seq<Byte>>

    ghost predicate Valid()
      reads this
    {
      forall i :: 0 <= i < |buffers| ==> buffers[i] != []
    }

    ghost function Remaining(): seq<Byte>
      reads this
    {
      Flatten(buffers)
    }

    /** What remains is `input` without its first `read` bytes. */
    ghost predicate IsAfter(input: seq<Byte>, read: nat)
      reads this
    {
      read <= |input| && Remaining() == input[read..]
    }

    constructor (chunks: seq<seq<Byte>>)
      requires forall i :: 0 <= i < |chunks| ==> chunks[i] != []
      ensures Valid() && Remaining() == Flatten(chunks)
    {
      buffers := chunks;
    }

    /** Empty exactly at the end of the input, otherwise some prefix of what remains. */
    method FillBuf() returns (available: seq<Byte>)
      requires Valid()
      ensures available <= Remaining()
      ensures available == [] <==> Remaining() == []
      ensures |buffers| > 0 ==> available == buffers[0]
      ensures |buffers| == 0 ==> available == []
    {
      available := if |buffers| == 0 then [] else buffers[0];
    }

    method Consume(n: nat)
      requires Valid()
      requires |buffers| > 0 && n <= |buffers[0]|
      modifies this
      ensures Valid()
      ensures Remaining() == old(Remaining())[n..]
    {
      if n == |buffers[0]| {
        buffers := buffers[1..];
      } else {
        buffers := [buffers[0][n..]] + buffers[1..];
      }
    }
  }

  ghost predicate NoNewlineBefore(s: seq<Byte>, n: nat)
    requires n <= |s|
  {
    forall j :: 0 <= j < n ==> s[j] != NEWLINE
  }

  /** `k` is where the first newline of `s` stands, or the length of `s`. */
  ghost predicate IsNewlinePosition(s: seq<Byte>, k: nat) {
    k <= |s| && NoNewlineBefore(s, k) && (k < |s| ==> s[k] == NEWLINE)
  }

  method NewlinePosition(s: seq<Byte>) returns (k: nat)
    ensures IsNewlinePosition(s, k)
  {
    k := 0;
    while k < |s| && s[k] != NEWLINE
      invariant k <= |s| && NoNewlineBefore(s, k)
    {
      k := k + 1;
    }
  }

  /** What one more chunk tells about the frame that begins the input. */
  lemma ChunkExtendsFrame(input: seq<Byte>, total: nat, chunk: seq<Byte>, k: nat)
    requires total <= |input| && chunk <= input[total..]
    requires NoNewlineBefore(input, total) && IsNewlinePosition(chunk, k)
    ensures k < |chunk| ==> FrameLength(input) == total + k + 1
    ensures k == |chunk| ==> NoNewlineBefore(input, total + |chunk|) && total + |chunk| <= FrameLength(input)
  {
    forall j | total <= j < total + |chunk|
      ensures input[j] == chunk[j - total]
    {
      assert input[total..][j - total] == chunk[j - total];
    }
    assert NoNewlineBefore(input, total + k);
  }

  lemma PrefixGrows(input: seq<Byte>, total: nat, chunk: seq<Byte>, n: nat)
    requires total <= |input| && chunk <= input[total..] && n <= |chunk|
    ensures chunk[..n] == input[total..total + n]
    ensures input[total..][n..] == input[total + n..]
  {
  }

  /** Adds what still fits; what does not fit makes the frame too long. */
  method Retain(line: seq<Byte>, taken: seq<Byte>, limit: nat) returns (kept: seq<Byte>, tooLong: bool)
    requires |line| <= limit
    ensures tooLong <==> |line| + |taken| > limit
    ensures if tooLong then |kept| == limit else kept == line + taken
  {
    var remaining := limit - |line|;
    if |taken| <= remaining {
      return line + taken, false;
    }
    return line + taken[..remaining], true;
  }

  /** What the reader holds of the bytes it has read: all of them while they fit, else as many as fit. */
  ghost predicate Holds(input: seq<Byte>, read: nat, line: seq<Byte>, tooLong: bool, limit: nat) {
    && read <= |input| && |line| <= limit
    && if tooLong then limit < read && |line| == limit else line == input[..read]
  }

  lemma HoldsMore(input: seq<Byte>, read: nat, line: seq<Byte>, taken: seq<Byte>, kept: seq<Byte>, tooLong: bool, limit: nat)
    requires Holds(input, read, line, false, limit) && read + |taken| <= |input| && taken == input[read..read + |taken|]
    requires tooLong <==> |line| + |taken| > limit
    requires if tooLong then |kept| == limit else kept == line + taken
    ensures Holds(input, read + |taken|, kept, tooLong, limit)
  {
  }

  /** What the reader answers at the end of the input and after a newline. */
  lemma AnswerAtEnd(input: seq<Byte>, line: seq<Byte>, tooLong: bool, limit: nat)
    requires NoNewlineBefore(input, |input|) && Holds(input, |input|, line, tooLong, limit)
    ensures FrameLength(input) == |input|
    ensures OneShot(input, limit) == if tooLong then TooLong else if input == [] then Eof else Line(line)
  {
    assert input[..|input|] == input;
  }

  lemma AnswerAfterNewline(input: seq<Byte>, read: nat, line: seq<Byte>, tooLong: bool, limit: nat)
    requires 0 < read == FrameLength(input) && Holds(input, read, line, tooLong, limit)
    ensures OneShot(input, limit) == if tooLong then TooLong else Line(line)
  {
  }

  /** Takes the bytes of a refill up to its first newline, retaining them while the frame is not too long. */
  method TakeChunk(reader: ChunkedReader, available: seq<Byte>, line: seq<Byte>, tooLong: bool, limit: nat,
                   ghost input: seq<Byte>, ghost read: nat)
    returns (kept: seq<Byte>, over: bool, ended: bool, consumed: nat)
    requires reader.Valid() && reader.IsAfter(input, read) && |reader.buffers| > 0 && available == reader.buffers[0]
    requires NoNewlineBefore(input, read) && Holds(input, read, line, tooLong, limit)
    modifies reader
    ensures reader.Valid() && consumed > 0 && reader.IsAfter(input, read + consumed)
    ensures Holds(input, read + consumed, kept, over, limit) && (tooLong ==> over)
    ensures ended ==> FrameLength(input) == read + consumed
    ensures !ended ==> NoNewlineBefore(input, read + consumed) && read + consumed <= FrameLength(input)
  {
    assert available <= input[read..];
    var newline := NewlinePosition(available);
    ChunkExtendsFrame(input, read, available, newline);
    ended := newline < |available|;
    consumed := if ended then newline + 1 else |available|;
    PrefixGrows(input, read, available, consumed);
    kept, over := line, tooLong;
    if !tooLong {
      kept, over := Retain(line, available[..consumed], limit);
      HoldsMore(input, read, line, available[..consumed], kept, over, limit);
    }
    reader.Consume(consumed);
  }

  /**
   Reads one frame. `peak` is the largest number of bytes ever held in `line` and `read`
   the number of bytes taken from the reader.
   */
  method ReadBoundedLine(reader: ChunkedReader, limit: nat, drainOversized: bool)
    returns (outcome: Outcome, ghost peak: nat, ghost read: nat)
    requires reader.Valid()
    modifies reader
    ensures reader.Valid()
    ensures outcome == OneShot(old(reader.Remaining()), limit)
    ensures peak <= limit
    ensures read <= FrameLength(old(reader.Remaining())) && reader.IsAfter(old(reader.Remaining()), read)
    // A delivered or drained frame is consumed exactly; a frame rejected early leaves only
    // a suffix of itself in front of the next frame.
    ensures outcome != TooLong || drainOversized ==> read == FrameLength(old(reader.Remaining()))
    ensures outcome == TooLong ==> limit < read
  {
    ghost var input := reader.Remaining();
    var line: seq<Byte> := [];
    var sawInput, tooLong := false, false;
    peak, read := 0, 0;
    while true
      invariant reader.Valid() && reader.IsAfter(input, read)
      invariant NoNewlineBefore(input, read) && Holds(input, read, line, tooLong, limit)
      invariant sawInput <==> read > 0
      invariant tooLong ==> drainOversized
      invariant |line| <= peak <= limit
      decreases |input| - read
    {
      var available := reader.FillBuf();
      if available == [] {
        AnswerAtEnd(input, line, tooLong, limit);
        outcome := if tooLong then TooLong else if sawInput then Line(line) else Eof;
        return;
      }
      sawInput := true;
      var ended, consumed;
      line, tooLong, ended, consumed := TakeChunk(reader, available, line, tooLong, limit, input, read);
      peak := if |line| > peak then |line| else peak;
      read := read + consumed;
      if ended {
        AnswerAfterNewline(input, read, line, tooLong, limit);
        outcome := if tooLong then TooLong else Line(line);
        return;
      }
      if tooLong && !drainOversized {
        EarlyAnswer(input, read, limit);
        outcome := TooLong;
        return;
      }
    }
  }

  lemma EarlyAnswer(input: seq<Byte>, read: nat, limit: nat)
    requires limit < read <= FrameLength(input)
    ensures OneShot(input, limit) == TooLong
  {
  }

  lemma OutcomesOfFrames(done: seq<Outcome>, frame: seq<Byte>, frames: seq<seq<Byte>>, limit: nat)
    ensures done + ClassifyAll([frame] + frames, limit) == done + [Classify(frame, limit)] + ClassifyAll(frames, limit)
  {
    assert ClassifyAll([frame] + frames, limit) == [Classify(frame, limit)] + ClassifyAll(frames, limit);
  }

  lemma NoOutcomes(done: seq<Outcome>, limit: nat)
    ensures done + ClassifyAll([], limit) == done
  {
  }

  /** The outcomes of an input are that of its first frame and those of the rest. */
  lemma {:induction false} OutcomesOfNext(done: seq<Outcome>, s: seq<Byte>, limit: nat)
    ensures OneShot(s, limit) == Eof ==> s == [] && done + ClassifyAll(Frames(s), limit) == done
    ensures OneShot(s, limit) != Eof ==>
              s != [] && FrameLength(s) > 0
              && done + ClassifyAll(Frames(s), limit)
                 == done + [OneShot(s, limit)] + ClassifyAll(Frames(s[FrameLength(s)..]), limit)
  {
    if s == [] {
      NoOutcomes(done, limit);
    } else {
      OutcomesOfFrames(done, s[..FrameLength(s)], Frames(s[FrameLength(s)..]), limit);
    }
  }

  /** The reading loop of a queue replay: drained reads until the end of the input. */
  method ReadAllFrames(reader: ChunkedReader, limit: nat) returns (outcomes: seq<Outcome>)
    requires reader.Valid()
    modifies reader
    ensures reader.Valid() && reader.Remaining() == []
    ensures outcomes == ClassifyAll(Frames(old(reader.Remaining())), limit)
  {
    outcomes := [];
    ghost var expected := ClassifyAll(Frames(reader.Remaining()), limit);
    ghost var rest := reader.Remaining();
    while true
      invariant reader.Valid()
      invariant rest == reader.Remaining()
      invariant outcomes + ClassifyAll(Frames(rest), limit) == expected
      decreases |rest|
    {
      OutcomesOfNext(outcomes, rest, limit);
      var outcome, _, _ := ReadBoundedLine(reader, limit, true);
      if outcome == Eof {
        return;
      }
      outcomes := outcomes + [outcome];
      rest := rest[FrameLength(rest)..];
    }
  }

  // ---------------------------------------------------------------- what framing means

  /** Every frame but the last ends in its only newline; the last may lack it but is not empty. */
  ghost predicate WellFramed(frames: seq<seq<Byte>>) {
    && (forall i :: 0 <= i < |frames| ==> frames[i] != [])
    && (forall i, j :: 0 <= i < |frames| && 0 <= j < |frames[i]| - 1 ==> frames[i][j] != NEWLINE)
    && (forall i :: 0 <= i < |frames| - 1 ==> frames[i][|frames[i]| - 1] == NEWLINE)
  }

  /** Cutting off the first frame leaves well-framed input in front of well-framed frames. */
  lemma OneMoreFrame(s: seq<Byte>, frames: seq<seq<Byte>>)
    requires s != [] && WellFramed(frames)
    requires FrameLength(s) == |s| ==> frames == []
    ensures WellFramed([s[..FrameLength(s)]] + frames)
  {
    var head := s[..FrameLength(s)];
    var all := [head] + frames;
    assert forall i :: 1 <= i < |all| ==> all[i] == frames[i - 1];
    assert forall j :: 0 <= j < |head| - 1 ==> head[j] == s[j] && head[j] != NEWLINE;
    assert frames != [] ==> head[|head| - 1] == NEWLINE;
  }

  lemma FlattenCons(head: seq<Byte>, rest: seq<seq<Byte>>)
    ensures Flatten([head] + rest) == head + Flatten(rest)
  {
    assert ([head] + rest)[1..] == rest;
  }

  /** Splitting loses nothing and respects the frame shape. */
  lemma {:induction false} FramesPartitionInput(s: seq<Byte>)
    ensures Flatten(Frames(s)) == s
    ensures WellFramed(Frames(s))
  {
    if s != [] {
      var n := FrameLength(s);
      FramesPartitionInput(s[n..]);
      OneMoreFrame(s, Frames(s[n..]));
      FlattenCons(s[..n], Frames(s[n..]));
      assert s[..n] + s[n..] == s;
    }
  }

  /** There is no other way to cut the input into frames: splitting inverts concatenation. */
  lemma {:induction false} FramesInvertFlatten(frames: seq<seq<Byte>>)
    requires WellFramed(frames)
    ensures Frames(Flatten(frames)) == frames
  {
    if frames != [] {
      var head, rest := frames[0], frames[1..];
      FramesInvertFlatten(rest);
      var s := Flatten(frames);
      assert s == head + Flatten(rest);
      if rest == [] {
        assert s == head;
      }
      assert FrameLength(s) == |head| by {
        if rest != [] {
          assert s[|head| - 1] == NEWLINE;
        }
        assert forall j :: 0 <= j < |head| - 1 ==> s[j] == head[j];
      }
      assert s[..|head|] == head && s[|head|..] == Flatten(rest);
    }
  }

  /** Whatever stands in one frame, oversized or not, the other frames are read as before. */
  lemma OversizedFrameIsIsolated(frames: seq<seq<Byte>>, bad: nat, other: seq<Byte>, limit: nat)
    requires bad < |frames|
    requires WellFramed(frames) && WellFramed(frames[bad := other])
    ensures Frames(Flatten(frames)) == frames
    ensures ClassifyAll(Frames(Flatten(frames[bad := other])), limit)
         == ClassifyAll(Frames(Flatten(frames)), limit)[bad := Classify(other, limit)]
  {
    FramesInvertFlatten(frames);
    FramesInvertFlatten(frames[bad := other]);
  }

  /**
   A queue file is a sequence of records, each written with a trailing newline. When no
   encoded record contains a newline and all fit the limit, reading the file back, under
   any chunking, yields exactly the records that were appended.
   */
  lemma QueueFileReadsBackAppendedRecords(records: seq<seq<Byte>>, limit: nat)
    requires forall i :: 0 <= i < |records| ==> 10 !in records[i] && |records[i]| + 1 <= limit
    ensures var lines := seq(|records|, i requires 0 <= i < |records| => records[i] + [10]);
            ClassifyAll(Frames(Flatten(lines)), limit)
            == seq(|records|, i requires 0 <= i < |records| => Line(records[i] + [10]))
  {
    var lines := seq(|records|, i requires 0 <= i < |records| => records[i] + [10]);
    assert WellFramed(lines);
    FramesInvertFlatten(lines);
  }
}
