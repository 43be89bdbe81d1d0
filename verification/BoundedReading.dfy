/** The line reader of the session: bounded frames from a buffered source, whatever sizes the source returns. */
module BoundedReading {
  import opened Wrappers
  import opened Lines
  import opened FrameParsing

  /** A buffered source: unread bytes, and how many of them each look makes available, at least one if any are left. */
  class Source {
    var unread: Bytes
    var looks: nat
    const sizes: nat -> nat

    constructor (data: Bytes, sizes: nat -> nat)
      ensures unread == data && this.sizes == sizes
    {
      unread, looks := data, 0;
      this.sizes := sizes;
    }

    method FillBuf() returns (available: Bytes)
      modifies this`looks
      ensures available <= unread && (available == [] <==> unread == [])
    {
      var size := sizes(looks);
      looks := looks + 1;
      available := if unread == [] then [] else unread[..if 1 <= size <= |unread| then size else |unread|];
    }

    method Consume(length: nat)
      requires length <= |unread|
      modifies this`unread
      ensures unread == old(unread)[length..]
    {
      unread := unread[length..];
    }
  }

  /** The bytes through the first newline, or all of them. */
  function FirstFrame(s: Bytes): (r: Bytes)
    ensures r <= s && (r == [] <==> s == [])
  {
    match Position(s) case None => s case Some(n) => s[..n + 1]
  }

  /** A look that holds no newline is a strict part of the frame; one that does ends it. */
  lemma {:induction false} LookAt(s: Bytes, available: Bytes)
    requires available <= s && available != []
    ensures Position(available).None? ==> FirstFrame(s) == available + FirstFrame(s[|available|..])
    ensures Position(available).Some? ==> FirstFrame(s) == available[..Position(available).value + 1]
    ensures available == s[..|available|]
  {
    hide FirstFrame, Position;
    if Position(available).Some? {
      LookEnds(s, available);
    } else {
      assert s == available + s[|available|..];
      LookContinues(available, s[|available|..]);
    }
  }

  lemma {:induction false} LookEnds(s: Bytes, available: Bytes)
    requires available <= s && Position(available).Some?
    ensures FirstFrame(s) == available[..Position(available).value + 1]
  {
    hide Position;
    var n := Position(available).value;
    assert s[..n] == available[..n];
    FirstIsUnique(s, n);
  }

  lemma {:induction false} LookContinues(available: Bytes, rest: Bytes)
    requires NoNewline(available)
    ensures FirstFrame(available + rest) == available + FirstFrame(rest)
  {
    hide Position;
    var s := available + rest;
    match Position(rest)
    case None =>
      assert NoNewline(s);
    case Some(n) =>
      assert s[..|available| + n] == available + rest[..n];
      FirstIsUnique(s, |available| + n);
  }

  lemma {:induction false} FirstIsUnique(s: Bytes, n: nat)
    requires n < |s| && s[n] == NEWLINE && NoNewline(s[..n])
    ensures Position(s) == Some(n)
  {
    if n > 0 {
      assert s[0] == s[..n][0] && s[1..][..n - 1] == s[..n][1..];
      FirstIsUnique(s[1..], n - 1);
    }
  }

  /** Appends the next frame to the buffer, or fails exactly when the two together exceed the limit. */
  method ReadBoundedFrame(source: Source, buffer: Bytes) returns (r: Result<nat, nat>, after: Bytes)
    requires |buffer| <= MAX_FRAME_BUFFER
    modifies source
    ensures r.Ok? <==> |buffer| + |FirstFrame(old(source.unread))| <= MAX_FRAME_BUFFER
    ensures r.Ok? ==> after == buffer + FirstFrame(old(source.unread)) && r.value == |after|
    ensures r.Ok? ==> source.unread == old(source.unread)[|FirstFrame(old(source.unread))|..]
    ensures |after| <= MAX_FRAME_BUFFER
  {
    hide FirstFrame, Position, NoNewline;
    after := buffer;
    ghost var data, taken := source.unread, [];
    while true
      invariant |after| <= MAX_FRAME_BUFFER && after == buffer + taken
      invariant data == taken + source.unread && FirstFrame(data) == taken + FirstFrame(source.unread)
      decreases |source.unread|
    {
      var available := source.FillBuf();
      if available == [] {
        assert FirstFrame(source.unread) == [];
        return Ok(|after|), after;
      }
      var newline := Position(available);
      var length := if newline.Some? then newline.value + 1 else |available|;
      Advance(data, taken, source.unread, available, length);
      var part := available[..length];
      if |after| + length > MAX_FRAME_BUFFER {
        return Err(|after| + length), after;
      }
      Joined(buffer, taken, part);
      after, taken := after + part, taken + part;
      source.Consume(length);
      if newline.Some? {
        return Ok(|after|), after;
      }
    }
  }

  lemma {:induction false} Joined(a: Bytes, b: Bytes, c: Bytes)
    ensures a + b + c == a + (b + c) && b + c + [] == b + c
  {
  }

  /** Taking the look, up to its newline if it holds one, keeps what is known about the frame being read. */
  lemma {:induction false} Advance(data: Bytes, taken: Bytes, unread: Bytes, available: Bytes, length: nat)
    requires data == taken + unread && FirstFrame(data) == taken + FirstFrame(unread)
    requires available <= unread && available != []
    requires length == if Position(available).Some? then Position(available).value + 1 else |available|
    ensures data == taken + available[..length] + unread[length..]
    ensures data[|taken + available[..length]|..] == unread[length..]
    ensures |taken| + length <= |FirstFrame(data)|
    ensures FirstFrame(data) ==
      taken + available[..length] + if Position(available).Some? then [] else FirstFrame(unread[length..])
  {
    hide FirstFrame, Position;
    LookAt(unread, available);
    assert available[..length] == unread[..length] && unread == unread[..length] + unread[length..];
  }

  /** All lines of some bytes, the last one even if no newline ends it. */
  function SplitLines(s: Bytes): seq<Bytes> {
    Complete(s) + if Carry(s) == [] then [] else [Carry(s)]
  }

  method SplitNewlines(bytes: Bytes) returns (lines: seq<Bytes>)
    ensures lines == SplitLines(bytes)
  {
    lines := [];
    var start := 0;
    for index := 0 to |bytes|
      invariant start <= index && lines == Complete(bytes[..index]) && bytes[start..index] == Carry(bytes[..index])
    {
      assert bytes[..index + 1][..index] == bytes[..index];
      if bytes[index] == NEWLINE {
        lines := lines + [bytes[start..index]];
        start := index + 1;
      }
    }
    assert bytes[..|bytes|] == bytes;
    if start < |bytes| {
      lines := lines + [bytes[start..]];
    }
  }

  /** What lies before the first frame that is too long; all of it, if none is. */
  function Readable(s: Bytes): (r: Bytes)
    ensures r <= s
    decreases |s|
  {
    if s == [] then [] else
    var frame := FirstFrame(s);
    if |frame| > MAX_FRAME_BUFFER then [] else
    var rest := Readable(s[|frame|..]);
    assert s == frame + s[|frame|..];
    frame + rest
  }

  lemma {:induction false} FrameLines(s: Bytes)
    requires s != [] && |FirstFrame(s)| <= MAX_FRAME_BUFFER
    ensures var rest := s[|FirstFrame(s)|..];
      NonEmpty(SplitLines(Readable(s))) == NonEmpty(SplitLines(FirstFrame(s))) + NonEmpty(SplitLines(Readable(rest)))
  {
    hide Complete, Carry, Readable, NonEmpty, SplitLines, FirstFrame, Position;
    var frame := FirstFrame(s);
    var rest := Readable(s[|frame|..]);
    ReadableStep(s);
    FrameShape(s);
    match Position(s)
    case None =>
      assert s[|frame|..] == [];
      ReadableNothing();
      assert frame + rest == frame;
      assert NonEmpty(SplitLines(frame)) + [] == NonEmpty(SplitLines(frame));
    case Some(n) =>
      TerminatedLines(s[..n], rest);
      NonEmptyAppend(SplitLines(frame), SplitLines(rest));
  }

  lemma {:induction false} FrameShape(s: Bytes)
    ensures match Position(s) case None => FirstFrame(s) == s case Some(n) => FirstFrame(s) == s[..n] + [NEWLINE]
  {
  }

  lemma {:induction false} ReadableStep(s: Bytes)
    requires s != []
    ensures var frame := FirstFrame(s);
      var rest := s[|frame|..];
      && s == frame + rest
      && (if |frame| > MAX_FRAME_BUFFER then Readable(s) == [] else
          Readable(s) == frame + Readable(rest) && (Readable(s) == s <==> Readable(rest) == rest))
  {
    var frame := FirstFrame(s);
    var rest := s[|frame|..];
    assert |frame| <= MAX_FRAME_BUFFER ==> Readable(s) == frame + Readable(rest);
    hide Readable, FirstFrame;
    SameAfter(frame, rest, Readable(rest));
  }

  lemma {:induction false} SameAfter(a: Bytes, b: Bytes, c: Bytes)
    ensures a + b == a + c <==> b == c
  {
    assert (a + b)[|a|..] == b && (a + c)[|a|..] == c;
  }

  /** What is readable ends where the input does, or before a line that is too long; none of its own lines is. */
  lemma {:induction false} ReadableMeaning(s: Bytes)
    ensures var r := Readable(s);
      var rest := s[|r|..];
      r == s || (|rest| > 4194304 && forall i :: 0 <= i < 4194304 ==> rest[i] != NEWLINE)
    ensures forall line :: line in Complete(Readable(s)) ==> |line| < 4194304
    ensures |Carry(Readable(s))| <= 4194304
    decreases |s|
  {
    if s != [] {
      var frame := FirstFrame(s);
      var after := s[|frame|..];
      ReadableStep(s);
      FrameShape(s);
      if |frame| > MAX_FRAME_BUFFER {
        assert s[|Readable(s)|..] == s;
        LateNewline(s);
      } else {
        ReadableMeaning(after);
        assert s[|Readable(s)|..] == after[|Readable(after)|..];
        FrameFits(s, frame, Readable(after));
      }
    }
  }

  lemma {:induction false} LateNewline(s: Bytes)
    requires |FirstFrame(s)| > 4194304
    ensures |s| > 4194304 && forall i :: 0 <= i < 4194304 ==> s[i] != NEWLINE
  {
    match Position(s)
    case None =>
    case Some(n) =>
      forall i | 0 <= i < n ensures s[i] != NEWLINE { assert s[i] == s[..n][i]; }
  }

  lemma {:induction false} FrameFits(s: Bytes, frame: Bytes, rest: Bytes)
    requires frame == FirstFrame(s) && |frame| <= 4194304 && rest <= s[|frame|..]
    requires (forall line :: line in Complete(rest) ==> |line| < 4194304) && |Carry(rest)| <= 4194304
    ensures (forall line :: line in Complete(frame + rest) ==> |line| < 4194304) && |Carry(frame + rest)| <= 4194304
  {
    match Position(s)
    case None =>
      assert frame == s && rest == [] && frame + rest == frame;
      CleanOnly(s);
    case Some(n) =>
      assert frame == s[..n] + [NEWLINE];
      FirstLine(s[..n], rest);
  }

  lemma {:induction false} ReadableNothing()
    ensures Readable([]) == [] && NonEmpty(SplitLines([])) == []
  {
    assert SplitLines([]) == [];
  }

  lemma {:induction false} TerminatedLines(first: Bytes, rest: Bytes)
    ensures SplitLines(first + [NEWLINE] + rest) == SplitLines(first + [NEWLINE]) + SplitLines(rest)
  {
    hide Complete, Carry;
    var frame := first + [NEWLINE];
    AddNewline(first);
    SplitAnywhere(frame, rest);
    assert [] + rest == rest;
  }

  /** The reader's loop: it hands on the nonempty lines before the first frame that is too long, for any sizes. */
  method ReadLines(source: Source) returns (lines: seq<Bytes>, ended: bool)
    modifies source
    ensures lines == NonEmpty(SplitLines(Readable(old(source.unread))))
    ensures ended <==> Readable(old(source.unread)) == old(source.unread)
  {
    hide Complete, Carry, Readable, NonEmpty, SplitLines, FirstFrame, Position;
    ghost var data := source.unread;
    ReadableNothing();
    lines := [];
    assert lines + NonEmpty(SplitLines(Readable(data))) == NonEmpty(SplitLines(Readable(data)));
    while true
      invariant NonEmpty(SplitLines(Readable(data))) == lines + NonEmpty(SplitLines(Readable(source.unread)))
      invariant Readable(data) == data <==> Readable(source.unread) == source.unread
      decreases |source.unread|
    {
      ghost var before := source.unread;
      var read, buffer := ReadBoundedFrame(source, []);
      assert [] + FirstFrame(before) == FirstFrame(before);
      if before != [] { ReadableStep(before); }
      if read.Err? { return lines, false; }
      if read.value == 0 { return lines, true; }
      FrameLines(before);
      var split := SplitNewlines(buffer);
      Joins(lines, NonEmpty(split), NonEmpty(SplitLines(Readable(source.unread))));
      lines := lines + NonEmpty(split);
    }
  }

  lemma {:induction false} Joins(a: seq<Bytes>, b: seq<Bytes>, c: seq<Bytes>)
    ensures a + (b + c) == a + b + c
  {
  }

  /** The session reader and the worker parser see the same lines in a stream that ends with a newline. */
  lemma {:induction false} SameLinesAsParser<E>(s: Bytes, decode: Decoder<E>)
    requires Carry(s) == []
    ensures DecodeLines(NonEmpty(SplitLines(s)), decode) == DecodeLines(Complete(s), decode)
  {
    assert SplitLines(s) == Complete(s);
    SkippingEmpty(Complete(s), decode);
  }

  lemma {:induction false} SkippingEmpty<E>(lines: seq<Bytes>, decode: Decoder<E>)
    ensures DecodeLines(NonEmpty(lines), decode) == DecodeLines(lines, decode)
  {
    if lines != [] {
      SkippingEmpty(lines[1..], decode);
      var rest := NonEmpty(lines[1..]);
      DecodeFirst(lines[0], rest, decode);
      if lines[0] == [] {
        assert [] + rest == rest;
        ThenNothing(DecodeLines(rest, decode));
      }
    }
  }
}
