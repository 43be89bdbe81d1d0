/** The incremental frame parser of the worker protocol. */
module FrameParsing {
  import opened Wrappers
  import opened Lines

  const MAX_FRAME_BUFFER: nat := 4 * 1024 * 1024

  /** Why one nonempty line is not an envelope; the excerpt is not modelled. */
  datatype LineFault = NonUtf8 | InvalidJson | MissingKind | UnknownKind(kind: string)

  datatype FrameError = Undecodable(fault: LineFault) | PayloadTooLarge(size: nat)

  /** Decoding one line, left uninterpreted. */
  type Decoder<!E> = Bytes -> Result<E, LineFault>

  /** An empty line gives nothing. */
  function DecodeLine<E>(line: Bytes, decode: Decoder<E>): Result<seq<E>, LineFault> {
    if line == [] then Ok([])
    else match decode(line) case Err(fault) => Err(fault) case Ok(envelope) => Ok([envelope])
  }

  /** First `a`, then `b`; the first failure counts. */
  function Then<E>(a: Result<seq<E>, LineFault>, b: Result<seq<E>, LineFault>): Result<seq<E>, LineFault> {
    if a.Err? then a else if b.Err? then b else Ok(a.value + b.value)
  }

  /** Decoding lines in order up to the first that fails. */
  function DecodeLines<E>(lines: seq<Bytes>, decode: Decoder<E>): Result<seq<E>, LineFault> {
    if lines == [] then Ok([]) else Then(DecodeLine(lines[0], decode), DecodeLines(lines[1..], decode))
  }

  lemma {:induction false} ThenAssociates<E>(
    a: Result<seq<E>, LineFault>, b: Result<seq<E>, LineFault>, c: Result<seq<E>, LineFault>)
    ensures Then(Then(a, b), c) == Then(a, Then(b, c))
  {
    if a.Ok? && b.Ok? && c.Ok? { assert a.value + b.value + c.value == a.value + (b.value + c.value); }
  }

  lemma {:induction false} ThenNothing<E>(a: Result<seq<E>, LineFault>)
    ensures Then(a, Ok([])) == a && Then(Ok([]), a) == a
  {
    if a.Ok? { assert [] + a.value == a.value && a.value + [] == a.value; }
  }

  lemma {:induction false} DecodeNothing<E>(decode: Decoder<E>)
    ensures DecodeLines([], decode) == Ok([])
  {
  }

  lemma {:induction false} DecodeFirst<E>(first: Bytes, rest: seq<Bytes>, decode: Decoder<E>)
    ensures DecodeLines([first] + rest, decode) == Then(DecodeLine(first, decode), DecodeLines(rest, decode))
  {
    assert ([first] + rest)[1..] == rest;
  }

  /** Success gives one envelope for each line, in order; a failure is that of the first line that has none. */
  ghost predicate DecodesTo<E(!new)>(lines: seq<Bytes>, r: Result<seq<E>, LineFault>, decode: Decoder<E>) {
    if r.Ok? then
      |r.value| == |lines| && forall i :: 0 <= i < |lines| ==> decode(lines[i]) == Ok(r.value[i])
    else
      exists n :: 0 <= n < |lines| && decode(lines[n]) == Err(r.error) && forall i :: 0 <= i < n ==> decode(lines[i]).Ok?
  }

  /** What decoding a list of lines yields, said of its nonempty lines alone. */
  lemma {:induction false} DecodeMeaning<E(!new)>(lines: seq<Bytes>, decode: Decoder<E>)
    ensures DecodesTo(NonEmpty(lines), DecodeLines(lines, decode), decode)
  {
    if lines != [] {
      var rest := NonEmpty(lines[1..]);
      var r := DecodeLines(lines[1..], decode);
      DecodeMeaning(lines[1..], decode);
      if lines[0] == [] {
        ThenNothing(r);
        assert NonEmpty(lines) == rest;
      } else {
        assert NonEmpty(lines) == [lines[0]] + rest;
        LaterLines(lines[0], rest, r, decode);
      }
    }
  }

  lemma {:induction false} LaterLines<E(!new)>(first: Bytes, rest: seq<Bytes>, r: Result<seq<E>, LineFault>, decode: Decoder<E>)
    requires first != [] && DecodesTo(rest, r, decode)
    ensures DecodesTo([first] + rest, Then(DecodeLine(first, decode), r), decode)
  {
    var full := [first] + rest;
    assert full[0] == first;
    if decode(first).Ok? && r.Err? {
      LaterFailure(first, rest, r.error, decode);
    } else if decode(first).Ok? {
      LaterSuccess(first, rest, decode(first).value, r.value, decode);
    }
  }

  lemma {:induction false} LaterFailure<E(!new)>(first: Bytes, rest: seq<Bytes>, fault: LineFault, decode: Decoder<E>)
    requires decode(first).Ok? && DecodesTo(rest, Result<seq<E>, LineFault>.Err(fault), decode)
    ensures DecodesTo([first] + rest, Result<seq<E>, LineFault>.Err(fault), decode)
  {
    var full := [first] + rest;
    var n :| 0 <= n < |rest| && decode(rest[n]) == Err(fault) && forall i :: 0 <= i < n ==> decode(rest[i]).Ok?;
    var m := n + 1;
    assert full[m] == rest[n];
    forall i | 0 <= i < m ensures decode(full[i]).Ok? { assert i > 0 ==> full[i] == rest[i - 1]; }
  }

  lemma {:induction false} LaterSuccess<E(!new)>(first: Bytes, rest: seq<Bytes>, e: E, es: seq<E>, decode: Decoder<E>)
    requires decode(first) == Ok(e) && DecodesTo(rest, Ok(es), decode)
    ensures DecodesTo([first] + rest, Ok([e] + es), decode)
  {
    var full, all := [first] + rest, [e] + es;
    forall i | 0 <= i < |full| ensures decode(full[i]) == Ok(all[i]) {
      if i > 0 { assert full[i] == rest[i - 1] && all[i] == es[i - 1]; }
    }
  }

  datatype Pushed<E> = Pushed(carry: Bytes, result: Result<seq<E>, FrameError>)

  /** One push: what is buffered after it, and what it returns. */
  function PushOn<E>(carry: Bytes, chunk: Bytes, decode: Decoder<E>): Pushed<E> {
    if |carry| + |chunk| > MAX_FRAME_BUFFER then Pushed([], Err(PayloadTooLarge(|carry| + |chunk|)))
    else match DecodeLines(Complete(carry + chunk), decode)
      case Err(fault) => Pushed([], Err(Undecodable(fault)))
      case Ok(envelopes) => Pushed(Carry(carry + chunk), Ok(envelopes))
  }

  /** What a push does: too much at once and undecodable lines are refused and leave nothing; otherwise the rest is kept. */
  lemma {:induction false} PushMeaning<E(!new)>(carry: Bytes, chunk: Bytes, decode: Decoder<E>)
    ensures var p := PushOn(carry, chunk, decode);
      && (|carry| + |chunk| > 4194304 <==> p.result.Err? && p.result.error == PayloadTooLarge(|carry| + |chunk|))
      && (p.result.Err? ==> p.carry == [])
      && (p.result.Err? && p.result.error.Undecodable? ==>
           DecodesTo(NonEmpty(Complete(carry + chunk)), Result<seq<E>, LineFault>.Err(p.result.error.fault), decode))
      && (p.result.Ok? ==> p.carry == Carry(carry + chunk)
                           && DecodesTo(NonEmpty(Complete(carry + chunk)), Ok(p.result.value), decode))
  {
    hide DecodesTo, DecodeLines, Complete, Carry, NonEmpty;
    DecodeMeaning(Complete(carry + chunk), decode);
  }

  class FrameParser<E> {
    var buffer: Bytes
    const decode: Decoder<E>

    ghost predicate Valid()
      reads this
    {
      NoNewline(buffer) && |buffer| <= MAX_FRAME_BUFFER
    }

    constructor (decode: Decoder<E>)
      ensures Valid() && buffer == [] && this.decode == decode
    {
      buffer := [];
      this.decode := decode;
    }

    /** Feed one chunk. Without a newline in it the buffer is not searched; any error drops the buffer. */
    method Push(chunk: Bytes) returns (r: Result<seq<E>, FrameError>)
      requires Valid()
      modifies this
      ensures Valid()
      ensures Pushed(buffer, r) == PushOn(old(buffer), chunk, decode)
    {
      hide Complete, Carry, DecodeLines;
      var size := |buffer| + |chunk|;
      if size > MAX_FRAME_BUFFER {
        buffer := [];
        return Err(PayloadTooLarge(size));
      }
      CleanOnly(buffer);
      ghost var was := buffer;
      buffer := buffer + chunk;
      if NEWLINE !in chunk {
        AddClean(was, chunk);
        DecodeNothing(decode);
        assert [] + Complete(chunk) == Complete(chunk);
        return Ok([]);
      }
      ghost var whole := buffer;
      var envelopes: seq<E> := [];
      var newline := Position(buffer);
      ThenNothing(DecodeLines(Complete(buffer), decode));
      while newline.Some?
        invariant newline == Position(buffer)
        invariant Carry(buffer) == Carry(whole) && |buffer| <= size
        invariant DecodeLines(Complete(whole), decode) ==
          Then(Ok(envelopes), DecodeLines(Complete(buffer), decode))
        decreases |buffer|
      {
        var line := buffer[..newline.value];
        ghost var searched := buffer;
        buffer := buffer[newline.value + 1..];
        assert searched == line + [NEWLINE] + buffer;
        FirstLine(line, buffer);
        DecodeFirst(line, Complete(buffer), decode);
        if line == [] {
          ThenNothing(DecodeLines(Complete(buffer), decode));
        } else {
          match decode(line)
          case Err(fault) =>
            buffer := [];
            return Err(Undecodable(fault));
          case Ok(envelope) =>
            ThenAssociates(Ok(envelopes), Ok([envelope]), DecodeLines(Complete(buffer), decode));
            envelopes := envelopes + [envelope];
        }
        newline := Position(buffer);
      }
      CleanOnly(buffer);
      DecodeNothing(decode);
      ThenNothing(Ok(envelopes));
      r := Ok(envelopes);
    }

    /** Drops what is buffered. */
    method Reset()
      modifies this
      ensures Valid() && buffer == []
    {
      buffer := [];
    }
  }

  // ---------- Chunking ----------

  /** Feeding chunk after chunk from an empty buffer, as long as every push succeeds. */
  function Feed<E>(chunks: seq<Bytes>, decode: Decoder<E>): Pushed<E> {
    if chunks == [] then Pushed([], Ok([])) else
    var n := |chunks| - 1;
    var before := Feed(chunks[..n], decode);
    if before.result.Err? then before else
    var last := PushOn(before.carry, chunks[n], decode);
    if last.result.Err? then last else Pushed(last.carry, Ok(before.result.value + last.result.value))
  }

  /** No push runs into the size limit. */
  ghost predicate Fits(chunks: seq<Bytes>) {
    forall i {:trigger chunks[i]} :: 0 <= i < |chunks| ==>
      |Carry(Concat(chunks[..i]))| + |chunks[i]| <= 4194304
  }

  lemma {:induction false} DecodeAppend<E>(a: seq<Bytes>, b: seq<Bytes>, decode: Decoder<E>)
    ensures DecodeLines(a + b, decode) == Then(DecodeLines(a, decode), DecodeLines(b, decode))
  {
    if a == [] {
      assert a + b == b;
      ThenNothing(DecodeLines(b, decode));
    } else {
      DecodeAppend(a[1..], b, decode);
      assert (a + b)[1..] == a[1..] + b && (a + b)[0] == a[0];
      ThenAssociates(DecodeLine(a[0], decode), DecodeLines(a[1..], decode), DecodeLines(b, decode));
    }
  }

  lemma {:induction false} FitsSnoc(chunks: seq<Bytes>)
    requires chunks != []
    ensures var n := |chunks| - 1;
      Fits(chunks) <==> Fits(chunks[..n]) && |Carry(Concat(chunks[..n]))| + |chunks[n]| <= MAX_FRAME_BUFFER
  {
    var n := |chunks| - 1;
    forall i | 0 <= i < n ensures chunks[..n][..i] == chunks[..i] && chunks[..n][i] == chunks[i] {}
    if Fits(chunks[..n]) && |Carry(Concat(chunks[..n]))| + |chunks[n]| <= MAX_FRAME_BUFFER {
      forall i | 0 <= i < |chunks| ensures |Carry(Concat(chunks[..i]))| + |chunks[i]| <= MAX_FRAME_BUFFER {
        if i < n { assert chunks[..n][i] == chunks[i]; }
      }
    }
    if Fits(chunks) {
      forall i | 0 <= i < n
        ensures |Carry(Concat(chunks[..n][..i]))| + |chunks[..n][i]| <= MAX_FRAME_BUFFER
      {
        assert chunks[..n][i] == chunks[i];
      }
    }
  }

  /** Chunking does not matter: all pushes succeed exactly when nothing overflows and every line of the stream decodes,
      and then they have returned that decoding and hold the bytes after the last newline. */
  lemma {:induction false} ChunkingDoesNotMatter<E>(chunks: seq<Bytes>, decode: Decoder<E>)
    ensures var all := Concat(chunks);
      Feed(chunks, decode).result.Ok? <==> Fits(chunks) && DecodeLines(Complete(all), decode).Ok?
    ensures var all, fed := Concat(chunks), Feed(chunks, decode);
      fed.result.Ok? ==> fed.carry == Carry(all) && fed.result.value == DecodeLines(Complete(all), decode).value
    ensures |Feed(chunks, decode).carry| <= MAX_FRAME_BUFFER
    decreases |chunks|
  {
    if chunks != [] {
      var n := |chunks| - 1;
      var front := Concat(chunks[..n]);
      ChunkingDoesNotMatter(chunks[..n], decode);
      FitsSnoc(chunks);
      SplitAnywhere(front, chunks[n]);
      DecodeAppend(Complete(front), Complete(Carry(front) + chunks[n]), decode);
      CarryIsClean(Carry(front) + chunks[n]);
    }
  }

  /** Two ways to cut the same stream that both go through give the same envelopes and leave the same rest. */
  lemma {:induction false} SameStreamSameEnvelopes<E>(a: seq<Bytes>, b: seq<Bytes>, decode: Decoder<E>)
    requires Concat(a) == Concat(b) && Fits(a) && Fits(b)
    ensures Feed(a, decode).result.Ok? <==> Feed(b, decode).result.Ok?
    ensures Feed(a, decode).result.Ok? ==> Feed(a, decode) == Feed(b, decode)
  {
    ChunkingDoesNotMatter(a, decode);
    ChunkingDoesNotMatter(b, decode);
  }
}
