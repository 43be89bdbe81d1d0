/** Bytes, lines, and what it means to split a stream at its newlines. */
module Lines {
  import opened Wrappers

  newtype byte = x: int | 0 <= x < 256

  type Bytes = seq<byte>

  const NEWLINE: byte := 10

  predicate NoNewline(s: Bytes) { NEWLINE !in s }

  /** The bytes after the last newline. */
  function Carry(s: Bytes): Bytes {
    if s == [] then [] else
    var n := |s| - 1;
    if s[n] == NEWLINE then [] else Carry(s[..n]) + [s[n]]
  }

  /** The lines that a newline ends, without it. */
  function Complete(s: Bytes): seq<Bytes> {
    if s == [] then [] else
    var n := |s| - 1;
    if s[n] == NEWLINE then Complete(s[..n]) + [Carry(s[..n])] else Complete(s[..n])
  }

  function Unlines(lines: seq<Bytes>): Bytes {
    if lines == [] then [] else
    var n := |lines| - 1;
    Unlines(lines[..n]) + lines[n] + [NEWLINE]
  }

  lemma {:induction false} CarryIsClean(s: Bytes)
    ensures NoNewline(Carry(s)) && |Carry(s)| <= |s| && s[|s| - |Carry(s)|..] == Carry(s)
  {
    if s != [] && s[|s| - 1] != NEWLINE { CarryIsClean(s[..|s| - 1]); }
  }

  /** Nothing is lost or invented, and no line holds a newline. */
  lemma {:induction false} LinesRebuild(s: Bytes)
    ensures Unlines(Complete(s)) + Carry(s) == s
    ensures NoNewline(Carry(s)) && forall line :: line in Complete(s) ==> NoNewline(line)
  {
    if s != [] {
      var n := |s| - 1;
      LinesRebuild(s[..n]);
      assert s == s[..n] + [s[n]];
    }
  }

  /** Lines end where the byte 10 stands. */
  lemma {:induction false} NoTens(s: Bytes)
    ensures NoNewline(s) <==> forall i :: 0 <= i < |s| ==> s[i] != 10
  {
  }

  lemma {:induction false} AddClean(s: Bytes, c: Bytes)
    requires NoNewline(c)
    ensures Complete(s + c) == Complete(s) && Carry(s + c) == Carry(s) + c
  {
    if c == [] {
      assert s + c == s;
    } else {
      var n := |c| - 1;
      AddClean(s, c[..n]);
      assert (s + c)[..|s + c| - 1] == s + c[..n];
      assert c == c[..n] + [c[n]];
    }
  }

  lemma {:induction false} AddNewline(s: Bytes)
    ensures Complete(s + [NEWLINE]) == Complete(s) + [Carry(s)] && Carry(s + [NEWLINE]) == []
  {
    assert (s + [NEWLINE])[..|s|] == s;
  }

  /** There is no other way to write a stream as clean lines and a clean rest. */
  lemma {:induction false} LinesUnique(lines: seq<Bytes>, rest: Bytes)
    requires NoNewline(rest) && forall line :: line in lines ==> NoNewline(line)
    ensures Complete(Unlines(lines) + rest) == lines && Carry(Unlines(lines) + rest) == rest
    decreases |lines|
  {
    AddClean(Unlines(lines), rest);
    if lines != [] {
      var n := |lines| - 1;
      LinesUnique(lines[..n], []);
      var front := Unlines(lines[..n]);
      assert front + [] == front;
      AddClean(front, lines[n]);
      assert [] + lines[n] == lines[n];
      AddNewline(front + lines[n]);
      assert lines == lines[..n] + [lines[n]];
      assert Unlines(lines) == front + lines[n] + [NEWLINE];
    }
  }

  lemma {:induction false} AddByte(s: Bytes, x: byte)
    ensures Complete(s + [x]) == if x == NEWLINE then Complete(s) + [Carry(s)] else Complete(s)
    ensures Carry(s + [x]) == if x == NEWLINE then [] else Carry(s) + [x]
  {
    assert (s + [x])[..|s|] == s;
  }

  /** Splitting a stream in two: the second part continues what the first one left. */
  lemma {:induction false} SplitAnywhere(a: Bytes, b: Bytes)
    ensures Complete(a + b) == Complete(a) + Complete(Carry(a) + b)
    ensures Carry(a + b) == Carry(Carry(a) + b)
  {
    hide Complete, Carry;
    if b == [] {
      assert a + b == a && Carry(a) + b == Carry(a);
      CarryIsClean(a);
      CleanOnly(Carry(a));
      assert Complete(a) + [] == Complete(a);
    } else {
      var front, x := b[..|b| - 1], b[|b| - 1];
      SplitAnywhere(a, front);
      assert a + b == (a + front) + [x] && Carry(a) + b == (Carry(a) + front) + [x];
      AddByte(a + front, x);
      AddByte(Carry(a) + front, x);
    }
  }

  lemma {:induction false} FirstLine(first: Bytes, rest: Bytes)
    requires NoNewline(first)
    ensures Complete(first + [NEWLINE] + rest) == [first] + Complete(rest)
    ensures Carry(first + [NEWLINE] + rest) == Carry(rest)
  {
    CleanOnly(first);
    hide Complete, Carry, NoNewline;
    AddNewline(first);
    SplitAnywhere(first + [NEWLINE], rest);
    assert [] + rest == rest;
    assert [] + [first] == [first];
  }

  lemma {:induction false} CleanOnly(s: Bytes)
    requires NoNewline(s)
    ensures Complete(s) == [] && Carry(s) == s
  {
    assert [] + s == s;
    AddClean([], s);
  }

  /** The index of the first newline. */
  function Position(s: Bytes): (r: Option<nat>)
    ensures r.None? <==> NoNewline(s)
    ensures r.Some? ==> r.value < |s| && s[r.value] == NEWLINE && NoNewline(s[..r.value])
  {
    if s == [] then None
    else if s[0] == NEWLINE then Some(0)
    else
      assert s == [s[0]] + s[1..];
      match Position(s[1..])
      case None => None
      case Some(n) =>
        assert s[..n + 1] == [s[0]] + s[1..][..n];
        Some(n + 1)
  }

  function Concat(chunks: seq<Bytes>): Bytes {
    if chunks == [] then [] else
    var n := |chunks| - 1;
    Concat(chunks[..n]) + chunks[n]
  }

  /** The lines that are not empty, in order. */
  function NonEmpty(lines: seq<Bytes>): seq<Bytes> {
    if lines == [] then [] else (if lines[0] == [] then [] else [lines[0]]) + NonEmpty(lines[1..])
  }

  lemma {:induction false} NonEmptyAppend(a: seq<Bytes>, b: seq<Bytes>)
    ensures NonEmpty(a + b) == NonEmpty(a) + NonEmpty(b)
  {
    if a == [] {
      assert a + b == b;
    } else {
      NonEmptyAppend(a[1..], b);
      assert (a + b)[1..] == a[1..] + b && (a + b)[0] == a[0];
    }
  }

  /** Each line is in its place, or left out when it is empty. */
  lemma {:induction false} NonEmptyAt(lines: seq<Bytes>, i: nat)
    requires i < |lines|
    ensures NonEmpty(lines) == NonEmpty(lines[..i]) + (if lines[i] == [] then [] else [lines[i]]) + NonEmpty(lines[i + 1..])
  {
    assert lines == lines[..i] + [lines[i]] + lines[i + 1..];
    NonEmptyAppend(lines[..i] + [lines[i]], lines[i + 1..]);
    NonEmptyAppend(lines[..i], [lines[i]]);
  }
}
