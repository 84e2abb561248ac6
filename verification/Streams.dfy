/** Byte strings, UTF-8 and newline-delimited streams, as both ends of a
    session's IPC connection see them. */
module Streams {
  type Byte = b: int | 0 <= b < 256
  type Bytes = seq<Byte>

  const LF: Byte := 10
  const CR: Byte := 13

  // ----- UTF-8 (Unicode 15, table 3-7) -----

  predicate IsContinuation(b: Byte) { 0x80 <= b < 0xC0 }

  /** The length of the well-formed UTF-8 sequence `s` starts with, or 0. */
  function SequenceLength(s: Bytes): (n: nat)
    requires s != []
    ensures n <= |s|
  {
    var b := s[0];
    if b < 0x80 then 1
    else if |s| >= 2 && 0xC2 <= b < 0xE0 && IsContinuation(s[1]) then 2
    else if |s| >= 3 && 0xE0 <= b < 0xF0 && IsContinuation(s[1]) && IsContinuation(s[2])
            && (b == 0xE0 ==> s[1] >= 0xA0) && (b == 0xED ==> s[1] < 0xA0) then 3
    else if |s| >= 4 && 0xF0 <= b < 0xF5
            && IsContinuation(s[1]) && IsContinuation(s[2]) && IsContinuation(s[3])
            && (b == 0xF0 ==> s[1] >= 0x90) && (b == 0xF4 ==> s[1] < 0x90) then 4
    else 0
  }

  predicate Utf8(s: Bytes)
    decreases |s|
  {
    s == [] || (SequenceLength(s) > 0 && Utf8(s[SequenceLength(s)..]))
  }

  /** What follows well-formed text is judged by itself. */
  lemma {:induction false} Utf8Append(a: Bytes, b: Bytes)
    requires Utf8(a)
    ensures Utf8(a + b) <==> Utf8(b)
    decreases |a|
  {
    if a == [] {
      assert a + b == b;
    } else {
      var n := SequenceLength(a);
      assert SequenceLength(a + b) == n;
      assert (a + b)[n..] == a[n..] + b;
      Utf8Append(a[n..], b);
    }
  }

  /** Text stays well-formed without an ASCII byte that ends it. */
  lemma {:induction false} Utf8DropLast(s: Bytes)
    requires s != [] && Utf8(s) && s[|s| - 1] < 0x80
    ensures Utf8(s[..|s| - 1])
    decreases |s|
  {
    var n := SequenceLength(s);
    if n < |s| {
      var q := s[..|s| - 1];
      assert s[n..][|s[n..]| - 1] == s[|s| - 1];
      Utf8DropLast(s[n..]);
      assert SequenceLength(q) == n;
      assert q[n..] == s[n..][..|s[n..]| - 1];
    }
  }

  lemma Utf8Ascii(b: Byte)
    requires b < 0x80
    ensures Utf8([b])
  {
    assert [b][1..] == [];
  }

  // ----- Newline-delimited streams -----

  /** The position of the first line break. */
  function LineEnd(s: Bytes): (n: nat)
    requires LF in s
    ensures n < |s| && s[n] == LF && LF !in s[..n]
  {
    if s[0] == LF then 0
    else
      assert LF in s[1..];
      var n := LineEnd(s[1..]);
      assert s[..n + 1] == [s[0]] + s[1..][..n];
      n + 1
  }

  /** The lines that have ended in `s`, without their line breaks. */
  function CompleteLines(s: Bytes): (lines: seq<Bytes>)
    ensures forall l :: l in lines ==> LF !in l
    decreases |s|
  {
    if LF in s then [s[..LineEnd(s)]] + CompleteLines(s[LineEnd(s) + 1..]) else []
  }

  /** What follows the last line break of `s`. */
  function Unfinished(s: Bytes): (rest: Bytes)
    ensures LF !in rest && |rest| <= |s|
    decreases |s|
  {
    if LF in s then Unfinished(s[LineEnd(s) + 1..]) else s
  }

  /** The stream that carries `lines`, each ended by a line break. */
  function EncodeLines(lines: seq<Bytes>): Bytes {
    if lines == [] then [] else lines[0] + [LF] + EncodeLines(lines[1..])
  }

  lemma LineEndOf(line: Bytes, rest: Bytes)
    requires LF !in line
    ensures LF in line + [LF] + rest
    ensures LineEnd(line + [LF] + rest) == |line|
    ensures (line + [LF] + rest)[..|line|] == line
    ensures (line + [LF] + rest)[|line| + 1..] == rest
  {
    var s := line + [LF] + rest;
    assert s[|line|] == LF;
    forall i | 0 <= i < |line| ensures s[i] != LF { assert s[i] == line[i]; }
    forall i | 0 <= i < LineEnd(s) ensures s[i] != LF { assert s[..LineEnd(s)][i] == s[i]; }
  }

  /** A stream that arrives in two pieces has the lines of the first and then
      those the second completes, wherever it was cut. */
  lemma {:induction false} LinesAppend(a: Bytes, b: Bytes)
    ensures CompleteLines(a + b) == CompleteLines(a) + CompleteLines(Unfinished(a) + b)
    ensures Unfinished(a + b) == Unfinished(Unfinished(a) + b)
    decreases |a|
  {
    if LF in a {
      var n := LineEnd(a);
      var line, rest := a[..n], a[n + 1..];
      assert a == line + [LF] + rest;
      assert a + b == line + [LF] + (rest + b);
      LineEndOf(line, rest + b);
      LinesAppend(rest, b);
      assert CompleteLines(a + b) == [line] + CompleteLines(rest + b);
    } else {
      assert CompleteLines(a) == [];
    }
  }

  lemma EncodeCons(line: Bytes, lines: seq<Bytes>)
    ensures EncodeLines([line] + lines) == line + [LF] + EncodeLines(lines)
  {
    assert ([line] + lines)[1..] == lines;
  }

  lemma LinesCons(line: Bytes, rest: Bytes)
    requires LF !in line
    ensures CompleteLines(line + [LF] + rest) == [line] + CompleteLines(rest)
    ensures Unfinished(line + [LF] + rest) == Unfinished(rest)
  {
    LineEndOf(line, rest);
  }

  /** A stream is its lines, encoded, followed by the unfinished one. */
  lemma {:induction false} LinesRebuild(s: Bytes)
    ensures s == EncodeLines(CompleteLines(s)) + Unfinished(s)
    decreases |s|
  {
    if LF in s {
      var n := LineEnd(s);
      var line, rest := s[..n], s[n + 1..];
      assert s == line + [LF] + rest;
      LinesCons(line, rest);
      LinesRebuild(rest);
      var lines := CompleteLines(rest);
      EncodeCons(line, lines);
      Rebracket(line, EncodeLines(lines), Unfinished(rest));
    }
  }

  lemma Rebracket(a: Bytes, b: Bytes, c: Bytes)
    ensures a + [LF] + (b + c) == a + [LF] + b + c
  {
  }

  lemma LinesOfPiece(line: Bytes, w: Bytes)
    requires LF !in line && w <= line
    ensures CompleteLines(w) == [] && Unfinished(w) == w
  {
    forall i | 0 <= i < |w| ensures w[i] != LF { assert w[i] == line[i]; }
  }

  /** Lines without line breaks survive the stream, and a cut anywhere in it
      leaves the lines before the cut and a piece of the next. */
  lemma {:induction false} EncodedPrefix(lines: seq<Bytes>, cut: nat)
    requires forall l :: l in lines ==> LF !in l
    requires cut <= |EncodeLines(lines)|
    ensures var w := EncodeLines(lines)[..cut]; var k := |CompleteLines(w)|;
      && k <= |lines| && CompleteLines(w) == lines[..k]
      && (k == |lines| ==> Unfinished(w) == [])
      && (k < |lines| ==> Unfinished(w) <= lines[k])
    decreases |lines|
  {
    hide CompleteLines, Unfinished;
    var w := EncodeLines(lines)[..cut];
    if lines != [] {
      var line := lines[0];
      assert line in lines;
      var tail := EncodeLines(lines[1..]);
      assert EncodeLines(lines) == line + [LF] + tail;
      if cut <= |line| {
        assert w == line[..cut];
        LinesOfPiece(line, w);
      } else {
        var c := cut - |line| - 1;
        assert w == line + [LF] + tail[..c];
        LinesCons(line, tail[..c]);
        EncodedPrefix(lines[1..], c);
        var k := |CompleteLines(tail[..c])|;
        assert CompleteLines(w) == [line] + lines[1..][..k];
        assert lines[..k + 1] == [line] + lines[1..][..k];
      }
    } else {
      LinesOfPiece([], w);
    }
  }

  lemma EncodedWhole(lines: seq<Bytes>)
    requires forall l :: l in lines ==> LF !in l
    ensures CompleteLines(EncodeLines(lines)) == lines
    ensures Unfinished(EncodeLines(lines)) == []
  {
    var s := EncodeLines(lines);
    EncodedPrefix(lines, |s|);
    assert s[..|s|] == s;
    var k := |CompleteLines(s)|;
    if k < |lines| {
      LinesRebuild(s);
      EncodeLonger(lines, k);
      assert false;
    }
    assert lines[..k] == lines;
  }

  lemma {:induction false} EncodeLonger(lines: seq<Bytes>, k: nat)
    requires k < |lines|
    ensures |EncodeLines(lines)| > |EncodeLines(lines[..k])| + |lines[k]|
    decreases k
  {
    if k > 0 {
      EncodeLonger(lines[1..], k - 1);
      assert lines[..k][1..] == lines[1..][..k - 1];
    }
  }

  lemma {:induction false} EncodeAppend(a: seq<Bytes>, b: seq<Bytes>)
    ensures EncodeLines(a + b) == EncodeLines(a) + EncodeLines(b)
    decreases |a|
  {
    if a == [] {
      assert a + b == b;
    } else {
      assert (a + b)[1..] == a[1..] + b;
      EncodeAppend(a[1..], b);
    }
  }
}
