/**
 Reading request lines from a client under a hard size limit, and staying aligned with
 the lines the client sent. The stream is ASCII text.
 */
module LineFraming {
  import opened Text

  /** Room for 64 KB and the newline. */
  const MAX_LINE_BYTES: nat := 64 * 1024 + 1

  // ---------------------------------------------------------------------
  // The lines of a stream
  // ---------------------------------------------------------------------

  /** A line as the client sent it; only the last one can lack its newline. */
  datatype RawLine = RawLine(text: string, terminated: bool)

  /** The position of the first newline, or the length. */
  function FindNewline(s: string): nat {
    Find(s, '\n')
  }

  /** The plain split at newlines. */
  function SplitLines(s: string): seq<RawLine>
    decreases |s|
  {
    if s == "" then []
    else
      var n := FindNewline(s);
      if n < |s| then [RawLine(s[..n], true)] + SplitLines(s[n + 1..]) else [RawLine(s, false)]
  }

  function Print(l: RawLine): string {
    l.text + (if l.terminated then "\n" else "")
  }

  function PrintAll(lines: seq<RawLine>): string {
    if lines == [] then "" else Print(lines[0]) + PrintAll(lines[1..])
  }

  /** Lines a client can send: no newline inside, and only the last may be cut off, if not empty. */
  predicate Sendable(lines: seq<RawLine>) {
    forall i :: 0 <= i < |lines| ==>
                  '\n' !in lines[i].text && (!lines[i].terminated ==> i == |lines| - 1 && lines[i].text != "")
  }

  lemma NewlineIs(s: string, k: nat)
    requires k <= |s| && (forall i :: 0 <= i < k ==> s[i] != '\n') && (k < |s| ==> s[k] == '\n')
    ensures FindNewline(s) == k
  {
  }

  lemma NewlineAt(text: string, rest: string)
    requires '\n' !in text
    ensures FindNewline(text + "\n" + rest) == |text|
  {
    FindAt(text, '\n', rest);
  }

  /** Splitting inverts printing: the split finds exactly the lines that were sent. */
  lemma {:induction false} SplitOfPrint(lines: seq<RawLine>)
    requires Sendable(lines)
    ensures SplitLines(PrintAll(lines)) == lines
  {
    if lines != [] {
      var l, rest := lines[0], PrintAll(lines[1..]);
      SplitOfPrint(lines[1..]);
      if l.terminated {
        NewlineAt(l.text, rest);
        var s := PrintAll(lines);
        assert s == l.text + "\n" + rest;
        assert s[..|l.text|] == l.text && s[|l.text| + 1..] == rest;
      } else {
        assert lines == [l] && PrintAll(lines[1..]) == "";
        assert PrintAll(lines) == l.text;
        assert forall i :: 0 <= i < |l.text| ==> l.text[i] in l.text;
        NewlineIs(l.text, |l.text|);
      }
    }
  }

  /** And every stream is such a printout. */
  lemma {:induction false} PrintOfSplit(s: string)
    ensures Sendable(SplitLines(s)) && PrintAll(SplitLines(s)) == s
    decreases |s|
  {
    if s != "" {
      var first, rest := FirstLine(s), AfterFirst(s);
      SplitFirst(s);
      PrintOfSplit(rest);
      assert ([first] + SplitLines(rest))[1..] == SplitLines(rest);
      assert Print(first) + rest == s;
      assert !first.terminated ==> rest == "";
    }
  }

  // ---------------------------------------------------------------------
  // The bounded reader
  // ---------------------------------------------------------------------

  /** What the server makes of one line. */
  datatype Frame = Whole(line: string) | TooLong

  /**
   A line is delivered whole if it fits; a line cut off by the end of the stream is
   already refused at 65536 characters, one less than a finished one.
   */
  function FrameOf(l: RawLine): Frame {
    if |l.text| < (if l.terminated then MAX_LINE_BYTES else MAX_LINE_BYTES - 1) then Whole(Print(l)) else TooLong
  }

  /** A finished line fits with up to 65536 characters, one cut off with one less. */
  lemma FitsIff(l: RawLine)
    ensures FrameOf(l) == Whole(l.text + (if l.terminated then "\n" else "")) <==>
            |l.text| <= 65536 - (if l.terminated then 0 else 1)
    ensures FrameOf(l).TooLong? <==> |l.text| > 65536 - (if l.terminated then 0 else 1)
  {
  }

  function Frames(lines: seq<RawLine>): (f: seq<Frame>)
    ensures |f| == |lines| && forall i :: 0 <= i < |lines| ==> f[i] == FrameOf(lines[i])
  {
    seq(|lines|, i requires 0 <= i < |lines| => FrameOf(lines[i]))
  }

  class LineReader {
    const input: string
    var pos: nat

    ghost predicate Valid()
      reads this
    {
      pos <= |input|
    }

    constructor (s: string)
      ensures input == s && pos == 0 && Valid()
    {
      input, pos := s, 0;
    }

    /** Read up to and including a newline, but no more than `limit` characters. */
    method ReadLine(limit: nat) returns (line: string)
      requires Valid()
      modifies this`pos
      ensures Valid() && pos == old(pos) + |line|
      ensures line == LimitedRead(input[old(pos)..], limit)
      ensures input[pos..] == input[old(pos)..][|line|..]
    {
      line := "";
      ghost var start, rest := pos, input[pos..];
      while |line| < limit && pos < |input| && (line == "" || line[|line| - 1] != '\n')
        invariant pos == start + |line| <= |input| && line == input[start..pos] && |line| <= limit
        invariant forall i :: 0 <= i < |line| - 1 ==> line[i] != '\n'
        decreases |input| - pos
      {
        line := line + [input[pos]];
        pos := pos + 1;
      }
      Suffixes(input, start, pos);
      ReadIs(rest, line, limit);
    }

    /** Read one request; an over-long one is skipped to its end. */
    method NextFrame() returns (frame: Frame)
      requires Valid() && pos < |input|
      modifies this`pos
      ensures Valid()
      ensures frame == FrameOf(FirstLine(input[old(pos)..]))
      ensures input[pos..] == AfterFirst(input[old(pos)..])
      ensures pos > old(pos)
    {
      ghost var rest := input[pos..];
      FrameSteps(rest);
      var line := ReadLine(MAX_LINE_BYTES);
      if line[|line| - 1] != '\n' && |line| >= MAX_LINE_BYTES - 1 {
        var drain := ReadLine(|input| - pos);
        return TooLong;
      }
      return Whole(line);
    }
  }

  lemma Suffixes(s: string, i: nat, j: nat)
    requires i <= j <= |s|
    ensures s[j..] == s[i..][j - i..] && s[i..j] == s[i..][..j - i]
  {
  }

  /** What a read limited to `limit` characters gives. */
  function LimitedRead(s: string, limit: nat): string {
    var n := FindNewline(s);
    s[..Min(limit, if n < |s| then n + 1 else n)]
  }

  lemma ReadIs(s: string, line: string, limit: nat)
    requires |line| <= limit && |line| <= |s| && line == s[..|line|]
    requires forall i :: 0 <= i < |line| - 1 ==> line[i] != '\n'
    requires |line| == limit || |line| == |s| || (line != "" && line[|line| - 1] == '\n')
    ensures line == LimitedRead(s, limit)
  {
    var n := FindNewline(s);
    assert forall i :: 0 <= i < |line| ==> line[i] == s[i];
  }

  /** One read, and a second one after an over-long line, deliver the first line and leave the rest. */
  lemma FrameSteps(s: string)
    requires s != ""
    ensures var line := LimitedRead(s, MAX_LINE_BYTES);
            && line != ""
            && if line[|line| - 1] != '\n' && |line| >= MAX_LINE_BYTES - 1 then
                 var rest := s[|line|..];
                 && FrameOf(FirstLine(s)) == TooLong
                 && AfterFirst(s) == rest[|LimitedRead(rest, |rest|)|..]
               else FrameOf(FirstLine(s)) == Whole(line) && AfterFirst(s) == s[|line|..]
  {
    var line := LimitedRead(s, MAX_LINE_BYTES);
    if line[|line| - 1] != '\n' && |line| >= MAX_LINE_BYTES - 1 {
      TooLongLine(s, line);
      DrainedRest(s, |line|);
    } else {
      WholeLine(s, line);
    }
  }

  lemma DrainedRest(s: string, k: nat)
    requires k <= FindNewline(s) && k + FindNewline(s[k..]) == FindNewline(s)
    ensures AfterFirst(s) == s[k..][|LimitedRead(s[k..], |s[k..]|)|..]
  {
    var n := FindNewline(s);
    Suffixes(s, k, if n < |s| then n + 1 else n);
  }

  function FirstLine(s: string): RawLine {
    var n := FindNewline(s);
    RawLine(s[..n], n < |s|)
  }

  function AfterFirst(s: string): string {
    var n := FindNewline(s);
    if n < |s| then s[n + 1..] else s[n..]
  }

  /** What the limited read returned, `line`, is the start of the stream. */
  predicate IsLimitedRead(s: string, line: string) {
    var n := FindNewline(s);
    |line| == Min(MAX_LINE_BYTES, if n < |s| then n + 1 else n) && line == s[..|line|]
  }

  lemma TooLongLine(s: string, line: string)
    requires s != "" && IsLimitedRead(s, line) && line[|line| - 1] != '\n' && |line| >= MAX_LINE_BYTES - 1
    ensures FrameOf(FirstLine(s)) == TooLong
    ensures |line| <= FindNewline(s) && |line| + FindNewline(s[|line|..]) == FindNewline(s)
  {
    var n := FindNewline(s);
    assert line[|line| - 1] == s[|line| - 1];
    DrainFinds(s, |line|);
  }

  lemma WholeLine(s: string, line: string)
    requires s != "" && IsLimitedRead(s, line) && !(line[|line| - 1] != '\n' && |line| >= MAX_LINE_BYTES - 1)
    ensures FrameOf(FirstLine(s)) == Whole(line)
    ensures |line| == if FindNewline(s) < |s| then FindNewline(s) + 1 else FindNewline(s)
  {
    var n := FindNewline(s);
    assert line[|line| - 1] == s[|line| - 1];
    if n < |s| {
      assert s[..n] + "\n" == s[..n + 1];
    } else {
      assert s[..n] + "" == s;
    }
  }

  function Min(a: nat, b: nat): nat {
    if a < b then a else b
  }

  /** Skipping part of a line leaves its newline where it was. */
  lemma DrainFinds(s: string, k: nat)
    requires k <= FindNewline(s)
    ensures k + FindNewline(s[k..]) == FindNewline(s)
  {
    var m := FindNewline(s[k..]);
    assert forall i :: 0 <= i < m ==> s[k..][i] == s[k + i];
    assert forall i :: k <= i < k + m ==> s[i] == s[k..][i - k];
    NewlineIs(s, k + m);
  }

  /** The split starts with the first line and goes on with the rest. */
  lemma SplitFirst(s: string)
    requires s != ""
    ensures SplitLines(s) == [FirstLine(s)] + SplitLines(AfterFirst(s))
  {
    var n := FindNewline(s);
    if n == |s| {
      assert s[..n] == s && s[n..] == "";
    }
  }
}
