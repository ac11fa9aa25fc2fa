/** Text as bytes, split at newlines. */
module TextLines {
  import D = Delimited

  newtype byte = x: int | 0 <= x < 256

  type Text = seq<byte>

  const NEWLINE: byte := 10
  const FENCE: Text := [96, 96, 96]

  predicate OneLine(line: Text) {
    D.Free(line, NEWLINE)
  }

  predicate AllOneLine(lines: seq<Text>) {
    forall i :: 0 <= i < |lines| ==> OneLine(lines[i])
  }

  function Lines(text: Text): (lines: seq<Text>)
    ensures lines != [] && AllOneLine(lines)
  {
    var lines := D.Split(text, NEWLINE);
    assert forall i :: 0 <= i < |lines| ==> D.Free(lines[i], NEWLINE);
    lines
  }

  function Join(lines: seq<Text>): Text {
    D.Join(lines, NEWLINE)
  }

  lemma LinesOfJoin(lines: seq<Text>)
    requires lines != [] && AllOneLine(lines)
    ensures Lines(Join(lines)) == lines
  {
    assert forall i :: 0 <= i < |lines| ==> OneLine(lines[i]);
    D.SplitOfJoin(lines, NEWLINE);
  }

  lemma JoinAppend(lines: seq<Text>, line: Text)
    ensures Join(lines + [line]) == if lines == [] then line else Join(lines) + [NEWLINE] + line
  {
    D.JoinAppend(lines, line, NEWLINE);
  }

  /** The length in bytes of the white-space character at the front, or 0: the ASCII ones and the
      UTF-8 encodings of the other Unicode ones. */
  function LeadingSpace(t: Text): (n: nat)
    ensures n <= |t|
  {
    if |t| >= 1 && (9 <= t[0] <= 13 || t[0] == 32) then 1
    else if |t| >= 2 && t[0] == 0xC2 && (t[1] == 0x85 || t[1] == 0xA0) then 2
    else if |t| >= 3 && t[0] == 0xE1 && t[1] == 0x9A && t[2] == 0x80 then 3
    else if |t| >= 3 && t[0] == 0xE2 && t[1] == 0x80
            && (0x80 <= t[2] <= 0x8A || t[2] == 0xA8 || t[2] == 0xA9 || t[2] == 0xAF) then 3
    else if |t| >= 3 && t[0] == 0xE2 && t[1] == 0x81 && t[2] == 0x9F then 3
    else if |t| >= 3 && t[0] == 0xE3 && t[1] == 0x80 && t[2] == 0x80 then 3
    else 0
  }

  function TrimLeft(t: Text): Text
    decreases |t|
  {
    if LeadingSpace(t) == 0 then t else TrimLeft(t[LeadingSpace(t)..])
  }

  /** Trimming on the right as well cannot remove a backtick, so it makes no difference here. */
  predicate IsFence(line: Text) {
    FENCE <= TrimLeft(line)
  }

  predicate AsciiSpace(b: byte) {
    9 <= b <= 13 || b == 32
  }

  lemma {:induction false} FenceAfterSpace(line: Text, n: nat)
    requires n <= |line| && (forall i :: 0 <= i < n ==> AsciiSpace(line[i])) && FENCE <= line[n..]
    ensures IsFence(line)
    decreases n
  {
    if n == 0 {
      assert line[0..] == line;
      assert LeadingSpace(line) == 0;
    } else {
      assert line[1..][n - 1..] == line[n..];
      FenceAfterSpace(line[1..], n - 1);
    }
  }

  lemma {:induction false} SpaceBeforeFence(line: Text) returns (n: nat)
    requires IsFence(line) && forall i :: 0 <= i < |line| ==> line[i] < 128
    ensures n <= |line| && (forall i :: 0 <= i < n ==> AsciiSpace(line[i])) && FENCE <= line[n..]
    decreases |line|
  {
    n := 0;
    if AsciiSpace(line[0]) {
      n := SpaceBeforeFence(line[1..]);
      n := n + 1;
      assert line[1..][n - 1..] == line[n..];
      assert forall i :: 0 < i < n ==> line[i] == line[1..][i - 1];
    } else {
      assert line[0..] == line;
    }
  }

  /** For ASCII lines: a fence is three backticks after nothing but white space, whatever follows. */
  lemma {:induction false} AsciiFenceIff(line: Text)
    requires forall i :: 0 <= i < |line| ==> line[i] < 128
    ensures IsFence(line) <==>
      exists n :: 0 <= n <= |line| && (forall i :: 0 <= i < n ==> AsciiSpace(line[i])) && FENCE <= line[n..]
  {
    if IsFence(line) {
      var n := SpaceBeforeFence(line);
    }
    if n :| 0 <= n <= |line| && (forall i :: 0 <= i < n ==> AsciiSpace(line[i])) && FENCE <= line[n..] {
      FenceAfterSpace(line, n);
    }
  }

  function Fences(lines: seq<Text>): nat {
    if lines == [] then 0
    else Fences(lines[..|lines| - 1]) + (if IsFence(lines[|lines| - 1]) then 1 else 0)
  }

  lemma {:induction false} FencesAppend(a: seq<Text>, b: seq<Text>)
    ensures Fences(a + b) == Fences(a) + Fences(b)
  {
    if b == [] {
      assert a + b == a;
    } else {
      assert (a + b)[..|a + b| - 1] == a + b[..|b| - 1];
      FencesAppend(a, b[..|b| - 1]);
    }
  }

  lemma FenceIsFence()
    ensures IsFence(FENCE) && !IsFence([])
    ensures Fences([FENCE]) == 1 && Fences([FENCE, []]) == 1
  {
    assert LeadingSpace(FENCE) == 0;
    assert TrimLeft(FENCE) == FENCE;
    assert [FENCE][..0] == [] && [FENCE, []][..1] == [FENCE];
  }
}
