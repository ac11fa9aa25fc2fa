/** Splitting a long message into parts. The method builds texts byte by byte; the specification
    keeps, for each part, the original lines it received and whether a fence was inserted before
    and after them. */
module SplitMessage {
  import opened TextLines

  const TELEGRAM_LIMIT := 4096

  datatype Chunk = Chunk(reopened: bool, lines: seq<Text>, closed: bool)

  /** Empty lines at the start of a part that does not reopen a block leave no trace. */
  function DropEmpty(lines: seq<Text>): seq<Text> {
    if lines != [] && lines[0] == [] then DropEmpty(lines[1..]) else lines
  }

  function Body(reopened: bool, lines: seq<Text>): seq<Text> {
    if reopened then [FENCE, []] + lines else DropEmpty(lines)
  }

  function PartLines(c: Chunk): seq<Text> {
    Body(c.reopened, c.lines) + if c.closed then [FENCE] else []
  }

  function Render(c: Chunk): Text {
    Join(PartLines(c))
  }

  /** The finished chunks, the chunk being filled, and whether a code block is open. */
  datatype Progress = Progress(done: seq<Chunk>, reopened: bool, lines: seq<Text>, inCode: bool)

  function Current(p: Progress): Text {
    Join(Body(p.reopened, p.lines))
  }

  predicate MustSplit(p: Progress, line: Text, limit: nat) {
    |Current(p)| + |line| + 1 + (if p.inCode then 4 else 0) > limit && |Current(p)| > 0
  }

  function AddLine(p: Progress, line: Text, limit: nat): Progress {
    var inCode := p.inCode != IsFence(line);
    if MustSplit(p, line, limit) then
      Progress(p.done + [Chunk(p.reopened, p.lines, p.inCode)], p.inCode, [line], inCode)
    else Progress(p.done, p.reopened, p.lines + [line], inCode)
  }

  function AddLines(lines: seq<Text>, limit: nat): Progress {
    if lines == [] then Progress([], false, [], false)
    else AddLine(AddLines(lines[..|lines| - 1], limit), lines[|lines| - 1], limit)
  }

  function Chunks(lines: seq<Text>, limit: nat): (cs: seq<Chunk>)
    ensures cs != []
  {
    var p := AddLines(lines, limit);
    p.done + [Chunk(p.reopened, p.lines, false)]
  }

  function RenderAll(cs: seq<Chunk>): seq<Text> {
    seq(|cs|, i requires 0 <= i < |cs| => Render(cs[i]))
  }

  /** A last part without text is not sent. */
  function Emitted(cs: seq<Chunk>): seq<Text>
    requires cs != []
  {
    if Render(cs[|cs| - 1]) == [] then RenderAll(cs[..|cs| - 1]) else RenderAll(cs)
  }

  function Limit(maxLen: int): nat {
    if maxLen <= 0 then TELEGRAM_LIMIT else maxLen
  }

  lemma BodyAppend(reopened: bool, lines: seq<Text>, line: Text)
    ensures Body(reopened, lines + [line]) ==
            if Body(reopened, lines) == [] && line == [] then [] else Body(reopened, lines) + [line]
  {
    if reopened {
      assert [FENCE, []] + (lines + [line]) == [FENCE, []] + lines + [line];
    } else {
      DropEmptyAppend(lines, line);
    }
  }

  lemma {:induction false} DropEmptyAppend(lines: seq<Text>, line: Text)
    ensures DropEmpty(lines + [line]) == if DropEmpty(lines) == [] && line == [] then [] else DropEmpty(lines) + [line]
  {
    if lines == [] {
      assert lines + [line] == [line];
      assert [line][1..] == [];
    } else if lines[0] == [] {
      assert (lines + [line])[1..] == lines[1..] + [line];
      DropEmptyAppend(lines[1..], line);
    }
  }

  lemma {:induction false} DropEmptyStart(lines: seq<Text>)
    ensures DropEmpty(lines) != [] ==> DropEmpty(lines)[0] != []
  {
    if lines != [] && lines[0] == [] {
      DropEmptyStart(lines[1..]);
    }
  }

  lemma {:induction false} JoinNonEmpty(lines: seq<Text>)
    requires lines != [] && lines[0] != []
    ensures Join(lines) != []
  {
    if |lines| > 1 {
      assert lines[..|lines| - 1][0] == lines[0];
    }
  }

  /** The text being built is empty only while its chunk has nothing to show. */
  lemma CurrentEmpty(p: Progress)
    ensures Current(p) == [] <==> Body(p.reopened, p.lines) == []
  {
    if p.reopened {
      JoinNonEmpty(Body(p.reopened, p.lines));
    } else {
      DropEmptyStart(p.lines);
      if DropEmpty(p.lines) != [] {
        JoinNonEmpty(DropEmpty(p.lines));
      }
    }
  }

  /** What writing one line does to the text being built. */
  lemma {:induction false} CurrentAfterLine(reopened: bool, lines: seq<Text>, line: Text)
    ensures
      var before := Join(Body(reopened, lines));
      Join(Body(reopened, lines + [line])) == if before == [] then line else before + [NEWLINE] + line
  {
    BodyAppend(reopened, lines, line);
    JoinAppend(Body(reopened, lines), line);
    CurrentEmpty(Progress([], reopened, lines, false));
  }

  lemma {:induction false} RenderClosed(reopened: bool, lines: seq<Text>)
    requires Body(reopened, lines) != []
    ensures Render(Chunk(reopened, lines, true)) == Join(Body(reopened, lines)) + [NEWLINE] + FENCE
  {
    JoinAppend(Body(reopened, lines), FENCE);
  }

  function Closed(current: Text, inCode: bool): Text {
    if inCode then current + [NEWLINE] + FENCE else current
  }

  function Reopening(inCode: bool): Text {
    if inCode then FENCE + [NEWLINE] else []
  }

  function Joined(current: Text, line: Text): Text {
    if current == [] then line else current + [NEWLINE] + line
  }

  lemma {:induction false} RenderAppend(cs: seq<Chunk>, c: Chunk)
    ensures RenderAll(cs + [c]) == RenderAll(cs) + [Render(c)]
  {
  }

  /** The texts before and after one line: the finished ones and the one being built. */
  lemma {:induction false} AddLineText(p: Progress, line: Text, limit: nat)
    requires p.inCode ==> Current(p) != []
    ensures
      var q := AddLine(p, line, limit);
      if MustSplit(p, line, limit) then
        && RenderAll(q.done) == RenderAll(p.done) + [Closed(Current(p), p.inCode)]
        && Current(q) == Joined(Reopening(p.inCode), line)
      else q.done == p.done && Current(q) == Joined(Current(p), line)
  {
    var q := AddLine(p, line, limit);
    if MustSplit(p, line, limit) {
      var c := Chunk(p.reopened, p.lines, p.inCode);
      RenderAppend(p.done, c);
      CurrentEmpty(p);
      if p.inCode {
        RenderClosed(p.reopened, p.lines);
      } else {
        assert PartLines(c) == Body(p.reopened, p.lines);
      }
      CurrentAfterLine(p.inCode, [], line);
      assert [] + [line] == [line];
      if p.inCode {
        assert Body(true, []) == [FENCE, []] && [FENCE, []][..1] == [FENCE];
        assert Join(Body(true, [])) == FENCE + [NEWLINE];
      }
    } else {
      CurrentAfterLine(p.reopened, p.lines, line);
    }
  }

  lemma {:induction false} EmittedAtEnd(lines: seq<Text>, limit: nat)
    ensures
      var p := AddLines(lines, limit);
      Emitted(Chunks(lines, limit)) == RenderAll(p.done) + if Current(p) == [] then [] else [Current(p)]
  {
    var p := AddLines(lines, limit);
    var last := Chunk(p.reopened, p.lines, false);
    assert PartLines(last) == Body(p.reopened, p.lines);
    assert Chunks(lines, limit)[..|p.done|] == p.done;
    RenderAppend(p.done, last);
  }

  lemma {:induction false} FenceNotEmpty(line: Text)
    requires IsFence(line)
    ensures line != []
  {
  }

  /** The builder's variables: finished parts, text being built, open block. */
  datatype Builder = Builder(parts: seq<Text>, current: Text, inCode: bool)

  predicate Splits(b: Builder, line: Text, limit: nat) {
    |b.current| + |line| + 1 + (if b.inCode then 4 else 0) > limit && |b.current| > 0
  }

  /** One turn of the loop on the texts alone. */
  function WriteLine(b: Builder, line: Text, limit: nat): Builder {
    var split := Splits(b, line, limit);
    Builder(if split then b.parts + [Closed(b.current, b.inCode)] else b.parts,
            Joined(if split then Reopening(b.inCode) else b.current, line),
            b.inCode != IsFence(line))
  }

  ghost predicate Builds(b: Builder, p: Progress) {
    b == Builder(RenderAll(p.done), Current(p), p.inCode) && (p.inCode ==> Current(p) != [])
  }

  lemma {:induction false} WriteLineBuilds(b: Builder, p: Progress, line: Text, limit: nat)
    requires Builds(b, p)
    ensures Builds(WriteLine(b, line, limit), AddLine(p, line, limit))
  {
    AddLineText(p, line, limit);
    if IsFence(line) {
      FenceNotEmpty(line);
    }
  }

  function WriteLines(lines: seq<Text>, limit: nat): Builder {
    if lines == [] then Builder([], [], false)
    else WriteLine(WriteLines(lines[..|lines| - 1], limit), lines[|lines| - 1], limit)
  }

  lemma {:induction false} WriteLinesBuilds(lines: seq<Text>, limit: nat)
    ensures Builds(WriteLines(lines, limit), AddLines(lines, limit))
  {
    if lines != [] {
      var front := lines[..|lines| - 1];
      WriteLinesBuilds(front, limit);
      WriteLineBuilds(WriteLines(front, limit), AddLines(front, limit), lines[|lines| - 1], limit);
    }
  }

  method Split(text: Text, maxLen: int) returns (parts: seq<Text>)
    ensures Limit(maxLen) == if maxLen <= 0 then 4096 else maxLen
    ensures |text| <= Limit(maxLen) ==> parts == [text]
    ensures |text| > Limit(maxLen) ==> parts == Emitted(Chunks(Lines(text), Limit(maxLen)))
  {
    var max := maxLen;
    if max <= 0 {
      max := TELEGRAM_LIMIT;
    }
    if |text| <= max {
      return [text];
    }

    parts := [];
    var lines := Lines(text);
    var current: Text := [];
    var inCodeBlock := false;
    for i := 0 to |lines|
      invariant Builder(parts, current, inCodeBlock) == WriteLines(lines[..i], max)
    {
      var line := lines[i];
      assert lines[..i + 1][..i] == lines[..i];
      ghost var before := Builder(parts, current, inCodeBlock);
      ghost var split := Splits(before, line, max);
      var isCodeFence := IsFence(line);
      var needed := |line| + 1;
      var closingOverhead := 0;
      if inCodeBlock {
        closingOverhead := 4;
      }

      if |current| + needed + closingOverhead > max && |current| > 0 {
        if inCodeBlock {
          current := current + [NEWLINE] + FENCE;
        }
        parts := parts + [current];
        current := [];
        if inCodeBlock {
          current := current + FENCE + [NEWLINE];
        }
      }
      assert current == (if split then Reopening(before.inCode) else before.current);
      assert parts == (if split then before.parts + [Closed(before.current, before.inCode)] else before.parts);

      if |current| > 0 {
        current := current + [NEWLINE];
      }
      current := current + line;
      assert current == Joined(if split then Reopening(before.inCode) else before.current, line);

      if isCodeFence {
        inCodeBlock := !inCodeBlock;
      }
    }
    assert lines[..|lines|] == lines;
    WriteLinesBuilds(lines, max);
    EmittedAtEnd(lines, max);
    if |current| > 0 {
      parts := parts + [current];
    }
  }
}
