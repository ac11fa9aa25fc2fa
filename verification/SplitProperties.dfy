/** What a split message keeps: its content, the balance of its code fences, and a bound on the
    length of its parts. */
module SplitProperties {
  import opened TextLines
  import opened SplitMessage

  // ---------- Content ----------

  function Concat(pieces: seq<seq<Text>>): seq<Text> {
    if pieces == [] then [] else Concat(pieces[..|pieces| - 1]) + pieces[|pieces| - 1]
  }

  lemma ConcatAppend(pieces: seq<seq<Text>>, piece: seq<Text>)
    ensures Concat(pieces + [piece]) == Concat(pieces) + piece
  {
    assert (pieces + [piece])[..|pieces|] == pieces;
  }

  function LinesOf(cs: seq<Chunk>): seq<seq<Text>> {
    seq(|cs|, i requires 0 <= i < |cs| => cs[i].lines)
  }

  function Flatten(cs: seq<Chunk>): seq<Text> {
    Concat(LinesOf(cs))
  }

  lemma FlattenAppend(cs: seq<Chunk>, c: Chunk)
    ensures Flatten(cs + [c]) == Flatten(cs) + c.lines
  {
    assert LinesOf(cs + [c]) == LinesOf(cs) + [c.lines];
    ConcatAppend(LinesOf(cs), c.lines);
  }

  predicate ClosedBefore(cs: seq<Chunk>, i: nat)
    requires i <= |cs|
  {
    i > 0 && cs[i - 1].closed
  }

  /** A chunk reopens a block exactly when the one before it was closed by the splitter. */
  ghost predicate Linked(cs: seq<Chunk>) {
    forall i :: 0 <= i < |cs| ==> cs[i].reopened == ClosedBefore(cs, i)
  }

  predicate Shows(c: Chunk) {
    Body(c.reopened, c.lines) != []
  }

  /** The chunks so far hold the lines so far, each finished one has text, and the flags link up. */
  ghost predicate Carries(p: Progress, lines: seq<Text>) {
    && Flatten(p.done) + p.lines == lines
    && Linked(p.done)
    && p.reopened == ClosedBefore(p.done, |p.done|)
    && forall c :: c in p.done ==> Shows(c)
  }

  /** A block is open exactly when the lines so far have an odd number of fences, and then the
      text being built has an odd number too. */
  ghost predicate Balanced(p: Progress, lines: seq<Text>) {
    && Fences(lines) % 2 == Parity(p.inCode)
    && Fences(Body(p.reopened, p.lines)) % 2 == Parity(p.inCode)
    && forall c :: c in p.done ==> Fences(PartLines(c)) % 2 == 0
  }

  function Parity(odd: bool): nat {
    if odd then 1 else 0
  }

  lemma LinkedAppend(cs: seq<Chunk>, c: Chunk)
    requires Linked(cs) && c.reopened == ClosedBefore(cs, |cs|)
    ensures Linked(cs + [c])
  {
    forall i | 0 <= i < |cs + [c]| ensures (cs + [c])[i].reopened == ClosedBefore(cs + [c], i) {
      if i < |cs| {
        assert cs[i].reopened == ClosedBefore(cs, i);
      }
    }
  }

  lemma {:induction false} FencesAppendOne(lines: seq<Text>, line: Text)
    ensures Fences(lines + [line]) == Fences(lines) + Parity(IsFence(line))
  {
    assert (lines + [line])[..|lines|] == lines;
  }

  lemma {:induction false} BodyFences(reopened: bool, lines: seq<Text>, line: Text)
    ensures Fences(Body(reopened, lines + [line])) == Fences(Body(reopened, lines)) + Parity(IsFence(line))
  {
    BodyAppend(reopened, lines, line);
    FencesAppendOne(Body(reopened, lines), line);
    FenceIsFence();
  }

  lemma {:induction false} ClosedIsEven(reopened: bool, lines: seq<Text>, inCode: bool)
    requires Fences(Body(reopened, lines)) % 2 == Parity(inCode)
    ensures Fences(PartLines(Chunk(reopened, lines, inCode))) % 2 == 0
  {
    FencesAppendOne(Body(reopened, lines), FENCE);
    FenceIsFence();
    assert Body(reopened, lines) + [] == Body(reopened, lines);
  }

  lemma {:induction false} FreshBodyFences(inCode: bool, line: Text)
    ensures Fences(Body(inCode, [line])) == Parity(inCode) + Parity(IsFence(line))
  {
    BodyFences(inCode, [], line);
    FenceIsFence();
    assert [] + [line] == [line];
    assert [FENCE, []] + [] == [FENCE, []];
  }

  lemma {:induction false} AddLineCarries(p: Progress, lines: seq<Text>, line: Text, limit: nat)
    requires Carries(p, lines)
    ensures Carries(AddLine(p, line, limit), lines + [line])
  {
    if MustSplit(p, line, limit) {
      var c := Chunk(p.reopened, p.lines, p.inCode);
      CurrentEmpty(p);
      FlattenAppend(p.done, c);
      LinkedAppend(p.done, c);
    } else {
      assert Flatten(p.done) + (p.lines + [line]) == lines + [line];
    }
  }

  lemma ParityStep(n: nat, odd: bool, step: bool)
    requires n % 2 == Parity(odd)
    ensures (n + Parity(step)) % 2 == Parity(odd != step)
  {
  }

  lemma {:induction false} CutBalanced(p: Progress, lines: seq<Text>, line: Text, limit: nat)
    requires Balanced(p, lines) && MustSplit(p, line, limit)
    ensures Balanced(AddLine(p, line, limit), lines + [line])
  {
    FencesAppendOne(lines, line);
    ParityStep(Fences(lines), p.inCode, IsFence(line));
    ClosedIsEven(p.reopened, p.lines, p.inCode);
    FreshBodyFences(p.inCode, line);
    ParityStep(Parity(p.inCode), p.inCode, IsFence(line));
    var c := Chunk(p.reopened, p.lines, p.inCode);
    assert AddLine(p, line, limit) == Progress(p.done + [c], p.inCode, [line], p.inCode != IsFence(line));
  }

  lemma {:induction false} AddLineBalanced(p: Progress, lines: seq<Text>, line: Text, limit: nat)
    requires Balanced(p, lines)
    ensures Balanced(AddLine(p, line, limit), lines + [line])
  {
    if MustSplit(p, line, limit) {
      CutBalanced(p, lines, line, limit);
    } else {
      FencesAppendOne(lines, line);
      ParityStep(Fences(lines), p.inCode, IsFence(line));
      BodyFences(p.reopened, p.lines, line);
      ParityStep(Fences(Body(p.reopened, p.lines)), p.inCode, IsFence(line));
    }
  }

  lemma {:induction false} AddLinesCarry(lines: seq<Text>, limit: nat)
    ensures Carries(AddLines(lines, limit), lines)
  {
    if lines != [] {
      var front := lines[..|lines| - 1];
      AddLinesCarry(front, limit);
      AddLineCarries(AddLines(front, limit), front, lines[|lines| - 1], limit);
      assert front + [lines[|lines| - 1]] == lines;
    }
  }

  lemma {:induction false} AddLinesBalanced(lines: seq<Text>, limit: nat)
    ensures Balanced(AddLines(lines, limit), lines)
  {
    if lines != [] {
      var front := lines[..|lines| - 1];
      AddLinesBalanced(front, limit);
      AddLineBalanced(AddLines(front, limit), front, lines[|lines| - 1], limit);
      assert front + [lines[|lines| - 1]] == lines;
    }
  }

  /** The chunks carry the lines of the text in order, none lost, none repeated. */
  lemma {:induction false} ChunksCarryLines(lines: seq<Text>, limit: nat)
    ensures
      var cs := Chunks(lines, limit);
      && Flatten(cs) == lines
      && Linked(cs)
      && !cs[|cs| - 1].closed
      && forall i :: 0 <= i < |cs| - 1 ==> Shows(cs[i])
  {
    var p := AddLines(lines, limit);
    AddLinesCarry(lines, limit);
    FlattenAppend(p.done, Chunk(p.reopened, p.lines, false));
    LinkedAppend(p.done, Chunk(p.reopened, p.lines, false));
  }

  lemma {:induction false} DropEmptyKeepsOneLine(lines: seq<Text>)
    requires AllOneLine(lines)
    ensures AllOneLine(DropEmpty(lines))
  {
    if lines != [] && lines[0] == [] {
      DropEmptyKeepsOneLine(lines[1..]);
    }
  }

  lemma {:induction false} ConcatMember(pieces: seq<seq<Text>>, i: nat)
    requires i < |pieces| && AllOneLine(Concat(pieces))
    ensures AllOneLine(pieces[i])
    decreases |pieces|
  {
    var last := |pieces| - 1;
    var front := Concat(pieces[..last]);
    assert forall j :: 0 <= j < |front| ==> Concat(pieces)[j] == front[j];
    assert forall j :: 0 <= j < |pieces[last]| ==> Concat(pieces)[|front| + j] == pieces[last][j];
    if i < last {
      ConcatMember(pieces[..last], i);
    }
  }

  lemma {:induction false} RenderLines(c: Chunk)
    requires Shows(c) && AllOneLine(c.lines)
    ensures Lines(Render(c)) == PartLines(c)
  {
    DropEmptyKeepsOneLine(c.lines);
    assert OneLine(FENCE);
    LinesOfJoin(PartLines(c));
  }

  lemma ShowsHasText(c: Chunk)
    requires !c.closed
    ensures Shows(c) <==> Render(c) != []
  {
    CurrentEmpty(Progress([], c.reopened, c.lines, false));
    assert PartLines(c) == Body(c.reopened, c.lines);
  }

  function NonEmpty(lines: seq<Text>): seq<Text> {
    if lines == [] then []
    else NonEmpty(lines[..|lines| - 1]) + if lines[|lines| - 1] == [] then [] else [lines[|lines| - 1]]
  }

  lemma {:induction false} NonEmptyAppend(a: seq<Text>, b: seq<Text>)
    ensures NonEmpty(a + b) == NonEmpty(a) + NonEmpty(b)
  {
    if b == [] {
      assert a + b == a;
    } else {
      assert (a + b)[..|a + b| - 1] == a + b[..|b| - 1];
      NonEmptyAppend(a, b[..|b| - 1]);
    }
  }

  lemma {:induction false} NonEmptyDrop(lines: seq<Text>)
    ensures NonEmpty(DropEmpty(lines)) == NonEmpty(lines)
  {
    if lines != [] && lines[0] == [] {
      NonEmptyDrop(lines[1..]);
      NonEmptyAppend([lines[0]], lines[1..]);
      assert lines == [lines[0]] + lines[1..];
      assert [lines[0]][..0] == [];
    }
  }

  /** A part's lines without the fence and blank line put in front and the fence put behind. */
  function Uninserted(part: seq<Text>, reopened: bool, closed: bool): seq<Text> {
    var tail := if reopened && |part| >= 2 then part[2..] else part;
    if closed && tail != [] then tail[..|tail| - 1] else tail
  }

  function Piece(part: Text, reopened: bool, closed: bool): seq<Text> {
    NonEmpty(Uninserted(Lines(part), reopened, closed))
  }

  /** The non-empty lines of each part, cleared of insertions given only which parts were closed. */
  function Pieces(parts: seq<Text>, cs: seq<Chunk>): seq<seq<Text>>
    requires |parts| <= |cs|
  {
    seq(|parts|, i requires 0 <= i < |parts| => Piece(parts[i], ClosedBefore(cs, i), cs[i].closed))
  }

  lemma {:induction false} UninsertedLines(c: Chunk)
    ensures NonEmpty(Uninserted(PartLines(c), c.reopened, c.closed)) == NonEmpty(c.lines)
  {
    NonEmptyDrop(c.lines);
    if c.reopened {
      assert PartLines(c)[2..] == c.lines + if c.closed then [FENCE] else [];
    }
    assert Uninserted(PartLines(c), c.reopened, c.closed) == if c.reopened then c.lines else DropEmpty(c.lines);
  }

  lemma {:induction false} PieceOfChunk(c: Chunk)
    requires Shows(c) && AllOneLine(c.lines)
    ensures Piece(Render(c), c.reopened, c.closed) == NonEmpty(c.lines)
  {
    RenderLines(c);
    UninsertedLines(c);
  }

  lemma {:induction false} NonEmptyConcat(pieces: seq<seq<Text>>, shown: seq<seq<Text>>)
    requires |pieces| == |shown| && forall i :: 0 <= i < |pieces| ==> shown[i] == NonEmpty(pieces[i])
    ensures NonEmpty(Concat(pieces)) == Concat(shown)
  {
    if pieces != [] {
      var last := |pieces| - 1;
      NonEmptyConcat(pieces[..last], shown[..last]);
      NonEmptyAppend(Concat(pieces[..last]), pieces[last]);
    }
  }

  lemma {:induction false} PiecesOfPrefix(cs: seq<Chunk>, n: nat)
    requires n <= |cs| && Linked(cs) && AllOneLine(Flatten(cs))
    requires forall i :: 0 <= i < n ==> Shows(cs[i])
    ensures Concat(Pieces(RenderAll(cs[..n]), cs)) == NonEmpty(Flatten(cs[..n]))
  {
    var pieces := Pieces(RenderAll(cs[..n]), cs);
    forall i | 0 <= i < n ensures pieces[i] == NonEmpty(LinesOf(cs[..n])[i]) {
      ConcatMember(LinesOf(cs), i);
      PieceOfChunk(cs[i]);
      assert cs[i].reopened == ClosedBefore(cs, i);
    }
    NonEmptyConcat(LinesOf(cs[..n]), pieces);
  }

  /** Taking out the inserted fences and the blank line after a reopened one, the parts of a split
      text hold its non-empty lines, all of them, in order. */
  lemma {:induction false} ContentKept(text: Text, limit: nat)
    ensures |Emitted(Chunks(Lines(text), limit))| <= |Chunks(Lines(text), limit)|
    ensures
      var cs := Chunks(Lines(text), limit);
      Concat(Pieces(Emitted(cs), cs)) == NonEmpty(Lines(text))
  {
    var cs := Chunks(Lines(text), limit);
    var last := |cs| - 1;
    ChunksCarryLines(Lines(text), limit);
    ShowsHasText(cs[last]);
    if Shows(cs[last]) {
      PiecesOfPrefix(cs, |cs|);
      assert cs[..|cs|] == cs;
    } else {
      PiecesOfPrefix(cs, last);
      FlattenAppend(cs[..last], cs[last]);
      assert cs[..last] + [cs[last]] == cs;
      NonEmptyDrop(cs[last].lines);
      NonEmptyAppend(Flatten(cs[..last]), cs[last].lines);
    }
  }

  /** How many lines DropEmpty drops: the empty ones at the start, and no others. */
  lemma {:induction false} DropEmptySuffix(lines: seq<Text>) returns (n: nat)
    ensures n <= |lines| && DropEmpty(lines) == lines[n..]
    ensures (forall j :: 0 <= j < n ==> lines[j] == []) && (n < |lines| ==> lines[n] != [])
  {
    n := 0;
    if lines != [] && lines[0] == [] {
      n := DropEmptySuffix(lines[1..]);
      n := n + 1;
    }
  }

  /** Line by line, each part is the lines it received, all but n empty ones at its start, between
      what is inserted: a fence and a blank line in front when it reopens a block, and then n is 0,
      and a fence behind when a block is open at the cut. */
  lemma {:induction false} PartsLineByLine(text: Text, limit: nat, i: nat) returns (n: nat)
    requires i < |Emitted(Chunks(Lines(text), limit))|
    ensures
      var cs := Chunks(Lines(text), limit);
      && i < |cs| && n <= |cs[i].lines|
      && Lines(Emitted(cs)[i]) ==
           (if cs[i].reopened then [FENCE, []] else []) + cs[i].lines[n..] + (if cs[i].closed then [FENCE] else [])
      && (forall j :: 0 <= j < n ==> cs[i].lines[j] == [])
      && (if cs[i].reopened then n == 0 else n < |cs[i].lines| && cs[i].lines[n] != [])
  {
    PartIsRendered(text, limit, i);
    n := ShownLines(Chunks(Lines(text), limit)[i]);
  }

  lemma {:induction false} ShownLines(c: Chunk) returns (n: nat)
    requires Shows(c)
    ensures n <= |c.lines| && forall j :: 0 <= j < n ==> c.lines[j] == []
    ensures PartLines(c) == (if c.reopened then [FENCE, []] else []) + c.lines[n..] + (if c.closed then [FENCE] else [])
    ensures if c.reopened then n == 0 else n < |c.lines| && c.lines[n] != []
  {
    n := 0;
    if !c.reopened {
      n := DropEmptySuffix(c.lines);
    }
  }

  lemma {:induction false} PartIsRendered(text: Text, limit: nat, i: nat)
    requires i < |Emitted(Chunks(Lines(text), limit))|
    ensures
      var cs := Chunks(Lines(text), limit);
      i < |cs| && Shows(cs[i]) && Emitted(cs)[i] == Render(cs[i]) && Lines(Emitted(cs)[i]) == PartLines(cs[i])
  {
    var cs := Chunks(Lines(text), limit);
    ChunksCarryLines(Lines(text), limit);
    ShowsHasText(cs[|cs| - 1]);
    ConcatMember(LinesOf(cs), i);
    RenderLines(cs[i]);
  }

  lemma {:induction false} ShownIsNotEmpty(c: Chunk)
    requires Shows(c)
    ensures Render(c) != []
  {
    CurrentEmpty(Progress([], c.reopened, c.lines, false));
    if c.closed {
      RenderClosed(c.reopened, c.lines);
    } else {
      ShowsHasText(c);
    }
  }

  /** No empty part is sent, and what is not sent is at most an empty last part. */
  lemma {:induction false} PartsAreNotEmpty(text: Text, limit: nat)
    ensures
      var cs := Chunks(Lines(text), limit);
      var parts := Emitted(cs);
      && (forall part :: part in parts ==> part != [])
      && (forall i :: 0 <= i < |parts| ==> i < |cs| && parts[i] == Render(cs[i]))
      && (|parts| == |cs| || (|parts| == |cs| - 1 && Render(cs[|cs| - 1]) == []))
  {
    var cs := Chunks(Lines(text), limit);
    ChunksCarryLines(Lines(text), limit);
    forall i | 0 <= i < |Emitted(cs)| ensures Emitted(cs)[i] == Render(cs[i]) != [] {
      PartIsRendered(text, limit, i);
      ShownIsNotEmpty(cs[i]);
    }
  }

  // ---------- No needless cut ----------

  /** The first line after the i-th finished chunk. */
  function LineAfter(p: Progress, i: nat): seq<Text>
    requires i < |p.done|
  {
    if i + 1 < |p.done| then p.done[i + 1].lines else p.lines
  }

  /** No finished chunk could have taken the line that follows it. */
  ghost predicate CutsNeeded(p: Progress, limit: nat) {
    && (p.inCode ==> Current(p) != [])
    && forall i :: 0 <= i < |p.done| ==>
         LineAfter(p, i) != [] && |Render(p.done[i])| + 1 + |LineAfter(p, i)[0]| > limit
  }

  lemma {:induction false} AddLineCutsNeeded(p: Progress, line: Text, limit: nat)
    requires CutsNeeded(p, limit)
    ensures CutsNeeded(AddLine(p, line, limit), limit)
  {
    var q := AddLine(p, line, limit);
    AddLineText(p, line, limit);
    if IsFence(line) {
      FenceNotEmpty(line);
    }
    if MustSplit(p, line, limit) {
      var c := Chunk(p.reopened, p.lines, p.inCode);
      assert RenderAll(q.done)[|p.done|] == Render(c);
    }
    forall i | 0 <= i < |q.done|
      ensures LineAfter(q, i) != [] && |Render(q.done[i])| + 1 + |LineAfter(q, i)[0]| > limit
    {
      if i < |p.done| {
        assert LineAfter(p, i) != [] && LineAfter(q, i) != [] && LineAfter(q, i)[0] == LineAfter(p, i)[0];
      }
    }
  }

  lemma {:induction false} AddLinesCutsNeeded(lines: seq<Text>, limit: nat)
    ensures CutsNeeded(AddLines(lines, limit), limit)
  {
    if lines != [] {
      AddLinesCutsNeeded(lines[..|lines| - 1], limit);
      AddLineCutsNeeded(AddLines(lines[..|lines| - 1], limit), lines[|lines| - 1], limit);
    }
  }

  /** A part is ended only when the next line would take it, as it is sent, over the limit. */
  lemma {:induction false} NoNeedlessCut(text: Text, limit: nat, i: nat)
    requires i + 1 < |Chunks(Lines(text), limit)|
    ensures
      var cs := Chunks(Lines(text), limit);
      cs[i + 1].lines != [] && |Render(cs[i])| + 1 + |cs[i + 1].lines[0]| > limit
  {
    var p := AddLines(Lines(text), limit);
    AddLinesCutsNeeded(Lines(text), limit);
    assert LineAfter(p, i) == Chunks(Lines(text), limit)[i + 1].lines;
  }

  // ---------- Balance ----------

  predicate EvenUpToLast(cs: seq<Chunk>, whole: nat)
    requires cs != []
  {
    && (forall i :: 0 <= i < |cs| - 1 ==> Fences(PartLines(cs[i])) % 2 == 0)
    && Fences(PartLines(cs[|cs| - 1])) % 2 == whole % 2
  }

  lemma {:induction false} ChunkFences(lines: seq<Text>, limit: nat)
    ensures EvenUpToLast(Chunks(lines, limit), Fences(lines))
  {
    var p := AddLines(lines, limit);
    AddLinesBalanced(lines, limit);
    var last := Chunk(p.reopened, p.lines, false);
    assert PartLines(last) == Body(p.reopened, p.lines);
    assert forall i :: 0 <= i < |p.done| ==> (p.done + [last])[i] in p.done;
  }

  lemma {:induction false} EmittedSize(cs: seq<Chunk>)
    requires cs != [] && !cs[|cs| - 1].closed
    ensures |Emitted(cs)| == |cs| || (|Emitted(cs)| == |cs| - 1 && PartLines(cs[|cs| - 1]) == [])
  {
    ShowsHasText(cs[|cs| - 1]);
  }

  /** The n chunks that are sent: all of them, or all but an empty last one. */
  lemma {:induction false} PartParity(cs: seq<Chunk>, whole: nat, n: nat, i: nat)
    requires cs != [] && EvenUpToLast(cs, whole) && i < n
    requires n == |cs| || (n == |cs| - 1 && PartLines(cs[|cs| - 1]) == [])
    ensures i < |cs| && Fences(PartLines(cs[i])) % 2 == if i < n - 1 then 0 else whole % 2
  {
    if n < |cs| {
      assert Fences([]) == 0;
    }
  }

  /** Every part but the last has an even number of fence lines, and the last has the parity of
      the whole text. */
  lemma {:induction false} FencesBalanced(text: Text, limit: nat, i: nat)
    requires i < |Emitted(Chunks(Lines(text), limit))|
    ensures
      var parts := Emitted(Chunks(Lines(text), limit));
      Fences(Lines(parts[i])) % 2 == if i < |parts| - 1 then 0 else Fences(Lines(text)) % 2
  {
    var lines := Lines(text);
    ChunksCarryLines(lines, limit);
    PartIsRendered(text, limit, i);
    ChunkFences(lines, limit);
    EmittedSize(Chunks(lines, limit));
    PartParity(Chunks(lines, limit), Fences(lines), |Emitted(Chunks(lines, limit))|, i);
  }

  // ---------- Length ----------

  function Max(a: int, b: int): int {
    if a > b then a else b
  }

  ghost predicate LinesWithin(lines: seq<Text>, longest: nat) {
    forall i :: 0 <= i < |lines| ==> |lines[i]| <= longest
  }

  /** The chunk was cut right after a line that opened a code block. */
  predicate EndsOpening(lines: seq<Text>, inCode: bool) {
    inCode && lines != [] && IsFence(lines[|lines| - 1])
  }

  ghost predicate CurrentFits(p: Progress, limit: nat, longest: nat) {
    && (p.inCode ==> Current(p) != [])
    && (if p.inCode && !EndsOpening(p.lines, p.inCode) then |Current(p)| + 4 <= Max(limit, longest + 9)
        else |Current(p)| <= Max(limit, longest + 5))
  }

  ghost predicate ChunkFits(c: Chunk, limit: nat, longest: nat) {
    |Render(c)| <= if EndsOpening(c.lines, c.closed) then Max(limit + 4, longest + 9) else Max(limit, longest + 9)
  }

  lemma {:induction false} CutFits(p: Progress, limit: nat, longest: nat, closed: bool)
    requires CurrentFits(p, limit, longest) && (closed ==> p.inCode)
    ensures ChunkFits(Chunk(p.reopened, p.lines, closed), limit, longest)
  {
    if closed {
      CurrentEmpty(p);
      RenderClosed(p.reopened, p.lines);
    } else {
      assert PartLines(Chunk(p.reopened, p.lines, false)) == Body(p.reopened, p.lines);
    }
  }

  lemma {:induction false} AddLineFits(p: Progress, line: Text, limit: nat, longest: nat)
    requires CurrentFits(p, limit, longest) && |line| <= longest
    ensures CurrentFits(AddLine(p, line, limit), limit, longest)
  {
    AddLineText(p, line, limit);
    var q := AddLine(p, line, limit);
    assert q.lines != [] && q.lines[|q.lines| - 1] == line;
    if IsFence(line) {
      FenceNotEmpty(line);
    }
  }

  lemma {:induction false} AddLinesFit(lines: seq<Text>, limit: nat, longest: nat)
    requires LinesWithin(lines, longest)
    ensures
      var p := AddLines(lines, limit);
      CurrentFits(p, limit, longest) && forall i :: 0 <= i < |p.done| ==> ChunkFits(p.done[i], limit, longest)
  {
    if lines != [] {
      var before := AddLines(lines[..|lines| - 1], limit);
      AddLinesFit(lines[..|lines| - 1], limit, longest);
      AddLineFits(before, lines[|lines| - 1], limit, longest);
      CutFits(before, limit, longest, before.inCode);
    }
  }

  /** The length of a part: the limit or the longest line plus the insertions around it, and four
      bytes more only where the cut comes right after an opening fence. */
  lemma {:induction false} PartLength(text: Text, limit: nat, longest: nat, i: nat)
    requires LinesWithin(Lines(text), longest)
    requires i < |Emitted(Chunks(Lines(text), limit))|
    ensures
      var cs := Chunks(Lines(text), limit);
      && i < |cs|
      && |Emitted(cs)[i]| <=
           if EndsOpening(cs[i].lines, cs[i].closed) then Max(limit + 4, longest + 9) else Max(limit, longest + 9)
  {
    var lines := Lines(text);
    var p := AddLines(lines, limit);
    AddLinesFit(lines, limit, longest);
    CutFits(p, limit, longest, false);
  }

  lemma {:induction false} JoinContains(lines: seq<Text>, k: nat)
    requires k < |lines|
    ensures |Join(lines)| >= |lines[k]|
    decreases |lines|
  {
    if |lines| > 1 && k < |lines| - 1 {
      JoinContains(lines[..|lines| - 1], k);
    }
  }

  lemma {:induction false} BodyContains(reopened: bool, lines: seq<Text>, k: nat) returns (j: nat)
    requires k < |lines| && lines[k] != []
    ensures j < |Body(reopened, lines)| && Body(reopened, lines)[j] == lines[k]
  {
    if reopened {
      j := k + 2;
    } else if lines[0] == [] {
      j := BodyContains(false, lines[1..], k - 1);
    } else {
      j := k;
    }
  }

  lemma {:induction false} PieceHolding(pieces: seq<seq<Text>>, k: nat) returns (i: nat, j: nat)
    requires k < |Concat(pieces)|
    ensures i < |pieces| && j < |pieces[i]| && pieces[i][j] == Concat(pieces)[k]
  {
    var last := |pieces| - 1;
    var front := Concat(pieces[..last]);
    if k < |front| {
      i, j := PieceHolding(pieces[..last], k);
    } else {
      i, j := last, k - |front|;
    }
  }

  /** A line is never cut: whatever the limit, some part is at least as long as each line. */
  lemma {:induction false} LinesAreNotCut(text: Text, limit: nat, k: nat) returns (i: nat)
    requires k < |Lines(text)| && Lines(text)[k] != []
    ensures i < |Emitted(Chunks(Lines(text), limit))|
    ensures |Emitted(Chunks(Lines(text), limit))[i]| >= |Lines(text)[k]|
  {
    var cs := Chunks(Lines(text), limit);
    ChunksCarryLines(Lines(text), limit);
    var j: nat;
    i, j := PieceHolding(LinesOf(cs), k);
    var b := BodyContains(cs[i].reopened, cs[i].lines, j);
    ShowsHasText(cs[|cs| - 1]);
    assert PartLines(cs[i])[b] == Lines(text)[k];
    JoinContains(PartLines(cs[i]), b);
  }

  // ---------- The bound is exact ----------

  /** Every split of a text whose lines have at most longest bytes gives parts of at most budget bytes. */
  ghost predicate PartsWithin(limit: nat, longest: nat, budget: int) {
    forall text, i ::
      |text| > limit && LinesWithin(Lines(text), longest) && 0 <= i < |Emitted(Chunks(Lines(text), limit))| ==>
        |Emitted(Chunks(Lines(text), limit))[i]| <= budget
  }

  const LETTER: Text := [120]

  /** Each empty line adds one byte. */
  function Padded(lines: seq<Text>, m: nat): seq<Text>
    decreases m
  {
    if m == 0 then lines else Padded(lines + [[]], m - 1)
  }

  function Padding(m: nat): seq<Text> {
    Padded([LETTER], m)
  }

  lemma AddLinesAppend(lines: seq<Text>, line: Text, limit: nat)
    ensures AddLines(lines + [line], limit) == AddLine(AddLines(lines, limit), line, limit)
  {
    assert (lines + [line])[..|lines|] == lines;
  }

  /** A line that still fits. */
  lemma {:induction false} LineAdded(lines: seq<Text>, line: Text, limit: nat, size: nat)
    requires
      var p := AddLines(lines, limit);
      |Current(p)| == size > 0 && !p.inCode && size + 1 + |line| <= limit
    ensures
      var p, q := AddLines(lines, limit), AddLines(lines + [line], limit);
      && q == Progress(p.done, p.reopened, p.lines + [line], IsFence(line))
      && |Current(q)| == size + 1 + |line|
  {
    AddLinesAppend(lines, line, limit);
    AddLineText(AddLines(lines, limit), line, limit);
  }

  /** A line that no longer fits into an open block. */
  lemma {:induction false} LineCut(lines: seq<Text>, line: Text, limit: nat, size: nat)
    requires
      var p := AddLines(lines, limit);
      |Current(p)| == size > 0 && p.inCode && size + |line| + 5 > limit
    ensures
      var p, q := AddLines(lines, limit), AddLines(lines + [line], limit);
      var c := Chunk(p.reopened, p.lines, true);
      && q == Progress(p.done + [c], true, [line], !IsFence(line))
      && |Render(c)| == size + 4 && |Current(q)| == |line| + 5
  {
    var p := AddLines(lines, limit);
    AddLinesAppend(lines, line, limit);
    AddLineText(p, line, limit);
    CurrentEmpty(p);
    RenderClosed(p.reopened, p.lines);
  }

  lemma {:induction false} FirstLine(line: Text, limit: nat)
    ensures AddLines([line], limit) == Progress([], false, [line], IsFence(line))
    ensures |Current(AddLines([line], limit))| == |line|
  {
    assert [] + [line] == [line];
    AddLinesAppend([], line, limit);
    AddLineText(AddLines([], limit), line, limit);
  }

  /** The lines fill the first part to the given size. */
  ghost predicate Fills(lines: seq<Text>, limit: nat, size: nat) {
    AddLines(lines, limit) == Progress([], false, lines, false) && |Current(AddLines(lines, limit))| == size
  }

  lemma {:induction false} PaddingStarts(limit: nat)
    ensures Fills([LETTER], limit, 1)
  {
    LettersAreOneLine(1);
    assert LETTER == seq(1, _ => 120);
    FirstLine(LETTER, limit);
  }

  lemma {:induction false} PaddingGrows(lines: seq<Text>, limit: nat, size: nat)
    requires 0 < size < limit && Fills(lines, limit, size)
    ensures Fills(lines + [[]], limit, size + 1)
  {
    FenceIsFence();
    LineAdded(lines, [], limit, size);
  }

  lemma {:induction false} PaddedFills(lines: seq<Text>, m: nat, limit: nat, size: nat)
    requires 0 < size && size + m <= limit && Fills(lines, limit, size)
    ensures Fills(Padded(lines, m), limit, size + m)
    decreases m
  {
    if m > 0 {
      PaddingGrows(lines, limit, size);
      PaddedFills(lines + [[]], m - 1, limit, size + 1);
    }
  }

  lemma {:induction false} PaddedLines(lines: seq<Text>, m: nat)
    requires lines != [] && AllOneLine(lines) && LinesWithin(lines, 1)
    ensures Padded(lines, m) != [] && AllOneLine(Padded(lines, m)) && LinesWithin(Padded(lines, m), 1)
    ensures |Join(Padded(lines, m))| == |Join(lines)| + m
    decreases m
  {
    if m > 0 {
      JoinAppend(lines, []);
      PaddedLines(lines + [[]], m - 1);
    }
  }

  /** Every finished chunk is sent as a part. */
  lemma {:induction false} FinishedPart(lines: seq<Text>, limit: nat, i: nat)
    requires i < |AddLines(lines, limit).done|
    ensures
      var parts := Emitted(Chunks(lines, limit));
      i < |parts| && parts[i] == Render(AddLines(lines, limit).done[i])
  {
  }

  /** Lines that fill a part to the limit with an opening fence, and one more line. */
  function OpeningLines(limit: nat): seq<Text>
    requires limit >= 5
  {
    Padding(limit - 5) + [FENCE] + [LETTER]
  }

  lemma {:induction false} OpeningCut(head: seq<Text>, limit: nat)
    requires limit >= 5 && Fills(head, limit, limit - 4)
    ensures
      var parts := Emitted(Chunks(head + [FENCE] + [LETTER], limit));
      parts != [] && |parts[0]| == limit + 4
  {
    FenceIsFence();
    assert |FENCE| == 3;
    LineAdded(head, FENCE, limit, limit - 4);
    LineCut(head + [FENCE], LETTER, limit, limit);
    FinishedPart(head + [FENCE] + [LETTER], limit, 0);
  }

  lemma {:induction false} OpeningLinesCut(limit: nat)
    requires limit >= 5
    ensures
      var parts := Emitted(Chunks(OpeningLines(limit), limit));
      parts != [] && |parts[0]| == limit + 4
  {
    PaddingStarts(limit);
    PaddedFills([LETTER], limit - 5, limit, 1);
    OpeningCut(Padding(limit - 5), limit);
  }

  lemma {:induction false} OpeningLinesText(limit: nat)
    requires limit >= 5
    ensures |Join(OpeningLines(limit))| > limit && Lines(Join(OpeningLines(limit))) == OpeningLines(limit)
    ensures LinesWithin(OpeningLines(limit), 3)
  {
    assert OneLine(FENCE) && OneLine(LETTER);
    PaddedLines([LETTER], limit - 5);
    JoinAppend(Padding(limit - 5), FENCE);
    JoinAppend(Padding(limit - 5) + [FENCE], LETTER);
    LinesOfJoin(OpeningLines(limit));
  }

  lemma {:induction false} LettersAreOneLine(n: nat)
    requires n > 0
    ensures
      var line: Text := seq(n, _ => 120);
      |line| == n && OneLine(line) && !IsFence(line)
  {
    var line: Text := seq(n, _ => 120);
    assert LeadingSpace(line) == 0;
    assert TrimLeft(line) == line && line[0] == 120;
  }

  /** A long line inside a block, cut off before and behind. */
  function LongLines(longest: nat): seq<Text> {
    [FENCE] + [seq(longest, _ => 120)] + [LETTER]
  }

  lemma {:induction false} LongLinesCut(limit: nat, longest: nat)
    requires longest >= 3 && limit <= longest + 5
    ensures
      var parts := Emitted(Chunks(LongLines(longest), limit));
      |parts| >= 2 && |parts[1]| == longest + 9
  {
    var long: Text := seq(longest, _ => 120);
    LettersAreOneLine(longest);
    FenceIsFence();
    assert |FENCE| == 3;
    FirstLine(FENCE, limit);
    LineCut([FENCE], long, limit, 3);
    LineCut([FENCE] + [long], LETTER, limit, longest + 5);
    FinishedPart(LongLines(longest), limit, 1);
  }

  lemma {:induction false} LongLinesText(longest: nat)
    requires longest >= 3
    ensures |Join(LongLines(longest))| > longest + 5 && Lines(Join(LongLines(longest))) == LongLines(longest)
    ensures LinesWithin(LongLines(longest), longest)
  {
    var long: Text := seq(longest, _ => 120);
    LettersAreOneLine(longest);
    assert OneLine(FENCE) && OneLine(LETTER);
    JoinAppend([FENCE], long);
    JoinAppend([FENCE] + [long], LETTER);
    LinesOfJoin(LongLines(longest));
  }

  /** What a caller has to allow for: the parts of all texts with lines of at most longest bytes (at
      least three, so that a line can be a fence) fit a budget if and only if it covers the limit
      plus four and the longest line plus nine.
      The limit itself is therefore never a budget that all parts fit. */
  lemma {:induction false} PartsFitIff(limit: nat, longest: nat, budget: int)
    requires longest >= 3
    ensures PartsWithin(limit, longest, budget) <==> limit + 4 <= budget && longest + 9 <= budget
  {
    if limit + 4 <= budget && longest + 9 <= budget {
      forall text, i |
        |text| > limit && LinesWithin(Lines(text), longest) && 0 <= i < |Emitted(Chunks(Lines(text), limit))|
        ensures |Emitted(Chunks(Lines(text), limit))[i]| <= budget
      {
        PartLength(text, limit, longest, i);
      }
    } else if limit <= longest + 5 {
      LongLinesCut(limit, longest);
      LongLinesText(longest);
      var text := Join(LongLines(longest));
      assert |Emitted(Chunks(Lines(text), limit))[1]| == longest + 9;
    } else {
      OpeningLinesCut(limit);
      OpeningLinesText(limit);
      var text := Join(OpeningLines(limit));
      assert |Emitted(Chunks(Lines(text), limit))[0]| == limit + 4;
    }
  }

  /** With the limit of 4000 the log viewer passes, every part fits Telegram's 4096 bytes exactly
      as long as no line is longer than 4087. */
  lemma {:induction false} LogPartsFitIff(longest: nat)
    requires longest >= 3
    ensures PartsWithin(4000, longest, TELEGRAM_LIMIT) <==> longest <= 4087
  {
    PartsFitIff(4000, longest, TELEGRAM_LIMIT);
  }

  // ---------- Texts without fences ----------

  ghost predicate BuilderFits(b: Builder, budget: nat) {
    !b.inCode && |b.current| <= budget && forall i :: 0 <= i < |b.parts| ==> |b.parts[i]| <= budget
  }

  lemma {:induction false} PlainLinesFit(lines: seq<Text>, limit: nat, budget: nat)
    requires Fences(lines) == 0 && LinesWithin(lines, budget) && limit <= budget
    ensures BuilderFits(WriteLines(lines, limit), budget)
  {
    if lines != [] {
      PlainLinesFit(lines[..|lines| - 1], limit, budget);
    }
  }

  /** The parts of a text without fences fit a budget of at least the limit exactly if its lines do. */
  lemma {:induction false} PlainTextFitsIff(text: Text, limit: nat, budget: nat)
    requires Fences(Lines(text)) == 0 && limit <= budget
    ensures (forall part :: part in Emitted(Chunks(Lines(text), limit)) ==> |part| <= budget)
              <==> LinesWithin(Lines(text), budget)
  {
    var lines, parts := Lines(text), Emitted(Chunks(Lines(text), limit));
    if LinesWithin(lines, budget) {
      PlainLinesFit(lines, limit, budget);
      WriteLinesBuilds(lines, limit);
      EmittedAtEnd(lines, limit);
      var b := WriteLines(lines, limit);
      assert parts == b.parts + if b.current == [] then [] else [b.current];
    } else {
      var k :| 0 <= k < |lines| && |lines[k]| > budget;
      var i := LinesAreNotCut(text, limit, k);
      assert parts[i] in parts;
    }
  }
}
