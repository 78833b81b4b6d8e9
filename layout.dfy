/**
 * breakLines (parametersystem.cpp): the greedy word wrap used by the help
 * printers. It copies the message, and whenever the current output column
 * reaches the terminal width it ends the line, preferably at the last blank
 * seen on it, and continues after a newline and `indentWidth` spaces.
 *
 * The loop keeps four counters and moves `inPos` backwards after a break.
 * Its meaning is given by `Walk`, which produces a plan: the pieces of the
 * message that are copied (`Text`) and the places where a line break is
 * inserted (`Break`, together with the message character it replaces, if
 * any). The method is proved to perform that plan, and the properties are
 * lemmas about the plan.
 *
 * The source, after a newline of the message, sets the last break position
 * one character past the start of the new line. When the new line holds no
 * blank before the wrap column, the character after the first one is then
 * taken for a blank and dropped. `asWritten` selects that behaviour; the
 * printers use the corrected one, where the last break position is the start
 * of the new line.
 */
module Layout {
  import opened Outcomes
  import opened Chars

  datatype Chunk =
    | Text(s: string)          // a piece of the message, copied as is
    | Break(replaced: string)  // a newline and the indentation, in place of `replaced`

  /** n blanks; none when n is not positive, as the source's counting loop. */
  function Spaces(n: int): (r: string)
    ensures |r| == if n <= 0 then 0 else n
    ensures forall k :: 0 <= k < |r| ==> r[k] == ' '
  {
    if n <= 0 then [] else Spaces(n - 1) + " "
  }

  function ChunkText(c: Chunk, indentWidth: int): string
  {
    match c
    case Text(s) => s
    case Break(_) => "\n" + Spaces(indentWidth)
  }

  function ChunkSource(c: Chunk): string
  {
    match c
    case Text(s) => s
    case Break(r) => r
  }

  /** The text a plan produces. */
  function Render(plan: seq<Chunk>, indentWidth: int): string
  {
    if plan == [] then [] else ChunkText(plan[0], indentWidth) + Render(plan[1..], indentWidth)
  }

  /** The message a plan was made from: breaks give back what they replaced. */
  function Original(plan: seq<Chunk>): string
  {
    if plan == [] then [] else ChunkSource(plan[0]) + Original(plan[1..])
  }

  lemma RenderOne(c: Chunk, indentWidth: int)
    ensures Render([c], indentWidth) == ChunkText(c, indentWidth)
    ensures Original([c]) == ChunkSource(c)
  {
    assert [c][1..] == [];
  }

  lemma RenderTwo(a: Chunk, b: Chunk, indentWidth: int)
    ensures Render([a, b], indentWidth) == ChunkText(a, indentWidth) + ChunkText(b, indentWidth)
    ensures Original([a, b]) == ChunkSource(a) + ChunkSource(b)
  {
    assert [a, b][1..] == [b];
    RenderOne(b, indentWidth);
  }

  /** Every break sits between two characters or replaces one blank that is not a newline. */
  predicate BlankBreaks(plan: seq<Chunk>)
  {
    forall k :: 0 <= k < |plan| ==> BlankBreak(plan[k])
  }

  predicate BlankBreak(c: Chunk)
  {
    c.Break? ==> c.replaced == [] || (|c.replaced| == 1 && IsSpace(c.replaced[0]) && c.replaced[0] != '\n')
  }

  function Then(done: seq<Chunk>, rest: Option<seq<Chunk>>): Option<seq<Chunk>>
  {
    match rest
    case None => None
    case Some(p) => Some(done + p)
  }


  function Min(a: int, b: int): int { if a <= b then a else b }

  /** A state of breakLines' loop: start of the pending output, input position, last break position, output column. */
  datatype Cursor = Cursor(start: int, inPos: int, lastBreak: int, tty: int)

  predicate Ordered(c: Cursor) { 0 <= c.start <= c.inPos }

  /** What one pass of the loop body appends to the plan, and the state it leaves. */
  datatype Move = Move(chunks: seq<Chunk>, next: Cursor)

  /**
   * One pass of breakLines' loop body, the for-loop's increments included:
   * copy through a newline of the message, or, at the wrap column, end the
   * line at the last blank (dropping it) or at the current position.
   */
  function Step(msg: string, indentWidth: int, maxWidth: int, asWritten: bool, c: Cursor): (m: Move)
    requires Ordered(c) && c.inPos < |msg|
    ensures Ordered(m.next)
    ensures m.next.start > c.start || (m.next.start == c.start && m.next.inPos > c.inPos)
  {
    if msg[c.inPos] == '\n' then
      var next := c.inPos + 1;
      Move([Text(msg[c.start..next])], Cursor(next, next, if asWritten then next + 1 else next, 0))
    else
      var lb := if IsSpace(msg[c.inPos]) then c.inPos else c.lastBreak;
      if c.tty < maxWidth then
        Move([], Cursor(c.start, c.inPos + 1, lb, c.tty + 1))
      else if lb > c.start then
        var next := lb + 1;
        var dropped := if lb < |msg| then [msg[lb]] else [];
        Move([Text(msg[c.start..Min(lb, |msg|)]), Break(dropped)], Cursor(next, next + 1, next, indentWidth + 1))
      else
        Move([Text(msg[c.start..c.inPos]), Break([])], Cursor(c.inPos, c.inPos + 1, c.inPos, indentWidth + 1))
  }

  /**
   * The plan breakLines performs from a state of its loop. None is the
   * out_of_range of the final `substr` when the start has moved past the end
   * of the message.
   */
  function Walk(msg: string, indentWidth: int, maxWidth: int, asWritten: bool, c: Cursor): Option<seq<Chunk>>
    requires Ordered(c)
    decreases |msg| - c.start, |msg| - c.inPos
  {
    if c.inPos >= |msg| then
      if c.start > |msg| then None else Some([Text(msg[c.start..])])
    else
      var m := Step(msg, indentWidth, maxWidth, asWritten, c);
      Then(m.chunks, Walk(msg, indentWidth, maxWidth, asWritten, m.next))
  }

  /** The plan of a whole message. */
  function Plan(msg: string, indentWidth: int, maxWidth: int, asWritten: bool): Option<seq<Chunk>>
  {
    Walk(msg, indentWidth, maxWidth, asWritten, Cursor(0, 0, 0, 0))
  }

  function RenderOption(plan: Option<seq<Chunk>>, indentWidth: int): Option<string>
  {
    match plan
    case None => None
    case Some(p) => Some(Render(p, indentWidth))
  }

  lemma RenderAppend(a: seq<Chunk>, b: seq<Chunk>, indentWidth: int)
    ensures Render(a + b, indentWidth) == Render(a, indentWidth) + Render(b, indentWidth)
  {
    if a != [] {
      assert (a + b)[0] == a[0] && (a + b)[1..] == a[1..] + b;
      RenderAppend(a[1..], b, indentWidth);
    } else {
      assert a + b == b;
    }
  }

  lemma OriginalAppend(a: seq<Chunk>, b: seq<Chunk>)
    ensures Original(a + b) == Original(a) + Original(b)
  {
    if a != [] {
      assert (a + b)[0] == a[0] && (a + b)[1..] == a[1..] + b;
      OriginalAppend(a[1..], b);
    } else {
      assert a + b == b;
    }
  }

  lemma SliceJoin(s: string, i: int, j: int)
    requires 0 <= i <= j <= |s|
    ensures s[i..j] + s[j..] == s[i..]
  {
  }

  lemma RenderThen(a: seq<Chunk>, o: Option<seq<Chunk>>, indentWidth: int)
    requires o.Some?
    ensures Then(a, o).Some? && Render(Then(a, o).value, indentWidth) == Render(a, indentWidth) + Render(o.value, indentWidth)
  {
    RenderAppend(a, o.value, indentWidth);
  }

  lemma ThenEmpty(o: Option<seq<Chunk>>)
    ensures Then([], o) == o
  {
    if o.Some? { assert [] + o.value == o.value; }
  }

  lemma ThenTwice(a: seq<Chunk>, b: seq<Chunk>, o: Option<seq<Chunk>>)
    ensures Then(a, Then(b, o)) == Then(a + b, o)
  {
    if o.Some? { assert a + (b + o.value) == (a + b) + o.value; }
  }


  /** The source's loop that appends the indentation after an inserted newline. */
  method AppendIndent(s: string, indentWidth: int) returns (r: string)
    ensures r == s + Spaces(indentWidth)
  {
    r := s;
    var i := 0;
    while i < indentWidth
      invariant 0 <= i <= if indentWidth < 0 then 0 else indentWidth
      invariant r == s + Spaces(i)
    {
      r := r + " ";
      i := i + 1;
    }
  }

  /**
   * One pass of breakLines' loop body, with the source's statements: the
   * text appended to the result and the new values of the four counters.
   */
  method LoopBody(msg: string, indentWidth: int, maxWidth: int, asWritten: bool, c: Cursor)
    returns (appended: string, next: Cursor)
    requires Ordered(c) && c.inPos < |msg|
    ensures next == Step(msg, indentWidth, maxWidth, asWritten, c).next
    ensures appended == Render(Step(msg, indentWidth, maxWidth, asWritten, c).chunks, indentWidth)
  {
    var startInPos, inPos, lastBreakPos, ttyPos := c.start, c.inPos, c.lastBreak, c.tty;
    if msg[inPos] == '\n' {
      appended := msg[startInPos..inPos + 1];
      RenderOne(Text(appended), indentWidth);
      startInPos := inPos + 1;
      lastBreakPos := if asWritten then startInPos + 1 else startInPos;
      ttyPos := -1;
      next := Cursor(startInPos, inPos + 1, lastBreakPos, ttyPos + 1);
    } else {
      if IsSpace(msg[inPos]) {
        lastBreakPos := inPos;
      }
      if ttyPos >= maxWidth {
        appended, next := EndLine(msg, indentWidth, maxWidth, asWritten, c, lastBreakPos);
      } else {
        appended := [];
        next := Cursor(startInPos, inPos + 1, lastBreakPos, ttyPos + 1);
        assert Render([], indentWidth) == [];
      }
    }
  }

  /**
   * The wrap branch of the loop body: the line ends at the last blank, which
   * is dropped, or at the current position, and the indentation follows.
   */
  method EndLine(msg: string, indentWidth: int, maxWidth: int, asWritten: bool, c: Cursor, lb: int)
    returns (appended: string, next: Cursor)
    requires Ordered(c) && c.inPos < |msg| && msg[c.inPos] != '\n' && c.tty >= maxWidth
    requires lb == if IsSpace(msg[c.inPos]) then c.inPos else c.lastBreak
    ensures next == Step(msg, indentWidth, maxWidth, asWritten, c).next
    ensures appended == Render(Step(msg, indentWidth, maxWidth, asWritten, c).chunks, indentWidth)
  {
    var startInPos, inPos, lastBreakPos := c.start, c.inPos, lb;
    ghost var chunks: seq<Chunk>;
    if lastBreakPos > startInPos {
      appended := msg[startInPos..Min(lastBreakPos, |msg|)];
      chunks := [Text(appended), Break(if lastBreakPos < |msg| then [msg[lastBreakPos]] else [])];
      startInPos := lastBreakPos + 1;
      lastBreakPos := startInPos;
      inPos := startInPos;
      next := Cursor(startInPos, inPos + 1, lastBreakPos, indentWidth + 1);
      assert Step(msg, indentWidth, maxWidth, asWritten, c) == Move(chunks, next);
    } else {
      appended := msg[startInPos..inPos];
      chunks := [Text(appended), Break([])];
      startInPos := inPos;
      lastBreakPos := startInPos;
      inPos := startInPos;
      next := Cursor(startInPos, inPos + 1, lastBreakPos, indentWidth + 1);
      assert Step(msg, indentWidth, maxWidth, asWritten, c) == Move(chunks, next);
    }
    RenderTwo(chunks[0], chunks[1], indentWidth);
    appended := AppendIndent(appended + "\n", indentWidth);
  }

  /**
   * breakLines, with the source's loop. The result is the rendering of the
   * plan; with `asWritten` false there is always one.
   */
  method BreakLines(msg: string, indentWidth: int, maxWidth: int, asWritten: bool) returns (r: Option<string>)
    ensures r == RenderOption(Plan(msg, indentWidth, maxWidth, asWritten), indentWidth)
  {
    var result: string := [];
    var c := Cursor(0, 0, 0, 0);
    ghost var done: seq<Chunk> := [];
    ThenEmpty(Plan(msg, indentWidth, maxWidth, asWritten));
    while c.inPos < |msg|
      invariant Ordered(c)
      invariant Then(done, Walk(msg, indentWidth, maxWidth, asWritten, c)) == Plan(msg, indentWidth, maxWidth, asWritten)
      invariant result == Render(done, indentWidth)
      decreases |msg| - c.start, |msg| - c.inPos
    {
      ghost var m := Step(msg, indentWidth, maxWidth, asWritten, c);
      var appended;
      appended, c := LoopBody(msg, indentWidth, maxWidth, asWritten, c);
      result := result + appended;
      ThenTwice(done, m.chunks, Walk(msg, indentWidth, maxWidth, asWritten, c));
      RenderAppend(done, m.chunks, indentWidth);
      done := done + m.chunks;
    }
    if c.start > |msg| {
      return None;
    }
    RenderOne(Text(msg[c.start..]), indentWidth);
    RenderAppend(done, [Text(msg[c.start..])], indentWidth);
    r := Some(result + msg[c.start..]);
  }

  // ---------------------------------------------------------------------------
  // Properties
  // ---------------------------------------------------------------------------

  /** The column of position i of msg: the number of characters since the last newline before it. */
  function Column(msg: string, i: int): nat
    requires 0 <= i <= |msg|
  {
    if i == 0 then 0 else if msg[i - 1] == '\n' then 0 else Column(msg, i - 1) + 1
  }

  /** Every line of msg, newlines aside, is at most maxWidth characters long. */
  ghost predicate LinesFit(msg: string, maxWidth: int)
  {
    forall i :: 0 <= i < |msg| && msg[i] != '\n' ==> Column(msg, i) < maxWidth
  }

  lemma {:induction false} FitsWalk(msg: string, indentWidth: int, maxWidth: int, asWritten: bool, c: Cursor)
    requires Ordered(c) && c.inPos <= |msg|
    requires LinesFit(msg, maxWidth) && c.tty == Column(msg, c.inPos)
    ensures Walk(msg, indentWidth, maxWidth, asWritten, c).Some?
    ensures Render(Walk(msg, indentWidth, maxWidth, asWritten, c).value, indentWidth) == msg[c.start..]
    decreases |msg| - c.inPos
  {
    if c.inPos < |msg| {
      if msg[c.inPos] == '\n' {
        var next := c.inPos + 1;
        var n := Cursor(next, next, if asWritten then next + 1 else next, 0);
        assert Column(msg, next) == 0;
        WalkNewline(msg, indentWidth, maxWidth, asWritten, c, n);
        FitsWalk(msg, indentWidth, maxWidth, asWritten, n);
        RenderOne(Text(msg[c.start..next]), indentWidth);
        RenderThen([Text(msg[c.start..next])], Walk(msg, indentWidth, maxWidth, asWritten, n), indentWidth);
        SliceJoin(msg, c.start, next);
      } else {
        assert c.tty < maxWidth && Column(msg, c.inPos + 1) == c.tty + 1;
        var n := Cursor(c.start, c.inPos + 1, if IsSpace(msg[c.inPos]) then c.inPos else c.lastBreak, c.tty + 1);
        WalkSkip(msg, indentWidth, maxWidth, asWritten, c, n);
        FitsWalk(msg, indentWidth, maxWidth, asWritten, n);
      }
    } else {
      RenderOne(Text(msg[c.start..]), indentWidth);
    }
  }

  lemma WalkSkip(msg: string, indentWidth: int, maxWidth: int, asWritten: bool, c: Cursor, n: Cursor)
    requires Ordered(c) && c.inPos < |msg| && msg[c.inPos] != '\n' && c.tty < maxWidth
    requires n == Cursor(c.start, c.inPos + 1, if IsSpace(msg[c.inPos]) then c.inPos else c.lastBreak, c.tty + 1)
    ensures Walk(msg, indentWidth, maxWidth, asWritten, c) == Walk(msg, indentWidth, maxWidth, asWritten, n)
  {
    assert Step(msg, indentWidth, maxWidth, asWritten, c) == Move([], n);
    ThenEmpty(Walk(msg, indentWidth, maxWidth, asWritten, n));
  }

  lemma WalkNewline(msg: string, indentWidth: int, maxWidth: int, asWritten: bool, c: Cursor, n: Cursor)
    requires Ordered(c) && c.inPos < |msg| && msg[c.inPos] == '\n'
    requires n == Cursor(c.inPos + 1, c.inPos + 1, if asWritten then c.inPos + 2 else c.inPos + 1, 0)
    ensures Walk(msg, indentWidth, maxWidth, asWritten, c) == Then([Text(msg[c.start..c.inPos + 1])], Walk(msg, indentWidth, maxWidth, asWritten, n))
  {
    assert Step(msg, indentWidth, maxWidth, asWritten, c) == Move([Text(msg[c.start..c.inPos + 1])], n);
  }

  /** A message whose lines all fit comes back unchanged. */
  lemma FitsUnchanged(msg: string, indentWidth: int, maxWidth: int, asWritten: bool)
    requires LinesFit(msg, maxWidth)
    ensures RenderOption(Plan(msg, indentWidth, maxWidth, asWritten), indentWidth) == Some(msg)
  {
    FitsWalk(msg, indentWidth, maxWidth, asWritten, Cursor(0, 0, 0, 0));
  }

  /**
   * The states the corrected loop reaches: the start is within the message,
   * and a last break position past the start is a blank of the current line.
   */
  predicate CorrectedState(msg: string, c: Cursor)
  {
    Ordered(c) && c.start <= |msg| && c.lastBreak <= c.inPos &&
    (c.start < c.lastBreak ==> 0 <= c.lastBreak < |msg| && IsSpace(msg[c.lastBreak]) && msg[c.lastBreak] != '\n')
  }

  /** A corrected step copies the message from the start to the new start, replacing at most one blank by a break. */
  lemma CorrectedStep(msg: string, indentWidth: int, maxWidth: int, c: Cursor)
    requires CorrectedState(msg, c) && c.inPos < |msg|
    ensures var m := Step(msg, indentWidth, maxWidth, false, c);
      CorrectedState(msg, m.next) && c.start <= m.next.start &&
      Original(m.chunks) == msg[c.start..m.next.start] && BlankBreaks(m.chunks)
  {
    var lb := if IsSpace(msg[c.inPos]) then c.inPos else c.lastBreak;
    if msg[c.inPos] == '\n' {
      var next := c.inPos + 1;
      assert Step(msg, indentWidth, maxWidth, false, c) == Move([Text(msg[c.start..next])], Cursor(next, next, next, 0));
      RenderOne(Text(msg[c.start..next]), indentWidth);
    } else if c.tty >= maxWidth && lb > c.start {
      CorrectedWrapAtBlank(msg, indentWidth, maxWidth, c, lb);
    } else if c.tty >= maxWidth {
      var here := Move([Text(msg[c.start..c.inPos]), Break([])], Cursor(c.inPos, c.inPos + 1, c.inPos, indentWidth + 1));
      assert Step(msg, indentWidth, maxWidth, false, c) == here;
      RenderTwo(here.chunks[0], here.chunks[1], indentWidth);
      assert here.chunks == [here.chunks[0], here.chunks[1]];
      assert msg[c.start..c.inPos] + [] == msg[c.start..c.inPos];
    }
  }

  lemma CorrectedWrapAtBlank(msg: string, indentWidth: int, maxWidth: int, c: Cursor, lb: int)
    requires CorrectedState(msg, c) && c.inPos < |msg| && msg[c.inPos] != '\n' && c.tty >= maxWidth
    requires lb == (if IsSpace(msg[c.inPos]) then c.inPos else c.lastBreak) && lb > c.start
    ensures var m := Step(msg, indentWidth, maxWidth, false, c);
      CorrectedState(msg, m.next) && c.start <= m.next.start &&
      Original(m.chunks) == msg[c.start..m.next.start] && BlankBreaks(m.chunks)
  {
    assert 0 <= lb < |msg| && IsSpace(msg[lb]) && msg[lb] != '\n';
    var here := Move([Text(msg[c.start..lb]), Break([msg[lb]])], Cursor(lb + 1, lb + 2, lb + 1, indentWidth + 1));
    assert Step(msg, indentWidth, maxWidth, false, c) == here;
    RenderTwo(here.chunks[0], here.chunks[1], indentWidth);
    assert here.chunks == [here.chunks[0], here.chunks[1]];
    assert msg[c.start..lb] + [msg[lb]] == msg[c.start..lb + 1];
  }

  lemma RenderFour(a: Chunk, b: Chunk, c: Chunk, d: Chunk, indentWidth: int)
    ensures Render([a, b, c, d], indentWidth)
      == ChunkText(a, indentWidth) + (ChunkText(b, indentWidth) + (ChunkText(c, indentWidth) + ChunkText(d, indentWidth)))
  {
    assert [a, b, c, d][1..] == [b, c, d];
    assert [b, c, d][1..] == [c, d];
    RenderTwo(c, d, indentWidth);
  }

  lemma RenderDropped()
    ensures Render([Text("\n"), Text("a"), Break("b"), Text("c")], 0) == "\na\nc"
  {
    RenderFour(Text("\n"), Text("a"), Break("b"), Text("c"), 0);
    assert ChunkText(Break("b"), 0) == "\n" by { assert Spaces(0) == []; }
    assert "\n" + ("a" + ("\n" + "c")) == "\na\nc";
  }

  lemma RenderKept()
    ensures Render([Text("\n"), Text("ab"), Break(""), Text("c")], 0) == "\nab\nc"
  {
    RenderFour(Text("\n"), Text("ab"), Break(""), Text("c"), 0);
    assert ChunkText(Break(""), 0) == "\n" by { assert Spaces(0) == []; }
    assert "\n" + ("ab" + ("\n" + "c")) == "\nab\nc";
  }

  lemma AsWrittenPlan(msg: string)
    requires msg == "\nabc"
    ensures Plan(msg, 0, 2, true) == Some([Text("\n"), Text("a"), Break("b"), Text("c")])
  {
    var tail := [Text("a"), Break("b"), Text("c")];
    assert Walk(msg, 0, 2, true, Cursor(1, 3, 2, 2)) == Some(tail) by {
      assert msg[3..] == "c" && msg[1..2] == "a";
      assert Walk(msg, 0, 2, true, Cursor(3, 4, 3, 1)) == Some([Text("c")]);
      assert Step(msg, 0, 2, true, Cursor(1, 3, 2, 2)) == Move([Text("a"), Break("b")], Cursor(3, 4, 3, 1));
      assert [Text("a"), Break("b")] + [Text("c")] == tail;
    }
    WalkSkip(msg, 0, 2, true, Cursor(1, 2, 2, 1), Cursor(1, 3, 2, 2));
    WalkSkip(msg, 0, 2, true, Cursor(1, 1, 2, 0), Cursor(1, 2, 2, 1));
    WalkNewline(msg, 0, 2, true, Cursor(0, 0, 0, 0), Cursor(1, 1, 2, 0));
    assert msg[0..1] == "\n";
    assert [Text("\n")] + tail == [Text("\n"), Text("a"), Break("b"), Text("c")];
  }

  /**
   * The source as written: after the newline of "\nabc", with width 2, the
   * wrap takes 'b' for the last blank of the line and drops it.
   */
  lemma AsWrittenDropsCharacter(msg: string)
    requires msg == "\nabc"
    ensures Plan(msg, 0, 2, true) == Some([Text("\n"), Text("a"), Break("b"), Text("c")])
    ensures !BlankBreaks(Plan(msg, 0, 2, true).value)
    ensures RenderOption(Plan(msg, 0, 2, true), 0) == Some("\na\nc")
  {
    AsWrittenPlan(msg);
    var plan := [Text("\n"), Text("a"), Break("b"), Text("c")];
    assert !BlankBreak(plan[2]);
    RenderDropped();
  }

  lemma CorrectedPlan(msg: string)
    requires msg == "\nabc"
    ensures Plan(msg, 0, 2, false) == Some([Text("\n"), Text("ab"), Break(""), Text("c")])
  {
    var tail := [Text("ab"), Break(""), Text("c")];
    assert Walk(msg, 0, 2, false, Cursor(1, 3, 1, 2)) == Some(tail) by {
      assert msg[3..] == "c" && msg[1..3] == "ab";
      assert Walk(msg, 0, 2, false, Cursor(3, 4, 3, 1)) == Some([Text("c")]);
      assert Step(msg, 0, 2, false, Cursor(1, 3, 1, 2)) == Move([Text("ab"), Break("")], Cursor(3, 4, 3, 1));
      assert [Text("ab"), Break("")] + [Text("c")] == tail;
    }
    WalkSkip(msg, 0, 2, false, Cursor(1, 2, 1, 1), Cursor(1, 3, 1, 2));
    WalkSkip(msg, 0, 2, false, Cursor(1, 1, 1, 0), Cursor(1, 2, 1, 1));
    WalkNewline(msg, 0, 2, false, Cursor(0, 0, 0, 0), Cursor(1, 1, 1, 0));
    assert msg[0..1] == "\n";
    assert [Text("\n")] + tail == [Text("\n"), Text("ab"), Break(""), Text("c")];
  }

  /** The corrected wrap breaks "\nabc" before 'c' and keeps every character. */
  lemma CorrectedKeepsCharacter(msg: string)
    requires msg == "\nabc"
    ensures RenderOption(Plan(msg, 0, 2, false), 0) == Some("\nab\nc")
  {
    CorrectedPlan(msg);
    RenderKept();
  }

  /** As written, a newline followed by one character and a width of 0 makes the final substr run past the end. */
  lemma AsWrittenOutOfRange()
    ensures Plan("\na", 0, 0, true) == None
    ensures Plan("\na", 0, 0, false).Some?
  {
    assert Walk("\na", 0, 0, true, Cursor(1, 1, 2, 0)) == None;
    BreakLinesKeepsText("\na", 0, 0);
  }

  lemma {:induction false} CorrectedWalk(msg: string, indentWidth: int, maxWidth: int, c: Cursor)
    requires CorrectedState(msg, c)
    ensures Walk(msg, indentWidth, maxWidth, false, c).Some?
    ensures Original(Walk(msg, indentWidth, maxWidth, false, c).value) == msg[c.start..]
    ensures BlankBreaks(Walk(msg, indentWidth, maxWidth, false, c).value)
    decreases |msg| - c.start, |msg| - c.inPos
  {
    if c.inPos >= |msg| {
      RenderOne(Text(msg[c.start..]), indentWidth);
    } else {
      var m := Step(msg, indentWidth, maxWidth, false, c);
      CorrectedStep(msg, indentWidth, maxWidth, c);
      CorrectedWalk(msg, indentWidth, maxWidth, m.next);
      Joined(m.chunks, Walk(msg, indentWidth, maxWidth, false, m.next).value, msg, c.start, m.next.start);
    }
  }

  /** Gluing a step's chunks in front of the rest of the plan. */
  lemma Joined(step: seq<Chunk>, rest: seq<Chunk>, msg: string, start: int, next: int)
    requires 0 <= start <= next <= |msg|
    requires Original(step) == msg[start..next] && BlankBreaks(step)
    requires Original(rest) == msg[next..] && BlankBreaks(rest)
    ensures Original(step + rest) == msg[start..] && BlankBreaks(step + rest)
  {
    OriginalAppend(step, rest);
    SliceJoin(msg, start, next);
    forall k | 0 <= k < |step + rest| ensures BlankBreak((step + rest)[k]) {
      if k < |step| { assert (step + rest)[k] == step[k]; } else { assert (step + rest)[k] == rest[k - |step|]; }
    }
  }

  /**
   * The corrected wrap only turns blanks into line breaks: the message is the
   * plan's text with each break replaced by nothing or by one blank.
   */
  lemma BreakLinesKeepsText(msg: string, indentWidth: int, maxWidth: int)
    ensures Plan(msg, indentWidth, maxWidth, false).Some?
    ensures Original(Plan(msg, indentWidth, maxWidth, false).value) == msg
    ensures BlankBreaks(Plan(msg, indentWidth, maxWidth, false).value)
  {
    CorrectedWalk(msg, indentWidth, maxWidth, Cursor(0, 0, 0, 0));
  }
}
