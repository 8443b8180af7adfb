/**
  Comments inside template literals, and cutting them out (tools/lang/code-skeleton.ts).

  `CommentSpans` is the scanner's loop over whole spans.  The reference definition is an automaton that
  reads one character at a time: `Run` says which characters belong to a comment and in which mode the
  text ends.
 */
module CommentScanner {

  /** How a piece of template text ends. */
  datatype Carry = NoCarry | LineCarry | BlockCarry

  datatype Span = Span(start: nat, end: nat)

  predicate StartsWith(text: string, i: nat, c0: char, c1: char) {
    i + 1 < |text| && text[i] == c0 && text[i + 1] == c1
  }

  predicate OpensBlock(text: string, i: nat) { StartsWith(text, i, '/', '*') }

  predicate ClosesBlock(text: string, i: nat) { StartsWith(text, i, '*', '/') }

  /** Two slashes open a line comment, except as part of a scheme's `://` or of a longer run of slashes. */
  predicate OpensLine(text: string, i: nat) {
    StartsWith(text, i, '/', '/') && (i == 0 || (text[i - 1] != ':' && text[i - 1] != '/'))
  }

  // ----- the reference automaton --------------------------------------------------------------

  /** `OpenStar` and `CloseSlash` stand before the second character of a block's delimiter. */
  datatype Mode = Code | Line | Block | OpenStar | CloseSlash

  datatype Step = Step(marked: bool, next: Mode)

  function StepAt(text: string, i: nat, mode: Mode): Step
    requires i < |text|
  {
    match mode
    case Code =>
      if OpensBlock(text, i) then Step(true, OpenStar)
      else if OpensLine(text, i) then Step(true, Line)
      else Step(false, Code)
    case Line => if text[i] == '\n' then Step(false, Code) else Step(true, Line)
    case Block => if ClosesBlock(text, i) then Step(true, CloseSlash) else Step(true, Block)
    case OpenStar => Step(true, Block)
    case CloseSlash => Step(true, Code)
  }

  /** The marks of the characters from i on, and the mode at the end. */
  function Run(text: string, i: nat, mode: Mode): (seq<bool>, Mode)
    requires i <= |text|
    decreases |text| - i
  {
    if i == |text| then ([], mode)
    else
      var step := StepAt(text, i, mode);
      var (marks, end) := Run(text, i + 1, step.next);
      ([step.marked] + marks, end)
  }

  /** The scanner looks for a block before it continues a carried line comment. */
  function StartMode(text: string, carry: Carry): Mode {
    match carry
    case NoCarry => Code
    case BlockCarry => Block
    case LineCarry => if OpensBlock(text, 0) then Code else Line
  }

  function CarryOf(mode: Mode): Carry {
    match mode
    case Line => LineCarry
    case Block => BlockCarry
    case OpenStar => BlockCarry
    case _ => NoCarry
  }

  function Marks(text: string, carry: Carry): seq<bool> {
    Run(text, 0, StartMode(text, carry)).0
  }

  function EndCarry(text: string, carry: Carry): Carry {
    CarryOf(Run(text, 0, StartMode(text, carry)).1)
  }

  lemma {:induction false} RunLength(text: string, i: nat, mode: Mode)
    requires i <= |text|
    ensures |Run(text, i, mode).0| == |text| - i
    decreases |text| - i
  {
    if i < |text| {
      RunLength(text, i + 1, StepAt(text, i, mode).next);
    }
  }

  /** A delimiter is never cut by the end of the text. */
  ghost predicate Entered(text: string, i: nat, mode: Mode)
    requires i <= |text|
  {
    && (mode.OpenStar? ==> i < |text|)
    && (mode.CloseSlash? ==> i < |text|)
  }

  lemma {:induction false} EndsBetweenDelimiters(text: string, i: nat, mode: Mode)
    requires i <= |text| && Entered(text, i, mode)
    ensures var end := Run(text, i, mode).1; !end.OpenStar? && !end.CloseSlash?
    decreases |text| - i
  {
    if i < |text| {
      EndsBetweenDelimiters(text, i + 1, StepAt(text, i, mode).next);
    }
  }

  // ----- the scanner --------------------------------------------------------------------------

  function IndexOf(text: string, from: nat, c0: char, c1: char): (i: int)
    requires from <= |text|
    ensures i < 0 || from <= i < i + 1 < |text|
    ensures i >= 0 ==> StartsWith(text, i, c0, c1)
    ensures forall j :: from <= j < (if i < 0 then |text| else i) ==> !StartsWith(text, j, c0, c1)
    decreases |text| - from
  {
    if from == |text| then -1 else if StartsWith(text, from, c0, c1) then from else IndexOf(text, from + 1, c0, c1)
  }

  function IndexOfNewline(text: string, from: nat): (i: int)
    requires from <= |text|
    ensures i < 0 || (from <= i < |text| && text[i] == '\n')
    ensures forall j :: from <= j < (if i < 0 then |text| else i) ==> text[j] != '\n'
    decreases |text| - from
  {
    if from == |text| then -1 else if text[from] == '\n' then from else IndexOfNewline(text, from + 1)
  }

  /** The spans are in order, do not overlap and lie within [low, high]. */
  ghost predicate Ordered(spans: seq<Span>, low: nat, high: nat) {
    && (forall k :: 0 <= k < |spans| ==> low <= spans[k].start <= spans[k].end <= high)
    && (forall k, l :: 0 <= k < l < |spans| ==> spans[k].end <= spans[l].start)
  }

  ghost predicate Covers(spans: seq<Span>, p: nat) {
    exists k :: 0 <= k < |spans| && spans[k].start <= p < spans[k].end
  }

  /** Up to position i the spans cover exactly the marked characters. */
  ghost predicate CoverMarks(spans: seq<Span>, offset: nat, marks: seq<bool>, i: nat)
    requires i <= |marks|
  {
    forall p :: 0 <= p < i ==> (Covers(spans, offset + p) <==> marks[p])
  }

  function ModeOf(carry: Carry): Mode {
    match carry case NoCarry => Code case LineCarry => Line case BlockCarry => Block
  }

  /** Inside a block, everything is marked up to and including the close. */
  lemma {:induction false} BlockRuns(text: string, i: nat, end: nat, closed: bool)
    requires i <= end <= |text|
    requires closed ==> end >= i + 2 && ClosesBlock(text, end - 2)
    requires !closed ==> end == |text|
    requires forall j :: i <= j < (if closed then end - 2 else |text|) ==> !ClosesBlock(text, j)
    ensures Run(text, i, Block).0 == Ones(end - i) + Run(text, end, if closed then Code else Block).0
    ensures Run(text, i, Block).1 == Run(text, end, if closed then Code else Block).1
    decreases |text| - i
  {
    if closed && i == end - 2 {
      assert Run(text, i + 1, CloseSlash).0 == [true] + Run(text, end, Code).0;
      assert Ones(2) == [true, true];
    } else if i < |text| {
      BlockRuns(text, i + 1, end, closed);
      assert Ones(end - i) == [true] + Ones(end - i - 1);
    } else {
      assert Ones(0) == [];
    }
  }

  lemma {:induction false} LineRuns(text: string, i: nat, end: nat)
    requires i <= end <= |text|
    requires forall j :: i <= j < end ==> text[j] != '\n'
    ensures Run(text, i, Line).0 == Ones(end - i) + Run(text, end, Line).0
    ensures Run(text, i, Line).1 == Run(text, end, Line).1
    decreases end - i
  {
    if i < end {
      LineRuns(text, i + 1, end);
      assert Ones(end - i) == [true] + Ones(end - i - 1);
    } else {
      assert Ones(0) == [];
    }
  }

  function Ones(n: nat): seq<bool> { seq(n, _ => true) }

  /** A newline ends a line comment and is code. */
  lemma NewlineIsCode(text: string, i: nat)
    requires i < |text| && text[i] == '\n'
    ensures Run(text, i, Line) == Run(text, i, Code)
  {
    assert StepAt(text, i, Line) == StepAt(text, i, Code);
  }

  /** The mode the scanner's state stands for at position i. */
  function ScanMode(text: string, i: nat, open: Carry): Mode {
    if open.LineCarry? && OpensBlock(text, i) then Code else ModeOf(open)
  }

  /** The span the scanner finds at i, or None where it moves on by one character. */
  datatype Found = Nothing | Comment(end: nat, open: Carry)

  function FindSpan(text: string, i: nat, open: Carry): Found
    requires i < |text|
  {
    if open.BlockCarry? || OpensBlock(text, i) then
      var close := IndexOf(text, if open.BlockCarry? then i else i + 2, '*', '/');
      if close < 0 then Comment(|text|, BlockCarry) else Comment(close + 2, NoCarry)
    else if open.LineCarry? || OpensLine(text, i) then
      var newline := IndexOfNewline(text, i);
      if newline < 0 then Comment(|text|, LineCarry) else Comment(newline, NoCarry)
    else Nothing
  }

  /** From i to `end` the automaton marks everything and then stands in `after`. */
  ghost predicate MarksThrough(text: string, i: nat, mode: Mode, end: nat, after: Mode) {
    && i <= end <= |text|
    && Run(text, i, mode).0 == Ones(end - i) + Run(text, end, after).0
    && Run(text, i, mode).1 == Run(text, end, after).1
  }

  lemma BlockOpenerRuns(text: string, i: nat, end: nat, after: Mode)
    requires OpensBlock(text, i) && MarksThrough(text, i + 2, Block, end, after)
    ensures MarksThrough(text, i, Code, end, after)
  {
    var rest := Run(text, end, after).0;
    assert Run(text, i + 1, OpenStar).0 == [true] + (Ones(end - i - 2) + rest);
    assert Run(text, i, Code).0 == [true] + Run(text, i + 1, OpenStar).0;
    assert Ones(end - i) == [true] + ([true] + Ones(end - i - 2));
  }

  lemma LineOpenerRuns(text: string, i: nat, end: nat)
    requires OpensLine(text, i) && !OpensBlock(text, i) && MarksThrough(text, i + 1, Line, end, Line)
    ensures MarksThrough(text, i, Code, end, Line)
  {
    assert Ones(end - i) == [true] + Ones(end - i - 1);
  }

  /** Taking a span, the scanner skips exactly a run of characters the automaton marks. */
  lemma SpanIsMarkedRun(text: string, i: nat, open: Carry, end: nat, next: Carry)
    requires i < |text| && FindSpan(text, i, open) == Comment(end, next)
    ensures next.NoCarry? || end == |text|
    ensures end == i ==> open.LineCarry? && next.NoCarry?
    ensures MarksThrough(text, i, ScanMode(text, i, open), end, ModeOf(next))
  {
    if open.BlockCarry? {
      BlockRuns(text, i, end, next.NoCarry?);
    } else if OpensBlock(text, i) {
      BlockRuns(text, i + 2, end, next.NoCarry?);
      BlockOpenerRuns(text, i, end, ModeOf(next));
    } else {
      if next.NoCarry? {
        NewlineIsCode(text, end);
      }
      if open.LineCarry? {
        LineRuns(text, i, end);
      } else {
        LineRuns(text, i + 1, end);
        LineOpenerRuns(text, i, end);
      }
    }
  }

  // What the spans are, each by the characters it stands on.

  predicate SlashStar(text: string, i: nat) {
    i + 1 < |text| && text[i] == '/' && text[i + 1] == '*'
  }

  predicate StarSlash(text: string, i: nat) {
    i + 1 < |text| && text[i] == '*' && text[i + 1] == '/'
  }

  /** Two slashes at the start of the text, or after a character that is neither a colon nor a slash. */
  predicate SlashSlash(text: string, i: nat) {
    i + 1 < |text| && text[i] == '/' && text[i + 1] == '/' && (i > 0 ==> text[i - 1] != ':' && text[i - 1] != '/')
  }

  /** The first end of a block from `from` on ends at `end`. */
  ghost predicate BlockEndsAt(text: string, from: nat, end: nat) {
    from + 2 <= end <= |text| && StarSlash(text, end - 2) && forall j: nat :: from <= j < end - 2 ==> !StarSlash(text, j)
  }

  /** No block ends from `from` on. */
  ghost predicate BlockStaysOpen(text: string, from: nat) {
    forall j: nat :: from <= j ==> !StarSlash(text, j)
  }

  /** [from, end) is what a line comment goes on with: all before the next newline, if there is one. */
  ghost predicate LineUpTo(text: string, from: nat, end: nat) {
    && from <= end <= |text| && (end < |text| ==> text[end] == '\n')
    && forall j: nat :: from <= j < end ==> text[j] != '\n'
  }

  /** Where the text of a block that starts here begins: after its opener, or at once if it goes on from before. */
  function BlockFrom(start: nat, open: Carry): nat { if open == BlockCarry then start else start + 2 }

  /**
    The text has a comment [start, end) and then stands in `next`.  `open` says what the text before this one
    ended in; it goes on at the start of the text only.
   */
  ghost predicate IsComment(text: string, start: nat, end: nat, open: Carry, next: Carry) {
    && (open != NoCarry ==> start == 0)
    && if open == BlockCarry || SlashStar(text, start) then
         var from := BlockFrom(start, open);
         || (BlockEndsAt(text, from, end) && next == NoCarry)
         || (BlockStaysOpen(text, from) && end == |text| && next == BlockCarry)
       else
         && (open == LineCarry || SlashSlash(text, start))
         && LineUpTo(text, start, end) && next == if end == |text| then LineCarry else NoCarry
  }

  lemma FoundIsComment(text: string, i: nat, open: Carry, end: nat, next: Carry)
    requires i < |text| && FindSpan(text, i, open) == Comment(end, next) && (open != NoCarry ==> i == 0)
    ensures i <= end && IsComment(text, i, end, open, next)
  {
    if open == BlockCarry || SlashStar(text, i) {
      forall j: nat | BlockFrom(i, open) <= j < (if next == NoCarry then end - 2 else |text|)
        ensures !StarSlash(text, j)
      {
        assert !StartsWith(text, j, '*', '/');
      }
    }
  }

  ghost predicate CommentAt(text: string, offset: nat, span: Span, open: Carry, next: Carry) {
    offset <= span.start <= span.end && IsComment(text, span.start - offset, span.end - offset, open, next)
  }

  /** Each span is a comment; `ends` says what the text stands in after each. */
  ghost predicate AreComments(text: string, offset: nat, spans: seq<Span>, ends: seq<Carry>, carry: Carry) {
    && |ends| == |spans|
    && forall k :: 0 <= k < |spans| ==> CommentAt(text, offset, spans[k], if k == 0 then carry else NoCarry, ends[k])
  }

  /** Up to position i nothing that would start a comment is left uncovered. */
  ghost predicate NoneMissed(text: string, offset: nat, spans: seq<Span>, i: nat) {
    forall p: nat :: p < i && (SlashStar(text, p) || SlashSlash(text, p)) ==> Covers(spans, offset + p)
  }

  /** What the first i characters have: these comments, no others, and after them `open`. */
  ghost predicate CommentsTo(text: string, offset: nat, spans: seq<Span>, ends: seq<Carry>, carry: Carry, i: nat, open: Carry) {
    && AreComments(text, offset, spans, ends, carry) && NoneMissed(text, offset, spans, i)
    && (if spans == [] then open == carry && (i > 0 ==> carry == NoCarry) else open == ends[|ends| - 1])
  }

  /** All comments of the text, and how it ends. */
  ghost predicate HasComments(text: string, offset: nat, spans: seq<Span>, carry: Carry, open: Carry) {
    exists ends :: CommentsTo(text, offset, spans, ends, carry, |text|, open)
  }

  lemma AddComment(text: string, offset: nat, spans: seq<Span>, ends: seq<Carry>, carry: Carry, span: Span, next: Carry)
    requires AreComments(text, offset, spans, ends, carry)
    requires CommentAt(text, offset, span, if spans == [] then carry else NoCarry, next)
    ensures AreComments(text, offset, spans + [span], ends + [next], carry)
  {
  }

  lemma AddCovered(text: string, offset: nat, spans: seq<Span>, i: nat, end: nat)
    requires NoneMissed(text, offset, spans, i) && i <= end
    ensures NoneMissed(text, offset, spans + [Span(offset + i, offset + end)], end)
  {
    var more := spans + [Span(offset + i, offset + end)];
    forall p: nat | p < end && (SlashStar(text, p) || SlashSlash(text, p))
      ensures Covers(more, offset + p)
    {
      if p < i {
        var k :| 0 <= k < |spans| && spans[k].start <= offset + p < spans[k].end;
        assert more[k] == spans[k];
      } else {
        assert more[|spans|] == Span(offset + i, offset + end);
      }
    }
  }

  /** Only the text before this one leaves a comment open where the scan goes on. */
  lemma OpenAtStart(text: string, offset: nat, spans: seq<Span>, ends: seq<Carry>, carry: Carry, i: nat, open: Carry)
    requires i < |text| && CommentsTo(text, offset, spans, ends, carry, i, open) && Ordered(spans, offset, offset + i)
    ensures open == if spans == [] then carry else NoCarry
    ensures open != NoCarry ==> i == 0
  {
    if spans != [] {
      var k := |spans| - 1;
      assert CommentAt(text, offset, spans[k], if k == 0 then carry else NoCarry, ends[k]);
    }
  }

  lemma NextComment(text: string, offset: nat, spans: seq<Span>, ends: seq<Carry>, carry: Carry, i: nat, open: Carry,
                    end: nat, next: Carry)
    requires i < |text| && i <= end && IsComment(text, i, end, open, next)
    requires CommentsTo(text, offset, spans, ends, carry, i, open) && open == if spans == [] then carry else NoCarry
    ensures CommentsTo(text, offset, spans + [Span(offset + i, offset + end)], ends + [next], carry, end, next)
  {
    AddComment(text, offset, spans, ends, carry, Span(offset + i, offset + end), next);
    AddCovered(text, offset, spans, i, end);
  }

  lemma NoComment(text: string, offset: nat, spans: seq<Span>, ends: seq<Carry>, carry: Carry, i: nat, open: Carry)
    requires i < |text| && FindSpan(text, i, open) == Nothing
    requires CommentsTo(text, offset, spans, ends, carry, i, open)
    ensures CommentsTo(text, offset, spans, ends, carry, i + 1, open)
  {
    assert !OpensBlock(text, i) && !OpensLine(text, i);
  }

  lemma AddSpan(spans: seq<Span>, offset: nat, marks: seq<bool>, i: nat, end: nat)
    requires i <= end <= |marks| && Ordered(spans, offset, offset + i) && CoverMarks(spans, offset, marks, i)
    requires forall p :: i <= p < end ==> marks[p]
    ensures Ordered(spans + [Span(offset + i, offset + end)], offset, offset + end)
    ensures CoverMarks(spans + [Span(offset + i, offset + end)], offset, marks, end)
  {
    var more := spans + [Span(offset + i, offset + end)];
    forall p | 0 <= p < end
      ensures Covers(more, offset + p) <==> marks[p]
    {
      if p < i {
        if Covers(spans, offset + p) {
          var k :| 0 <= k < |spans| && spans[k].start <= offset + p < spans[k].end;
          assert more[k] == spans[k];
        }
        if Covers(more, offset + p) {
          var k :| 0 <= k < |more| && more[k].start <= offset + p < more[k].end;
          assert more[k] == spans[k];
        }
      } else {
        assert more[|spans|] == Span(offset + i, offset + end);
      }
    }
  }

  lemma AddUnmarked(spans: seq<Span>, offset: nat, marks: seq<bool>, i: nat)
    requires i < |marks| && Ordered(spans, offset, offset + i) && CoverMarks(spans, offset, marks, i) && !marks[i]
    ensures Ordered(spans, offset, offset + i + 1) && CoverMarks(spans, offset, marks, i + 1)
  {
  }

  /**
    The scanner.  Its spans are in order, disjoint and within the text, and they are all comments of the text,
    each from where it starts to where it ends.  They cover exactly the characters the automaton marks, and
    it carries what the automaton ends in.
   */
  method CommentSpans(text: string, offset: nat, carry: Carry) returns (spans: seq<Span>, open: Carry)
    ensures Ordered(spans, offset, offset + |text|)
    ensures |Marks(text, carry)| == |text| && CoverMarks(spans, offset, Marks(text, carry), |text|)
    ensures open == EndCarry(text, carry)
    ensures HasComments(text, offset, spans, carry, open)
  {
    ghost var ends: seq<Carry> := [];
    ghost var marks := Marks(text, carry);
    ghost var last := Run(text, 0, StartMode(text, carry)).1;
    spans := [];
    open := carry;
    var i := 0;
    StartsScanning(text, offset, carry);
    while i < |text|
      invariant 0 <= i <= |text| && (open.NoCarry? || i == 0 || i == |text|)
      invariant Scanning(text, offset, spans, ends, carry, i, open, marks, last)
      decreases |text| - i, if open.NoCarry? then 0 else 1
    {
      if open.BlockCarry? || OpensBlock(text, i) {
        var close := IndexOf(text, if open.BlockCarry? then i else i + 2, '*', '/');
        var end := if close < 0 then |text| else close + 2;
        var next := if close < 0 then BlockCarry else NoCarry;
        assert FindSpan(text, i, open) == Comment(end, next);
        TakeSpan(text, offset, spans, ends, carry, i, open, end, next, marks, last);
        ends := ends + [next];
        spans := spans + [Span(offset + i, offset + end)];
        i, open := end, next;
      } else if open.LineCarry? || OpensLine(text, i) {
        var newline := IndexOfNewline(text, i);
        var end := if newline < 0 then |text| else newline;
        var next := if newline < 0 then LineCarry else NoCarry;
        assert FindSpan(text, i, open) == Comment(end, next);
        TakeSpan(text, offset, spans, ends, carry, i, open, end, next, marks, last);
        ends := ends + [next];
        spans := spans + [Span(offset + i, offset + end)];
        i, open := end, next;
      } else {
        assert FindSpan(text, i, open) == Nothing;
        MoveOn(text, offset, spans, ends, carry, i, open, marks, last);
        i := i + 1;
      }
    }
    EndsScanning(text, offset, spans, ends, carry, open, marks, last);
  }

  /** The spans so far are what is marked before i, and the automaton still has to do the rest. */
  ghost predicate Scanning(text: string, offset: nat, spans: seq<Span>, ends: seq<Carry>, carry: Carry, i: nat,
                           open: Carry, marks: seq<bool>, last: Mode) {
    && Remaining(text, i, open, marks, last)
    && Ordered(spans, offset, offset + i) && CoverMarks(spans, offset, marks, i)
    && CommentsTo(text, offset, spans, ends, carry, i, open)
  }

  lemma StartsScanning(text: string, offset: nat, carry: Carry)
    ensures Scanning(text, offset, [], [], carry, 0, carry, Marks(text, carry), Run(text, 0, StartMode(text, carry)).1)
  {
    RunLength(text, 0, StartMode(text, carry));
  }

  lemma EndsScanning(text: string, offset: nat, spans: seq<Span>, ends: seq<Carry>, carry: Carry, open: Carry,
                     marks: seq<bool>, last: Mode)
    requires Scanning(text, offset, spans, ends, carry, |text|, open, marks, last)
    ensures Ordered(spans, offset, offset + |text|) && |marks| == |text| && CoverMarks(spans, offset, marks, |text|)
    ensures open == CarryOf(last) && HasComments(text, offset, spans, carry, open)
  {
  }

  /** The marks from i on and the final mode are what the automaton still has to do there. */
  ghost predicate Remaining(text: string, i: nat, open: Carry, marks: seq<bool>, last: Mode) {
    && i <= |text| == |marks|
    && marks[i..] == Run(text, i, ScanMode(text, i, open)).0
    && last == Run(text, i, ScanMode(text, i, open)).1
  }

  lemma TakeSpan(text: string, offset: nat, spans: seq<Span>, ends: seq<Carry>, carry: Carry, i: nat, open: Carry,
                 end: nat, next: Carry, marks: seq<bool>, last: Mode)
    requires i < |text| && FindSpan(text, i, open) == Comment(end, next)
    requires Scanning(text, offset, spans, ends, carry, i, open, marks, last)
    ensures i <= end <= |text| && (next.NoCarry? || end == |text|)
    ensures end == i ==> open.LineCarry? && next.NoCarry?
    ensures Scanning(text, offset, spans + [Span(offset + i, offset + end)], ends + [next], carry, end, next, marks, last)
  {
    SpanIsMarkedRun(text, i, open, end, next);
    MarkedRun(marks, i, end, Run(text, end, ModeOf(next)).0);
    AddSpan(spans, offset, marks, i, end);
    OpenAtStart(text, offset, spans, ends, carry, i, open);
    FoundIsComment(text, i, open, end, next);
    NextComment(text, offset, spans, ends, carry, i, open, end, next);
  }

  lemma MoveOn(text: string, offset: nat, spans: seq<Span>, ends: seq<Carry>, carry: Carry, i: nat, open: Carry,
               marks: seq<bool>, last: Mode)
    requires i < |text| && FindSpan(text, i, open) == Nothing
    requires Scanning(text, offset, spans, ends, carry, i, open, marks, last)
    ensures open.NoCarry? && Scanning(text, offset, spans, ends, carry, i + 1, NoCarry, marks, last)
  {
    assert StepAt(text, i, Code) == Step(false, Code);
    MarkedStep(marks, i, Run(text, i + 1, Code).0);
    AddUnmarked(spans, offset, marks, i);
    NoComment(text, offset, spans, ends, carry, i, open);
  }

  lemma MarkedRun(marks: seq<bool>, i: nat, end: nat, rest: seq<bool>)
    requires i <= end && i <= |marks| && marks[i..] == Ones(end - i) + rest
    ensures end <= |marks| && marks[end..] == rest
    ensures forall p :: i <= p < end ==> marks[p]
  {
    assert |marks[i..]| == end - i + |rest|;
    assert marks[end..] == marks[i..][end - i..];
    forall p | i <= p < end
      ensures marks[p]
    {
      assert marks[p] == marks[i..][p - i];
    }
  }

  lemma MarkedStep(marks: seq<bool>, i: nat, rest: seq<bool>)
    requires i <= |marks| && marks[i..] == [false] + rest
    ensures i < |marks| && !marks[i] && marks[i + 1..] == rest
  {
    assert |marks[i..]| == 1 + |rest|;
    assert marks[i] == marks[i..][0];
    assert marks[i + 1..] == marks[i..][1..];
  }

  // ----- scanning in pieces -------------------------------------------------------------------

  /** Scanning t2 with the carry of t1 marks and carries what scanning t1 and t2 together does. */
  ghost predicate Agrees(t1: string, t2: string, carry: Carry) {
    && Marks(t1 + t2, carry) == Marks(t1, carry) + Marks(t2, EndCarry(t1, carry))
    && EndCarry(t1 + t2, carry) == EndCarry(t2, EndCarry(t1, carry))
  }

  /** The automaton's mode before position n. */
  function ModeBefore(text: string, start: Mode, n: nat): Mode
    requires n <= |text|
  {
    if n == 0 then start else StepAt(text, n - 1, ModeBefore(text, start, n - 1)).next
  }

  function FirstMarks(text: string, start: Mode, n: nat): seq<bool>
    requires n <= |text|
  {
    if n == 0 then [] else FirstMarks(text, start, n - 1) + [StepAt(text, n - 1, ModeBefore(text, start, n - 1)).marked]
  }

  lemma {:induction false} RunSplits(text: string, start: Mode, n: nat)
    requires n <= |text|
    ensures |FirstMarks(text, start, n)| == n
    ensures Run(text, 0, start).0 == FirstMarks(text, start, n) + Run(text, n, ModeBefore(text, start, n)).0
    ensures Run(text, 0, start).1 == Run(text, n, ModeBefore(text, start, n)).1
  {
    if n > 0 {
      RunSplits(text, start, n - 1);
      var mode := ModeBefore(text, start, n - 1);
      assert Run(text, n - 1, mode).0 == [StepAt(text, n - 1, mode).marked] + Run(text, n, StepAt(text, n - 1, mode).next).0;
    }
  }

  /** What follows does not matter to a character before the last one. */
  lemma {:induction false} SameBeforeLast(t1: string, t2: string, start: Mode, n: nat)
    requires n < |t1|
    ensures ModeBefore(t1 + t2, start, n) == ModeBefore(t1, start, n)
    ensures FirstMarks(t1 + t2, start, n) == FirstMarks(t1, start, n)
  {
    if n > 0 {
      SameBeforeLast(t1, t2, start, n - 1);
      var t := t1 + t2;
      assert t[n - 1] == t1[n - 1] && t[n] == t1[n] && (n > 1 ==> t[n - 2] == t1[n - 2]);
      assert StepAt(t, n - 1, ModeBefore(t, start, n - 1)) == StepAt(t1, n - 1, ModeBefore(t1, start, n - 1));
    }
  }

  function LastMode(t1: string, carry: Carry): Mode
    requires t1 != ""
  {
    ModeBefore(t1, StartMode(t1, carry), |t1| - 1)
  }

  function EndMode(t1: string, carry: Carry): Mode {
    ModeBefore(t1, StartMode(t1, carry), |t1|)
  }

  /**
    The scan of t1 ends where no continuation can change what it saw: not in a line comment, not in code
    after a slash or a colon, and not in a block after a star that could begin its end.
   */
  predicate Joinable(t1: string, carry: Carry) {
    t1 == "" ||
    match EndMode(t1, carry)
    case Line => false
    case Code => t1[|t1| - 1] !in "/:"
    case _ => !(t1[|t1| - 1] == '*' && LastMode(t1, carry).Block?)
  }

  lemma EndModeIsRun(t1: string, carry: Carry)
    ensures Marks(t1, carry) == FirstMarks(t1, StartMode(t1, carry), |t1|) && |Marks(t1, carry)| == |t1|
    ensures EndCarry(t1, carry) == CarryOf(EndMode(t1, carry))
    ensures !EndMode(t1, carry).OpenStar? && !EndMode(t1, carry).CloseSlash?
  {
    var m := StartMode(t1, carry);
    RunSplits(t1, m, |t1|);
    assert Run(t1, |t1|, EndMode(t1, carry)) == ([], EndMode(t1, carry));
    assert FirstMarks(t1, m, |t1|) + [] == FirstMarks(t1, m, |t1|);
    EndsBetweenDelimiters(t1, 0, m);
  }

  /** The whole text, read up to the last character of t1, is where the scan of t1 is. */
  lemma WholeAtLast(t1: string, t2: string, carry: Carry)
    requires t1 != "" && StartMode(t1 + t2, carry) == StartMode(t1, carry)
    ensures var t, m, n := t1 + t2, StartMode(t1, carry), |t1| - 1;
            && Marks(t, carry) == FirstMarks(t1, m, n) + Run(t, n, LastMode(t1, carry)).0
            && EndCarry(t, carry) == CarryOf(Run(t, n, LastMode(t1, carry)).1)
            && Marks(t1, carry) == FirstMarks(t1, m, n) + [StepAt(t1, n, LastMode(t1, carry)).marked]
            && EndMode(t1, carry) == StepAt(t1, n, LastMode(t1, carry)).next
            && |FirstMarks(t1, m, n)| == n
  {
    var m, n := StartMode(t1, carry), |t1| - 1;
    SameBeforeLast(t1, t2, m, n);
    RunSplits(t1 + t2, m, n);
    RunSplits(t1, m, n);
    EndModeIsRun(t1, carry);
  }

  /** A delimiter in progress before the last character is finished by it. */
  lemma LastModes(t1: string, carry: Carry)
    requires t1 != ""
    ensures LastMode(t1, carry).CloseSlash? ==> t1[|t1| - 1] == '/'
    ensures LastMode(t1, carry).OpenStar? ==> t1[|t1| - 1] == '*'
  {
    var m, n := StartMode(t1, carry), |t1| - 1;
    if n > 0 {
      assert LastMode(t1, carry) == StepAt(t1, n - 1, ModeBefore(t1, m, n - 1)).next;
    }
  }

  lemma StartsAlike(t1: string, t2: string, carry: Carry)
    requires t1 != "" && (t1 == "/" && carry.LineCarry? ==> t2 == "" || t2[0] != '*')
    ensures StartMode(t1 + t2, carry) == StartMode(t1, carry)
  {
    var t := t1 + t2;
    assert t[0] == t1[0] && (|t1| > 1 ==> t[1] == t1[1]);
    assert |t1| == 1 && t2 != "" ==> t[1] == t2[0];
    assert |t1| == 1 ==> t1 == [t1[0]];
  }

  lemma {:induction false} RestRuns(t1: string, t2: string, j: nat, mode: Mode)
    requires t1 != "" && j <= |t2|
    requires j == 0 && mode.Code? ==> t1[|t1| - 1] !in "/:"
    ensures Run(t1 + t2, |t1| + j, mode) == Run(t2, j, mode)
    decreases |t2| - j
  {
    if j < |t2| {
      var t := t1 + t2;
      assert t[|t1| + j] == t2[j] && (j + 1 < |t2| ==> t[|t1| + j + 1] == t2[j + 1]);
      assert j > 0 ==> t[|t1| + j - 1] == t2[j - 1];
      assert j == 0 ==> t[|t1| + j - 1] == t1[|t1| - 1];
      assert StepAt(t, |t1| + j, mode) == StepAt(t2, j, mode);
      RestRuns(t1, t2, j + 1, StepAt(t2, j, mode).next);
    }
  }

  /**
    t1 and t2 may be scanned one after the other: t1 is joinable to anything, or it ends in a line comment
    and no block opens where t2 starts.
   */
  predicate Joins(t1: string, t2: string, carry: Carry) {
    || Joinable(t1, carry)
    || (EndMode(t1, carry).Line? && !OpensBlock(t2, 0) && !(carry.LineCarry? && t1 == "/" && OpensBlock(t1 + t2, 0)))
  }

  /** Scanning two such pieces, the second with the carry of the first, gives what scanning them together gives. */
  lemma ScanInPieces(t1: string, t2: string, carry: Carry)
    requires Joins(t1, t2, carry)
    ensures Agrees(t1, t2, carry)
  {
    if t1 == "" {
      assert t1 + t2 == t2;
      EndModeIsRun(t1, carry);
      assert Marks(t1, carry) == [] && EndCarry(t1, carry) == carry;
    } else {
      var n, mode, t := |t1| - 1, LastMode(t1, carry), t1 + t2;
      EndModeIsRun(t1, carry);
      LastModes(t1, carry);
      var end := EndMode(t1, carry);
      StartsAlike(t1, t2, carry);
      WholeAtLast(t1, t2, carry);
      assert t[n] == t1[n] && (n > 0 ==> t[n - 1] == t1[n - 1]);
      assert StepAt(t, n, mode) == StepAt(t1, n, mode);
      assert StartMode(t2, CarryOf(end)) == end;
      RestRuns(t1, t2, 0, end);
      assert Run(t, n, mode).0 == [StepAt(t1, n, mode).marked] + Run(t2, 0, end).0;
      assert FirstMarks(t1, StartMode(t1, carry), n) + ([StepAt(t1, n, mode).marked] + Run(t2, 0, end).0)
             == Marks(t1, carry) + Run(t2, 0, end).0;
    }
  }

  /** A carried line comment is not closed by a block opener, but the next piece starts with the block. */
  lemma LineEndDisagrees(t1: string, carry: Carry)
    requires t1 != "" && EndMode(t1, carry).Line?
    ensures !Agrees(t1, "/*", carry)
  {
    var n, t := |t1| - 1, t1 + "/*";
    StartsAlike(t1, "/*", carry);
    EndModeIsRun(t1, carry);
    WholeAtLast(t1, "/*", carry);
    assert t[n] == t1[n] && t[n + 1] == '/' && t[n + 2] == '*';
    assert LastMode(t1, carry).Line?;
    assert Run(t, n + 3, Line).1 == Line;
    assert Run(t, n + 2, Line).1 == Line;
    assert Run(t, n + 1, Line).1 == Line;
    assert Run(t, n, Line).1 == Line;
    assert Run("/*", 1, OpenStar).1 == Run("/*", 2, Block).1 == Block;
  }

  /** Two slashes open a comment in the next piece, but not after a slash or a colon. */
  lemma CodeEndDisagrees(t1: string, carry: Carry)
    requires t1 != "" && EndMode(t1, carry).Code? && t1[|t1| - 1] in "/:"
    ensures !Agrees(t1, "//", carry)
  {
    var n, mode, t := |t1| - 1, LastMode(t1, carry), t1 + "//";
    StartsAlike(t1, "//", carry);
    EndModeIsRun(t1, carry);
    WholeAtLast(t1, "//", carry);
    assert t[n] == t1[n] && t[n + 1] == '/' && t[n + 2] == '/' && (n > 0 ==> t[n - 1] == t1[n - 1]);
    assert Run("//", 1, Line).1 == Run("//", 2, Line).1 == Line;
    assert EndCarry("//", NoCarry) == LineCarry;
    if mode.Code? && OpensLine(t, n) {
      assert Run(t, n, mode).0 == [true] + Run(t, n + 1, Line).0;
      assert Marks(t, carry)[n] && !Marks(t1, carry)[n];
    } else {
      assert StepAt(t, n, mode).next == Code;
      assert Run(t, n + 3, Code).1 == Code;
      assert Run(t, n + 2, Code).1 == Code;
      assert Run(t, n + 1, Code).1 == Code;
      assert Run(t, n, mode).1 == Code;
    }
  }

  /** A star and a slash end a block, but not when a seam parts them. */
  lemma BlockEndDisagrees(t1: string, carry: Carry)
    requires t1 != "" && EndMode(t1, carry).Block? && t1[|t1| - 1] == '*' && LastMode(t1, carry).Block?
    ensures !Agrees(t1, "/", carry)
  {
    var n, t := |t1| - 1, t1 + "/";
    assert !(t1 == "/" && carry.LineCarry?);
    StartsAlike(t1, "/", carry);
    EndModeIsRun(t1, carry);
    WholeAtLast(t1, "/", carry);
    assert t[n] == '*' && t[n + 1] == '/';
    assert Run(t, n, Block).1 == Run(t, n + 1, CloseSlash).1 == Run(t, n + 2, Code).1 == Code;
    assert Run("/", 0, Block).1 == Run("/", 1, Block).1 == Block;
  }

  /** The seams at which pieces may be scanned one after the other, whatever comes after them. */
  lemma SeamIff(t1: string, carry: Carry)
    ensures (forall t2: string :: Agrees(t1, t2, carry)) <==> Joinable(t1, carry)
  {
    if Joinable(t1, carry) {
      forall t2: string
        ensures Agrees(t1, t2, carry)
      {
        ScanInPieces(t1, t2, carry);
      }
    } else {
      EndModeIsRun(t1, carry);
      match EndMode(t1, carry)
      case Line => LineEndDisagrees(t1, carry);
      case Code => CodeEndDisagrees(t1, carry);
      case Block => BlockEndDisagrees(t1, carry);
    }
  }
}
