/** The text of a template literal without its comments (tools/lang/code-skeleton.ts). */
module TemplateText {
  import opened CommentScanner

  /** Of the first n characters, those that no span covers, in order. */
  ghost function Kept(text: string, offset: nat, spans: seq<Span>, n: nat): string
    requires n <= |text|
  {
    if n == 0 then ""
    else Kept(text, offset, spans, n - 1) + (if Covers(spans, offset + n - 1) then "" else [text[n - 1]])
  }

  lemma {:induction false} KeptRun(text: string, offset: nat, spans: seq<Span>, from: nat, to: nat)
    requires from <= to <= |text|
    requires forall q :: offset + from <= q < offset + to ==> !Covers(spans, q)
    ensures Kept(text, offset, spans, to) == Kept(text, offset, spans, from) + text[from..to]
  {
    if from < to {
      KeptRun(text, offset, spans, from, to - 1);
      assert text[from..to] == text[from..to - 1] + [text[to - 1]];
    } else {
      assert text[from..to] == "";
    }
  }

  lemma {:induction false} KeptGap(text: string, offset: nat, spans: seq<Span>, from: nat, to: nat)
    requires from <= to <= |text|
    requires forall q :: offset + from <= q < offset + to ==> Covers(spans, q)
    ensures Kept(text, offset, spans, to) == Kept(text, offset, spans, from)
  {
    if from < to {
      KeptGap(text, offset, spans, from, to - 1);
    }
  }

  /** What lies between two neighbouring spans is covered by none. */
  lemma BetweenSpans(spans: seq<Span>, low: nat, high: nat, k: nat)
    requires Ordered(spans, low, high) && k <= |spans|
    ensures forall q :: (if k == 0 then low else spans[k - 1].end) <= q < (if k == |spans| then high else spans[k].start)
              ==> !Covers(spans, q)
  {
    forall l | 0 <= l < |spans|
      ensures l < k ==> spans[l].end <= spans[k - 1].end
      ensures l >= k ==> spans[k].start <= spans[l].start
    {
      assert l < k - 1 ==> spans[l].end <= spans[k - 1].start;
      assert l > k ==> spans[k].end <= spans[l].start;
    }
  }

  /** Removing ordered, disjoint spans keeps exactly the characters none of them covers. */
  method WithoutSpans(text: string, offset: nat, spans: seq<Span>) returns (out: string)
    requires Ordered(spans, offset, offset + |text|)
    ensures out == Kept(text, offset, spans, |text|)
  {
    out := "";
    var cursor := 0;
    for k := 0 to |spans|
      invariant offset + cursor == (if k == 0 then offset else spans[k - 1].end)
      invariant cursor <= |text| && out == Kept(text, offset, spans, cursor)
    {
      var start, end := spans[k].start - offset, spans[k].end - offset;
      assert k > 0 ==> spans[k - 1].end <= spans[k].start;
      BetweenSpans(spans, offset, offset + |text|, k);
      KeptRun(text, offset, spans, cursor, start);
      KeptGap(text, offset, spans, start, end);
      out := out + text[cursor..start];
      cursor := end;
    }
    BetweenSpans(spans, offset, offset + |text|, |spans|);
    KeptRun(text, offset, spans, cursor, |text|);
    out := out + text[cursor..];
  }

  /** The characters that are not marked, in order. */
  function Unmarked(text: string, marks: seq<bool>): string
    requires |marks| == |text|
  {
    if text == "" then ""
    else Unmarked(text[..|text| - 1], marks[..|text| - 1]) + (if marks[|text| - 1] then "" else [text[|text| - 1]])
  }

  lemma {:induction false} KeptIsUnmarked(text: string, offset: nat, spans: seq<Span>, marks: seq<bool>, n: nat)
    requires n <= |text| == |marks| && CoverMarks(spans, offset, marks, |text|)
    ensures Kept(text, offset, spans, n) == Unmarked(text[..n], marks[..n])
  {
    if n > 0 {
      KeptIsUnmarked(text, offset, spans, marks, n - 1);
      assert text[..n][..n - 1] == text[..n - 1] && marks[..n][..n - 1] == marks[..n - 1];
    }
  }

  lemma {:induction false} UnmarkedAppend(t1: string, m1: seq<bool>, t2: string, m2: seq<bool>)
    requires |m1| == |t1| && |m2| == |t2|
    ensures Unmarked(t1 + t2, m1 + m2) == Unmarked(t1, m1) + Unmarked(t2, m2)
  {
    if t2 == "" {
      assert t1 + t2 == t1 && m1 + m2 == m1;
    } else {
      var n := |t2| - 1;
      UnmarkedAppend(t1, m1, t2[..n], m2[..n]);
      assert (t1 + t2)[..|t1| + n] == t1 + t2[..n] && (m1 + m2)[..|t1| + n] == m1 + m2[..n];
    }
  }

  lemma MarksLength(text: string, carry: Carry)
    ensures |Marks(text, carry)| == |text|
  {
    RunLength(text, 0, StartMode(text, carry));
  }

  /** The text of a template piece without its comments. */
  function CodeOf(text: string, carry: Carry): string {
    MarksLength(text, carry);
    Unmarked(text, Marks(text, carry))
  }

  /** The quasis of a template literal: the code of each, a comment carried from one into the next. */
  function CodeOfQuasis(quasis: seq<string>, carry: Carry): seq<string> {
    if quasis == [] then []
    else [CodeOf(quasis[0], carry)] + CodeOfQuasis(quasis[1..], EndCarry(quasis[0], carry))
  }

  /** What the quasi before n leaves open. */
  function CarryInto(quasis: seq<string>, n: nat): Carry
    requires n <= |quasis|
  {
    if n == 0 then NoCarry else EndCarry(quasis[n - 1], CarryInto(quasis, n - 1))
  }

  /** The comments found in quasi n, and its text without them. */
  ghost predicate QuasiDone(quasis: seq<string>, offsets: seq<nat>, n: nat, found: seq<Span>, part: string)
    requires n < |quasis| == |offsets|
  {
    && Ordered(found, offsets[n], offsets[n] + |quasis[n]|)
    && HasComments(quasis[n], offsets[n], found, CarryInto(quasis, n), CarryInto(quasis, n + 1))
    && part == Kept(quasis[n], offsets[n], found, |quasis[n]|)
  }

  function Concat(groups: seq<seq<Span>>): seq<Span> {
    if groups == [] then [] else Concat(groups[..|groups| - 1]) + groups[|groups| - 1]
  }

  /** The cuts are the comments of the quasis, one after the other, and the parts are what is left. */
  ghost predicate QuasisDone(quasis: seq<string>, offsets: seq<nat>, groups: seq<seq<Span>>, parts: seq<string>)
    requires |offsets| == |quasis|
  {
    && |groups| == |parts| <= |quasis|
    && (groups != [] ==>
          var n := |groups| - 1;
          QuasisDone(quasis, offsets, groups[..n], parts[..n]) && QuasiDone(quasis, offsets, n, groups[n], parts[n]))
  }

  lemma NextQuasi(quasis: seq<string>, offsets: seq<nat>, groups: seq<seq<Span>>, parts: seq<string>,
                  found: seq<Span>, part: string)
    requires |offsets| == |quasis| && QuasisDone(quasis, offsets, groups, parts) && |groups| < |quasis|
    requires QuasiDone(quasis, offsets, |groups|, found, part)
    ensures QuasisDone(quasis, offsets, groups + [found], parts + [part])
    ensures Concat(groups + [found]) == Concat(groups) + found
  {
    assert (groups + [found])[..|groups|] == groups && (parts + [part])[..|parts|] == parts;
  }

  lemma PartIsCode(text: string, offset: nat, spans: seq<Span>, carry: Carry)
    requires |Marks(text, carry)| == |text| && CoverMarks(spans, offset, Marks(text, carry), |text|)
    ensures Kept(text, offset, spans, |text|) == CodeOf(text, carry)
  {
    var marks := Marks(text, carry);
    KeptIsUnmarked(text, offset, spans, marks, |text|);
    assert text[..|text|] == text && marks[..|text|] == marks;
  }

  lemma NextCode(quasis: seq<string>, n: nat, parts: seq<string>, carry: Carry)
    requires n < |quasis|
    ensures parts + CodeOfQuasis(quasis[n..], carry) ==
            parts + [CodeOf(quasis[n], carry)] + CodeOfQuasis(quasis[n + 1..], EndCarry(quasis[n], carry))
  {
    assert quasis[n..][1..] == quasis[n + 1..];
  }

  /** One quasi: its comments, its text without them, and what it leaves open. */
  method TemplatePart(quasis: seq<string>, offsets: seq<nat>, n: nat, carry: Carry)
    returns (part: string, spans: seq<Span>, open: Carry)
    requires n < |quasis| == |offsets| && carry == CarryInto(quasis, n)
    ensures QuasiDone(quasis, offsets, n, spans, part)
    ensures part == CodeOf(quasis[n], carry) && open == CarryInto(quasis, n + 1)
  {
    spans, open := CommentSpans(quasis[n], offsets[n], carry);
    part := WithoutSpans(quasis[n], offsets[n], spans);
    PartIsCode(quasis[n], offsets[n], spans, carry);
  }

  /** The loop over the quasis of one template literal, in strings mode. */
  method TemplateParts(quasis: seq<string>, offsets: seq<nat>) returns (parts: seq<string>, cuts: seq<Span>)
    requires |offsets| == |quasis|
    ensures parts == CodeOfQuasis(quasis, NoCarry)
    ensures exists groups :: |groups| == |quasis| && cuts == Concat(groups) && QuasisDone(quasis, offsets, groups, parts)
  {
    parts, cuts := [], [];
    ghost var groups: seq<seq<Span>> := [];
    var carry := NoCarry;
    for n := 0 to |quasis|
      invariant parts + CodeOfQuasis(quasis[n..], carry) == CodeOfQuasis(quasis, NoCarry)
      invariant |groups| == n && carry == CarryInto(quasis, n)
      invariant cuts == Concat(groups) && QuasisDone(quasis, offsets, groups, parts)
    {
      var part, spans, open := TemplatePart(quasis, offsets, n, carry);
      NextCode(quasis, n, parts, carry);
      NextQuasi(quasis, offsets, groups, parts, spans, part);
      groups := groups + [spans];
      parts, cuts, carry := parts + [part], cuts + spans, open;
    }
    assert quasis[|quasis|..] == [];
  }

  function Join(parts: seq<string>): string {
    if parts == [] then "" else parts[0] + Join(parts[1..])
  }

  /** Every quasi may be scanned before the text after it. */
  ghost predicate CleanSeams(quasis: seq<string>, carry: Carry) {
    quasis != [] ==>
      && Joins(quasis[0], Join(quasis[1..]), carry)
      && CleanSeams(quasis[1..], EndCarry(quasis[0], carry))
  }

  /** Interpolations do not change what is code: the parts are the code of the text without them. */
  lemma {:induction false} QuasisScanAsOneText(quasis: seq<string>, carry: Carry)
    requires CleanSeams(quasis, carry)
    ensures Join(CodeOfQuasis(quasis, carry)) == CodeOf(Join(quasis), carry)
  {
    if quasis == [] {
      MarksLength("", carry);
    } else {
      var first, rest := quasis[0], Join(quasis[1..]);
      var open := EndCarry(first, carry);
      QuasisScanAsOneText(quasis[1..], open);
      ScanInPieces(first, rest, carry);
      MarksLength(first, carry);
      MarksLength(rest, open);
      UnmarkedAppend(first, Marks(first, carry), rest, Marks(rest, open));
      assert CodeOfQuasis(quasis, carry)[1..] == CodeOfQuasis(quasis[1..], open);
    }
  }
}
