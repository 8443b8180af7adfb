/**
  The loop of `analyze` that cuts comments and literals out of a source text and leaves one character
  for each (tools/lang/code-skeleton.ts).
 */
module CutLoop {
  import opened CommentScanner

  /** Order of the cuts: by start, the longer one first at equal starts. */
  predicate Before(a: Span, b: Span) {
    a.start < b.start || (a.start == b.start && a.end >= b.end)
  }

  ghost predicate Sorted(cuts: seq<Span>) {
    forall i, j :: 0 <= i < j < |cuts| ==> Before(cuts[i], cuts[j])
  }

  function Insert(cut: Span, cuts: seq<Span>): (r: seq<Span>)
    ensures multiset(r) == multiset(cuts) + multiset{cut}
    ensures Sorted(cuts) ==> Sorted(r)
  {
    if cuts == [] then [cut]
    else
      var n := |cuts| - 1;
      assert cuts == cuts[..n] + [cuts[n]];
      if Before(cuts[n], cut) then cuts + [cut]
      else
        var r := Insert(cut, cuts[..n]) + [cuts[n]];
        InsertedBelow(cut, cuts, Insert(cut, cuts[..n]));
        r
  }

  lemma InsertedBelow(cut: Span, cuts: seq<Span>, low: seq<Span>)
    requires cuts != [] && !Before(cuts[|cuts| - 1], cut)
    requires multiset(low) == multiset(cuts[..|cuts| - 1]) + multiset{cut}
    requires Sorted(cuts[..|cuts| - 1]) ==> Sorted(low)
    ensures Sorted(cuts) ==> Sorted(low + [cuts[|cuts| - 1]])
  {
    var n := |cuts| - 1;
    if Sorted(cuts) {
      assert forall i, j :: 0 <= i < j < n ==> cuts[..n][i] == cuts[i] && cuts[..n][j] == cuts[j];
      forall i | 0 <= i < |low|
        ensures Before(low[i], cuts[n])
      {
        assert low[i] in multiset(low);
        if low[i] != cut {
          assert low[i] in cuts[..n];
        }
      }
    }
  }

  function SortCuts(cuts: seq<Span>): (r: seq<Span>)
    ensures Sorted(r) && multiset(r) == multiset(cuts)
  {
    if cuts == [] then []
    else
      assert cuts == cuts[..|cuts| - 1] + [cuts[|cuts| - 1]];
      Insert(cuts[|cuts| - 1], SortCuts(cuts[..|cuts| - 1]))
  }

  /** Any two cuts are disjoint or nested. */
  predicate Apart(a: Span, b: Span) {
    a.end <= b.start || b.end <= a.start || (a.start <= b.start && b.end <= a.end) || (b.start <= a.start && a.end <= b.end)
  }

  ghost predicate Laminar(cuts: seq<Span>) {
    forall i, j :: 0 <= i < j < |cuts| ==> Apart(cuts[i], cuts[j])
  }

  ghost predicate Within(cuts: seq<Span>, n: nat) {
    forall i :: 0 <= i < |cuts| ==> cuts[i].start <= cuts[i].end <= n
  }

  // The result, one position at a time and without an order on the cuts.

  ghost predicate Inside(cuts: multiset<Span>, p: nat) {
    exists c :: c in cuts && c.start < p < c.end
  }

  ghost predicate Opens(cuts: multiset<Span>, p: nat) {
    exists c :: c in cuts && c.start == p < c.end
  }

  /** One separator where an outermost cut starts; empty cuts count one each, outside every other cut. */
  ghost function Separators(cuts: multiset<Span>, p: nat): nat {
    if Inside(cuts, p) then 0 else if Opens(cuts, p) then 1 else cuts[Span(p, p)]
  }

  const LITERAL_MARK: char := 1 as char

  function Separator(marks: set<nat>, p: nat): char {
    if p in marks then LITERAL_MARK else ' '
  }

  function Repeat(c: char, n: nat): string {
    if n == 0 then "" else Repeat(c, n - 1) + [c]
  }

  ghost function Blanks(cuts: multiset<Span>, marks: set<nat>, p: nat): string {
    Repeat(Separator(marks, p), Separators(cuts, p))
  }

  /** What position p leaves behind: the separators of the cuts at p, then its character unless it is cut. */
  ghost function Site(source: string, cuts: multiset<Span>, marks: set<nat>, p: nat): string {
    if p >= |source| || Inside(cuts, p) || Opens(cuts, p) then Blanks(cuts, marks, p)
    else Blanks(cuts, marks, p) + [source[p]]
  }

  ghost function Sites(source: string, cuts: multiset<Span>, marks: set<nat>): seq<string> {
    seq(|source| + 1, p requires 0 <= p => Site(source, cuts, marks, p))
  }

  /** The sites from i on and before j, put together. */
  function Join(sites: seq<string>, i: nat, j: nat): string
    requires i <= j <= |sites|
  {
    if i == j then "" else Join(sites, i, j - 1) + sites[j - 1]
  }

  /** The skeleton before white space is collapsed. */
  ghost function Skeleton(source: string, cuts: multiset<Span>, marks: set<nat>): string {
    Join(Sites(source, cuts, marks), 0, |source| + 1)
  }

  ghost predicate AreSites(sites: seq<string>, source: string, cuts: multiset<Span>, marks: set<nat>) {
    && |sites| == |source| + 1
    && forall p {:trigger Site(source, cuts, marks, p)} :: 0 <= p <= |source| ==> sites[p] == Site(source, cuts, marks, p)
  }

  lemma SkeletonSites(source: string, cuts: multiset<Span>, marks: set<nat>) returns (sites: seq<string>)
    ensures AreSites(sites, source, cuts, marks)
    ensures Skeleton(source, cuts, marks) == Join(sites, 0, |source| + 1)
  {
    sites := Sites(source, cuts, marks);
  }

  lemma {:induction false} JoinSplit(sites: seq<string>, i: nat, j: nat, k: nat)
    requires i <= j <= k <= |sites|
    ensures Join(sites, i, k) == Join(sites, i, j) + Join(sites, j, k)
  {
    if j < k {
      JoinSplit(sites, i, j, k - 1);
    }
  }

  /** A run of characters none of which is cut. */
  lemma {:induction false} JoinCopied(sites: seq<string>, i: nat, j: nat, lead: string, text: string)
    requires i < j < |sites| && j <= |text| && sites[i] == lead + [text[i]]
    requires forall p :: i < p < j ==> sites[p] == [text[p]]
    ensures Join(sites, i, j) == lead + text[i..j]
  {
    if i + 1 < j {
      JoinCopied(sites, i, j - 1, lead, text);
      assert text[i..j] == text[i..j - 1] + [text[j - 1]];
    } else {
      assert Join(sites, i, i) == "" && text[i..j] == [text[i]];
    }
  }

  /** A run of characters that are all cut by the cut that opens it. */
  lemma {:induction false} JoinCut(sites: seq<string>, i: nat, j: nat)
    requires i < j < |sites|
    requires forall p :: i < p < j ==> sites[p] == ""
    ensures Join(sites, i, j) == sites[i]
  {
    if i + 1 < j {
      JoinCut(sites, i, j - 1);
    } else {
      assert Join(sites, i, i) == "";
    }
  }

  ghost predicate SameRun(s1: seq<string>, i1: nat, j1: nat, s2: seq<string>, i2: nat, j2: nat) {
    && i1 <= j1 <= |s1| && i2 <= j2 <= |s2| && j1 - i1 == j2 - i2
    && forall p: nat :: p < j1 - i1 ==> SiteFrom(s1, i1, p) == SiteFrom(s2, i2, p)
  }

  lemma {:induction false} JoinSame(s1: seq<string>, i1: nat, j1: nat, s2: seq<string>, i2: nat, j2: nat)
    requires SameRun(s1, i1, j1, s2, i2, j2)
    ensures Join(s1, i1, j1) == Join(s2, i2, j2)
    decreases j1
  {
    if i1 < j1 {
      JoinSame(s1, i1, j1 - 1, s2, i2, j2 - 1);
      assert SiteFrom(s1, i1, j1 - 1 - i1) == SiteFrom(s2, i2, j2 - 1 - i2);
    }
  }

  function SiteFrom(sites: seq<string>, i: nat, p: nat): string
    requires i + p < |sites|
  {
    sites[i + p]
  }

  // ----- the loop -----------------------------------------------------------------------------

  /** How many of the first k cuts are empty and lie at p. */
  ghost function EmptyAt(cuts: seq<Span>, k: nat, p: nat): nat
    requires k <= |cuts|
  {
    if k == 0 then 0 else EmptyAt(cuts, k - 1, p) + (if cuts[k - 1] == Span(p, p) then 1 else 0)
  }

  lemma {:induction false} EmptyCount(cuts: seq<Span>, k: nat, p: nat)
    requires k <= |cuts|
    ensures EmptyAt(cuts, k, p) == multiset(cuts[..k])[Span(p, p)]
  {
    if k > 0 {
      EmptyCount(cuts, k - 1, p);
      assert cuts[..k] == cuts[..k - 1] + [cuts[k - 1]];
    }
  }

  lemma {:induction false} NoMoreEmpty(cuts: seq<Span>, k: nat, n: nat, p: nat)
    requires k <= n <= |cuts|
    requires forall j :: k <= j < n ==> cuts[j] != Span(p, p)
    ensures EmptyAt(cuts, k, p) == EmptyAt(cuts, n, p)
    decreases n - k
  {
    if k < n {
      NoMoreEmpty(cuts, k, n - 1, p);
    }
  }

  /** The cursor is the furthest end of the first k cuts. */
  ghost predicate Frontier(cuts: seq<Span>, k: nat, cursor: nat)
    requires k <= |cuts|
  {
    && (forall j :: 0 <= j < k ==> cuts[j].end <= cursor)
    && (forall j :: 0 <= j < k ==> cuts[j].start < cursor || cuts[j] == Span(cursor, cursor))
    && (cursor == 0 || exists j :: 0 <= j < k && cuts[j].end == cursor)
  }

  ghost predicate Ready(cuts: seq<Span>, n: nat) {
    Sorted(cuts) && Laminar(cuts) && Within(cuts, n)
  }

  /** Position p is covered by no cut, and the empty cuts there are those counted so far. */
  ghost predicate Clear(cuts: seq<Span>, k: nat, p: nat)
    requires k <= |cuts|
  {
    && !Inside(multiset(cuts), p) && !Opens(multiset(cuts), p)
    && Separators(multiset(cuts), p) == EmptyAt(cuts, k, p)
  }

  lemma ClearBetween(cuts: seq<Span>, k: nat, cursor: nat, p: nat)
    requires k <= |cuts| && Frontier(cuts, k, cursor)
    requires cursor <= p && forall j :: k <= j < |cuts| ==> cuts[j].start > p
    ensures Clear(cuts, k, p)
  {
    forall c | c in multiset(cuts)
      ensures !(c.start <= p < c.end)
    {
      var j :| 0 <= j < |cuts| && cuts[j] == c;
    }
    NoMoreEmpty(cuts, k, |cuts|, p);
    EmptyCount(cuts, |cuts|, p);
    assert cuts[..|cuts|] == cuts;
  }

  lemma NoneBeyond(cuts: seq<Span>, k: nat, cursor: nat, p: nat)
    requires k <= |cuts| && Frontier(cuts, k, cursor) && p > cursor
    ensures EmptyAt(cuts, k, p) == 0
  {
    NoMoreEmpty(cuts, 0, k, p);
  }

  /** The sites from the cursor to the next cut: the separators pending at the cursor, then the text. */
  lemma CopiedSites(sites: seq<string>, source: string, cuts: seq<Span>, marks: set<nat>, k: nat, cursor: nat, s: nat)
    requires AreSites(sites, source, multiset(cuts), marks) && k <= |cuts| && Frontier(cuts, k, cursor)
    requires cursor < s <= |source| && forall j :: k <= j < |cuts| ==> cuts[j].start >= s
    ensures Join(sites, cursor, s) ==
            Repeat(Separator(marks, cursor), EmptyAt(cuts, k, cursor)) + source[cursor..s]
  {
    var lead := Repeat(Separator(marks, cursor), EmptyAt(cuts, k, cursor));
    ClearBetween(cuts, k, cursor, cursor);
    assert Site(source, multiset(cuts), marks, cursor) == lead + [source[cursor]];
    forall p | cursor < p < s
      ensures sites[p] == [source[p]]
    {
      ClearBetween(cuts, k, cursor, p);
      NoneBeyond(cuts, k, cursor, p);
      assert Site(source, multiset(cuts), marks, p) == [source[p]];
    }
    JoinCopied(sites, cursor, s, lead, source);
  }

  /** The sites of a cut that is not empty: one separator. */
  lemma CutSites(sites: seq<string>, source: string, cuts: multiset<Span>, marks: set<nat>, start: nat, end: nat)
    requires AreSites(sites, source, cuts, marks)
    requires start < end <= |source| && Span(start, end) in cuts && !Inside(cuts, start)
    ensures Join(sites, start, end) == [Separator(marks, start)]
  {
    assert Repeat(Separator(marks, start), 1) == Repeat(Separator(marks, start), 0) + [Separator(marks, start)];
    assert Site(source, cuts, marks, start) == [Separator(marks, start)];
    forall p | start < p < end
      ensures sites[p] == ""
    {
      assert Site(source, cuts, marks, p) == "";
    }
    JoinCut(sites, start, end);
  }

  /** The text holds the sites before the cursor and the separators of the empty cuts at it. */
  ghost predicate Cutting(sites: seq<string>, cuts: seq<Span>, marks: set<nat>, k: nat, cursor: nat, text: string)
    requires k <= |cuts|
  {
    && cursor < |sites|
    && Frontier(cuts, k, cursor)
    && text == Join(sites, 0, cursor) + Repeat(Separator(marks, cursor), EmptyAt(cuts, k, cursor))
  }

  lemma CopyUpTo(sites: seq<string>, source: string, cuts: seq<Span>, marks: set<nat>, k: nat, cursor: nat, text: string,
                 s: nat)
    requires k <= |cuts| && cursor <= s <= |source| && forall j :: k <= j < |cuts| ==> cuts[j].start >= s
    requires AreSites(sites, source, multiset(cuts), marks) && Cutting(sites, cuts, marks, k, cursor, text)
    ensures text + source[cursor..s] ==
            Join(sites, 0, s) + Repeat(Separator(marks, s), EmptyAt(cuts, k, s))
  {
    if cursor < s {
      CopiedSites(sites, source, cuts, marks, k, cursor, s);
      NoneBeyond(cuts, k, cursor, s);
      JoinSplit(sites, 0, cursor, s);
    } else {
      assert source[cursor..s] == "";
    }
  }

  /** A cut that starts before the cursor lies inside a cut already applied. */
  lemma SkipNested(cuts: seq<Span>, n: nat, k: nat, cursor: nat)
    requires k < |cuts| && Ready(cuts, n) && Frontier(cuts, k, cursor)
    requires cuts[k].start < cursor
    ensures Frontier(cuts, k + 1, cursor) && EmptyAt(cuts, k + 1, cursor) == EmptyAt(cuts, k, cursor)
  {
    var j :| 0 <= j < k && cuts[j].end == cursor;
    assert Before(cuts[j], cuts[k]) && Apart(cuts[j], cuts[k]);
  }

  lemma FrontierNext(cuts: seq<Span>, k: nat, cursor: nat)
    requires k < |cuts| && Frontier(cuts, k, cursor) && cursor <= cuts[k].start <= cuts[k].end
    ensures Frontier(cuts, k + 1, cuts[k].end)
  {
    assert forall j :: 0 <= j < k ==> cuts[j].end <= cuts[k].end;
  }

  /** An applied cut that is not empty starts where nothing covers the text and no empty cut was counted. */
  lemma LongCutOpens(cuts: seq<Span>, k: nat, cursor: nat)
    requires k < |cuts| && Frontier(cuts, k, cursor) && Sorted(cuts)
    requires cursor <= cuts[k].start < cuts[k].end
    ensures !Inside(multiset(cuts), cuts[k].start)
    ensures EmptyAt(cuts, k, cuts[k].start) == 0 && EmptyAt(cuts, k + 1, cuts[k].end) == 0
  {
    var s := cuts[k].start;
    forall j | 0 <= j < |cuts|
      ensures j < k ==> cuts[j] != Span(s, s)
      ensures !(cuts[j].start < s < cuts[j].end)
    {
      assert j < k ==> Before(cuts[j], cuts[k]);
      assert j > k ==> Before(cuts[k], cuts[j]);
    }
    forall c | c in multiset(cuts)
      ensures !(c.start < s < c.end)
    {
      var j :| 0 <= j < |cuts| && cuts[j] == c;
    }
    NoMoreEmpty(cuts, 0, k, s);
    NoneBeyond(cuts, k, cursor, cuts[k].end);
  }

  lemma LongCutJoins(sites: seq<string>, source: string, cuts: seq<Span>, marks: set<nat>, k: nat)
    requires k < |cuts| && AreSites(sites, source, multiset(cuts), marks)
    requires cuts[k].start < cuts[k].end <= |source| && !Inside(multiset(cuts), cuts[k].start)
    ensures Join(sites, 0, cuts[k].end) == Join(sites, 0, cuts[k].start) + [Separator(marks, cuts[k].start)]
  {
    assert cuts[k] in multiset(cuts);
    CutSites(sites, source, multiset(cuts), marks, cuts[k].start, cuts[k].end);
    JoinSplit(sites, 0, cuts[k].start, cuts[k].end);
  }

  lemma ApplyCut(sites: seq<string>, source: string, cuts: seq<Span>, marks: set<nat>, k: nat, cursor: nat, text: string)
    requires k < |cuts| && Ready(cuts, |source|) && AreSites(sites, source, multiset(cuts), marks)
    requires Cutting(sites, cuts, marks, k, cursor, text) && cursor <= cuts[k].start
    ensures Cutting(sites, cuts, marks, k + 1, cuts[k].end,
                    text + source[cursor..cuts[k].start] + [Separator(marks, cuts[k].start)])
  {
    var s, e := cuts[k].start, cuts[k].end;
    assert forall j :: k < j < |cuts| ==> Before(cuts[k], cuts[j]);
    CopyUpTo(sites, source, cuts, marks, k, cursor, text, s);
    FrontierNext(cuts, k, cursor);
    if s < e {
      LongCutOpens(cuts, k, cursor);
      LongCutJoins(sites, source, cuts, marks, k);
      assert Repeat(Separator(marks, s), 0) == "" && Repeat(Separator(marks, e), 0) == "";
    } else {
      var n := EmptyAt(cuts, k, s);
      assert Repeat(Separator(marks, s), n + 1) == Repeat(Separator(marks, s), n) + [Separator(marks, s)];
    }
  }

  lemma CutEnd(sites: seq<string>, source: string, cuts: seq<Span>, marks: set<nat>, cursor: nat, text: string)
    requires AreSites(sites, source, multiset(cuts), marks) && Cutting(sites, cuts, marks, |cuts|, cursor, text)
    ensures text + source[cursor..] == Join(sites, 0, |source| + 1)
  {
    var n := |source|;
    CopyUpTo(sites, source, cuts, marks, |cuts|, cursor, text, n);
    ClearBetween(cuts, |cuts|, cursor, n);
    assert Site(source, multiset(cuts), marks, n) == Repeat(Separator(marks, n), EmptyAt(cuts, |cuts|, n));
    JoinSplit(sites, 0, n, n + 1);
    assert Join(sites, n, n) == "";
  }

  lemma CutBegin(sites: seq<string>, cuts: seq<Span>, marks: set<nat>)
    requires sites != []
    ensures Cutting(sites, cuts, marks, 0, 0, "")
  {
    assert Join(sites, 0, 0) == "" && Repeat(Separator(marks, 0), 0) == "";
  }

  lemma AppendKeeps(cuts: seq<Span>, last: Span, n: nat)
    requires Laminar(cuts) && Within(cuts, n) && last.start <= last.end <= n
    requires forall i :: 0 <= i < |cuts| ==> Apart(cuts[i], last)
    ensures Laminar(cuts + [last]) && Within(cuts + [last], n)
  {
  }

  lemma {:induction false} InsertKeeps(cut: Span, cuts: seq<Span>, n: nat)
    requires Laminar(cuts) && Within(cuts, n) && cut.start <= cut.end <= n
    requires forall i :: 0 <= i < |cuts| ==> Apart(cuts[i], cut)
    ensures Laminar(Insert(cut, cuts)) && Within(Insert(cut, cuts), n)
  {
    if cuts != [] {
      var low, last := cuts[..|cuts| - 1], cuts[|cuts| - 1];
      if Before(last, cut) {
        AppendKeeps(cuts, cut, n);
      } else {
        InsertKeeps(cut, low, n);
        AllApart(Insert(cut, low), low + [cut], last);
        AppendKeeps(Insert(cut, low), last, n);
      }
    }
  }

  /** A rearrangement of cuts apart from `last` is apart from it. */
  lemma AllApart(r: seq<Span>, cuts: seq<Span>, last: Span)
    requires multiset(r) == multiset(cuts) && forall i :: 0 <= i < |cuts| ==> Apart(cuts[i], last)
    ensures forall i :: 0 <= i < |r| ==> Apart(r[i], last)
  {
    forall i | 0 <= i < |r|
      ensures Apart(r[i], last)
    {
      assert r[i] in multiset(cuts);
      assert r[i] in cuts;
    }
  }

  lemma {:induction false} SortKeeps(cuts: seq<Span>, n: nat)
    requires Laminar(cuts) && Within(cuts, n)
    ensures Laminar(SortCuts(cuts)) && Within(SortCuts(cuts), n)
  {
    if cuts != [] {
      var low, last := cuts[..|cuts| - 1], cuts[|cuts| - 1];
      SortKeeps(low, n);
      AllApart(SortCuts(low), low, last);
      InsertKeeps(last, SortCuts(low), n);
    }
  }

  lemma SortReady(cuts: seq<Span>, n: nat)
    requires Laminar(cuts) && Within(cuts, n)
    ensures Ready(SortCuts(cuts), n) && multiset(SortCuts(cuts)) == multiset(cuts)
  {
    SortKeeps(cuts, n);
  }

  /** The loop over the sorted cuts. */
  method CutSorted(source: string, cuts: seq<Span>, marks: set<nat>, ghost sites: seq<string>) returns (text: string)
    requires Ready(cuts, |source|) && AreSites(sites, source, multiset(cuts), marks)
    ensures text == Join(sites, 0, |source| + 1)
  {
    text := "";
    var cursor: nat := 0;
    CutBegin(sites, cuts, marks);
    for k := 0 to |cuts|
      invariant Cutting(sites, cuts, marks, k, cursor, text)
    {
      var start, end := cuts[k].start, cuts[k].end;
      if start < cursor {
        SkipNested(cuts, |source|, k, cursor);
        continue;
      }
      ApplyCut(sites, source, cuts, marks, k, cursor, text);
      text := text + source[cursor..start] + [Separator(marks, start)];
      cursor := end;
    }
    CutEnd(sites, source, cuts, marks, cursor, text);
    text := text + source[cursor..];
  }

  /**
    Whatever the order the cuts were collected in, every maximal run of cut text becomes one separator
    per outermost cut and every character no cut covers is kept in its place.
   */
  method CutOut(source: string, collected: seq<Span>, marks: set<nat>) returns (text: string)
    requires Laminar(collected) && Within(collected, |source|)
    ensures text == Skeleton(source, multiset(collected), marks)
  {
    SortReady(collected, |source|);
    ghost var sites := SkeletonSites(source, multiset(collected), marks);
    text := CutSorted(source, SortCuts(collected), marks, sites);
  }

  // ----- changing what is cut -----------------------------------------------------------------

  /** [start, end) is an outermost cut. */
  ghost predicate Outermost(cuts: multiset<Span>, start: nat, end: nat) {
    && start < end && Span(start, end) in cuts
    && forall c :: c in cuts ==> c.end <= start || end <= c.start || (start <= c.start && c.end <= end)
  }

  /** How often the span [n + lo, n + hi) is cut. */
  ghost function CutCount(cuts: multiset<Span>, n: nat, lo: nat, hi: nat): nat {
    cuts[Span(n + lo, n + hi)]
  }

  ghost predicate SameLow(cuts1: multiset<Span>, cuts2: multiset<Span>, start: nat) {
    forall lo: nat, hi: nat :: lo < start && hi <= start ==> CutCount(cuts1, 0, lo, hi) == CutCount(cuts2, 0, lo, hi)
  }

  ghost predicate SameHigh(cuts1: multiset<Span>, n1: nat, cuts2: multiset<Span>, n2: nat) {
    forall lo: nat, hi: nat :: CutCount(cuts1, n1, lo, hi) == CutCount(cuts2, n2, lo, hi)
  }

  /** The cuts before `start` are the same, and those from n1 on are those from n2 on, moved. */
  ghost predicate SameAround(cuts1: multiset<Span>, n1: nat, cuts2: multiset<Span>, n2: nat, start: nat) {
    && Outermost(cuts1, start, n1) && Outermost(cuts2, start, n2)
    && SameLow(cuts1, cuts2, start) && SameHigh(cuts1, n1, cuts2, n2)
  }

  ghost predicate SameMarksAround(marks1: set<nat>, n1: nat, marks2: set<nat>, n2: nat, start: nat) {
    && (forall p: nat :: p <= start ==> Separator(marks1, p) == Separator(marks2, p))
    && (forall p: nat :: MarkAfter(marks1, n1, p) == MarkAfter(marks2, n2, p))
  }

  ghost function MarkAfter(marks: set<nat>, n: nat, p: nat): char { Separator(marks, n + p) }

  lemma SameBefore(cuts1: multiset<Span>, n1: nat, cuts2: multiset<Span>, start: nat, p: nat)
    requires SameLow(cuts1, cuts2, start) && Outermost(cuts1, start, n1) && p < start
    ensures Inside(cuts1, p) ==> Inside(cuts2, p)
    ensures Opens(cuts1, p) ==> Opens(cuts2, p)
    ensures cuts1[Span(p, p)] == cuts2[Span(p, p)]
  {
    assert CutCount(cuts1, 0, p, p) == CutCount(cuts2, 0, p, p);
    forall c | c in cuts1 && c.start <= p < c.end
      ensures c in cuts2
    {
      assert CutCount(cuts1, 0, c.start, c.end) == CutCount(cuts2, 0, c.start, c.end);
    }
  }

  lemma SameAfter(cuts1: multiset<Span>, n1: nat, cuts2: multiset<Span>, n2: nat, start: nat, p: nat)
    requires SameHigh(cuts1, n1, cuts2, n2) && Outermost(cuts1, start, n1)
    ensures Inside(cuts1, n1 + p) ==> Inside(cuts2, n2 + p)
    ensures Opens(cuts1, n1 + p) ==> Opens(cuts2, n2 + p)
    ensures cuts1[Span(n1 + p, n1 + p)] == cuts2[Span(n2 + p, n2 + p)]
  {
    assert CutCount(cuts1, n1, p, p) == CutCount(cuts2, n2, p, p);
    forall c | c in cuts1 && c.start <= n1 + p < c.end
      ensures c.start >= n1 && Span(c.start - n1 + n2, c.end - n1 + n2) in cuts2
    {
      assert CutCount(cuts1, n1, c.start - n1, c.end - n1) == CutCount(cuts2, n2, c.start - n1, c.end - n1);
    }
    if Inside(cuts1, n1 + p) {
      var c :| c in cuts1 && c.start < n1 + p < c.end;
      assert Span(c.start - n1 + n2, c.end - n1 + n2) in cuts2;
    }
    if Opens(cuts1, n1 + p) {
      var c :| c in cuts1 && c.start == n1 + p < c.end;
      assert Span(c.start - n1 + n2, c.end - n1 + n2) in cuts2;
    }
  }

  lemma SameSiteBefore(a: string, r1: string, cuts1: multiset<Span>, marks1: set<nat>, n1: nat,
                       r2: string, cuts2: multiset<Span>, marks2: set<nat>, n2: nat, p: nat)
    requires SameAround(cuts1, n1, cuts2, n2, |a|) && SameMarksAround(marks1, n1, marks2, n2, |a|) && p < |a|
    ensures Site(a + r1, cuts1, marks1, p) == Site(a + r2, cuts2, marks2, p)
  {
    SameBefore(cuts1, n1, cuts2, |a|, p);
    SameBefore(cuts2, n2, cuts1, |a|, p);
    assert (a + r1)[p] == a[p] == (a + r2)[p];
  }

  lemma SameBlanksAfter(cuts1: multiset<Span>, marks1: set<nat>, n1: nat,
                        cuts2: multiset<Span>, marks2: set<nat>, n2: nat, start: nat, p: nat)
    requires SameAround(cuts1, n1, cuts2, n2, start) && SameMarksAround(marks1, n1, marks2, n2, start)
    ensures Inside(cuts1, n1 + p) == Inside(cuts2, n2 + p) && Opens(cuts1, n1 + p) == Opens(cuts2, n2 + p)
    ensures Blanks(cuts1, marks1, n1 + p) == Blanks(cuts2, marks2, n2 + p)
  {
    SameAfter(cuts1, n1, cuts2, n2, start, p);
    SameAfter(cuts2, n2, cuts1, n1, start, p);
    assert MarkAfter(marks1, n1, p) == MarkAfter(marks2, n2, p);
  }

  lemma SameSiteAfter(l1: string, cuts1: multiset<Span>, marks1: set<nat>,
                      l2: string, cuts2: multiset<Span>, marks2: set<nat>, start: nat, b: string, p: nat)
    requires SameAround(cuts1, |l1|, cuts2, |l2|, start) && SameMarksAround(marks1, |l1|, marks2, |l2|, start)
    ensures Site(l1 + b, cuts1, marks1, |l1| + p) == Site(l2 + b, cuts2, marks2, |l2| + p)
  {
    SameBlanksAfter(cuts1, marks1, |l1|, cuts2, marks2, |l2|, start, p);
    assert p < |b| ==> (l1 + b)[|l1| + p] == b[p] == (l2 + b)[|l2| + p];
  }

  lemma OutermostSites(sites: seq<string>, source: string, cuts: multiset<Span>, marks: set<nat>, start: nat, end: nat)
    requires AreSites(sites, source, cuts, marks) && Outermost(cuts, start, end) && end <= |source|
    ensures Join(sites, start, end) == [Separator(marks, start)]
  {
    CutSites(sites, source, cuts, marks, start, end);
  }

  lemma SameHead(s1: seq<string>, s2: seq<string>, a: string, r1: string, r2: string, cuts1: multiset<Span>,
                 marks1: set<nat>, n1: nat, cuts2: multiset<Span>, marks2: set<nat>, n2: nat)
    requires AreSites(s1, a + r1, cuts1, marks1) && AreSites(s2, a + r2, cuts2, marks2)
    requires SameAround(cuts1, n1, cuts2, n2, |a|) && SameMarksAround(marks1, n1, marks2, n2, |a|)
    ensures Join(s1, 0, |a|) == Join(s2, 0, |a|)
  {
    forall p: nat | p < |a|
      ensures SiteFrom(s1, 0, p) == SiteFrom(s2, 0, p)
    {
      SameSiteBefore(a, r1, cuts1, marks1, n1, r2, cuts2, marks2, n2, p);
    }
    JoinSame(s1, 0, |a|, s2, 0, |a|);
  }

  lemma SameSiteFrom(s1: seq<string>, s2: seq<string>, l1: string, l2: string, b: string, cuts1: multiset<Span>,
                     marks1: set<nat>, cuts2: multiset<Span>, marks2: set<nat>, start: nat, p: nat)
    requires AreSites(s1, l1 + b, cuts1, marks1) && AreSites(s2, l2 + b, cuts2, marks2) && p <= |b|
    requires SameAround(cuts1, |l1|, cuts2, |l2|, start) && SameMarksAround(marks1, |l1|, marks2, |l2|, start)
    ensures |s1| == |l1| + |b| + 1 && |s2| == |l2| + |b| + 1
    ensures SiteFrom(s1, |l1|, p) == SiteFrom(s2, |l2|, p)
  {
    SameSiteAfter(l1, cuts1, marks1, l2, cuts2, marks2, start, b, p);
    assert |l1 + b| == |l1| + |b| && |l2 + b| == |l2| + |b|;
    assert s1[|l1| + p] == Site(l1 + b, cuts1, marks1, |l1| + p);
    assert s2[|l2| + p] == Site(l2 + b, cuts2, marks2, |l2| + p);
  }

  lemma SameRest(s1: seq<string>, s2: seq<string>, l1: string, l2: string, b: string, cuts1: multiset<Span>,
                 marks1: set<nat>, cuts2: multiset<Span>, marks2: set<nat>, start: nat)
    requires AreSites(s1, l1 + b, cuts1, marks1) && AreSites(s2, l2 + b, cuts2, marks2)
    requires SameAround(cuts1, |l1|, cuts2, |l2|, start) && SameMarksAround(marks1, |l1|, marks2, |l2|, start)
    ensures SameRun(s1, |l1|, |s1|, s2, |l2|, |s2|)
  {
    forall p: nat | p <= |b|
      ensures |s1| == |l1| + |b| + 1 && |s2| == |l2| + |b| + 1 && SiteFrom(s1, |l1|, p) == SiteFrom(s2, |l2|, p)
    {
      SameSiteFrom(s1, s2, l1, l2, b, cuts1, marks1, cuts2, marks2, start, p);
    }
  }

  lemma JoinThree(sites: seq<string>, i: nat, j: nat)
    requires i <= j <= |sites|
    ensures Join(sites, 0, |sites|) == Join(sites, 0, i) + Join(sites, i, j) + Join(sites, j, |sites|)
  {
    JoinSplit(sites, 0, i, j);
    JoinSplit(sites, 0, j, |sites|);
  }

  /**
    Rewriting what an outermost cut holds, with another length and with other cuts nested in it, leaves
    the skeleton as it was: a translated comment is not a change of code.
   */
  lemma EditInsideCut(a: string, x: string, y: string, b: string, cuts1: multiset<Span>, marks1: set<nat>,
                      cuts2: multiset<Span>, marks2: set<nat>)
    requires SameAround(cuts1, |a + x|, cuts2, |a + y|, |a|) && SameMarksAround(marks1, |a + x|, marks2, |a + y|, |a|)
    ensures Skeleton(a + x + b, cuts1, marks1) == Skeleton(a + y + b, cuts2, marks2)
  {
    var s1 := SkeletonSites(a + x + b, cuts1, marks1);
    var s2 := SkeletonSites(a + y + b, cuts2, marks2);
    assert a + x + b == a + (x + b) && a + y + b == a + (y + b);
    SameHead(s1, s2, a, x + b, y + b, cuts1, marks1, |a + x|, cuts2, marks2, |a + y|);
    SameRest(s1, s2, a + x, a + y, b, cuts1, marks1, cuts2, marks2, |a|);
    JoinSame(s1, |a + x|, |s1|, s2, |a + y|, |s2|);
    OutermostSites(s1, a + x + b, cuts1, marks1, |a|, |a + x|);
    OutermostSites(s2, a + y + b, cuts2, marks2, |a|, |a + y|);
    assert Separator(marks1, |a|) == Separator(marks2, |a|);
    JoinThree(s1, |a|, |a + x|);
    JoinThree(s2, |a|, |a + y|);
  }

  // ----- what equal skeletons mean ------------------------------------------------------------

  /** The white space of a JavaScript regular expression. */
  predicate IsSpace(c: char) {
    || '\t' <= c <= '\r' || c == ' ' || c == '\U{A0}' || c == '\U{1680}' || '\U{2000}' <= c <= '\U{200A}'
    || c == '\U{2028}' || c == '\U{2029}' || c == '\U{202F}' || c == '\U{205F}' || c == '\U{3000}' || c == '\U{FEFF}'
  }

  /** Every run of white space becomes one blank. */
  function Squeeze(text: string): string {
    if text == "" then ""
    else
      var before, last := text[..|text| - 1], text[|text| - 1];
      if !IsSpace(last) then Squeeze(before) + [last]
      else if before != "" && IsSpace(before[|before| - 1]) then Squeeze(before)
      else Squeeze(before) + " "
  }

  function Trim(text: string): string {
    if text != "" && IsSpace(text[0]) then Trim(text[1..])
    else if text != "" && IsSpace(text[|text| - 1]) then Trim(text[..|text| - 1])
    else text
  }

  function Collapse(text: string): string { Trim(Squeeze(text)) }

  function NonBlank(text: string): string {
    if text == "" then ""
    else NonBlank(text[..|text| - 1]) + (if IsSpace(text[|text| - 1]) then "" else [text[|text| - 1]])
  }

  lemma {:induction false} NonBlankAppend(a: string, b: string)
    ensures NonBlank(a + b) == NonBlank(a) + NonBlank(b)
  {
    if b == "" {
      assert a + b == a;
    } else {
      NonBlankAppend(a, b[..|b| - 1]);
      assert (a + b)[..|a + b| - 1] == a + b[..|b| - 1];
    }
  }

  lemma {:induction false} SqueezeKeeps(text: string)
    ensures NonBlank(Squeeze(text)) == NonBlank(text)
  {
    if text != "" {
      var before, last := text[..|text| - 1], text[|text| - 1];
      SqueezeKeeps(before);
      NonBlankAppend(Squeeze(before), [last]);
      NonBlankAppend(Squeeze(before), " ");
    }
  }

  lemma {:induction false} TrimKeeps(text: string)
    ensures NonBlank(Trim(text)) == NonBlank(text)
    decreases |text|
  {
    if text != "" && IsSpace(text[0]) {
      TrimKeeps(text[1..]);
      assert text == [text[0]] + text[1..];
      NonBlankAppend([text[0]], text[1..]);
    } else if text != "" && IsSpace(text[|text| - 1]) {
      TrimKeeps(text[..|text| - 1]);
    }
  }

  ghost predicate Covered(cuts: multiset<Span>, p: nat) {
    exists c :: c in cuts && c.start <= p < c.end
  }

  lemma CoveredIff(cuts: multiset<Span>, p: nat)
    ensures Covered(cuts, p) <==> Inside(cuts, p) || Opens(cuts, p)
  {
  }

  /** Of the first n characters those no cut covers, in order. */
  ghost function Kept(source: string, cuts: multiset<Span>, n: nat): string
    requires n <= |source|
  {
    if n == 0 then ""
    else if Covered(cuts, n - 1) then Kept(source, cuts, n - 1)
    else Kept(source, cuts, n - 1) + [source[n - 1]]
  }

  lemma {:induction false} BlanksAreBlank(n: nat)
    ensures NonBlank(Repeat(' ', n)) == ""
  {
    if n > 0 {
      BlanksAreBlank(n - 1);
    }
  }

  lemma NonBlankSite(source: string, cuts: multiset<Span>, p: nat)
    requires p <= |source|
    ensures NonBlank(Site(source, cuts, {}, p)) ==
            if p < |source| && !Inside(cuts, p) && !Opens(cuts, p) then NonBlank([source[p]]) else ""
  {
    BlanksAreBlank(Separators(cuts, p));
    if p < |source| {
      NonBlankAppend(Blanks(cuts, {}, p), [source[p]]);
    }
  }

  lemma {:induction false} NonBlankKept(sites: seq<string>, source: string, cuts: multiset<Span>, n: nat)
    requires AreSites(sites, source, cuts, {}) && n <= |source|
    ensures NonBlank(Join(sites, 0, n)) == NonBlank(Kept(source, cuts, n))
  {
    if n > 0 {
      NonBlankKept(sites, source, cuts, n - 1);
      assert sites[n - 1] == Site(source, cuts, {}, n - 1);
      NonBlankSite(source, cuts, n - 1);
      NonBlankAppend(Join(sites, 0, n - 1), sites[n - 1]);
      NonBlankAppend(Kept(source, cuts, n - 1), [source[n - 1]]);
      CoveredIff(cuts, n - 1);
    }
  }

  /** Cutting comments and collapsing white space loses no character of code and adds none. */
  lemma SkeletonKeepsCode(source: string, cuts: multiset<Span>)
    ensures NonBlank(Collapse(Skeleton(source, cuts, {}))) == NonBlank(Kept(source, cuts, |source|))
  {
    var n := |source|;
    var sites := SkeletonSites(source, cuts, {});
    SqueezeKeeps(Skeleton(source, cuts, {}));
    TrimKeeps(Squeeze(Skeleton(source, cuts, {})));
    NonBlankKept(sites, source, cuts, n);
    assert sites[n] == Site(source, cuts, {}, n);
    NonBlankSite(source, cuts, n);
    NonBlankAppend(Join(sites, 0, n), sites[n]);
  }

  /** Two versions with the same skeleton differ in cut text and white space only. */
  lemma EqualSkeletonsEqualCode(source1: string, cuts1: multiset<Span>, source2: string, cuts2: multiset<Span>)
    requires Collapse(Skeleton(source1, cuts1, {})) == Collapse(Skeleton(source2, cuts2, {}))
    ensures NonBlank(Kept(source1, cuts1, |source1|)) == NonBlank(Kept(source2, cuts2, |source2|))
  {
    SkeletonKeepsCode(source1, cuts1);
    SkeletonKeepsCode(source2, cuts2);
  }
}
