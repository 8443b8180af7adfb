/**
  What a skeleton's text says: its words, and the marks that stand for literals
  (tools/lang/code-skeleton.ts, `analyze`).
 */
module SkeletonText {
  import opened CommentScanner
  import opened CutLoop

  // ----- words --------------------------------------------------------------------------------

  /** The maximal runs of characters that are not white space. */
  function Words(text: string): (words: seq<string>)
    ensures text != "" && !IsSpace(text[|text| - 1]) ==> words != []
  {
    if text == "" then []
    else
      var before, last := text[..|text| - 1], text[|text| - 1];
      var words := Words(before);
      if IsSpace(last) then words
      else if before == "" || IsSpace(before[|before| - 1]) then words + [[last]]
      else words[..|words| - 1] + [words[|words| - 1] + [last]]
  }

  /** The words with one blank between two of them. */
  function Spaced(words: seq<string>): string {
    if words == [] then ""
    else if |words| == 1 then words[0]
    else Spaced(words[..|words| - 1]) + " " + words[|words| - 1]
  }

  predicate IsWord(word: string) {
    word != "" && forall i :: 0 <= i < |word| ==> !IsSpace(word[i])
  }

  predicate AreWords(words: seq<string>) {
    forall k :: 0 <= k < |words| ==> IsWord(words[k])
  }

  lemma {:induction false} WordsAreWords(text: string)
    ensures AreWords(Words(text))
    ensures Words(text) == [] && text != "" ==> IsSpace(text[0])
  {
    if text != "" {
      WordsAreWords(text[..|text| - 1]);
    }
  }

  /** The last word grows with the text. */
  lemma SpacedGrows(words: seq<string>, c: char)
    requires words != []
    ensures Spaced(words[..|words| - 1] + [words[|words| - 1] + [c]]) == Spaced(words) + [c]
  {
    var more := words[..|words| - 1] + [words[|words| - 1] + [c]];
    assert more[..|more| - 1] == words[..|words| - 1];
  }

  lemma SpacedAppend(words: seq<string>, word: string)
    requires words != []
    ensures Spaced(words + [word]) == Spaced(words) + " " + word
  {
    assert (words + [word])[..|words|] == words;
  }

  function BlankIf(blank: bool): string { if blank then " " else "" }

  /** Squeezing keeps the words, with one blank before them and one behind where the text has white space there. */
  ghost predicate Squeezed(text: string) {
    if text == "" then Squeeze(text) == ""
    else if Words(text) == [] then Squeeze(text) == " "
    else Squeeze(text) == BlankIf(IsSpace(text[0])) + Spaced(Words(text)) + BlankIf(IsSpace(text[|text| - 1]))
  }

  lemma {:induction false} SqueezeIsSpaced(text: string)
    ensures Squeezed(text)
  {
    if text != "" {
      var before, last := text[..|text| - 1], text[|text| - 1];
      SqueezeIsSpaced(before);
      WordsAreWords(before);
      if !IsSpace(last) {
          if before != "" && !IsSpace(before[|before| - 1]) {
          SqueezeWordOn(before, last);
        } else if Words(before) == [] {
          SqueezeFirstWord(before, last);
        } else {
          SqueezeNextWord(before, last);
        }
      }
    }
  }

  /** A character that is not white space, at the start or after white space, starts a word. */
  lemma StartsWord(before: string, last: char)
    requires !IsSpace(last) && (before != "" ==> IsSpace(before[|before| - 1]))
    ensures Squeeze(before + [last]) == Squeeze(before) + [last]
    ensures Words(before + [last]) == Words(before) + [[last]]
  {
    assert (before + [last])[..|before|] == before;
  }

  lemma SqueezeFirstWord(before: string, last: char)
    requires Squeezed(before) && !IsSpace(last) && (before != "" ==> IsSpace(before[|before| - 1]))
    requires Words(before) == [] && (before != "" ==> IsSpace(before[0]))
    ensures Squeezed(before + [last])
  {
    StartsWord(before, last);
    assert Words(before + [last]) == [[last]] && Spaced([[last]]) == [last];
  }

  lemma SqueezeNextWord(before: string, last: char)
    requires Squeezed(before) && !IsSpace(last) && before != "" && IsSpace(before[|before| - 1]) && Words(before) != []
    ensures Squeezed(before + [last])
  {
    StartsWord(before, last);
    SpacedAppend(Words(before), [last]);
    Regroup(BlankIf(IsSpace(before[0])), Spaced(Words(before)), " ", [last]);
    assert (before + [last])[0] == before[0];
  }

  lemma Regroup(a: string, b: string, c: string, d: string)
    ensures a + b + c + d == a + (b + c + d) + ""
  {
  }

  /** A character after a word goes on with it. */
  lemma SqueezeWordOn(before: string, last: char)
    requires Squeezed(before) && !IsSpace(last) && before != "" && !IsSpace(before[|before| - 1])
    ensures Squeezed(before + [last])
  {
    var text, words := before + [last], Words(before);
    assert text[..|text| - 1] == before && text[0] == before[0];
    SpacedGrows(words, last);
    assert Squeeze(before) == BlankIf(IsSpace(before[0])) + Spaced(words);
    assert Squeeze(text) == Squeeze(before) + [last] == BlankIf(IsSpace(before[0])) + (Spaced(words) + [last]);
  }

  lemma {:induction false} SpacedEdges(words: seq<string>)
    requires words != [] && AreWords(words)
    ensures Spaced(words) != "" && !IsSpace(Spaced(words)[0]) && !IsSpace(Spaced(words)[|Spaced(words)| - 1])
  {
    assert IsWord(words[|words| - 1]);
    if |words| > 1 {
      SpacedEdges(words[..|words| - 1]);
    }
  }

  lemma TrimBehind(body: string)
    requires body != "" && !IsSpace(body[0]) && !IsSpace(body[|body| - 1])
    ensures Trim(body) == body && Trim(body + " ") == body && Trim(" " + body) == body && Trim(" " + body + " ") == body
  {
    assert (body + " ")[..|body + " "| - 1] == body;
    assert (" " + body)[1..] == body && (" " + body + " ")[1..] == body + " ";
  }

  /** A collapsed text is the words of the text, one blank apart. */
  lemma CollapseIsSpaced(text: string)
    ensures Collapse(text) == Spaced(Words(text))
  {
    SqueezeIsSpaced(text);
    WordsAreWords(text);
    if Words(text) != [] {
      var body := Spaced(Words(text));
      SpacedEdges(Words(text));
      TrimBehind(body);
      assert Squeeze(text) == body || Squeeze(text) == body + " " || Squeeze(text) == " " + body
             || Squeeze(text) == " " + body + " ";
    } else {
      assert Trim(" ") == Trim("") == "";
    }
  }

  lemma WordGrows(text: string, last: char)
    requires text != "" && !IsSpace(text[|text| - 1]) && !IsSpace(last)
    ensures var words := Words(text);
            words != [] && Words(text + [last]) == words[..|words| - 1] + [words[|words| - 1] + [last]]
  {
    assert (text + [last])[..|text|] == text;
  }

  lemma LastWordGrows(text: string, word: string, last: char)
    requires word != "" && !IsSpace(word[|word| - 1]) && !IsSpace(last)
    requires Words(text + word) == Words(text) + [word]
    ensures Words(text + (word + [last])) == Words(text) + [word + [last]]
  {
    assert (text + word)[|text + word| - 1] == word[|word| - 1];
    WordGrows(text + word, last);
    assert text + (word + [last]) == text + word + [last];
    assert (Words(text) + [word])[..|Words(text)|] == Words(text);
  }

  /** A word at the start of the text, or after white space, is one more word. */
  lemma {:induction false} WordsGrow(text: string, word: string, n: nat)
    requires IsWord(word) && (text != "" ==> IsSpace(text[|text| - 1])) && 0 < n <= |word|
    ensures Words(text + word[..n]) == Words(text) + [word[..n]]
  {
    var before, last, more := word[..n - 1], word[n - 1], word[..n];
    if n == 1 {
      assert more == [last];
      StartsWord(text, last);
    } else {
      assert more == before + [last];
      assert before[n - 2] == word[n - 2];
      WordsGrow(text, word, n - 1);
      LastWordGrows(text, before, last);
    }
  }

  lemma BlankEndsWord(text: string)
    ensures Words(text + " ") == Words(text)
  {
    assert (text + " ")[..|text|] == text;
  }

  lemma {:induction false} WordsBack(words: seq<string>)
    requires AreWords(words)
    ensures Words(Spaced(words)) == words
  {
    if |words| == 1 {
      assert IsWord(words[0]) && words[0][..|words[0]|] == words[0] == "" + words[0];
      WordsGrow("", words[0], |words[0]|);
    } else if words != [] {
      var before, last := words[..|words| - 1], words[|words| - 1];
      assert IsWord(last) && words == before + [last];
      WordsBack(before);
      BlankEndsWord(Spaced(before));
      assert last[..|last|] == last;
      WordsGrow(Spaced(before) + " ", last, |last|);
    }
  }

  /** Two texts collapse to the same text exactly when they have the same words. */
  lemma CollapseIff(text1: string, text2: string)
    ensures Collapse(text1) == Collapse(text2) <==> Words(text1) == Words(text2)
  {
    CollapseIsSpaced(text1);
    CollapseIsSpaced(text2);
    WordsAreWords(text1);
    WordsAreWords(text2);
    WordsBack(Words(text1));
    WordsBack(Words(text2));
  }

  // ----- marks --------------------------------------------------------------------------------

  function Count(text: string, c: char): nat {
    if text == "" then 0 else Count(text[..|text| - 1], c) + (if text[|text| - 1] == c then 1 else 0)
  }

  lemma {:induction false} CountAppend(a: string, b: string, c: char)
    ensures Count(a + b, c) == Count(a, c) + Count(b, c)
  {
    if b == "" {
      assert a + b == a;
    } else {
      CountAppend(a, b[..|b| - 1], c);
      assert (a + b)[..|a + b| - 1] == a + b[..|b| - 1];
    }
  }

  lemma {:induction false} CountRepeat(c: char, n: nat, d: char)
    ensures Count(Repeat(c, n), d) == if c == d then n else 0
  {
    if n > 0 {
      CountRepeat(c, n - 1, d);
      CountAppend(Repeat(c, n - 1), [c], d);
    }
  }

  /** One for every separator at the first n positions that starts a literal. */
  ghost function Literals(cuts: multiset<Span>, starts: set<nat>, n: nat): nat {
    if n == 0 then 0
    else Literals(cuts, starts, n - 1) + (if n - 1 in starts then Separators(cuts, n - 1) else 0)
  }

  lemma SiteMarks(source: string, cuts: multiset<Span>, starts: set<nat>, p: nat)
    requires p <= |source|
    ensures Count(Site(source, cuts, starts, p), '\U{0001}') ==
            (if p in starts then Separators(cuts, p) else 0) +
            (if p < |source| && !Covered(cuts, p) && source[p] == '\U{0001}' then 1 else 0)
  {
    CoveredIff(cuts, p);
    CountRepeat(Separator(starts, p), Separators(cuts, p), '\U{0001}');
    if p < |source| {
      CountAppend(Blanks(cuts, starts, p), [source[p]], '\U{0001}');
    }
  }

  lemma KeptMarks(source: string, cuts: multiset<Span>, n: nat)
    requires n < |source|
    ensures Count(CutLoop.Kept(source, cuts, n + 1), '\U{0001}') ==
            Count(CutLoop.Kept(source, cuts, n), '\U{0001}') + (if !Covered(cuts, n) && source[n] == '\U{0001}' then 1 else 0)
  {
    CountAppend(CutLoop.Kept(source, cuts, n), [source[n]], '\U{0001}');
  }

  lemma NextMarks(sites: seq<string>, source: string, cuts: multiset<Span>, starts: set<nat>, n: nat)
    requires AreSites(sites, source, cuts, starts) && n < |source|
    ensures Count(Join(sites, 0, n + 1), '\U{0001}') == Count(Join(sites, 0, n), '\U{0001}') +
            (if n in starts then Separators(cuts, n) else 0) + (if !Covered(cuts, n) && source[n] == '\U{0001}' then 1 else 0)
  {
    var site := Site(source, cuts, starts, n);
    SiteMarks(source, cuts, starts, n);
    CountAppend(Join(sites, 0, n), site, '\U{0001}');
    assert Join(sites, 0, n + 1) == Join(sites, 0, n) + site;
  }

  lemma {:induction false} MarksUpTo(sites: seq<string>, source: string, cuts: multiset<Span>, starts: set<nat>, n: nat)
    requires AreSites(sites, source, cuts, starts) && n <= |source|
    ensures Count(Join(sites, 0, n), '\U{0001}') ==
            Literals(cuts, starts, n) + Count(CutLoop.Kept(source, cuts, n), '\U{0001}')
  {
    if n > 0 {
      MarksUpTo(sites, source, cuts, starts, n - 1);
      NextMarks(sites, source, cuts, starts, n - 1);
      KeptMarks(source, cuts, n - 1);
    }
  }

  /**
    A literal leaves U+0001 behind and every other cut leaves none: beside those of the source itself, the
    skeleton has one for each separator at the start of a literal.
   */
  lemma MarksAreLiterals(source: string, cuts: multiset<Span>, starts: set<nat>)
    ensures Count(Skeleton(source, cuts, starts), '\U{0001}') ==
            Literals(cuts, starts, |source| + 1) + Count(CutLoop.Kept(source, cuts, |source|), '\U{0001}')
  {
    var n := |source|;
    var sites := SkeletonSites(source, cuts, starts);
    MarksUpTo(sites, source, cuts, starts, n);
    assert sites[n] == Site(source, cuts, starts, n);
    SiteMarks(source, cuts, starts, n);
    CountAppend(Join(sites, 0, n), sites[n], '\U{0001}');
  }
}
