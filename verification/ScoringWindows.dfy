/**
  Sliding windows over a token list and the scores taken from them
  (tools/llm-baseline/scoring.py, tools/llm-baseline/run.py).

  A window [start, end) is scored from position start + scoreStart on.  The point of the
  construction is that every token but the first is scored exactly once.
 */
module ScoringWindows {

  datatype Window = Window(start: nat, end: nat, scoreStart: nat)

  datatype Outcome = Yielded(list: seq<Window>) | ValueError

  predicate ValidArguments(tokens: int, length: int, stride: int) {
    tokens >= 2 && length >= 2 && 1 <= stride < length
  }

  /** The scored ranges of `ws` are non-empty and cover [from, to) once, in order. */
  predicate Tiles(ws: seq<Window>, from: nat, to: nat) {
    if ws == [] then from == to
    else
      && ws[0].start + ws[0].scoreStart == from
      && from < ws[0].end
      && Tiles(ws[1..], ws[0].end, to)
  }

  /** Window k starts at k strides, is at most `length` long and looks back at least one token. */
  predicate Placed(ws: seq<Window>, tokens: int, length: int, stride: int) {
    forall k :: 0 <= k < |ws| ==>
      && ws[k].start == k * stride
      && ws[k].end == (if ws[k].start + length < tokens then ws[k].start + length else tokens)
      && ws[k].scoreStart >= 1
  }

  lemma {:induction false} TilesAppend(ws: seq<Window>, from: nat, mid: nat, w: Window)
    requires Tiles(ws, from, mid)
    requires w.start + w.scoreStart == mid < w.end
    ensures Tiles(ws + [w], from, w.end)
  {
    if ws == [] {
      assert ws + [w] == [w];
    } else {
      assert (ws + [w])[1..] == ws[1..] + [w];
      TilesAppend(ws[1..], ws[0].end, mid, w);
    }
  }

  method Windows(tokens: int, length: int, stride: int) returns (r: Outcome)
    ensures r.ValueError? <==> tokens < 2 || length < 2 || stride < 1 || stride >= length
    ensures r.Yielded? ==> Tiles(r.list, 1, tokens) && Placed(r.list, tokens, length, stride)
    ensures r.Yielded? ==> r.list != [] && r.list[|r.list| - 1].end == tokens
  {
    if tokens < 2 || length < 2 || !(1 <= stride < length) {
      return ValueError;
    }
    var previous, start := 1, 0;
    var list: seq<Window> := [];
    while start < tokens - 1
      invariant start == |list| * stride
      invariant previous == if list == [] then 1 else start - stride + length
      invariant 1 <= previous < tokens
      invariant Tiles(list, 1, previous) && Placed(list, tokens, length, stride)
      decreases tokens - start
    {
      var end := if start + length < tokens then start + length else tokens;
      var scoreStart := if previous - start > 1 then previous - start else 1;
      if scoreStart >= end - start {
        assert false; // the window with nothing to predict
      }
      TilesAppend(list, 1, previous, Window(start, end, scoreStart));
      list := list + [Window(start, end, scoreStart)];
      previous := end;
      if end == tokens {
        return Yielded(list);
      }
      start := start + stride;
    }
    assert false; // the last window ends at `tokens`
  }

  /** Token `t` is scored by exactly one window. */
  lemma {:induction false} EachTokenScoredOnce(ws: seq<Window>, from: nat, to: nat, t: nat) returns (k: nat)
    requires Tiles(ws, from, to)
    requires from <= t < to
    ensures k < |ws| && ws[k].start + ws[k].scoreStart <= t < ws[k].end
    ensures forall j :: 0 <= j < |ws| && ws[j].start + ws[j].scoreStart <= t < ws[j].end ==> j == k
  {
    assert forall j :: 1 <= j < |ws| ==> ws[j] == ws[1..][j - 1];
    if t < ws[0].end {
      k := 0;
      ScoredRangesStartAt(ws[1..], ws[0].end, to);
    } else {
      var k' := EachTokenScoredOnce(ws[1..], ws[0].end, to, t);
      k := k' + 1;
    }
  }

  lemma {:induction false} ScoredRangesStartAt(ws: seq<Window>, from: nat, to: nat)
    requires Tiles(ws, from, to)
    ensures from <= to
    ensures forall j :: 0 <= j < |ws| ==> from <= ws[j].start + ws[j].scoreStart < ws[j].end <= to
  {
    if ws != [] {
      ScoredRangesStartAt(ws[1..], ws[0].end, to);
      forall j | 0 <= j < |ws|
        ensures from <= ws[j].start + ws[j].scoreStart < ws[j].end <= to
      {
        if j > 0 {
          assert ws[j] == ws[1..][j - 1];
        }
      }
    }
  }

  /** The loss of position `p` of a window, as the language model computes it from the window alone. */
  type Loss<!T> = (seq<T>, nat) -> real

  /** One score per position from `scoreStart` on. */
  function TokenNll<T>(loss: Loss<T>, ids: seq<T>, scoreStart: nat): (r: seq<real>)
    requires 1 <= scoreStart < |ids|
    ensures |r| == |ids| - scoreStart
    ensures forall j :: 0 <= j < |r| ==> r[j] == loss(ids, scoreStart + j)
  {
    seq(|ids| - scoreStart, j requires 0 <= j => loss(ids, scoreStart + j))
  }

  /** `scores[u]` is the loss of token u + 1 inside the window whose scored range holds that token. */
  ghost predicate ScoresOf<T>(loss: Loss<T>, ids: seq<T>, ws: seq<Window>, scores: seq<real>) {
    forall u :: 0 <= u < |scores| ==>
      exists k :: 0 <= k < |ws| && ScoredBy(loss, ids, ws[k], u + 1, scores[u])
  }

  ghost predicate ScoredBy<T>(loss: Loss<T>, ids: seq<T>, w: Window, t: nat, score: real) {
    && w.start + w.scoreStart <= t < w.end <= |ids|
    && score == loss(ids[w.start..w.end], t - w.start)
  }

  /** The evaluation loop: the scores of all windows, concatenated, are one score per continuation token. */
  method ScoreAll<T>(loss: Loss<T>, ids: seq<T>, length: int, stride: int) returns (scores: seq<real>)
    requires ValidArguments(|ids|, length, stride)
    ensures |scores| == |ids| - 1
    ensures exists ws :: Tiles(ws, 1, |ids|) && Placed(ws, |ids|, length, stride) && ScoresOf(loss, ids, ws, scores)
  {
    var r := Windows(|ids|, length, stride);
    var ws := r.list;
    scores := [];
    var k := 0;
    ghost var next: nat := 1;
    while k < |ws|
      invariant 0 <= k <= |ws|
      invariant |scores| == next - 1
      invariant Tiles(ws[k..], next, |ids|)
      invariant ScoresOf(loss, ids, ws, scores)
    {
      var w := ws[k];
      ScoredRangesStartAt(ws[k..], next, |ids|);
      assert ws[k..][0] == w && ws[k..][1..] == ws[k + 1..];
      ghost var before := scores;
      scores := scores + TokenNll(loss, ids[w.start..w.end], w.scoreStart);
      forall u | 0 <= u < |scores|
        ensures exists j :: 0 <= j < |ws| && ScoredBy(loss, ids, ws[j], u + 1, scores[u])
      {
        if u < |before| {
          assert scores[u] == before[u];
        } else {
          assert ScoredBy(loss, ids, ws[k], u + 1, scores[u]);
        }
      }
      next := w.end;
      k := k + 1;
    }
    assert ws[k..] == [];
  }
}
