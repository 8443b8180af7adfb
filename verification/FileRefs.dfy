/**
  File references of the manifest, their identity key, and the allowlists that make the key
  unambiguous (packages/hub/src/manifest.ts).
 */
module FileRefs {
  import opened Wrappers
  import JsMap

  /** `repo` and `revision` are the optional cross-repo fields; a value built by hand may hold only one. */
  datatype FileRef = FileRef(
    path: string,
    size: nat,
    sha256: string,
    repo: Option<string>,
    revision: Option<string>
  )

  datatype CrossRef = CrossRef(repo: string, revision: string)

  function CrossRefOf(ref: FileRef): Option<CrossRef> {
    if ref.repo.None? || ref.revision.None? then None
    else Some(CrossRef(ref.repo.value, ref.revision.value))
  }

  function FileRefKey(ref: FileRef): string {
    match CrossRefOf(ref)
    case None => ref.path
    case Some(cross) => cross.repo + "@" + cross.revision + "/" + ref.path
  }

  // ----- allowlists ---------------------------------------------------------------------------

  predicate IsDigit(c: char) { '0' <= c <= '9' }

  predicate IsLetter(c: char) { 'a' <= c <= 'z' || 'A' <= c <= 'Z' }

  predicate IsHexLower(c: char) { IsDigit(c) || 'a' <= c <= 'f' }

  predicate IsSegmentChar(c: char) { IsLetter(c) || IsDigit(c) || c in "._-" }

  function Split(s: string, sep: char): (parts: seq<string>)
    ensures |parts| >= 1
  {
    if s == "" then [""]
    else
      var rest := Split(s[1..], sep);
      if s[0] == sep then [""] + rest else [[s[0]] + rest[0]] + rest[1..]
  }

  predicate IsPathSegment(s: string) {
    s != "" && s[0] != '.' && forall i :: 0 <= i < |s| ==> IsSegmentChar(s[i])
  }

  predicate AllSegments(segments: seq<string>) {
    forall i :: 0 <= i < |segments| ==> IsPathSegment(segments[i])
  }

  predicate IsPath(path: string) {
    AllSegments(Split(path, '/'))
  }

  predicate IsRepoName(repo: string) {
    var segments := Split(repo, '/');
    |segments| == 2 && AllSegments(segments)
  }

  predicate IsCommitSha(s: string) {
    |s| == 40 && forall i :: 0 <= i < |s| ==> IsHexLower(s[i])
  }

  predicate IsSha256(s: string) {
    |s| == 64 && forall i :: 0 <= i < |s| ==> IsHexLower(s[i])
  }

  /** What parsing lets through: an allowlisted path, and the cross-repo fields together or not at all. */
  predicate ValidRef(ref: FileRef) {
    && IsPath(ref.path)
    && ref.repo.Some? == ref.revision.Some?
    && (ref.repo.Some? ==> IsRepoName(ref.repo.value) && IsCommitSha(ref.revision.value))
  }

  /** A segment starts at position i, or has started before the text if the text goes on from one. */
  predicate SegmentStarts(text: string, started: bool, i: nat)
    requires i < |text|
  {
    if i == 0 then !started else text[i - 1] == '/'
  }

  ghost predicate GoodStarts(text: string, started: bool) {
    forall i: nat {:trigger SegmentStarts(text, started, i)} ::
      i < |text| && SegmentStarts(text, started, i) ==> text[i] != '/' && text[i] != '.'
  }

  ghost predicate PathCharacters(text: string) {
    forall i :: 0 <= i < |text| ==> text[i] == '/' || IsLetter(text[i]) || IsDigit(text[i]) || text[i] in "._-"
  }

  /** Character by character: the allowed characters, and every segment is not empty and does not start with a dot. */
  ghost predicate Plain(text: string, started: bool) {
    PathCharacters(text) && GoodStarts(text, started) && (if text == "" then started else text[|text| - 1] != '/')
  }

  ghost predicate PlainSegments(segments: seq<string>, started: bool)
    requires segments != []
  {
    && (if started then forall i :: 0 <= i < |segments[0]| ==> IsSegmentChar(segments[0][i]) else IsPathSegment(segments[0]))
    && forall k :: 1 <= k < |segments| ==> IsPathSegment(segments[k])
  }

  /** A first character that may stand where it stands. */
  predicate GoodFirst(c: char, started: bool) {
    (c == '/' || IsSegmentChar(c)) && (!started ==> c != '/' && c != '.')
  }

  lemma PlainStep(text: string, started: bool)
    requires text != ""
    ensures Plain(text, started) <==> GoodFirst(text[0], started) && Plain(text[1..], text[0] != '/')
  {
    var tail := text[1..];
    assert forall i :: 0 <= i < |tail| ==> tail[i] == text[i + 1];
    if Plain(text, started) {
      assert SegmentStarts(text, started, 0) <==> !started;
      forall i: nat | i < |tail| && SegmentStarts(tail, text[0] != '/', i)
        ensures tail[i] != '/' && tail[i] != '.'
      {
        assert SegmentStarts(text, started, i + 1);
      }
    }
    if GoodFirst(text[0], started) && Plain(tail, text[0] != '/') {
      forall i: nat | i < |text| && SegmentStarts(text, started, i)
        ensures text[i] != '/' && text[i] != '.'
      {
        if i > 0 {
          assert SegmentStarts(tail, text[0] != '/', i - 1) && text[i] == tail[i - 1];
        }
      }
      forall i | 0 <= i < |text|
        ensures text[i] == '/' || IsLetter(text[i]) || IsDigit(text[i]) || text[i] in "._-"
      {
        if i > 0 {
          assert text[i] == tail[i - 1];
        }
      }
    }
  }

  lemma SlashStep(tails: seq<string>, started: bool)
    requires tails != []
    ensures PlainSegments([""] + tails, started) <==> started && PlainSegments(tails, false)
  {
    var all := [""] + tails;
    assert forall k :: 0 <= k < |tails| ==> all[k + 1] == tails[k];
    if started && PlainSegments(tails, false) {
      forall k | 1 <= k < |all|
        ensures IsPathSegment(all[k])
      {
        assert all[k] == tails[k - 1];
      }
    }
    if PlainSegments(all, started) {
      assert all[1] == tails[0];
    }
  }

  lemma CharacterStep(c: char, tails: seq<string>, started: bool)
    requires tails != [] && c != '/'
    ensures PlainSegments([[c] + tails[0]] + tails[1..], started) <==> GoodFirst(c, started) && PlainSegments(tails, true)
  {
    var first, all := [c] + tails[0], [[c] + tails[0]] + tails[1..];
    assert forall k :: 1 <= k < |tails| ==> all[k] == tails[k];
    assert forall i :: 0 <= i < |tails[0]| ==> first[i + 1] == tails[0][i];
    assert all[0] == first && first[0] == c;
  }

  lemma {:induction false} PlainIff(text: string, started: bool)
    ensures PlainSegments(Split(text, '/'), started) <==> Plain(text, started)
  {
    if text != "" {
      var tails := Split(text[1..], '/');
      PlainIff(text[1..], text[0] != '/');
      PlainStep(text, started);
      if text[0] == '/' {
        SlashStep(tails, started);
      } else {
        CharacterStep(text[0], tails, started);
      }
    }
  }

  /**
    What the path allowlist lets through: texts of letters, digits, dots, underscores, hyphens and slashes in
    which no segment is empty or starts with a dot.
   */
  lemma PathIff(path: string)
    ensures IsPath(path) <==> Plain(path, false)
  {
    var segments := Split(path, '/');
    PlainIff(path, false);
    assert AllSegments(segments) <==> PlainSegments(segments, false);
  }

  ghost predicate InSegment(c: char, parts: seq<string>) {
    exists k :: 0 <= k < |parts| && c in parts[k]
  }

  /** Every character of a string is the separator or belongs to one of its segments. */
  lemma {:induction false} SplitCovers(s: string, sep: char, i: nat)
    requires i < |s| && s[i] != sep
    ensures InSegment(s[i], Split(s, sep))
  {
    var rest := Split(s[1..], sep);
    var parts := Split(s, sep);
    if i == 0 {
      assert parts[0] == [s[0]] + rest[0];
      assert s[0] in parts[0];
    } else {
      assert s[1..][i - 1] == s[i];
      SplitCovers(s[1..], sep, i - 1);
      var k :| 0 <= k < |rest| && s[i] in rest[k];
      if s[0] == sep {
        assert parts[k + 1] == rest[k];
      } else if k == 0 {
        assert parts[0] == [s[0]] + rest[0];
      } else {
        assert parts[k] == rest[k];
      }
    }
  }

  /** A string whose segments are all allowlisted holds no `@`. */
  lemma NoAtSign(s: string)
    requires AllSegments(Split(s, '/'))
    ensures '@' !in s
  {
    var parts := Split(s, '/');
    forall i | 0 <= i < |s|
      ensures s[i] != '@'
    {
      if s[i] != '/' {
        SplitCovers(s, '/', i);
        var k :| 0 <= k < |parts| && s[i] in parts[k];
        var j :| 0 <= j < |parts[k]| && parts[k][j] == s[i];
        assert IsPathSegment(parts[k]);
      }
    }
  }

  function FirstAtSign(s: string): nat {
    if s == "" || s[0] == '@' then 0 else 1 + FirstAtSign(s[1..])
  }

  lemma {:induction false} FirstAtSignAfter(a: string, x: string)
    requires '@' !in a
    ensures FirstAtSign(a + "@" + x) == |a|
    ensures FirstAtSign(a) == |a|
  {
    if a != "" {
      assert (a + "@" + x)[1..] == a[1..] + "@" + x;
      FirstAtSignAfter(a[1..], x);
    }
  }

  /** The identity key determines repo, revision and path of every reference parsing lets through. */
  lemma KeyInjective(r1: FileRef, r2: FileRef)
    requires ValidRef(r1) && ValidRef(r2)
    ensures FileRefKey(r1) == FileRefKey(r2) <==>
            r1.path == r2.path && r1.repo == r2.repo && r1.revision == r2.revision
  {
    KeyShape(r1);
    KeyShape(r2);
    if FileRefKey(r1) == FileRefKey(r2) && r1.repo.Some? {
      var k1, k2 := FileRefKey(r1), FileRefKey(r2);
      var n := FirstAtSign(k1);
      assert k1[..n] == r1.repo.value && k2[..n] == r2.repo.value;
      assert k1[n + 1..n + 41] == r1.revision.value && k2[n + 1..n + 41] == r2.revision.value;
      assert k1[n + 42..] == r1.path && k2[n + 42..] == r2.path;
    }
  }

  /** The first `@` of a key ends the repo of a cross-repo reference; an own reference has none. */
  lemma KeyShape(r: FileRef)
    requires ValidRef(r)
    ensures r.repo.None? ==> FirstAtSign(FileRefKey(r)) == |FileRefKey(r)|
    ensures r.repo.Some? ==> FirstAtSign(FileRefKey(r)) == |r.repo.value| < |FileRefKey(r)|
  {
    NoAtSign(r.path);
    FirstAtSignAfter(r.path, "");
    if r.repo.Some? {
      NoAtSign(r.repo.value);
      FirstAtSignAfter(r.repo.value, r.revision.value + "/" + r.path);
      assert FileRefKey(r) == r.repo.value + "@" + (r.revision.value + "/" + r.path);
    }
  }

  /** Without the allowlists the key is ambiguous: an own path can spell a cross-repo key. */
  lemma KeyAmbiguousWithoutAllowlist()
    ensures var own := FileRef("o/n@r/p", 1, "", None, None);
            var cross := FileRef("p", 1, "", Some("o/n"), Some("r"));
            FileRefKey(own) == FileRefKey(cross) && own.path != cross.path && !IsPath(own.path)
  {
    var path := "o/n@r/p";
    assert path[3] == '@';
    if IsPath(path) {
      NoAtSign(path);
    }
  }

  // ----- deduplication ------------------------------------------------------------------------

  ghost predicate DistinctKeys(refs: seq<FileRef>) {
    forall i, j :: 0 <= i < j < |refs| ==> FileRefKey(refs[i]) != FileRefKey(refs[j])
  }

  function KeySet(refs: seq<FileRef>): (keys: set<string>)
    ensures forall i :: 0 <= i < |refs| ==> FileRefKey(refs[i]) in keys
    ensures forall k :: k in keys ==> exists i :: 0 <= i < |refs| && FileRefKey(refs[i]) == k
  {
    set i | 0 <= i < |refs| :: FileRefKey(refs[i])
  }

  /** The references whose key has not occurred before, in order. */
  function Unique(refs: seq<FileRef>): seq<FileRef> {
    if refs == [] then []
    else
      var before := refs[..|refs| - 1];
      if FileRefKey(refs[|refs| - 1]) in KeySet(before) then Unique(before)
      else Unique(before) + [refs[|refs| - 1]]
  }

  lemma {:induction false} UniqueProperties(refs: seq<FileRef>)
    ensures KeySet(Unique(refs)) == KeySet(refs)
    ensures DistinctKeys(Unique(refs))
    ensures forall r :: r in Unique(refs) ==> r in refs
  {
    if refs != [] {
      var before, last := refs[..|refs| - 1], refs[|refs| - 1];
      UniqueProperties(before);
      assert refs == before + [last];
      KeySetAppend(before, [last]);
      KeySetAppend(Unique(before), [last]);
      assert KeySet([last]) == {FileRefKey(last)} by {
        assert FileRefKey([last][0]) in KeySet([last]);
      }
    }
  }

  lemma KeySetAppend(a: seq<FileRef>, b: seq<FileRef>)
    ensures KeySet(a + b) == KeySet(a) + KeySet(b)
  {
    forall k | k in KeySet(a) + KeySet(b)
      ensures k in KeySet(a + b)
    {
      if k in KeySet(a) {
        var i :| 0 <= i < |a| && FileRefKey(a[i]) == k;
        assert (a + b)[i] == a[i];
      } else {
        var i :| 0 <= i < |b| && FileRefKey(b[i]) == k;
        assert (a + b)[|a| + i] == b[i];
      }
    }
  }

  /** `at` lists, in increasing order, positions of `refs` whose key is new there; `picked` are their values. */
  ghost predicate PicksFirstOccurrences(refs: seq<FileRef>, picked: seq<FileRef>, at: seq<nat>) {
    && |at| == |picked|
    && (forall k :: 0 <= k < |at| ==> at[k] < |refs| && picked[k] == refs[at[k]])
    && (forall k, l :: 0 <= k < l < |at| ==> at[k] < at[l])
    && (forall k :: 0 <= k < |at| ==> FirstOccurrence(refs, at[k]))
  }

  ghost predicate FirstOccurrence(refs: seq<FileRef>, n: nat) {
    n < |refs| && forall i :: 0 <= i < n ==> FileRefKey(refs[i]) != FileRefKey(refs[n])
  }

  lemma PicksExtend(before: seq<FileRef>, last: FileRef, picked: seq<FileRef>, at: seq<nat>)
    requires PicksFirstOccurrences(before, picked, at)
    ensures PicksFirstOccurrences(before + [last], picked, at)
    ensures FileRefKey(last) !in KeySet(before) ==>
              PicksFirstOccurrences(before + [last], picked + [last], at + [|before|])
  {
    var refs := before + [last];
    forall n | FirstOccurrence(before, n)
      ensures FirstOccurrence(refs, n)
    {
    }
    if FileRefKey(last) !in KeySet(before) {
      assert FirstOccurrence(refs, |before|);
    }
  }

  /** The order is kept: `Unique` picks the references at strictly increasing positions. */
  lemma {:induction false} UniqueKeepsOrder(refs: seq<FileRef>) returns (at: seq<nat>)
    ensures PicksFirstOccurrences(refs, Unique(refs), at)
  {
    if refs == [] {
      at := [];
    } else {
      var before, last := refs[..|refs| - 1], refs[|refs| - 1];
      at := UniqueKeepsOrder(before);
      PicksExtend(before, last, Unique(before), at);
      assert before + [last] == refs;
      if FileRefKey(last) !in KeySet(before) {
        at := at + [|before|];
      }
    }
  }

  function Values(m: JsMap.Map<string, FileRef>): seq<FileRef> {
    seq(|m|, i requires 0 <= i < |m| => m[i].1)
  }

  /** The references of a map filed under their own keys. */
  ghost predicate ByKey(unique: JsMap.Map<string, FileRef>) {
    JsMap.Distinct(unique) && forall i :: 0 <= i < |unique| ==> unique[i].0 == FileRefKey(unique[i].1)
  }

  lemma HeldKeys(unique: JsMap.Map<string, FileRef>, key: string)
    requires ByKey(unique)
    ensures JsMap.Has(unique, key) <==> key in KeySet(Values(unique))
  {
    JsMap.HasIff(unique, key);
    assert forall i :: 0 <= i < |unique| ==> Values(unique)[i] == unique[i].1;
  }

  lemma UniqueStep(refs: seq<FileRef>, n: nat, unique: JsMap.Map<string, FileRef>)
    requires n < |refs| && Values(unique) == Unique(refs[..n]) && ByKey(unique)
    ensures var key := FileRefKey(refs[n]);
            && (JsMap.Has(unique, key) ==> Values(unique) == Unique(refs[..n + 1]))
            && (!JsMap.Has(unique, key) ==>
                  var more := JsMap.Set(unique, key, refs[n]);
                  Values(more) == Unique(refs[..n + 1]) && ByKey(more))
  {
    var key := FileRefKey(refs[n]);
    assert refs[..n + 1][..n] == refs[..n];
    UniqueProperties(refs[..n]);
    HeldKeys(unique, key);
    if !JsMap.Has(unique, key) {
      assert Values(unique + [(key, refs[n])]) == Values(unique) + [refs[n]];
    }
  }

  /** The loop every surface shares: put a reference under its key unless the key is taken. */
  method UniqueRefs(refs: seq<FileRef>) returns (unique: JsMap.Map<string, FileRef>)
    ensures Values(unique) == Unique(refs) && ByKey(unique)
  {
    unique := [];
    for n := 0 to |refs|
      invariant Values(unique) == Unique(refs[..n]) && ByKey(unique)
    {
      var key := FileRefKey(refs[n]);
      UniqueStep(refs, n, unique);
      if !JsMap.Has(unique, key) {
        unique := JsMap.Set(unique, key, refs[n]);
      }
    }
    assert refs[..|refs|] == refs;
  }
}
