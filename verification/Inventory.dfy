/** Asking what is cached, and deleting one selection without breaking the others (packages/hub/src/inventory.ts). */
module Inventory {
  import opened Wrappers
  import opened FileRefs
  import opened ManifestParser
  import opened AcceptedManifests
  import opened Resolve
  import JsMap

  /** A (model, quant) pair of real names. */
  datatype Selection = Selection(model: string, quant: string)

  datatype Candidate = Candidate(selection: Selection, refs: seq<FileRef>)

  /**
    What the sources answer: which files of an origin can be read without the network, and which of the
    files to delete were deleted (None where there is no cache).
   */
  datatype Source = Source(has: (Option<CrossRef>, FileRef) -> bool, evict: Option<seq<FileRef> -> seq<FileRef>>)

  function LabelOf(selection: Selection): string {
    selection.model + "/" + selection.quant
  }

  // ----- selections ---------------------------------------------------------------------------

  function FullOptions(selection: Selection): ResolveOptions {
    ResolveOptions(Some(selection.model), Some(selection.quant), None)
  }

  function RefsOf(m: Manifest, options: ResolveOptions): Result<seq<FileRef>, Labels>
    requires Resolvable(m)
  {
    var selection :- ResolveSelection(m, options);
    Success(SelectionRefs(selection))
  }

  function Pairs(model: string, quants: JsMap.Map<string, Quant>, n: nat): seq<Selection>
    requires n <= |quants|
  {
    if n == 0 then [] else Pairs(model, quants, n - 1) + [Selection(model, quants[n - 1].0)]
  }

  /** Every (model, quant) pair of the first n models. */
  function AllSelections(m: Manifest, n: nat): seq<Selection>
    requires n <= |m.models|
  {
    if n == 0 then []
    else AllSelections(m, n - 1) + Pairs(m.models[n - 1].0, m.models[n - 1].1.quants, |m.models[n - 1].1.quants|)
  }

  /** The pair names a declared model and one of its quants. */
  ghost predicate Exists(m: Manifest, selection: Selection) {
    && JsMap.Has(m.models, selection.model)
    && JsMap.Has(JsMap.Get(m.models, selection.model).value.quants, selection.quant)
  }

  lemma ExistingResolves(m: Manifest, selection: Selection)
    requires Resolvable(m) && Exists(m, selection)
    ensures RefsOf(m, FullOptions(selection)).Success?
  {
  }

  lemma {:induction false} PairsExist(model: string, quants: JsMap.Map<string, Quant>, n: nat, selection: Selection)
    requires n <= |quants|
    ensures selection in Pairs(model, quants, n) <==> selection.model == model && selection.quant in Keys(quants)[..n]
  {
    if n > 0 {
      PairsExist(model, quants, n - 1, selection);
      assert Keys(quants)[..n] == Keys(quants)[..n - 1] + [quants[n - 1].0];
    }
  }

  lemma {:induction false} SelectionsExist(m: Manifest, n: nat, selection: Selection)
    requires n <= |m.models| && JsMap.Distinct(m.models)
    ensures selection in AllSelections(m, n) <==> Exists(m, selection) && JsMap.IndexOf(m.models, selection.model) < n
  {
    if n > 0 {
      SelectionsExist(m, n - 1, selection);
      var (model, entry) := m.models[n - 1];
      PairsExist(model, entry.quants, |entry.quants|, selection);
      assert Keys(entry.quants)[..|entry.quants|] == Keys(entry.quants);
      HasKey(entry.quants, selection.quant);
      JsMap.GetEntry(m.models, n - 1);
      var i := JsMap.IndexOf(m.models, selection.model);
      assert selection.model == model <==> i == n - 1;
    }
  }

  function FullRefs(m: Manifest): Selection -> Result<seq<FileRef>, Labels>
    requires Resolvable(m)
  {
    var lookup := (pair: Selection) requires Resolvable(m) => RefsOf(m, FullOptions(pair));
    assert forall pair: Selection :: lookup.requires(pair);
    lookup
  }

  /** The other selections with their files, those of the first n pairs. */
  function Others(lookup: Selection -> Result<seq<FileRef>, Labels>, pairs: seq<Selection>, n: nat, target: Selection)
    : seq<Candidate>
    requires n <= |pairs|
  {
    if n == 0 then []
    else
      var before := Others(lookup, pairs, n - 1, target);
      if pairs[n - 1] == target then before
      else
        match lookup(pairs[n - 1])
        case Success(refs) => before + [Candidate(pairs[n - 1], refs)]
        case Failure(_) => before
  }

  function AllOthers(m: Manifest, target: Selection): seq<Candidate>
    requires Resolvable(m)
  {
    var pairs := AllSelections(m, |m.models|);
    Others(FullRefs(m), pairs, |pairs|, target)
  }

  // ----- sets of files ------------------------------------------------------------------------

  /** Equal counts, and the second list inside the first. */
  predicate SameRefSet(left: seq<FileRef>, right: seq<FileRef>) {
    |left| == |right| && forall i :: 0 <= i < |right| ==> FileRefKey(right[i]) in KeySet(left)
  }

  lemma {:induction false} CountOfKeys(refs: seq<FileRef>)
    requires DistinctKeys(refs)
    ensures |KeySet(refs)| == |refs|
  {
    if refs == [] {
      assert KeySet(refs) == {};
    } else {
      var before, last := refs[..|refs| - 1], refs[|refs| - 1];
      CountOfKeys(before);
      assert refs == before + [last];
      KeySetAppend(before, [last]);
      assert KeySet([last]) == {FileRefKey(last)} by {
        assert FileRefKey([last][0]) in KeySet([last]);
      }
      assert FileRefKey(last) !in KeySet(before);
    }
  }

  lemma SubsetOfSameSize<T>(a: set<T>, b: set<T>)
    requires a <= b && |a| == |b|
    ensures a == b
  {
    assert b == a + (b - a);
    assert |b| == |a| + |b - a|;
  }

  /** For lists without duplicate keys the test is equality of the key sets. */
  lemma SameRefSetIsSetEquality(left: seq<FileRef>, right: seq<FileRef>)
    requires DistinctKeys(left) && DistinctKeys(right)
    ensures SameRefSet(left, right) <==> KeySet(left) == KeySet(right)
  {
    CountOfKeys(left);
    CountOfKeys(right);
    if SameRefSet(left, right) {
      assert KeySet(right) <= KeySet(left);
      SubsetOfSameSize(KeySet(right), KeySet(left));
    }
  }

  // ----- protectors ---------------------------------------------------------------------------

  function DefaultProtectors(others: seq<Candidate>, n: nat, targets: seq<FileRef>): seq<Candidate>
    requires n <= |others|
  {
    if n == 0 then []
    else if SameRefSet(others[n - 1].refs, targets) then DefaultProtectors(others, n - 1, targets)
    else DefaultProtectors(others, n - 1, targets) + [others[n - 1]]
  }

  function NamedSelection(m: Manifest, options: ResolveOptions): Selection
    requires Resolvable(m) && ResolveSelection(m, options).Success?
  {
    var selection := ResolveSelection(m, options).value;
    Selection(selection.model, selection.quant)
  }

  function FileKeys(refs: seq<FileRef>): (keys: seq<string>)
    ensures |keys| == |refs| && forall i :: 0 <= i < |refs| ==> keys[i] == FileRefKey(refs[i])
  {
    seq(|refs|, i requires 0 <= i < |refs| => FileRefKey(refs[i]))
  }

  /** The key under which a protector is kept: its label and its files. */
  type CandidateKey = (string, seq<string>)

  function KeyOf(candidate: Candidate): CandidateKey {
    (LabelOf(candidate.selection), FileKeys(candidate.refs))
  }

  function CandidateOf(m: Manifest, options: ResolveOptions): Result<Candidate, Labels>
    requires Resolvable(m)
  {
    var refs :- RefsOf(m, options);
    Success(Candidate(NamedSelection(m, options), refs))
  }

  function CandidateLookup(m: Manifest): ResolveOptions -> Result<Candidate, Labels>
    requires Resolvable(m)
  {
    var lookup := (options: ResolveOptions) requires Resolvable(m) => CandidateOf(m, options);
    assert forall options: ResolveOptions :: lookup.requires(options);
    lookup
  }

  /** The candidates of the first n entries; an entry that does not resolve fails. */
  function Candidates(lookup: ResolveOptions -> Result<Candidate, Labels>, entries: seq<ResolveOptions>, n: nat)
    : (r: Result<seq<Candidate>, Labels>)
    requires n <= |entries|
    ensures r.Success? ==> |r.value| == n
  {
    if n == 0 then Success([])
    else
      var before :- Candidates(lookup, entries, n - 1);
      var candidate :- lookup(entries[n - 1]);
      Success(before + [candidate])
  }

  /** The first n candidates except the target, by key; the last one with a key wins. */
  function ProtectorMap(candidates: seq<Candidate>, n: nat, target: Selection): JsMap.Map<CandidateKey, Candidate>
    requires n <= |candidates|
  {
    if n == 0 then []
    else if candidates[n - 1].selection == target then ProtectorMap(candidates, n - 1, target)
    else JsMap.Set(ProtectorMap(candidates, n - 1, target), KeyOf(candidates[n - 1]), candidates[n - 1])
  }

  function MapValues<K, V>(m: JsMap.Map<K, V>): (values: seq<V>)
    ensures |values| == |m| && forall i :: 0 <= i < |m| ==> values[i] == m[i].1
  {
    seq(|m|, i requires 0 <= i < |m| => m[i].1)
  }

  function ProtectorsBy(lookup: ResolveOptions -> Result<Candidate, Labels>, entries: seq<ResolveOptions>, target: Selection)
    : Result<seq<Candidate>, Labels>
  {
    var candidates :- Candidates(lookup, entries, |entries|);
    Success(MapValues(ProtectorMap(candidates, |candidates|, target)))
  }

  function ProtectorsOf(m: Manifest, entries: seq<ResolveOptions>, target: Selection): Result<seq<Candidate>, Labels>
    requires Resolvable(m)
  {
    ProtectorsBy(CandidateLookup(m), entries, target)
  }

  lemma {:induction false} CandidateFailureStays(
    lookup: ResolveOptions -> Result<Candidate, Labels>, entries: seq<ResolveOptions>, n: nat, k: nat)
    requires n <= k <= |entries| && Candidates(lookup, entries, n).Failure?
    ensures Candidates(lookup, entries, k) == Candidates(lookup, entries, n)
    decreases k - n
  {
    if n < k {
      CandidateFailureStays(lookup, entries, n, k - 1);
    }
  }

  lemma {:induction false} ProtectorMapExtends(candidates: seq<Candidate>, more: Candidate, n: nat, target: Selection)
    requires n <= |candidates|
    ensures ProtectorMap(candidates + [more], n, target) == ProtectorMap(candidates, n, target)
  {
    if n > 0 {
      ProtectorMapExtends(candidates, more, n - 1, target);
    }
  }

  /** After n entries: their candidates, and the map of those that are not the target. */
  ghost predicate Gathered(lookup: ResolveOptions -> Result<Candidate, Labels>, entries: seq<ResolveOptions>, n: nat,
                           target: Selection, candidates: seq<Candidate>, byKey: JsMap.Map<CandidateKey, Candidate>) {
    && n <= |entries| && |candidates| == n
    && Candidates(lookup, entries, n) == Success(candidates)
    && byKey == ProtectorMap(candidates, n, target)
  }

  lemma GatherOne(lookup: ResolveOptions -> Result<Candidate, Labels>, entries: seq<ResolveOptions>, n: nat,
                  target: Selection, candidates: seq<Candidate>, byKey: JsMap.Map<CandidateKey, Candidate>, one: Candidate)
    requires Gathered(lookup, entries, n, target, candidates, byKey) && n < |entries|
    requires lookup(entries[n]) == Success(one)
    ensures Gathered(lookup, entries, n + 1, target, candidates + [one],
                     if one.selection == target then byKey else JsMap.Set(byKey, KeyOf(one), one))
  {
    ProtectorMapExtends(candidates, one, n, target);
  }

  /** The loop over the `protect` list, where `lookup` resolves an entry to a candidate. */
  method GatherProtectors(lookup: ResolveOptions -> Result<Candidate, Labels>, entries: seq<ResolveOptions>, target: Selection)
    returns (r: Result<seq<Candidate>, Labels>)
    ensures r == ProtectorsBy(lookup, entries, target)
  {
    var byKey: JsMap.Map<CandidateKey, Candidate> := [];
    ghost var candidates: seq<Candidate> := [];
    for n := 0 to |entries|
      invariant Gathered(lookup, entries, n, target, candidates, byKey)
    {
      var candidate := lookup(entries[n]);
      if candidate.Failure? {
        CandidateFailureStays(lookup, entries, n + 1, |entries|);
        return Failure(candidate.error);
      }
      GatherOne(lookup, entries, n, target, candidates, byKey, candidate.value);
      candidates := candidates + [candidate.value];
      if candidate.value.selection == target {
        continue;
      }
      byKey := JsMap.Set(byKey, KeyOf(candidate.value), candidate.value);
    }
    r := Success(MapValues(byKey));
  }

  method ListProtectors(m: Manifest, entries: seq<ResolveOptions>, target: Selection)
    returns (r: Result<seq<Candidate>, Labels>)
    requires Resolvable(m)
    ensures r == ProtectorsOf(m, entries, target)
  {
    r := GatherProtectors(CandidateLookup(m), entries, target);
  }

  ghost predicate KeyedByThemselves(byKey: JsMap.Map<CandidateKey, Candidate>) {
    JsMap.Distinct(byKey) && forall i :: 0 <= i < |byKey| ==> byKey[i].0 == KeyOf(byKey[i].1)
  }

  ghost predicate Filed(byKey: JsMap.Map<CandidateKey, Candidate>, key: CandidateKey) {
    exists i :: 0 <= i < |byKey| && byKey[i].0 == key
  }

  lemma SetKeeps(byKey: JsMap.Map<CandidateKey, Candidate>, candidate: Candidate, key: CandidateKey)
    requires KeyedByThemselves(byKey)
    ensures KeyedByThemselves(JsMap.Set(byKey, KeyOf(candidate), candidate))
    ensures Filed(byKey, key) || key == KeyOf(candidate) ==> Filed(JsMap.Set(byKey, KeyOf(candidate), candidate), key)
  {
    var more := JsMap.Set(byKey, KeyOf(candidate), candidate);
    JsMap.SetGet(byKey, KeyOf(candidate), candidate);
    if Filed(byKey, key) {
      var i :| 0 <= i < |byKey| && byKey[i].0 == key;
      assert more[i].0 == key;
    } else if key == KeyOf(candidate) {
      var at := JsMap.IndexOf(byKey, key);
      assert more[if at < 0 then |byKey| else at].0 == key;
    }
  }

  lemma {:induction false} ProtectorsKept(candidates: seq<Candidate>, n: nat, target: Selection, k: nat)
    requires n <= |candidates| && k < |candidates|
    ensures KeyedByThemselves(ProtectorMap(candidates, n, target))
    ensures k < n && candidates[k].selection != target ==> Filed(ProtectorMap(candidates, n, target), KeyOf(candidates[k]))
  {
    if n > 0 {
      ProtectorsKept(candidates, n - 1, target, k);
      SetKeeps(ProtectorMap(candidates, n - 1, target), candidates[n - 1], KeyOf(candidates[k]));
    }
  }

  lemma {:induction false} CandidatesAre(
    lookup: ResolveOptions -> Result<Candidate, Labels>, entries: seq<ResolveOptions>, n: nat, k: nat)
    requires k < n <= |entries| && Candidates(lookup, entries, n).Success?
    ensures lookup(entries[k]) == Success(Candidates(lookup, entries, n).value[k])
  {
    if k < n - 1 {
      CandidatesAre(lookup, entries, n - 1, k);
    }
  }

  /** Some protector has this label and these files. */
  ghost predicate HasProtector(protectors: seq<Candidate>, key: CandidateKey) {
    exists i :: 0 <= i < |protectors| && KeyOf(protectors[i]) == key
  }

  /** No file set is lost: every entry of `protect` but the target has a protector with its label and files. */
  lemma NoProtectorIsLost(m: Manifest, entries: seq<ResolveOptions>, target: Selection, k: nat)
    requires Resolvable(m) && ProtectorsOf(m, entries, target).Success? && k < |entries|
    ensures CandidateOf(m, entries[k]).Success?
    ensures CandidateOf(m, entries[k]).value.selection != target ==>
              HasProtector(ProtectorsOf(m, entries, target).value, KeyOf(CandidateOf(m, entries[k]).value))
  {
    var candidates := Candidates(CandidateLookup(m), entries, |entries|).value;
    CandidatesAre(CandidateLookup(m), entries, |entries|, k);
    assert CandidateLookup(m)(entries[k]) == CandidateOf(m, entries[k]);
    ProtectorsKept(candidates, |candidates|, target, k);
    var byKey := ProtectorMap(candidates, |candidates|, target);
    if candidates[k].selection != target {
      var i :| 0 <= i < |byKey| && byKey[i].0 == KeyOf(candidates[k]);
      assert KeyOf(MapValues(byKey)[i]) == KeyOf(candidates[k]);
    }
  }

  // ----- labels -------------------------------------------------------------------------------

  /** The second model's name goes on past the first's, and the first quant's name makes up for it. */
  ghost predicate Shifted(s1: Selection, s2: Selection) {
    exists x: string :: s2.model == s1.model + "/" + x && s1.quant == x + "/" + s2.quant
  }

  lemma ShiftedLabelsAreEqual(s1: Selection, s2: Selection)
    requires Shifted(s1, s2)
    ensures LabelOf(s1) == LabelOf(s2)
  {
    var x: string :| s2.model == s1.model + "/" + x && s1.quant == x + "/" + s2.quant;
    assert s1.model + "/" + (x + "/" + s2.quant) == (s1.model + "/" + x) + "/" + s2.quant;
  }

  lemma LongerModelIsShifted(s1: Selection, s2: Selection)
    requires LabelOf(s1) == LabelOf(s2) && |s1.model| < |s2.model|
    ensures Shifted(s1, s2)
  {
    var n, text := |s1.model|, LabelOf(s1);
    assert s1.model == text[..n] == s2.model[..n];
    assert text[n] == '/' == s2.model[n];
    var x := s2.model[n + 1..];
    assert s2.model == s1.model + "/" + x;
    assert s1.quant == text[n + 1..] == x + "/" + s2.quant;
  }

  lemma EqualModelLengths(s1: Selection, s2: Selection)
    requires LabelOf(s1) == LabelOf(s2) && |s1.model| == |s2.model|
    ensures s1 == s2
  {
    var n, text := |s1.model|, LabelOf(s1);
    assert s1.model == text[..n] == s2.model;
    assert s1.quant == text[n + 1..] == s2.quant;
  }

  /** Two different selections have one label exactly when one is the other shifted by a slash. */
  lemma LabelsClashIff(s1: Selection, s2: Selection)
    requires s1 != s2
    ensures LabelOf(s1) == LabelOf(s2) <==> Shifted(s1, s2) || Shifted(s2, s1)
  {
    if Shifted(s1, s2) {
      ShiftedLabelsAreEqual(s1, s2);
    } else if Shifted(s2, s1) {
      ShiftedLabelsAreEqual(s2, s1);
    } else if LabelOf(s1) == LabelOf(s2) {
      if |s1.model| == |s2.model| {
        EqualModelLengths(s1, s2);
      } else if |s1.model| < |s2.model| {
        LongerModelIsShifted(s1, s2);
      } else {
        LongerModelIsShifted(s2, s1);
      }
    }
  }

  /** Labels of a manifest tell its selections apart when no model name holds a slash. */
  lemma LabelsAreClear(m: Manifest, s1: Selection, s2: Selection)
    requires forall i :: 0 <= i < |m.models| ==> '/' !in m.models[i].0
    requires Exists(m, s1) && Exists(m, s2) && LabelOf(s1) == LabelOf(s2)
    ensures s1 == s2
  {
    assert m.models[JsMap.IndexOf(m.models, s1.model)].0 == s1.model;
    assert m.models[JsMap.IndexOf(m.models, s2.model)].0 == s2.model;
    if s1 != s2 {
      LabelsClashIff(s1, s2);
      NotShifted(s1, s2);
      NotShifted(s2, s1);
    }
  }

  lemma NotShifted(s1: Selection, s2: Selection)
    requires '/' !in s2.model
    ensures !Shifted(s1, s2)
  {
    forall x: string | true
      ensures s2.model != s1.model + "/" + x
    {
      assert (s1.model + "/" + x)[|s1.model|] == '/';
    }
  }

  // ----- the inventory ------------------------------------------------------------------------

  /** The keys of the files that their own origin can read. */
  function Stock(refs: seq<FileRef>, n: nat, source: Source): set<string>
    requires n <= |refs|
  {
    if n == 0 then {}
    else if source.has(CrossRefOf(refs[n - 1]), refs[n - 1]) then Stock(refs, n - 1, source) + {FileRefKey(refs[n - 1])}
    else Stock(refs, n - 1, source)
  }

  /** The text a reference's origin is grouped under; empty for the session's own source. */
  function OriginText(ref: FileRef): string {
    match CrossRefOf(ref)
    case None => ""
    case Some(cross) => cross.repo + "@" + cross.revision
  }

  /** References in one group have one origin, so asking the first one's source is right for all. */
  lemma OneOriginPerText(r1: FileRef, r2: FileRef)
    requires ValidRef(r1) && ValidRef(r2)
    ensures OriginText(r1) == OriginText(r2) <==> CrossRefOf(r1) == CrossRefOf(r2)
  {
    if r1.repo.Some? {
      NoAtSign(r1.repo.value);
      FirstAtSignAfter(r1.repo.value, r1.revision.value);
    }
    if r2.repo.Some? {
      NoAtSign(r2.repo.value);
      FirstAtSignAfter(r2.repo.value, r2.revision.value);
    }
    if OriginText(r1) == OriginText(r2) && r1.repo.Some? && r2.repo.Some? {
      var t := OriginText(r1);
      var n := FirstAtSign(t);
      assert t[..n] == r1.repo.value && t[..n] == r2.repo.value;
      assert t[n + 1..] == r1.revision.value && t[n + 1..] == r2.revision.value;
    }
  }

  /** What one source answers for one group. */
  function Answer(origin: Option<CrossRef>, bucket: seq<FileRef>, n: nat, source: Source): set<string>
    requires n <= |bucket|
  {
    if n == 0 then {}
    else if source.has(origin, bucket[n - 1]) then Answer(origin, bucket, n - 1, source) + {FileRefKey(bucket[n - 1])}
    else Answer(origin, bucket, n - 1, source)
  }

  type Groups = JsMap.Map<string, seq<FileRef>>

  ghost predicate InGroup(groups: Groups, ref: FileRef) {
    exists i :: 0 <= i < |groups| && ref in groups[i].1
  }

  /** Every group holds the references of one origin, at least one of them. */
  ghost predicate Grouped(groups: Groups, refs: seq<FileRef>, n: nat)
    requires n <= |refs|
  {
    && JsMap.Distinct(groups)
    && (forall i :: 0 <= i < |groups| ==> groups[i].1 != [])
    && (forall i, ref :: 0 <= i < |groups| && ref in groups[i].1 ==> OriginText(ref) == groups[i].0 && ref in refs[..n])
    && (forall k :: 0 <= k < n ==> InGroup(groups, refs[k]))
  }

  lemma GroupNext(groups: Groups, refs: seq<FileRef>, n: nat)
    requires n < |refs| && Grouped(groups, refs, n)
    ensures var origin := OriginText(refs[n]);
            var bucket := JsMap.Get(groups, origin);
            Grouped(JsMap.Set(groups, origin, if bucket.None? then [refs[n]] else bucket.value + [refs[n]]), refs, n + 1)
  {
    var origin := OriginText(refs[n]);
    var bucket := JsMap.Get(groups, origin);
    var value := if bucket.None? then [refs[n]] else bucket.value + [refs[n]];
    var more := JsMap.Set(groups, origin, value);
    JsMap.SetGet(groups, origin, value);
    assert refs[..n + 1] == refs[..n] + [refs[n]];
    var at := JsMap.IndexOf(groups, origin);
    var i := if at < 0 then |groups| else at;
    assert more[i] == (origin, value) && refs[n] in value;
    forall k | 0 <= k < n + 1
      ensures InGroup(more, refs[k])
    {
      if k < n {
        assert InGroup(groups, refs[k]);
        var j :| 0 <= j < |groups| && refs[k] in groups[j].1;
        assert refs[k] in more[j].1;
      }
    }
  }

  predicate Held(source: Source, ref: FileRef) { source.has(CrossRefOf(ref), ref) }

  ghost predicate HeldAmong(refs: seq<FileRef>, n: nat, source: Source, key: string)
    requires n <= |refs|
  {
    exists k :: 0 <= k < n && Held(source, refs[k]) && FileRefKey(refs[k]) == key
  }

  lemma {:induction false} StockAre(refs: seq<FileRef>, n: nat, source: Source, key: string)
    requires n <= |refs|
    ensures key in Stock(refs, n, source) <==> HeldAmong(refs, n, source, key)
  {
    if n > 0 {
      StockAre(refs, n - 1, source, key);
      if HeldAmong(refs, n - 1, source, key) {
        var k :| 0 <= k < n - 1 && Held(source, refs[k]) && FileRefKey(refs[k]) == key;
        assert HeldAmong(refs, n, source, key);
      }
    }
  }

  /** One origin's answer about its own references is the truth about them. */
  lemma {:induction false} AnswerIsStock(origin: Option<CrossRef>, bucket: seq<FileRef>, n: nat, source: Source)
    requires n <= |bucket| && forall k :: 0 <= k < |bucket| ==> CrossRefOf(bucket[k]) == origin
    ensures Answer(origin, bucket, n, source) == Stock(bucket, n, source)
  {
    if n > 0 {
      AnswerIsStock(origin, bucket, n - 1, source);
    }
  }

  ghost predicate HeldInGroups(groups: Groups, g: nat, source: Source, key: string)
    requires g <= |groups|
  {
    exists i :: 0 <= i < g && HeldAmong(groups[i].1, |groups[i].1|, source, key)
  }

  lemma GroupAnswered(groups: Groups, g: nat, refs: seq<FileRef>, source: Source, cached: set<string>)
    requires g < |groups| && Grouped(groups, refs, |refs|)
    requires forall k :: 0 <= k < |refs| ==> ValidRef(refs[k])
    requires forall key: string :: key in cached <==> HeldInGroups(groups, g, source, key)
    ensures groups[g].1 != []
    ensures var bucket := groups[g].1;
            forall key: string ::
              key in cached + Answer(CrossRefOf(bucket[0]), bucket, |bucket|, source) <==>
              HeldInGroups(groups, g + 1, source, key)
  {
    var bucket := groups[g].1;
    assert refs[..|refs|] == refs;
    forall k | 0 <= k < |bucket|
      ensures CrossRefOf(bucket[k]) == CrossRefOf(bucket[0])
    {
      assert bucket[k] in refs && bucket[0] in refs;
      OneOriginPerText(bucket[k], bucket[0]);
    }
    AnswerIsStock(CrossRefOf(bucket[0]), bucket, |bucket|, source);
    forall key: string | true
      ensures key in cached + Stock(bucket, |bucket|, source) <==> HeldInGroups(groups, g + 1, source, key)
    {
      StockAre(bucket, |bucket|, source, key);
      if HeldInGroups(groups, g, source, key) {
        var i :| 0 <= i < g && HeldAmong(groups[i].1, |groups[i].1|, source, key);
        assert HeldInGroups(groups, g + 1, source, key);
      }
    }
  }

  lemma GroupsCover(groups: Groups, refs: seq<FileRef>, source: Source, key: string)
    requires Grouped(groups, refs, |refs|)
    ensures HeldInGroups(groups, |groups|, source, key) <==> HeldAmong(refs, |refs|, source, key)
  {
    assert refs[..|refs|] == refs;
    if HeldInGroups(groups, |groups|, source, key) {
      var i :| 0 <= i < |groups| && HeldAmong(groups[i].1, |groups[i].1|, source, key);
      var bucket := groups[i].1;
      var j :| 0 <= j < |bucket| && Held(source, bucket[j]) && FileRefKey(bucket[j]) == key;
      assert bucket[j] in refs;
      var k :| 0 <= k < |refs| && refs[k] == bucket[j];
      assert HeldAmong(refs, |refs|, source, key);
    }
    if HeldAmong(refs, |refs|, source, key) {
      var k :| 0 <= k < |refs| && Held(source, refs[k]) && FileRefKey(refs[k]) == key;
      assert InGroup(groups, refs[k]);
      var i :| 0 <= i < |groups| && refs[k] in groups[i].1;
      var j :| 0 <= j < |groups[i].1| && groups[i].1[j] == refs[k];
      assert HeldAmong(groups[i].1, |groups[i].1|, source, key);
    }
  }

  /** One query per origin; every reference is answered for by its own origin. */
  method QueryInventory(source: Source, refs: seq<FileRef>) returns (cached: set<string>)
    requires forall k :: 0 <= k < |refs| ==> ValidRef(refs[k])
    ensures cached == Stock(refs, |refs|, source)
  {
    var groups: Groups := [];
    for n := 0 to |refs|
      invariant Grouped(groups, refs, n)
    {
      var origin := OriginText(refs[n]);
      var bucket := JsMap.Get(groups, origin);
      GroupNext(groups, refs, n);
      groups := JsMap.Set(groups, origin, if bucket.None? then [refs[n]] else bucket.value + [refs[n]]);
    }
    cached := {};
    for g := 0 to |groups|
      invariant forall key: string :: key in cached <==> HeldInGroups(groups, g, source, key)
    {
      GroupAnswered(groups, g, refs, source, cached);
      var bucket := groups[g].1;
      cached := cached + Answer(CrossRefOf(bucket[0]), bucket, |bucket|, source);
    }
    forall key: string | true
      ensures key in cached <==> key in Stock(refs, |refs|, source)
    {
      GroupsCover(groups, refs, source, key);
      StockAre(refs, |refs|, source, key);
    }
  }

  // ----- listing ------------------------------------------------------------------------------

  /** Those of the first n references whose key is, or is not, in the stock. */
  function Cached(refs: seq<FileRef>, n: nat, stock: set<string>, present: bool): seq<FileRef>
    requires n <= |refs|
  {
    if n == 0 then []
    else if (FileRefKey(refs[n - 1]) in stock) == present then Cached(refs, n - 1, stock, present) + [refs[n - 1]]
    else Cached(refs, n - 1, stock, present)
  }

  datatype CachedAssets = CachedAssets(cached: seq<FileRef>, missing: seq<FileRef>)

  /** No two references of the list share a key without being the same. */
  ghost predicate Identified(refs: seq<FileRef>) {
    forall i, j :: 0 <= i < |refs| && 0 <= j < |refs| && FileRefKey(refs[i]) == FileRefKey(refs[j]) ==> refs[i] == refs[j]
  }

  lemma {:induction false} CachedAre(refs: seq<FileRef>, n: nat, source: Source, present: bool)
    requires n <= |refs| && Identified(refs)
    ensures forall ref :: ref in Cached(refs, n, Stock(refs, |refs|, source), present) <==>
                          ref in refs[..n] && Held(source, ref) == present
  {
    if n > 0 {
      CachedAre(refs, n - 1, source, present);
      assert refs[..n] == refs[..n - 1] + [refs[n - 1]];
      var key := FileRefKey(refs[n - 1]);
      StockAre(refs, |refs|, source, key);
      assert key in Stock(refs, |refs|, source) <==> Held(source, refs[n - 1]) by {
        if HeldAmong(refs, |refs|, source, key) {
          var k :| 0 <= k < |refs| && Held(source, refs[k]) && FileRefKey(refs[k]) == key;
          assert refs[k] == refs[n - 1];
        }
      }
    }
  }

  /** Which of the files can be read, by what their own origins hold. */
  function CachedOf(refs: seq<FileRef>, source: Source): CachedAssets {
    CachedAssets(Cached(refs, |refs|, Stock(refs, |refs|, source), true),
                 Cached(refs, |refs|, Stock(refs, |refs|, source), false))
  }

  /** What can be read without the network and what cannot; together, the selection's file list. */
  method ListCachedAssets(m: Manifest, options: ResolveOptions, source: Source) returns (r: Result<CachedAssets, Labels>)
    requires Resolvable(m)
    requires RefsOf(m, options).Success? ==>
               forall k :: 0 <= k < |RefsOf(m, options).value| ==> ValidRef(RefsOf(m, options).value[k])
    ensures RefsOf(m, options).Failure? ==> r == Failure(RefsOf(m, options).error)
    ensures RefsOf(m, options).Success? ==> r == Success(CachedOf(RefsOf(m, options).value, source))
  {
    var refs := RefsOf(m, options);
    if refs.Failure? {
      return Failure(refs.error);
    }
    var stock := QueryInventory(source, refs.value);
    r := Success(CachedAssets(Cached(refs.value, |refs.value|, stock, true),
                              Cached(refs.value, |refs.value|, stock, false)));
  }

  // ----- eviction -----------------------------------------------------------------------------

  datatype Reason = Shared | CrossRepo

  datatype KeptAsset = KeptAsset(ref: FileRef, reason: Reason, sharedWith: seq<string>)

  datatype EvictedAssets = EvictedAssets(evicted: seq<FileRef>, kept: seq<KeptAsset>, alsoEvicted: seq<string>)

  datatype EvictError = UnknownName(available: Labels) | NoCache(available: Labels)

  predicate Complete(refs: seq<FileRef>, stock: set<string>) {
    forall i :: 0 <= i < |refs| ==> FileRefKey(refs[i]) in stock
  }

  /** The labels, once each, of those of the first n protectors that are complete and use the key. */
  function SharedBy(protectors: seq<Candidate>, n: nat, stock: set<string>, key: string): seq<string>
    requires n <= |protectors|
  {
    if n == 0 then []
    else
      var before, p := SharedBy(protectors, n - 1, stock, key), protectors[n - 1];
      if Complete(p.refs, stock) && key in KeySet(p.refs) && LabelOf(p.selection) !in before then
        before + [LabelOf(p.selection)]
      else before
  }

  /** What is done with one target: nothing when it is not cached. */
  datatype Verdict = Absent | Keep(asset: KeptAsset) | Delete

  function VerdictOf(ref: FileRef, stock: set<string>, protectors: seq<Candidate>): Verdict {
    var labels := SharedBy(protectors, |protectors|, stock, FileRefKey(ref));
    if FileRefKey(ref) !in stock then Absent
    else if CrossRefOf(ref).Some? then Keep(KeptAsset(ref, CrossRepo, []))
    else if labels != [] then Keep(KeptAsset(ref, Shared, labels))
    else Delete
  }

  function KeptBy(targets: seq<FileRef>, n: nat, judge: FileRef -> Verdict): seq<KeptAsset>
    requires n <= |targets|
  {
    if n == 0 then []
    else if judge(targets[n - 1]).Keep? then KeptBy(targets, n - 1, judge) + [judge(targets[n - 1]).asset]
    else KeptBy(targets, n - 1, judge)
  }

  function DeletedBy(targets: seq<FileRef>, n: nat, judge: FileRef -> Verdict): seq<FileRef>
    requires n <= |targets|
  {
    if n == 0 then []
    else if judge(targets[n - 1]).Delete? then DeletedBy(targets, n - 1, judge) + [targets[n - 1]]
    else DeletedBy(targets, n - 1, judge)
  }

  function JudgeWith(stock: set<string>, protectors: seq<Candidate>): FileRef -> Verdict {
    (ref: FileRef) => VerdictOf(ref, stock, protectors)
  }

  function KeptOf(targets: seq<FileRef>, stock: set<string>, protectors: seq<Candidate>): seq<KeptAsset> {
    KeptBy(targets, |targets|, JudgeWith(stock, protectors))
  }

  function Evictable(targets: seq<FileRef>, stock: set<string>, protectors: seq<Candidate>): seq<FileRef> {
    DeletedBy(targets, |targets|, JudgeWith(stock, protectors))
  }

  predicate Uses(refs: seq<FileRef>, keys: set<string>) {
    exists i :: 0 <= i < |refs| && FileRefKey(refs[i]) in keys
  }

  /** Labels of the others that were complete and used an evicted file. */
  function AlsoEvicted(others: seq<Candidate>, n: nat, stock: set<string>, evicted: set<string>): seq<string>
    requires n <= |others|
  {
    if n == 0 then []
    else if Complete(others[n - 1].refs, stock) && Uses(others[n - 1].refs, evicted) then
      AlsoEvicted(others, n - 1, stock, evicted) + [LabelOf(others[n - 1].selection)]
    else AlsoEvicted(others, n - 1, stock, evicted)
  }

  function RefsOfAll(candidates: seq<Candidate>, n: nat): seq<FileRef>
    requires n <= |candidates|
  {
    if n == 0 then [] else RefsOfAll(candidates, n - 1) + candidates[n - 1].refs
  }

  /** The files asked about: the target's and every other selection's, each once. */
  function Union(targets: seq<FileRef>, others: seq<Candidate>): seq<FileRef> {
    Unique(targets + RefsOfAll(others, |others|))
  }

  // ----- what eviction keeps ------------------------------------------------------------------

  lemma {:induction false} SharedByProtector(protectors: seq<Candidate>, n: nat, stock: set<string>, key: string, i: nat)
    requires i < n <= |protectors| && Complete(protectors[i].refs, stock) && key in KeySet(protectors[i].refs)
    ensures LabelOf(protectors[i].selection) in SharedBy(protectors, n, stock, key)
  {
    if i < n - 1 {
      SharedByProtector(protectors, n - 1, stock, key, i);
    }
  }

  lemma {:induction false} DeletedAre(targets: seq<FileRef>, n: nat, judge: FileRef -> Verdict, ref: FileRef)
    requires n <= |targets|
    ensures ref in DeletedBy(targets, n, judge) <==> ref in targets[..n] && judge(ref).Delete?
  {
    if n > 0 {
      DeletedAre(targets, n - 1, judge, ref);
      assert targets[..n] == targets[..n - 1] + [targets[n - 1]];
    }
  }

  lemma EvictableAre(targets: seq<FileRef>, stock: set<string>, protectors: seq<Candidate>, ref: FileRef)
    ensures ref in Evictable(targets, stock, protectors) <==> ref in targets && VerdictOf(ref, stock, protectors).Delete?
  {
    DeletedAre(targets, |targets|, JudgeWith(stock, protectors), ref);
    assert targets[..|targets|] == targets;
  }

  lemma {:induction false} KeptByAre(targets: seq<FileRef>, n: nat, judge: FileRef -> Verdict, asset: KeptAsset)
    requires n <= |targets| && forall ref: FileRef :: judge(ref).Keep? ==> judge(ref).asset.ref == ref
    ensures asset in KeptBy(targets, n, judge) <==> asset.ref in targets[..n] && judge(asset.ref) == Keep(asset)
  {
    if n > 0 {
      KeptByAre(targets, n - 1, judge, asset);
      assert targets[..n] == targets[..n - 1] + [targets[n - 1]];
    }
  }

  lemma KeptAre(targets: seq<FileRef>, stock: set<string>, protectors: seq<Candidate>, asset: KeptAsset)
    ensures asset in KeptOf(targets, stock, protectors) <==>
            asset.ref in targets && VerdictOf(asset.ref, stock, protectors) == Keep(asset)
  {
    KeptByAre(targets, |targets|, JudgeWith(stock, protectors), asset);
    assert targets[..|targets|] == targets;
  }

  ghost predicate IsKept(ref: FileRef, kept: seq<KeptAsset>) {
    exists k :: 0 <= k < |kept| && kept[k].ref == ref
  }

  /** Every cached target is either evictable or kept, and a file of another repo is kept. */
  lemma CachedTargetsAreSplit(targets: seq<FileRef>, stock: set<string>, protectors: seq<Candidate>, ref: FileRef)
    requires ref in targets
    ensures var evictable, kept :=
              Evictable(targets, stock, protectors), KeptOf(targets, stock, protectors);
            && (FileRefKey(ref) in stock <==> ref in evictable || IsKept(ref, kept))
            && !(ref in evictable && IsKept(ref, kept))
            && (CrossRefOf(ref).Some? && FileRefKey(ref) in stock ==> KeptAsset(ref, CrossRepo, []) in kept)
  {
    var kept := KeptOf(targets, stock, protectors);
    EvictableAre(targets, stock, protectors, ref);
    var verdict := VerdictOf(ref, stock, protectors);
    if verdict.Keep? {
      KeptAre(targets, stock, protectors, verdict.asset);
      var k :| 0 <= k < |kept| && kept[k] == verdict.asset;
      assert IsKept(ref, kept);
    }
    if IsKept(ref, kept) {
      var k :| 0 <= k < |kept| && kept[k].ref == ref;
      KeptAre(targets, stock, protectors, kept[k]);
    }
  }

  /** A protector that was complete is complete afterwards, whatever part of the evictable files went. */
  lemma ProtectorsStayComplete(targets: seq<FileRef>, stock: set<string>, protectors: seq<Candidate>,
                               evicted: seq<FileRef>, i: nat)
    requires forall ref :: ref in evicted ==> ref in Evictable(targets, stock, protectors)
    requires i < |protectors| && Complete(protectors[i].refs, stock)
    ensures Complete(protectors[i].refs, stock - KeySet(evicted))
  {
    var refs := protectors[i].refs;
    forall k, j | 0 <= k < |evicted| && 0 <= j < |refs|
      ensures FileRefKey(evicted[k]) != FileRefKey(refs[j])
    {
      assert evicted[k] in evicted;
      EvictableAre(targets, stock, protectors, evicted[k]);
      assert SharedBy(protectors, |protectors|, stock, FileRefKey(evicted[k])) == [];
      if FileRefKey(evicted[k]) == FileRefKey(refs[j]) {
        SharedByProtector(protectors, |protectors|, stock, FileRefKey(refs[j]), i);
      }
    }
  }

  lemma CompleteAfter(refs: seq<FileRef>, stock: set<string>, evicted: set<string>)
    requires Complete(refs, stock)
    ensures Complete(refs, stock - evicted) <==> !Uses(refs, evicted)
  {
    if Complete(refs, stock - evicted) {
      forall i | 0 <= i < |refs|
        ensures FileRefKey(refs[i]) !in evicted
      {
        assert FileRefKey(refs[i]) in stock - evicted;
      }
    }
  }

  lemma {:induction false} DefaultProtects(others: seq<Candidate>, n: nat, targets: seq<FileRef>, k: nat)
    requires k < n <= |others| && !SameRefSet(others[k].refs, targets)
    ensures others[k] in DefaultProtectors(others, n, targets)
  {
    if k < n - 1 {
      DefaultProtects(others, n - 1, targets, k);
    }
  }

  // ----- the whole call -----------------------------------------------------------------------

  function Protectors(m: Manifest, others: seq<Candidate>, targets: seq<FileRef>, target: Selection,
                      protect: Option<seq<ResolveOptions>>): Result<seq<Candidate>, Labels>
    requires Resolvable(m)
  {
    match protect
    case None => Success(DefaultProtectors(others, |others|, targets))
    case Some(entries) => ProtectorsOf(m, entries, target)
  }

  function EvictionOf(targets: seq<FileRef>, others: seq<Candidate>, protectors: seq<Candidate>, stock: set<string>,
                      remove: seq<FileRef> -> seq<FileRef>): EvictedAssets
  {
    var evictable := Evictable(targets, stock, protectors);
    var evicted := Cached(evictable, |evictable|, KeySet(remove(evictable)), true);
    EvictedAssets(evicted, KeptOf(targets, stock, protectors),
                  AlsoEvicted(others, |others|, stock, KeySet(evicted)))
  }

  function Evict(m: Manifest, options: ResolveOptions, protect: Option<seq<ResolveOptions>>, source: Source)
    : Result<EvictedAssets, EvictError>
    requires Resolvable(m)
  {
    match RefsOf(m, options)
    case Failure(available) => Failure(UnknownName(available))
    case Success(targets) =>
      if source.evict.None? then Failure(NoCache(m.available))
      else
        var target := NamedSelection(m, options);
        var others := AllOthers(m, target);
        match Protectors(m, others, targets, target, protect)
        case Failure(available) => Failure(UnknownName(available))
        case Success(protectors) =>
          var union := Union(targets, others);
          Success(EvictionOf(targets, others, protectors, Stock(union, |union|, source), source.evict.value))
  }

  // The loops of the call.

  ghost predicate SharedWithIs(shared: JsMap.Map<string, seq<string>>, labels: string -> seq<string>) {
    && JsMap.Distinct(shared)
    && forall key: string :: JsMap.Get(shared, key) == (if labels(key) == [] then None else Some(labels(key)))
  }

  /** The labels of a key once the first n references of protector p are done. */
  function SharedSoFar(before: seq<string>, p: Candidate, n: nat, key: string): seq<string>
    requires n <= |p.refs|
  {
    if key in KeySet(p.refs[..n]) && LabelOf(p.selection) !in before then before + [LabelOf(p.selection)] else before
  }

  function AddLabel(shared: JsMap.Map<string, seq<string>>, key: string, name: string): JsMap.Map<string, seq<string>> {
    match JsMap.Get(shared, key)
    case None => JsMap.Set(shared, key, [name])
    case Some(names) => if name in names then shared else JsMap.Set(shared, key, names + [name])
  }

  lemma AddLabelStep(shared: JsMap.Map<string, seq<string>>, before: string -> seq<string>, p: Candidate, n: nat)
    requires n < |p.refs| && SharedWithIs(shared, key => SharedSoFar(before(key), p, n, key))
    ensures SharedWithIs(AddLabel(shared, FileRefKey(p.refs[n]), LabelOf(p.selection)),
                         key => SharedSoFar(before(key), p, n + 1, key))
  {
    var at, name := FileRefKey(p.refs[n]), LabelOf(p.selection);
    var more := AddLabel(shared, at, name);
    assert p.refs[..n + 1] == p.refs[..n] + [p.refs[n]];
    KeySetAppend(p.refs[..n], [p.refs[n]]);
    assert KeySet([p.refs[n]]) == {at} by {
      assert FileRefKey([p.refs[n]][0]) in KeySet([p.refs[n]]);
    }
    assert forall key :: key in KeySet(p.refs[..n + 1]) <==> key in KeySet(p.refs[..n]) || key == at;
    var was := SharedSoFar(before(at), p, n, at);
    assert JsMap.Get(shared, at) == (if was == [] then None else Some(was));
    JsMap.SetGet(shared, at, was + [name]);
    assert was == [] ==> was + [name] == [name];
    assert more == (if name in was then shared else JsMap.Set(shared, at, was + [name]));
    forall key: string | true
      ensures JsMap.Get(more, key) == (if SharedSoFar(before(key), p, n + 1, key) == [] then None
                                       else Some(SharedSoFar(before(key), p, n + 1, key)))
    {
      assert JsMap.Get(shared, key) == (if SharedSoFar(before(key), p, n, key) == [] then None
                                        else Some(SharedSoFar(before(key), p, n, key)));
      if key == at {
        assert SharedSoFar(before(at), p, n + 1, at) == (if name in was then was else was + [name]);
      } else {
        assert SharedSoFar(before(key), p, n + 1, key) == SharedSoFar(before(key), p, n, key);
      }
    }
  }

  method AddProtector(shared: JsMap.Map<string, seq<string>>, ghost before: string -> seq<string>, p: Candidate)
    returns (more: JsMap.Map<string, seq<string>>)
    requires SharedWithIs(shared, before)
    ensures SharedWithIs(more, key => SharedSoFar(before(key), p, |p.refs|, key))
  {
    more := shared;
    var name := LabelOf(p.selection);
    for n := 0 to |p.refs|
      invariant SharedWithIs(more, key => SharedSoFar(before(key), p, n, key))
    {
      AddLabelStep(more, before, p, n);
      more := AddLabel(more, FileRefKey(p.refs[n]), name);
    }
  }

  method SharedLabels(protectors: seq<Candidate>, stock: set<string>) returns (shared: JsMap.Map<string, seq<string>>)
    ensures SharedWithIs(shared, key => SharedBy(protectors, |protectors|, stock, key))
  {
    shared := [];
    for n := 0 to |protectors|
      invariant SharedWithIs(shared, key => SharedBy(protectors, n, stock, key))
    {
      var p := protectors[n];
      if !Complete(p.refs, stock) {
        continue;
      }
      shared := AddProtector(shared, key => SharedBy(protectors, n, stock, key), p);
      assert p.refs[..|p.refs|] == p.refs;
    }
  }

  method Judge(ref: FileRef, stock: set<string>, ghost protectors: seq<Candidate>, shared: JsMap.Map<string, seq<string>>)
    returns (verdict: Verdict)
    requires SharedWithIs(shared, key => SharedBy(protectors, |protectors|, stock, key))
    ensures verdict == VerdictOf(ref, stock, protectors)
  {
    if FileRefKey(ref) !in stock {
      return Absent;
    }
    if CrossRefOf(ref).Some? {
      return Keep(KeptAsset(ref, CrossRepo, []));
    }
    var labels := JsMap.Get(shared, FileRefKey(ref));
    if labels.Some? {
      return Keep(KeptAsset(ref, Shared, labels.value));
    }
    return Delete;
  }

  method SplitTargets(targets: seq<FileRef>, stock: set<string>, ghost protectors: seq<Candidate>,
                      shared: JsMap.Map<string, seq<string>>) returns (kept: seq<KeptAsset>, evictable: seq<FileRef>)
    requires SharedWithIs(shared, key => SharedBy(protectors, |protectors|, stock, key))
    ensures kept == KeptOf(targets, stock, protectors)
    ensures evictable == Evictable(targets, stock, protectors)
  {
    ghost var judge := JudgeWith(stock, protectors);
    kept, evictable := [], [];
    for n := 0 to |targets|
      invariant kept == KeptBy(targets, n, judge)
      invariant evictable == DeletedBy(targets, n, judge)
    {
      var verdict := Judge(targets[n], stock, protectors, shared);
      assert verdict == judge(targets[n]);
      if verdict.Keep? {
        kept := kept + [verdict.asset];
      } else if verdict.Delete? {
        evictable := evictable + [targets[n]];
      }
    }
  }

  ghost predicate AllFrom(refs: seq<FileRef>, m: Manifest) {
    forall i :: 0 <= i < |refs| ==> InManifest(refs[i], m)
  }

  /** The files of a selection stand in the manifest, once each. */
  lemma ListedInManifest(m: Manifest, ownRepo: Option<string>, seen: Seen, options: ResolveOptions)
    requires GoodManifest(m, ownRepo, seen) && Resolvable(m) && RefsOf(m, options).Success?
    ensures AllFrom(RefsOf(m, options).value, m) && DistinctKeys(RefsOf(m, options).value)
  {
    var selection := ResolveSelection(m, options).value;
    GoodNames(m, ownRepo, seen);
    ResolvedIsFrom(m, options);
    GoodKeysIdentify(m, ownRepo, seen);
    var _ := FileListIsExact(selection, m);
    var refs := SelectionRefs(selection);
    forall i | 0 <= i < |refs|
      ensures InManifest(refs[i], m)
    {
      assert refs[i] in refs;
      NeedsInManifest(selection, m, refs[i]);
    }
  }

  /** One of the others: a pair beside the target, with its file list. */
  ghost predicate OtherOf(
    lookup: Selection -> Result<seq<FileRef>, Labels>, pairs: seq<Selection>, target: Selection, other: Candidate)
  {
    other.selection in pairs && other.selection != target && lookup(other.selection) == Success(other.refs)
  }

  lemma {:induction false} OthersAre(
    lookup: Selection -> Result<seq<FileRef>, Labels>, pairs: seq<Selection>, n: nat, target: Selection, other: Candidate)
    requires n <= |pairs|
    ensures other in Others(lookup, pairs, n, target) <==> OtherOf(lookup, pairs[..n], target, other)
  {
    if n > 0 {
      OthersAre(lookup, pairs, n - 1, target, other);
      assert pairs[..n] == pairs[..n - 1] + [pairs[n - 1]];
    }
  }

  lemma AllOthersAre(m: Manifest, target: Selection, other: Candidate)
    requires Resolvable(m)
    ensures other in AllOthers(m, target) <==>
              && other.selection in AllSelections(m, |m.models|) && other.selection != target
              && RefsOf(m, FullOptions(other.selection)) == Success(other.refs)
  {
    var pairs := AllSelections(m, |m.models|);
    OthersAre(FullRefs(m), pairs, |pairs|, target, other);
    assert pairs[..|pairs|] == pairs;
    assert FullRefs(m)(other.selection) == RefsOf(m, FullOptions(other.selection));
  }

  lemma {:induction false} InRefsOfAll(candidates: seq<Candidate>, n: nat, ref: FileRef)
    requires n <= |candidates|
    ensures ref in RefsOfAll(candidates, n) <==> exists i :: 0 <= i < n && ref in candidates[i].refs
  {
    if n > 0 {
      InRefsOfAll(candidates, n - 1, ref);
    }
  }

  lemma UnionInManifest(m: Manifest, ownRepo: Option<string>, seen: Seen, options: ResolveOptions, target: Selection)
    requires GoodManifest(m, ownRepo, seen) && Resolvable(m) && RefsOf(m, options).Success?
    ensures AllFrom(Union(RefsOf(m, options).value, AllOthers(m, target)), m)
  {
    var targets, others := RefsOf(m, options).value, AllOthers(m, target);
    ListedInManifest(m, ownRepo, seen, options);
    var all := targets + RefsOfAll(others, |others|);
    UniqueProperties(all);
    var union := Union(targets, others);
    forall i | 0 <= i < |union|
      ensures InManifest(union[i], m)
    {
      assert union[i] in all;
      if union[i] in targets {
        var j :| 0 <= j < |targets| && targets[j] == union[i];
      } else {
        InRefsOfAll(others, |others|, union[i]);
        var k :| 0 <= k < |others| && union[i] in others[k].refs;
        assert others[k] in others;
        AllOthersAre(m, target, others[k]);
        ListedInManifest(m, ownRepo, seen, FullOptions(others[k].selection));
        var j :| 0 <= j < |others[k].refs| && others[k].refs[j] == union[i];
      }
    }
  }

  lemma InManifestValid(m: Manifest, ownRepo: Option<string>, seen: Seen, refs: seq<FileRef>)
    requires GoodManifest(m, ownRepo, seen) && AllFrom(refs, m)
    ensures forall k :: 0 <= k < |refs| ==> ValidRef(refs[k])
    ensures Identified(refs)
  {
    forall k | 0 <= k < |refs|
      ensures ValidRef(refs[k])
    {
      InTable(refs[k], m, ownRepo, seen);
    }
    GoodKeysIdentify(m, ownRepo, seen);
  }

  method EvictTargets(targets: seq<FileRef>, others: seq<Candidate>, protectors: seq<Candidate>, source: Source)
    returns (r: EvictedAssets)
    requires source.evict.Some?
    requires forall k :: 0 <= k < |Union(targets, others)| ==> ValidRef(Union(targets, others)[k])
    ensures r == EvictionOf(targets, others, protectors,
                            Stock(Union(targets, others), |Union(targets, others)|, source), source.evict.value)
  {
    var stock := QueryInventory(source, Union(targets, others));
    var shared := SharedLabels(protectors, stock);
    var kept, evictable := SplitTargets(targets, stock, protectors, shared);
    var removed := KeySet(source.evict.value(evictable));
    var evicted := Cached(evictable, |evictable|, removed, true);
    r := EvictedAssets(evicted, kept, AlsoEvicted(others, |others|, stock, KeySet(evicted)));
  }

  lemma UnionValid(m: Manifest, ownRepo: Option<string>, seen: Seen, options: ResolveOptions, target: Selection)
    requires GoodManifest(m, ownRepo, seen) && Resolvable(m) && RefsOf(m, options).Success?
    ensures var union := Union(RefsOf(m, options).value, AllOthers(m, target));
            Identified(union) && forall k :: 0 <= k < |union| ==> ValidRef(union[k])
  {
    UnionInManifest(m, ownRepo, seen, options, target);
    InManifestValid(m, ownRepo, seen, Union(RefsOf(m, options).value, AllOthers(m, target)));
  }

  /** Deleting the cached files of one selection. */
  method EvictCachedAssets(m: Manifest, options: ResolveOptions, protect: Option<seq<ResolveOptions>>, source: Source,
                           ghost ownRepo: Option<string>, ghost seen: Seen)
    returns (r: Result<EvictedAssets, EvictError>)
    requires GoodManifest(m, ownRepo, seen) && Resolvable(m)
    ensures r == Evict(m, options, protect, source)
  {
    var targets := RefsOf(m, options);
    if targets.Failure? {
      return Failure(UnknownName(targets.error));
    }
    if source.evict.None? {
      return Failure(NoCache(m.available));
    }
    var target := NamedSelection(m, options);
    var others := AllOthers(m, target);
    var protectors := Success(DefaultProtectors(others, |others|, targets.value));
    if protect.Some? {
      protectors := ListProtectors(m, protect.value, target);
    }
    assert protectors == Protectors(m, others, targets.value, target, protect);
    if protectors.Failure? {
      return Failure(UnknownName(protectors.error));
    }
    UnionValid(m, ownRepo, seen, options, target);
    var evicted := EvictTargets(targets.value, others, protectors.value, source);
    r := Success(evicted);
  }

  // ----- safety of the whole call -------------------------------------------------------------

  lemma OtherInUnion(targets: seq<FileRef>, others: seq<Candidate>, other: Candidate, ref: FileRef)
    requires other in others && ref in other.refs
    ensures FileRefKey(ref) in KeySet(Union(targets, others))
  {
    InRefsOfAll(others, |others|, ref);
    var all := targets + RefsOfAll(others, |others|);
    assert ref in all;
    UniqueProperties(all);
  }

  lemma FullIsOther(m: Manifest, target: Selection, pair: Selection)
    requires Resolvable(m) && JsMap.Distinct(m.models) && Exists(m, pair) && pair != target
    ensures RefsOf(m, FullOptions(pair)).Success?
    ensures Candidate(pair, RefsOf(m, FullOptions(pair)).value) in AllOthers(m, target)
  {
    ExistingResolves(m, pair);
    SelectionsExist(m, |m.models|, pair);
    AllOthersAre(m, target, Candidate(pair, RefsOf(m, FullOptions(pair)).value));
  }

  /** A narrowed selection's files are among those of its full selection, which is one of the others. */
  lemma CandidateInUnion(m: Manifest, ownRepo: Option<string>, seen: Seen, targets: seq<FileRef>, target: Selection,
                         options: ResolveOptions, ref: FileRef)
    requires GoodManifest(m, ownRepo, seen) && Resolvable(m) && RefsOf(m, options).Success?
    requires NamedSelection(m, options) != target && ref in RefsOf(m, options).value
    ensures FileRefKey(ref) in KeySet(Union(targets, AllOthers(m, target)))
  {
    var pair := NamedSelection(m, options);
    FullResolves(m, options);
    FullHoldsNarrowed(m, ownRepo, seen, options, ref);
    FullIsOther(m, target, pair);
    OtherInUnion(targets, AllOthers(m, target), Candidate(pair, RefsOf(m, FullOptions(pair)).value), ref);
  }

  lemma FullResolves(m: Manifest, options: ResolveOptions)
    requires Resolvable(m) && ResolveSelection(m, options).Success?
    ensures var pair := NamedSelection(m, options);
            && Exists(m, pair)
            && ResolveSelection(m, FullOptions(pair)) == ResolveSelection(m, options.(weights := None))
            && ResolveSelection(m, FullOptions(pair)).Success?
  {
  }

  lemma FullHoldsNarrowed(m: Manifest, ownRepo: Option<string>, seen: Seen, options: ResolveOptions, ref: FileRef)
    requires GoodManifest(m, ownRepo, seen) && Resolvable(m) && RefsOf(m, options).Success?
    requires ref in RefsOf(m, options).value
    ensures RefsOf(m, FullOptions(NamedSelection(m, options))).Success?
    ensures ref in RefsOf(m, FullOptions(NamedSelection(m, options))).value
  {
    GoodNames(m, ownRepo, seen);
    GoodKeysIdentify(m, ownRepo, seen);
    FullResolves(m, options);
    var full := FullOptions(NamedSelection(m, options));
    ResolvedIsFrom(m, options);
    ResolvedIsFrom(m, full);
    var _ := FileListIsExact(ResolveSelection(m, options).value, m);
    var _ := FileListIsExact(ResolveSelection(m, full).value, m);
    if options.weights.Some? {
      assert options == options.(weights := Some(options.weights.value));
      NarrowedNeedsLess(m, options, options.weights.value, ref);
    } else {
      assert options == options.(weights := None);
    }
  }

  predicate AllHeld(refs: seq<FileRef>, source: Source) {
    forall i :: 0 <= i < |refs| ==> Held(source, refs[i])
  }

  /** Readable before the call, and not among what it deleted. */
  predicate StillHeld(refs: seq<FileRef>, source: Source, evicted: seq<FileRef>) {
    AllHeld(refs, source) && !Uses(refs, KeySet(evicted))
  }

  /** For files that were asked about, the stock tells what can be read. */
  lemma StockIsTruth(m: Manifest, union: seq<FileRef>, refs: seq<FileRef>, source: Source)
    requires KeysIdentify(m) && AllFrom(union, m) && AllFrom(refs, m)
    requires forall i :: 0 <= i < |refs| ==> FileRefKey(refs[i]) in KeySet(union)
    ensures Complete(refs, Stock(union, |union|, source)) <==> AllHeld(refs, source)
  {
    var stock := Stock(union, |union|, source);
    forall i | 0 <= i < |refs|
      ensures FileRefKey(refs[i]) in stock <==> Held(source, refs[i])
    {
      var key := FileRefKey(refs[i]);
      StockAre(union, |union|, source, key);
      var k :| 0 <= k < |union| && FileRefKey(union[k]) == key;
      assert union[k] == refs[i];
      if HeldAmong(union, |union|, source, key) {
        var j :| 0 <= j < |union| && Held(source, union[j]) && FileRefKey(union[j]) == key;
        assert union[j] == refs[i];
      }
    }
  }

  /** The context of a call that came through: its targets, the other selections and its protectors. */
  ghost predicate Called(m: Manifest, options: ResolveOptions, protect: Option<seq<ResolveOptions>>, source: Source,
                         targets: seq<FileRef>, others: seq<Candidate>, protectors: seq<Candidate>, result: EvictedAssets)
    requires Resolvable(m)
  {
    && Evict(m, options, protect, source) == Success(result)
    && RefsOf(m, options) == Success(targets)
    && others == AllOthers(m, NamedSelection(m, options))
    && Protectors(m, others, targets, NamedSelection(m, options), protect) == Success(protectors)
  }

  lemma CallUnfolds(m: Manifest, options: ResolveOptions, protect: Option<seq<ResolveOptions>>, source: Source,
                    targets: seq<FileRef>, others: seq<Candidate>, protectors: seq<Candidate>, result: EvictedAssets)
    requires Resolvable(m) && Called(m, options, protect, source, targets, others, protectors, result)
    ensures source.evict.Some?
    ensures result == EvictionOf(targets, others, protectors,
                                 Stock(Union(targets, others), |Union(targets, others)|, source), source.evict.value)
  {
  }

  lemma EvictedAreEvictable(targets: seq<FileRef>, others: seq<Candidate>, protectors: seq<Candidate>, stock: set<string>,
                            remove: seq<FileRef> -> seq<FileRef>)
    ensures var result := EvictionOf(targets, others, protectors, stock, remove);
            forall ref :: ref in result.evicted ==> ref in Evictable(targets, stock, protectors)
  {
    var evictable := Evictable(targets, stock, protectors);
    PartOf(evictable, |evictable|, KeySet(remove(evictable)));
  }

  lemma {:induction false} PartOf(refs: seq<FileRef>, n: nat, keys: set<string>)
    requires n <= |refs|
    ensures forall ref :: ref in Cached(refs, n, keys, true) ==> ref in refs
  {
    if n > 0 {
      PartOf(refs, n - 1, keys);
    }
  }

  ghost predicate Listed(p: Candidate, m: Manifest, union: seq<FileRef>) {
    AllFrom(p.refs, m) && forall i :: 0 <= i < |p.refs| ==> FileRefKey(p.refs[i]) in KeySet(union)
  }

  lemma OtherIsListed(m: Manifest, ownRepo: Option<string>, seen: Seen, targets: seq<FileRef>, target: Selection, k: nat)
    requires GoodManifest(m, ownRepo, seen) && Resolvable(m) && k < |AllOthers(m, target)|
    ensures Listed(AllOthers(m, target)[k], m, Union(targets, AllOthers(m, target)))
    ensures DistinctKeys(AllOthers(m, target)[k].refs)
  {
    var others := AllOthers(m, target);
    assert others[k] in others;
    AllOthersAre(m, target, others[k]);
    ListedInManifest(m, ownRepo, seen, FullOptions(others[k].selection));
    forall i | 0 <= i < |others[k].refs|
      ensures FileRefKey(others[k].refs[i]) in KeySet(Union(targets, others))
    {
      OtherInUnion(targets, others, others[k], others[k].refs[i]);
    }
  }

  lemma {:induction false} DefaultAreOthers(others: seq<Candidate>, n: nat, targets: seq<FileRef>, p: Candidate)
    requires n <= |others| && p in DefaultProtectors(others, n, targets)
    ensures p in others
  {
    if p !in DefaultProtectors(others, n - 1, targets) {
      assert p == others[n - 1];
    } else {
      DefaultAreOthers(others, n - 1, targets, p);
    }
  }

  /** Every protector that ProtectorMap keeps is one of the candidates, and not the target. */
  lemma {:induction false} MapHoldsCandidates(candidates: seq<Candidate>, n: nat, target: Selection, i: nat) returns (k: nat)
    requires n <= |candidates| && i < |ProtectorMap(candidates, n, target)|
    ensures k < n && candidates[k] == ProtectorMap(candidates, n, target)[i].1 && candidates[k].selection != target
  {
    var last := candidates[n - 1];
    var before := ProtectorMap(candidates, n - 1, target);
    if last.selection == target {
      k := MapHoldsCandidates(candidates, n - 1, target, i);
    } else if i < |before| && i != JsMap.IndexOf(before, KeyOf(last)) {
      k := MapHoldsCandidates(candidates, n - 1, target, i);
    } else {
      k := n - 1;
    }
  }

  lemma ProtectorIsListed(m: Manifest, ownRepo: Option<string>, seen: Seen, options: ResolveOptions,
                          protect: Option<seq<ResolveOptions>>, targets: seq<FileRef>, protectors: seq<Candidate>, i: nat)
    requires GoodManifest(m, ownRepo, seen) && Resolvable(m) && RefsOf(m, options) == Success(targets)
    requires var target := NamedSelection(m, options);
             Protectors(m, AllOthers(m, target), targets, target, protect) == Success(protectors)
    requires i < |protectors|
    ensures Listed(protectors[i], m, Union(targets, AllOthers(m, NamedSelection(m, options))))
  {
    var target := NamedSelection(m, options);
    var others := AllOthers(m, target);
    if protect.None? {
      assert protectors[i] in protectors;
      DefaultAreOthers(others, |others|, targets, protectors[i]);
      var k :| 0 <= k < |others| && others[k] == protectors[i];
      OtherIsListed(m, ownRepo, seen, targets, target, k);
    } else {
      var entries := protect.value;
      var candidates := Candidates(CandidateLookup(m), entries, |entries|).value;
      var k := MapHoldsCandidates(candidates, |candidates|, target, i);
      CandidatesAre(CandidateLookup(m), entries, |entries|, k);
      assert CandidateLookup(m)(entries[k]) == CandidateOf(m, entries[k]);
      ListedInManifest(m, ownRepo, seen, entries[k]);
      forall j | 0 <= j < |protectors[i].refs|
        ensures FileRefKey(protectors[i].refs[j]) in KeySet(Union(targets, others))
      {
        CandidateInUnion(m, ownRepo, seen, targets, target, entries[k], protectors[i].refs[j]);
      }
    }
  }

  /**
    Eviction safety: a protecting selection, of the default set or of the caller's list, all of whose
    files could be read before the call can still read all of them after it.
   */
  lemma EvictionIsSafe(m: Manifest, ownRepo: Option<string>, seen: Seen, options: ResolveOptions,
                       protect: Option<seq<ResolveOptions>>, source: Source, targets: seq<FileRef>,
                       others: seq<Candidate>, protectors: seq<Candidate>, result: EvictedAssets, i: nat)
    requires GoodManifest(m, ownRepo, seen) && Resolvable(m)
    requires Called(m, options, protect, source, targets, others, protectors, result)
    requires i < |protectors| && AllHeld(protectors[i].refs, source)
    ensures StillHeld(protectors[i].refs, source, result.evicted)
  {
    var union := Union(targets, others);
    var stock := Stock(union, |union|, source);
    CallUnfolds(m, options, protect, source, targets, others, protectors, result);
    ProtectorIsListed(m, ownRepo, seen, options, protect, targets, protectors, i);
    UnionInManifest(m, ownRepo, seen, options, NamedSelection(m, options));
    GoodKeysIdentify(m, ownRepo, seen);
    StockIsTruth(m, union, protectors[i].refs, source);
    EvictedAreEvictable(targets, others, protectors, stock, source.evict.value);
    ProtectorsStayComplete(targets, stock, protectors, result.evicted, i);
    CompleteAfter(protectors[i].refs, stock, KeySet(result.evicted));
  }

  /** Labels of the others that could be read in full before the call and cannot be after it. */
  function Lost(others: seq<Candidate>, n: nat, source: Source, evicted: seq<FileRef>): seq<string>
    requires n <= |others|
  {
    if n == 0 then []
    else if AllHeld(others[n - 1].refs, source) && !StillHeld(others[n - 1].refs, source, evicted) then
      Lost(others, n - 1, source, evicted) + [LabelOf(others[n - 1].selection)]
    else Lost(others, n - 1, source, evicted)
  }

  lemma {:induction false} ReportedIsLost(
    others: seq<Candidate>, n: nat, stock: set<string>, source: Source, evicted: seq<FileRef>)
    requires n <= |others|
    requires forall k :: 0 <= k < n ==> (Complete(others[k].refs, stock) <==> AllHeld(others[k].refs, source))
    ensures AlsoEvicted(others, n, stock, KeySet(evicted)) == Lost(others, n, source, evicted)
  {
    if n > 0 {
      ReportedIsLost(others, n - 1, stock, source, evicted);
    }
  }

  /**
    The collateral report is exact: it names, in declaration order, the other selections of the manifest
    that could be read in full before the call and cannot be after it.
   */
  lemma CollateralIsReported(m: Manifest, ownRepo: Option<string>, seen: Seen, options: ResolveOptions,
                             protect: Option<seq<ResolveOptions>>, source: Source, targets: seq<FileRef>,
                             others: seq<Candidate>, protectors: seq<Candidate>, result: EvictedAssets)
    requires GoodManifest(m, ownRepo, seen) && Resolvable(m)
    requires Called(m, options, protect, source, targets, others, protectors, result)
    ensures result.alsoEvicted == Lost(others, |others|, source, result.evicted)
  {
    var union := Union(targets, others);
    CallUnfolds(m, options, protect, source, targets, others, protectors, result);
    UnionInManifest(m, ownRepo, seen, options, NamedSelection(m, options));
    GoodKeysIdentify(m, ownRepo, seen);
    forall k | 0 <= k < |others|
      ensures Complete(others[k].refs, Stock(union, |union|, source)) <==> AllHeld(others[k].refs, source)
    {
      OtherIsListed(m, ownRepo, seen, targets, NamedSelection(m, options), k);
      StockIsTruth(m, union, others[k].refs, source);
    }
    ReportedIsLost(others, |others|, Stock(union, |union|, source), source, result.evicted);
  }

  /** With the default protectors, every selection that is lost has exactly the target's files. */
  lemma DefaultLosesOnlySiblings(m: Manifest, ownRepo: Option<string>, seen: Seen, options: ResolveOptions,
                                 source: Source, targets: seq<FileRef>, others: seq<Candidate>,
                                 protectors: seq<Candidate>, result: EvictedAssets, k: nat)
    requires GoodManifest(m, ownRepo, seen) && Resolvable(m)
    requires Called(m, options, None, source, targets, others, protectors, result)
    requires k < |others| && AllHeld(others[k].refs, source) && !StillHeld(others[k].refs, source, result.evicted)
    ensures KeySet(others[k].refs) == KeySet(targets)
  {
    OtherIsListed(m, ownRepo, seen, targets, NamedSelection(m, options), k);
    ListedInManifest(m, ownRepo, seen, options);
    if SameRefSet(others[k].refs, targets) {
      SameRefSetIsSetEquality(others[k].refs, targets);
    } else {
      DefaultProtects(others, |others|, targets, k);
      var i :| 0 <= i < |protectors| && protectors[i] == others[k];
      EvictionIsSafe(m, ownRepo, seen, options, None, source, targets, others, protectors, result, i);
    }
  }
}
