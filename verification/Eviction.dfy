/**
  What deleting the cached files of one selection does, stated on what the sources hold
  (packages/hub/src/inventory.ts, `evictCachedAssets`).
 */
module Eviction {
  import opened Wrappers
  import opened FileRefs
  import opened ManifestParser
  import opened AcceptedManifests
  import opened Resolve
  import opened Inventory
  import JsMap

  function Where<T>(xs: seq<T>, keep: T -> bool): seq<T> {
    if xs == [] then []
    else
      var before, last := Where(xs[..|xs| - 1], keep), xs[|xs| - 1];
      if keep(last) then before + [last] else before
  }

  // ----- which targets stay, and why ----------------------------------------------------------

  /** All files of the protector can be read, each from its own origin, and the file is one of them. */
  ghost predicate Protects(p: Candidate, source: Source, ref: FileRef) {
    && (forall i :: 0 <= i < |p.refs| ==> source.has(CrossRefOf(p.refs[i]), p.refs[i]))
    && exists i :: 0 <= i < |p.refs| && FileRefKey(p.refs[i]) == FileRefKey(ref)
  }

  ghost predicate Protected(protectors: seq<Candidate>, source: Source, ref: FileRef) {
    exists i :: 0 <= i < |protectors| && Protects(protectors[i], source, ref)
  }

  /** Cached, of the manifest's own repo, and used by no protector that is complete. */
  ghost predicate Removable(protectors: seq<Candidate>, source: Source, ref: FileRef) {
    source.has(CrossRefOf(ref), ref) && CrossRefOf(ref).None? && !Protected(protectors, source, ref)
  }

  ghost predicate Stays(protectors: seq<Candidate>, source: Source, ref: FileRef) {
    source.has(CrossRefOf(ref), ref) && (CrossRefOf(ref).Some? || Protected(protectors, source, ref))
  }

  /** Protector i is the first that protects the file under this label. */
  ghost predicate FirstNamed(protectors: seq<Candidate>, source: Source, ref: FileRef, text: string, i: nat) {
    && i < |protectors| && Protects(protectors[i], source, ref) && Named(protectors[i]) == text
    && forall j :: 0 <= j < i ==> !(Protects(protectors[j], source, ref) && Named(protectors[j]) == text)
  }

  function Named(p: Candidate): string { p.selection.model + "/" + p.selection.quant }

  ghost predicate InOrderOfProtectors(labels: seq<string>, protectors: seq<Candidate>, source: Source, ref: FileRef) {
    forall k: nat, l: nat, i: nat, j: nat ::
      (k < l < |labels| && FirstNamed(protectors, source, ref, labels[k], i)
       && FirstNamed(protectors, source, ref, labels[l], j)) ==> i < j
  }

  /** The labels are those of the protectors of the file, once each, in the order of the protectors. */
  ghost predicate NamesProtectors(labels: seq<string>, protectors: seq<Candidate>, source: Source, ref: FileRef) {
    && (forall text: string :: text in labels <==> exists i: nat :: FirstNamed(protectors, source, ref, text, i))
    && InOrderOfProtectors(labels, protectors, source, ref)
  }

  /** The reason given for a file that stays. */
  ghost predicate Explained(asset: KeptAsset, protectors: seq<Candidate>, source: Source) {
    if CrossRefOf(asset.ref).Some? then asset.reason == CrossRepo && asset.sharedWith == []
    else asset.reason == Shared && NamesProtectors(asset.sharedWith, protectors, source, asset.ref)
  }

  function RefsOfKept(kept: seq<KeptAsset>): (refs: seq<FileRef>)
    ensures |refs| == |kept| && forall k :: 0 <= k < |kept| ==> refs[k] == kept[k].ref
  {
    seq(|kept|, k requires 0 <= k < |kept| => kept[k].ref)
  }

  // ----- the stock and the sources ------------------------------------------------------------

  /** For these files and protectors, the stock tells what the origins hold. */
  ghost predicate StockTells(stock: set<string>, targets: seq<FileRef>, protectors: seq<Candidate>, source: Source) {
    && (forall ref :: ref in targets ==> (FileRefKey(ref) in stock <==> source.has(CrossRefOf(ref), ref)))
    && (forall i :: 0 <= i < |protectors| ==>
          (Complete(protectors[i].refs, stock) <==>
           forall k :: 0 <= k < |protectors[i].refs| ==> source.has(CrossRefOf(protectors[i].refs[k]), protectors[i].refs[k])))
  }

  lemma UsesKey(refs: seq<FileRef>, ref: FileRef)
    ensures FileRefKey(ref) in KeySet(refs) <==> exists i :: 0 <= i < |refs| && FileRefKey(refs[i]) == FileRefKey(ref)
  {
  }

  lemma ProtectsByStock(stock: set<string>, targets: seq<FileRef>, protectors: seq<Candidate>, source: Source,
                        ref: FileRef, i: nat)
    requires StockTells(stock, targets, protectors, source) && i < |protectors|
    ensures Protects(protectors[i], source, ref) <==>
            Complete(protectors[i].refs, stock) && FileRefKey(ref) in KeySet(protectors[i].refs)
  {
    UsesKey(protectors[i].refs, ref);
  }

  /** The labels collected from the first n protectors. */
  ghost predicate LabelsOf(labels: seq<string>, protectors: seq<Candidate>, source: Source, ref: FileRef, n: nat) {
    forall text: string :: text in labels <==> exists i: nat :: i < n && FirstNamed(protectors, source, ref, text, i)
  }

  ghost predicate LabelsSoFar(labels: seq<string>, protectors: seq<Candidate>, source: Source, ref: FileRef, n: nat) {
    LabelsOf(labels, protectors, source, ref, n) && InOrderOfProtectors(labels, protectors, source, ref)
  }

  lemma OneFirst(protectors: seq<Candidate>, source: Source, ref: FileRef, text: string, i: nat, j: nat)
    requires FirstNamed(protectors, source, ref, text, i) && FirstNamed(protectors, source, ref, text, j)
    ensures i == j
  {
  }

  /** Some protector that protects under the label comes first. */
  lemma {:induction false} SomeFirst(protectors: seq<Candidate>, source: Source, ref: FileRef, i: nat) returns (j: nat)
    requires i < |protectors| && Protects(protectors[i], source, ref)
    ensures j <= i && FirstNamed(protectors, source, ref, Named(protectors[i]), j)
  {
    if k: nat :| k < i && Protects(protectors[k], source, ref) && Named(protectors[k]) == Named(protectors[i]) {
      j := SomeFirst(protectors, source, ref, k);
    } else {
      j := i;
    }
  }

  /** One more protector's label, if it protects and is not named yet. */
  function NextLabels(labels: seq<string>, protects: bool, name: string): seq<string> {
    if protects && name !in labels then labels + [name] else labels
  }

  /** A label that is new comes from this protector first. */
  lemma NewLabelIsFirst(labels: seq<string>, protectors: seq<Candidate>, source: Source, ref: FileRef, n: nat)
    requires n < |protectors| && LabelsOf(labels, protectors, source, ref, n)
    requires Protects(protectors[n], source, ref)
    ensures Named(protectors[n]) !in labels <==> FirstNamed(protectors, source, ref, Named(protectors[n]), n)
  {
    var name := Named(protectors[n]);
    var j := SomeFirst(protectors, source, ref, n);
    if j < n {
      assert name in labels;
    }
    if name in labels {
      var i: nat :| i < n && FirstNamed(protectors, source, ref, name, i);
    }
  }

  lemma NextLabelsOf(labels: seq<string>, protectors: seq<Candidate>, source: Source, ref: FileRef, n: nat)
    requires n < |protectors| && LabelsOf(labels, protectors, source, ref, n)
    ensures LabelsOf(NextLabels(labels, Protects(protectors[n], source, ref), Named(protectors[n])),
                     protectors, source, ref, n + 1)
  {
    var more := NextLabels(labels, Protects(protectors[n], source, ref), Named(protectors[n]));
    if Protects(protectors[n], source, ref) {
      NewLabelIsFirst(labels, protectors, source, ref, n);
    }
    forall text: string
      ensures text in more <==> exists i: nat :: i < n + 1 && FirstNamed(protectors, source, ref, text, i)
    {
      if text in labels {
        var i: nat :| i < n && FirstNamed(protectors, source, ref, text, i);
        assert i < n + 1;
      }
      if i: nat :| i < n + 1 && FirstNamed(protectors, source, ref, text, i) {
        assert i < n ==> text in labels;
      }
    }
  }

  lemma NextInOrder(labels: seq<string>, protectors: seq<Candidate>, source: Source, ref: FileRef, n: nat)
    requires n < |protectors| && LabelsSoFar(labels, protectors, source, ref, n)
    requires FirstNamed(protectors, source, ref, Named(protectors[n]), n)
    ensures InOrderOfProtectors(labels + [Named(protectors[n])], protectors, source, ref)
  {
    var name, more := Named(protectors[n]), labels + [Named(protectors[n])];
    forall k: nat, l: nat, i: nat, j: nat | k < l < |more| && FirstNamed(protectors, source, ref, more[k], i)
        && FirstNamed(protectors, source, ref, more[l], j)
      ensures i < j
    {
      assert more[k] == labels[k] && labels[k] in labels;
      if l == |labels| {
        var h: nat :| h < n && FirstNamed(protectors, source, ref, labels[k], h);
        OneFirst(protectors, source, ref, labels[k], h, i);
        OneFirst(protectors, source, ref, name, j, n);
      } else {
        assert more[l] == labels[l];
      }
    }
  }

  lemma NextLabel(labels: seq<string>, protectors: seq<Candidate>, source: Source, ref: FileRef, n: nat)
    requires n < |protectors| && LabelsSoFar(labels, protectors, source, ref, n)
    ensures LabelsSoFar(NextLabels(labels, Protects(protectors[n], source, ref), Named(protectors[n])),
                        protectors, source, ref, n + 1)
  {
    NextLabelsOf(labels, protectors, source, ref, n);
    if Protects(protectors[n], source, ref) && Named(protectors[n]) !in labels {
      NewLabelIsFirst(labels, protectors, source, ref, n);
      NextInOrder(labels, protectors, source, ref, n);
    }
  }

  lemma NextShared(protectors: seq<Candidate>, n: nat, stock: set<string>, targets: seq<FileRef>, source: Source, ref: FileRef)
    requires n < |protectors| && StockTells(stock, targets, protectors, source)
    ensures SharedBy(protectors, n + 1, stock, FileRefKey(ref)) ==
            NextLabels(SharedBy(protectors, n, stock, FileRefKey(ref)), Protects(protectors[n], source, ref), Named(protectors[n]))
  {
    ProtectsByStock(stock, targets, protectors, source, ref, n);
  }

  /** The labels of the first n protectors, by what the origins hold. */
  ghost function LabelsFrom(protectors: seq<Candidate>, n: nat, source: Source, ref: FileRef): seq<string>
    requires n <= |protectors|
  {
    if n == 0 then []
    else NextLabels(LabelsFrom(protectors, n - 1, source, ref), Protects(protectors[n - 1], source, ref), Named(protectors[n - 1]))
  }

  lemma {:induction false} LabelsFromOrigins(protectors: seq<Candidate>, n: nat, stock: set<string>, targets: seq<FileRef>,
                                             source: Source, ref: FileRef)
    requires n <= |protectors| && StockTells(stock, targets, protectors, source)
    ensures SharedBy(protectors, n, stock, FileRefKey(ref)) == LabelsFrom(protectors, n, source, ref)
  {
    if n > 0 {
      LabelsFromOrigins(protectors, n - 1, stock, targets, source, ref);
      NextShared(protectors, n - 1, stock, targets, source, ref);
    }
  }

  lemma {:induction false} SharedLabelsAre(protectors: seq<Candidate>, n: nat, source: Source, ref: FileRef)
    requires n <= |protectors|
    ensures LabelsSoFar(LabelsFrom(protectors, n, source, ref), protectors, source, ref, n)
  {
    if n > 0 {
      SharedLabelsAre(protectors, n - 1, source, ref);
      NextLabel(LabelsFrom(protectors, n - 1, source, ref), protectors, source, ref, n - 1);
    }
  }

  lemma SomeLabel(labels: seq<string>, protectors: seq<Candidate>, source: Source, ref: FileRef)
    requires NamesProtectors(labels, protectors, source, ref)
    ensures labels != [] <==> Protected(protectors, source, ref)
  {
    if i: nat :| i < |protectors| && Protects(protectors[i], source, ref) {
      var j := SomeFirst(protectors, source, ref, i);
      assert Named(protectors[i]) in labels;
    }
    if labels != [] {
      assert labels[0] in labels;
    }
  }

  lemma SharedNames(protectors: seq<Candidate>, stock: set<string>, targets: seq<FileRef>, source: Source, ref: FileRef)
    requires StockTells(stock, targets, protectors, source)
    ensures var labels := SharedBy(protectors, |protectors|, stock, FileRefKey(ref));
            NamesProtectors(labels, protectors, source, ref) && (labels != [] <==> Protected(protectors, source, ref))
  {
    var labels := SharedBy(protectors, |protectors|, stock, FileRefKey(ref));
    LabelsFromOrigins(protectors, |protectors|, stock, targets, source, ref);
    SharedLabelsAre(protectors, |protectors|, source, ref);
    AllLabels(labels, protectors, source, ref);
    SomeLabel(labels, protectors, source, ref);
  }

  lemma AllLabels(labels: seq<string>, protectors: seq<Candidate>, source: Source, ref: FileRef)
    requires LabelsSoFar(labels, protectors, source, ref, |protectors|)
    ensures NamesProtectors(labels, protectors, source, ref)
  {
    forall text: string
      ensures text in labels <==> exists i: nat :: FirstNamed(protectors, source, ref, text, i)
    {
      if i: nat :| FirstNamed(protectors, source, ref, text, i) {
        assert i < |protectors|;
      }
    }
  }

  /** The verdict on a target is what the sources say. */
  lemma VerdictIsRight(protectors: seq<Candidate>, stock: set<string>, targets: seq<FileRef>, source: Source, ref: FileRef)
    requires StockTells(stock, targets, protectors, source) && ref in targets
    ensures var verdict := VerdictOf(ref, stock, protectors);
            && (verdict.Delete? <==> Removable(protectors, source, ref))
            && (verdict.Keep? <==> Stays(protectors, source, ref))
            && (verdict.Keep? ==> verdict.asset.ref == ref && Explained(verdict.asset, protectors, source))
  {
    SharedNames(protectors, stock, targets, source, ref);
  }

  lemma {:induction false} DeletedIsWhere(targets: seq<FileRef>, n: nat, judge: FileRef -> Verdict, keep: FileRef -> bool)
    requires n <= |targets| && forall ref :: ref in targets ==> (judge(ref).Delete? <==> keep(ref))
    ensures DeletedBy(targets, n, judge) == Where(targets[..n], keep)
  {
    if n > 0 {
      DeletedIsWhere(targets, n - 1, judge, keep);
      assert targets[..n][..n - 1] == targets[..n - 1];
      assert targets[n - 1] in targets;
    }
  }

  lemma {:induction false} KeptIsWhere(targets: seq<FileRef>, n: nat, judge: FileRef -> Verdict, keep: FileRef -> bool)
    requires n <= |targets|
    requires forall ref :: ref in targets ==>
               (judge(ref).Keep? <==> keep(ref)) && (judge(ref).Keep? ==> judge(ref).asset.ref == ref)
    ensures RefsOfKept(KeptBy(targets, n, judge)) == Where(targets[..n], keep)
  {
    if n > 0 {
      KeptIsWhere(targets, n - 1, judge, keep);
      assert targets[..n][..n - 1] == targets[..n - 1];
      assert targets[n - 1] in targets;
      var before := KeptBy(targets, n - 1, judge);
      if keep(targets[n - 1]) {
        assert RefsOfKept(before + [judge(targets[n - 1]).asset]) == RefsOfKept(before) + [targets[n - 1]];
      }
    }
  }

  lemma {:induction false} CachedIsWhere(refs: seq<FileRef>, n: nat, keys: set<string>)
    requires n <= |refs|
    ensures Cached(refs, n, keys, true) == Where(refs[..n], ref => FileRefKey(ref) in keys)
  {
    if n > 0 {
      CachedIsWhere(refs, n - 1, keys);
      assert refs[..n][..n - 1] == refs[..n - 1];
    }
  }

  // ----- listing ------------------------------------------------------------------------------

  /** Listing is exact: in file-list order, the files whose own origins hold them, and the rest. */
  lemma ListIsExact(m: Manifest, options: ResolveOptions, source: Source)
    requires Resolvable(m) && RefsOf(m, options).Success?
    ensures var refs := RefsOf(m, options).value;
            CachedOf(refs, source) == CachedAssets(Where(refs, ref => source.has(CrossRefOf(ref), ref)),
                                                   Where(refs, ref => !source.has(CrossRefOf(ref), ref)))
  {
    var refs := RefsOf(m, options).value;
    var stock := Stock(refs, |refs|, source);
    UniqueProperties(ListedRefs(ResolveSelection(m, options).value));
    CachedIsWhere(refs, |refs|, stock);
    MissingIsWhere(refs, |refs|, stock);
    assert refs[..|refs|] == refs;
    forall ref | ref in refs
      ensures FileRefKey(ref) in stock <==> source.has(CrossRefOf(ref), ref)
    {
      StockAre(refs, |refs|, source, FileRefKey(ref));
      if k :| 0 <= k < |refs| && Held(source, refs[k]) && FileRefKey(refs[k]) == FileRefKey(ref) {
        var j :| 0 <= j < |refs| && refs[j] == ref;
        assert j == k;
      }
    }
    SameWhere(refs, ref => FileRefKey(ref) in stock, ref => source.has(CrossRefOf(ref), ref));
    SameWhere(refs, ref => FileRefKey(ref) !in stock, ref => !source.has(CrossRefOf(ref), ref));
  }

  lemma {:induction false} MissingIsWhere(refs: seq<FileRef>, n: nat, keys: set<string>)
    requires n <= |refs|
    ensures Cached(refs, n, keys, false) == Where(refs[..n], ref => FileRefKey(ref) !in keys)
  {
    if n > 0 {
      MissingIsWhere(refs, n - 1, keys);
      assert refs[..n][..n - 1] == refs[..n - 1];
    }
  }

  // ----- the whole call -----------------------------------------------------------------------

  /** What a call with these protectors deletes and keeps. */
  ghost predicate EvictsRight(targets: seq<FileRef>, protectors: seq<Candidate>, source: Source, result: EvictedAssets) {
    source.evict.Some? &&
    var requested := Where(targets, ref => Removable(protectors, source, ref));
    var removed := source.evict.value(requested);
    && result.evicted == Where(requested, ref => exists k :: 0 <= k < |removed| && FileRefKey(removed[k]) == FileRefKey(ref))
    && RefsOfKept(result.kept) == Where(targets, ref => Stays(protectors, source, ref))
    && forall asset :: asset in result.kept ==> Explained(asset, protectors, source)
  }

  lemma {:induction false} SameWhere<T>(xs: seq<T>, keep: T -> bool, other: T -> bool)
    requires forall x :: x in xs ==> keep(x) == other(x)
    ensures Where(xs, keep) == Where(xs, other)
  {
    if xs != [] {
      SameWhere(xs[..|xs| - 1], keep, other);
      assert xs[|xs| - 1] in xs;
    }
  }

  lemma EvictableIsWhere(targets: seq<FileRef>, protectors: seq<Candidate>, stock: set<string>, source: Source)
    requires StockTells(stock, targets, protectors, source)
    ensures Evictable(targets, stock, protectors) == Where(targets, ref => Removable(protectors, source, ref))
  {
    var judge := JudgeWith(stock, protectors);
    forall ref | ref in targets
      ensures judge(ref).Delete? <==> Removable(protectors, source, ref)
    {
      VerdictIsRight(protectors, stock, targets, source, ref);
    }
    DeletedIsWhere(targets, |targets|, judge, ref => Removable(protectors, source, ref));
    assert targets[..|targets|] == targets;
  }

  lemma KeptIsRight(targets: seq<FileRef>, protectors: seq<Candidate>, stock: set<string>, source: Source)
    requires StockTells(stock, targets, protectors, source)
    ensures RefsOfKept(KeptOf(targets, stock, protectors)) == Where(targets, ref => Stays(protectors, source, ref))
    ensures forall asset :: asset in KeptOf(targets, stock, protectors) ==> Explained(asset, protectors, source)
  {
    var judge := JudgeWith(stock, protectors);
    forall ref | ref in targets
      ensures judge(ref).Keep? <==> Stays(protectors, source, ref)
      ensures judge(ref).Keep? ==> judge(ref).asset.ref == ref
    {
      VerdictIsRight(protectors, stock, targets, source, ref);
    }
    KeptIsWhere(targets, |targets|, judge, ref => Stays(protectors, source, ref));
    assert targets[..|targets|] == targets;
    forall asset | asset in KeptOf(targets, stock, protectors)
      ensures Explained(asset, protectors, source)
    {
      KeptAre(targets, stock, protectors, asset);
      VerdictIsRight(protectors, stock, targets, source, asset.ref);
    }
  }

  lemma RemovedIsWhere(refs: seq<FileRef>, removed: seq<FileRef>)
    ensures Cached(refs, |refs|, KeySet(removed), true) ==
            Where(refs, ref => exists k :: 0 <= k < |removed| && FileRefKey(removed[k]) == FileRefKey(ref))
  {
    CachedIsWhere(refs, |refs|, KeySet(removed));
    assert refs[..|refs|] == refs;
    forall ref | ref in refs
      ensures FileRefKey(ref) in KeySet(removed) <==> exists k :: 0 <= k < |removed| && FileRefKey(removed[k]) == FileRefKey(ref)
    {
      UsesKey(removed, ref);
    }
    SameWhere(refs, ref => FileRefKey(ref) in KeySet(removed),
              ref => exists k :: 0 <= k < |removed| && FileRefKey(removed[k]) == FileRefKey(ref));
  }

  lemma EvictionOfIsRight(targets: seq<FileRef>, others: seq<Candidate>, protectors: seq<Candidate>, stock: set<string>,
                          source: Source)
    requires StockTells(stock, targets, protectors, source) && source.evict.Some?
    ensures EvictsRight(targets, protectors, source, EvictionOf(targets, others, protectors, stock, source.evict.value))
  {
    EvictableIsWhere(targets, protectors, stock, source);
    KeptIsRight(targets, protectors, stock, source);
    var requested := Evictable(targets, stock, protectors);
    RemovedIsWhere(requested, source.evict.value(requested));
  }

  lemma StockTellsTarget(m: Manifest, union: seq<FileRef>, targets: seq<FileRef>, source: Source, ref: FileRef)
    requires KeysIdentify(m) && AllFrom(union, m) && AllFrom(targets, m)
    requires ref in targets && FileRefKey(ref) in KeySet(union)
    ensures FileRefKey(ref) in Stock(union, |union|, source) <==> source.has(CrossRefOf(ref), ref)
  {
    var k :| 0 <= k < |targets| && targets[k] == ref;
    assert InManifest(targets[k], m) && [ref][0] == ref;
    StockIsTruth(m, union, [ref], source);
    HeldAll([ref], source);
    assert Complete([ref], Stock(union, |union|, source)) <==> FileRefKey(ref) in Stock(union, |union|, source);
  }

  lemma StockTellsProtector(m: Manifest, union: seq<FileRef>, p: Candidate, source: Source)
    requires KeysIdentify(m) && AllFrom(union, m) && Listed(p, m, union)
    ensures Complete(p.refs, Stock(union, |union|, source)) <==>
            forall k :: 0 <= k < |p.refs| ==> source.has(CrossRefOf(p.refs[k]), p.refs[k])
  {
    StockIsTruth(m, union, p.refs, source);
    HeldAll(p.refs, source);
  }

  lemma StockTellsAll(m: Manifest, ownRepo: Option<string>, seen: Seen, options: ResolveOptions,
                      protect: Option<seq<ResolveOptions>>, source: Source, targets: seq<FileRef>,
                      others: seq<Candidate>, protectors: seq<Candidate>)
    requires GoodManifest(m, ownRepo, seen) && Resolvable(m) && RefsOf(m, options) == Success(targets)
    requires others == AllOthers(m, NamedSelection(m, options))
    requires Protectors(m, others, targets, NamedSelection(m, options), protect) == Success(protectors)
    ensures StockTells(Stock(Union(targets, others), |Union(targets, others)|, source), targets, protectors, source)
  {
    var union := Union(targets, others);
    UnionInManifest(m, ownRepo, seen, options, NamedSelection(m, options));
    GoodKeysIdentify(m, ownRepo, seen);
    ListedInManifest(m, ownRepo, seen, options);
    forall ref | ref in targets
      ensures FileRefKey(ref) in Stock(union, |union|, source) <==> source.has(CrossRefOf(ref), ref)
    {
      TargetInUnion(targets, others, ref);
      StockTellsTarget(m, union, targets, source, ref);
    }
    forall i | 0 <= i < |protectors|
      ensures Complete(protectors[i].refs, Stock(union, |union|, source)) <==>
              forall k :: 0 <= k < |protectors[i].refs| ==> source.has(CrossRefOf(protectors[i].refs[k]), protectors[i].refs[k])
    {
      ProtectorIsListed(m, ownRepo, seen, options, protect, targets, protectors, i);
      StockTellsProtector(m, union, protectors[i], source);
    }
  }

  lemma HeldAll(refs: seq<FileRef>, source: Source)
    ensures AllHeld(refs, source) <==> forall k :: 0 <= k < |refs| ==> source.has(CrossRefOf(refs[k]), refs[k])
  {
    if AllHeld(refs, source) {
      forall k | 0 <= k < |refs|
        ensures source.has(CrossRefOf(refs[k]), refs[k])
      {
        assert Held(source, refs[k]);
      }
    }
  }

  lemma TargetInUnion(targets: seq<FileRef>, others: seq<Candidate>, ref: FileRef)
    requires ref in targets
    ensures FileRefKey(ref) in KeySet(Union(targets, others))
  {
    var all := targets + RefsOfAll(others, |others|);
    assert ref in all;
    UniqueProperties(all);
    var k :| 0 <= k < |all| && all[k] == ref;
    assert FileRefKey(all[k]) in KeySet(all);
  }

  /**
    The eviction is exact.  Of the selection's files, the source is asked to delete just those that can be
    read, belong to the manifest's own repo and are used by no protector all of whose files can be read;
    the result names those the source reports as deleted, and every other readable file as kept, for the
    reason that it is of another repo or with the labels of the protectors that use it.
   */
  lemma EvictionIsExact(m: Manifest, ownRepo: Option<string>, seen: Seen, options: ResolveOptions,
                        protect: Option<seq<ResolveOptions>>, source: Source, targets: seq<FileRef>,
                        others: seq<Candidate>, protectors: seq<Candidate>, result: EvictedAssets)
    requires GoodManifest(m, ownRepo, seen) && Resolvable(m)
    requires Called(m, options, protect, source, targets, others, protectors, result)
    ensures EvictsRight(targets, protectors, source, result)
  {
    CallUnfolds(m, options, protect, source, targets, others, protectors, result);
    StockTellsAll(m, ownRepo, seen, options, protect, source, targets, others, protectors);
    EvictionOfIsRight(targets, others, protectors, Stock(Union(targets, others), |Union(targets, others)|, source), source);
  }

  // ----- who protects -------------------------------------------------------------------------

  /** a is declared before b. */
  ghost predicate DeclaredBefore(m: Manifest, a: Selection, b: Selection) {
    && Exists(m, a) && Exists(m, b)
    && var i, j := JsMap.IndexOf(m.models, a.model), JsMap.IndexOf(m.models, b.model);
       i < j || (i == j && JsMap.IndexOf(m.models[i].1.quants, a.quant) < JsMap.IndexOf(m.models[i].1.quants, b.quant))
  }

  ghost predicate InDeclaration(m: Manifest, selections: seq<Selection>) {
    forall i, j :: 0 <= i < j < |selections| ==> DeclaredBefore(m, selections[i], selections[j])
  }

  ghost predicate DistinctEntries(m: Manifest) {
    JsMap.Distinct(m.models) && forall i :: 0 <= i < |m.models| ==> JsMap.Distinct(m.models[i].1.quants)
  }

  lemma {:induction false} PairsInOrder(m: Manifest, i: nat, n: nat)
    requires DistinctEntries(m) && i < |m.models| && n <= |m.models[i].1.quants|
    ensures var pairs := Pairs(m.models[i].0, m.models[i].1.quants, n);
            && |pairs| == n && (forall k :: 0 <= k < n ==> pairs[k] == Selection(m.models[i].0, m.models[i].1.quants[k].0))
            && InDeclaration(m, pairs) && forall k :: 0 <= k < n ==> Exists(m, pairs[k])
  {
    var (model, entry) := m.models[i];
    JsMap.GetEntry(m.models, i);
    assert JsMap.IndexOf(m.models, model) == i;
    forall k | 0 <= k < |entry.quants|
      ensures JsMap.IndexOf(entry.quants, entry.quants[k].0) == k
    {
      JsMap.GetEntry(entry.quants, k);
    }
    if n > 0 {
      PairsInOrder(m, i, n - 1);
    }
  }

  lemma {:induction false} SelectionsInOrder(m: Manifest, n: nat)
    requires DistinctEntries(m) && n <= |m.models|
    ensures InDeclaration(m, AllSelections(m, n))
    ensures forall k :: 0 <= k < |AllSelections(m, n)| ==>
              Exists(m, AllSelections(m, n)[k]) && JsMap.IndexOf(m.models, AllSelections(m, n)[k].model) < n
  {
    if n > 0 {
      SelectionsInOrder(m, n - 1);
      PairsInOrder(m, n - 1, |m.models[n - 1].1.quants|);
      JsMap.GetEntry(m.models, n - 1);
      assert JsMap.IndexOf(m.models, m.models[n - 1].0) == n - 1;
    }
  }

  lemma AppendInOrder(m: Manifest, before: seq<Selection>, pair: Selection)
    requires InDeclaration(m, before) && forall k :: 0 <= k < |before| ==> DeclaredBefore(m, before[k], pair)
    ensures InDeclaration(m, before + [pair])
  {
  }

  lemma {:induction false} OthersInOrder(m: Manifest, lookup: Selection -> Result<seq<FileRef>, Labels>,
                                         pairs: seq<Selection>, n: nat, target: Selection)
    requires n <= |pairs| && InDeclaration(m, pairs)
    ensures var others := Others(lookup, pairs, n, target);
            && InDeclaration(m, Selections(others))
            && forall k :: 0 <= k < |others| ==> others[k].selection in pairs[..n]
  {
    if n > 0 {
      OthersInOrder(m, lookup, pairs, n - 1, target);
      var before, others := Others(lookup, pairs, n - 1, target), Others(lookup, pairs, n, target);
      assert pairs[..n] == pairs[..n - 1] + [pairs[n - 1]];
      forall k | 0 <= k < |before|
        ensures DeclaredBefore(m, Selections(before)[k], pairs[n - 1])
      {
        assert before[k].selection in pairs[..n - 1];
        var i :| 0 <= i < n - 1 && pairs[i] == before[k].selection;
      }
      AppendInOrder(m, Selections(before), pairs[n - 1]);
      if others != before {
        assert Selections(others) == Selections(before) + [pairs[n - 1]];
      }
    }
  }

  function Selections(candidates: seq<Candidate>): (selections: seq<Selection>)
    ensures |selections| == |candidates| && forall k :: 0 <= k < |candidates| ==> selections[k] == candidates[k].selection
  {
    seq(|candidates|, k requires 0 <= k < |candidates| => candidates[k].selection)
  }

  /** The other selections are all declared pairs but the target, with their files, in declaration order. */
  lemma OthersAreTheOthers(m: Manifest, target: Selection)
    requires Resolvable(m) && DistinctEntries(m)
    ensures var others := AllOthers(m, target);
            && InDeclaration(m, Selections(others))
            && forall pair: Selection, refs: seq<FileRef> ::
                 Candidate(pair, refs) in others <==>
                 Exists(m, pair) && pair != target && RefsOf(m, FullOptions(pair)) == Success(refs)
  {
    var pairs := AllSelections(m, |m.models|);
    SelectionsInOrder(m, |m.models|);
    OthersInOrder(m, FullRefs(m), pairs, |pairs|, target);
    forall pair: Selection, refs: seq<FileRef>
      ensures Candidate(pair, refs) in AllOthers(m, target) <==>
              Exists(m, pair) && pair != target && RefsOf(m, FullOptions(pair)) == Success(refs)
    {
      AllOthersAre(m, target, Candidate(pair, refs));
      SelectionsExist(m, |m.models|, pair);
    }
  }

  lemma {:induction false} DefaultIsWhere(others: seq<Candidate>, n: nat, targets: seq<FileRef>)
    requires n <= |others| && DistinctKeys(targets) && forall k :: 0 <= k < |others| ==> DistinctKeys(others[k].refs)
    ensures DefaultProtectors(others, n, targets) == Where(others[..n], (other: Candidate) => KeySet(other.refs) != KeySet(targets))
  {
    if n > 0 {
      DefaultIsWhere(others, n - 1, targets);
      assert others[..n][..n - 1] == others[..n - 1];
      SameRefSetIsSetEquality(others[n - 1].refs, targets);
    }
  }

  /** Without a `protect` list, the protectors are the other selections that do not have exactly the target's files. */
  lemma DefaultProtectorsAre(m: Manifest, ownRepo: Option<string>, seen: Seen, options: ResolveOptions)
    requires GoodManifest(m, ownRepo, seen) && Resolvable(m) && RefsOf(m, options).Success?
    ensures var target, targets := NamedSelection(m, options), RefsOf(m, options).value;
            Protectors(m, AllOthers(m, target), targets, target, None) ==
            Success(Where(AllOthers(m, target), (other: Candidate) => KeySet(other.refs) != KeySet(targets)))
  {
    var target, targets := NamedSelection(m, options), RefsOf(m, options).value;
    var others := AllOthers(m, target);
    ListedInManifest(m, ownRepo, seen, options);
    OthersAreDistinct(m, ownRepo, seen, targets, target);
    DefaultIsWhere(others, |others|, targets);
    assert others[..|others|] == others;
  }

  lemma OthersAreDistinct(m: Manifest, ownRepo: Option<string>, seen: Seen, targets: seq<FileRef>, target: Selection)
    requires GoodManifest(m, ownRepo, seen) && Resolvable(m)
    ensures forall k :: 0 <= k < |AllOthers(m, target)| ==> DistinctKeys(AllOthers(m, target)[k].refs)
  {
    forall k | 0 <= k < |AllOthers(m, target)|
      ensures DistinctKeys(AllOthers(m, target)[k].refs)
    {
      OtherIsListed(m, ownRepo, seen, targets, target, k);
    }
  }

  ghost predicate FailsFirst(
    lookup: ResolveOptions -> Result<Candidate, Labels>, entries: seq<ResolveOptions>, k: nat, error: Labels)
  {
    && k < |entries| && lookup(entries[k]) == Failure(error)
    && forall j :: 0 <= j < k ==> lookup(entries[j]).Success?
  }

  lemma {:induction false} CandidatesIff(
    lookup: ResolveOptions -> Result<Candidate, Labels>, entries: seq<ResolveOptions>, n: nat)
    requires n <= |entries|
    ensures Candidates(lookup, entries, n).Success? <==> forall k :: 0 <= k < n ==> lookup(entries[k]).Success?
    ensures Candidates(lookup, entries, n).Failure? ==>
              exists k :: 0 <= k < n && FailsFirst(lookup, entries, k, Candidates(lookup, entries, n).error)
  {
    if n > 0 {
      CandidatesIff(lookup, entries, n - 1);
      if Candidates(lookup, entries, n - 1).Success? && lookup(entries[n - 1]).Failure? {
        assert FailsFirst(lookup, entries, n - 1, Candidates(lookup, entries, n).error);
      }
    }
  }

  /** Entry k is the first that does not resolve, and lists these labels. */
  ghost predicate FirstUnresolved(m: Manifest, entries: seq<ResolveOptions>, k: nat, error: Labels)
    requires Resolvable(m)
  {
    && k < |entries| && RefsOf(m, entries[k]) == Failure(error)
    && forall j :: 0 <= j < k ==> RefsOf(m, entries[j]).Success?
  }

  /** The entry resolves, is not the target, and has this label and these files. */
  ghost predicate Lists(m: Manifest, entry: ResolveOptions, target: Selection, key: CandidateKey)
    requires Resolvable(m)
  {
    RefsOf(m, entry).Success? &&
    var selection := NamedSelection(m, entry);
    selection != target && key == (selection.model + "/" + selection.quant, FileKeys(RefsOf(m, entry).value))
  }

  ghost predicate FirstListing(m: Manifest, entries: seq<ResolveOptions>, target: Selection, key: CandidateKey, k: nat)
    requires Resolvable(m)
  {
    && k < |entries| && Lists(m, entries[k], target, key)
    && forall j :: 0 <= j < k ==> !Lists(m, entries[j], target, key)
  }

  ghost predicate LastListing(m: Manifest, entries: seq<ResolveOptions>, target: Selection, key: CandidateKey, k: nat)
    requires Resolvable(m)
  {
    && k < |entries| && Lists(m, entries[k], target, key)
    && forall j :: k < j < |entries| ==> !Lists(m, entries[j], target, key)
  }

  /** The protector is what the last entry with its label and files resolves to. */
  ghost predicate FromLast(m: Manifest, entries: seq<ResolveOptions>, target: Selection, p: Candidate)
    requires Resolvable(m)
  {
    exists k: nat :: LastListing(m, entries, target, KeyOf(p), k)
      && RefsOf(m, entries[k]) == Success(p.refs) && NamedSelection(m, entries[k]) == p.selection
  }

  /** The keys stand in the order in which the entries first list them. */
  ghost predicate InOrderOfEntries(m: Manifest, entries: seq<ResolveOptions>, target: Selection, keys: seq<CandidateKey>)
    requires Resolvable(m)
  {
    forall i: nat, j: nat, k: nat, l: nat ::
      (i < j < |keys| && FirstListing(m, entries, target, keys[i], k) && FirstListing(m, entries, target, keys[j], l)) ==>
        k < l
  }

  ghost predicate AllFiled(m: Manifest, entries: seq<ResolveOptions>, target: Selection, keys: seq<CandidateKey>)
    requires Resolvable(m)
  {
    forall k, key: CandidateKey :: 0 <= k < |entries| && Lists(m, entries[k], target, key) ==> key in keys
  }

  function KeysOf(protectors: seq<Candidate>): (keys: seq<CandidateKey>)
    ensures |keys| == |protectors| && forall i :: 0 <= i < |keys| ==> keys[i] == KeyOf(protectors[i])
  {
    seq(|protectors|, i requires 0 <= i < |protectors| => KeyOf(protectors[i]))
  }

  /** The map after the candidates of these entries. */
  ghost predicate MapRight(m: Manifest, entries: seq<ResolveOptions>, target: Selection, protectors: seq<Candidate>)
    requires Resolvable(m)
  {
    && (forall i :: 0 <= i < |protectors| ==> FromLast(m, entries, target, protectors[i]))
    && AllFiled(m, entries, target, KeysOf(protectors))
    && InOrderOfEntries(m, entries, target, KeysOf(protectors))
  }

  lemma ListsItsKey(m: Manifest, entry: ResolveOptions, target: Selection, key: CandidateKey)
    requires Resolvable(m) && CandidateOf(m, entry).Success?
    ensures var candidate := CandidateOf(m, entry).value;
            Lists(m, entry, target, key) <==> candidate.selection != target && key == KeyOf(candidate)
  {
  }

  lemma FromLastStays(m: Manifest, entries: seq<ResolveOptions>, more: ResolveOptions, target: Selection, p: Candidate)
    requires Resolvable(m) && FromLast(m, entries, target, p) && !Lists(m, more, target, KeyOf(p))
    ensures FromLast(m, entries + [more], target, p)
  {
    var k: nat :| LastListing(m, entries, target, KeyOf(p), k)
      && RefsOf(m, entries[k]) == Success(p.refs) && NamedSelection(m, entries[k]) == p.selection;
    assert (entries + [more])[k] == entries[k];
    assert LastListing(m, entries + [more], target, KeyOf(p), k);
  }

  lemma FirstStays(m: Manifest, entries: seq<ResolveOptions>, more: ResolveOptions, target: Selection, key: CandidateKey, k: nat)
    requires Resolvable(m) && FirstListing(m, entries + [more], target, key, k)
    ensures k < |entries| ==> FirstListing(m, entries, target, key, k)
    ensures k == |entries| ==> forall j :: 0 <= j < |entries| ==> !Lists(m, entries[j], target, key)
  {
    assert forall j :: 0 <= j < |entries| ==> (entries + [more])[j] == entries[j];
  }

  /** A key that is in the map was listed before. */
  lemma KeyWasListed(m: Manifest, entries: seq<ResolveOptions>, target: Selection, protectors: seq<Candidate>, i: nat) returns (k: nat)
    requires Resolvable(m) && MapRight(m, entries, target, protectors) && i < |protectors|
    ensures k < |entries| && Lists(m, entries[k], target, KeyOf(protectors[i]))
  {
    k :| LastListing(m, entries, target, KeyOf(protectors[i]), k);
  }

  lemma OrderStays(m: Manifest, entries: seq<ResolveOptions>, more: ResolveOptions, target: Selection,
                   protectors: seq<Candidate>, keys: seq<CandidateKey>)
    requires Resolvable(m) && MapRight(m, entries, target, protectors) && CandidateOf(m, more).Success?
    requires keys == KeysOf(protectors) ||
             (keys == KeysOf(protectors) + [KeyOf(CandidateOf(m, more).value)] && KeyOf(CandidateOf(m, more).value) !in KeysOf(protectors))
    ensures InOrderOfEntries(m, entries + [more], target, keys)
  {
    var all := entries + [more];
    forall i: nat, j: nat, k: nat, l: nat | i < j < |keys| && FirstListing(m, all, target, keys[i], k)
        && FirstListing(m, all, target, keys[j], l)
      ensures k < l
    {
      FirstStays(m, entries, more, target, keys[i], k);
      FirstStays(m, entries, more, target, keys[j], l);
      var h := KeyWasListed(m, entries, target, protectors, i);
      if l < |entries| {
        assert Lists(m, entries[l], target, keys[j]);
      }
    }
  }

  lemma AllListedStay(m: Manifest, entries: seq<ResolveOptions>, more: ResolveOptions, target: Selection,
                      keys: seq<CandidateKey>, next: seq<CandidateKey>)
    requires Resolvable(m) && CandidateOf(m, more).Success?
    requires AllFiled(m, entries, target, keys)
    requires forall key: CandidateKey :: key in keys ==> key in next
    requires CandidateOf(m, more).value.selection != target ==> KeyOf(CandidateOf(m, more).value) in next
    ensures AllFiled(m, entries + [more], target, next)
  {
    var all := entries + [more];
    forall k, key: CandidateKey | 0 <= k < |all| && Lists(m, all[k], target, key)
      ensures key in next
    {
      if k < |entries| {
        assert all[k] == entries[k];
      } else {
        ListsItsKey(m, more, target, key);
      }
    }
  }

  lemma WrittenFromLast(m: Manifest, entries: seq<ResolveOptions>, more: ResolveOptions, target: Selection,
                        byKey: JsMap.Map<CandidateKey, Candidate>, i: nat)
    requires Resolvable(m) && CandidateOf(m, more).Success? && CandidateOf(m, more).value.selection != target
    requires KeyedByThemselves(byKey) && forall j :: 0 <= j < |byKey| ==> FromLast(m, entries, target, byKey[j].1)
    requires i < |JsMap.Set(byKey, KeyOf(CandidateOf(m, more).value), CandidateOf(m, more).value)|
    ensures FromLast(m, entries + [more], target,
                     JsMap.Set(byKey, KeyOf(CandidateOf(m, more).value), CandidateOf(m, more).value)[i].1)
  {
    var candidate, all := CandidateOf(m, more).value, entries + [more];
    var key := KeyOf(candidate);
    var at := JsMap.IndexOf(byKey, key);
    if i == (if at < 0 then |byKey| else at) {
      ListsItsKey(m, more, target, key);
      assert all[|entries|] == more && LastListing(m, all, target, key, |entries|);
    } else {
      assert byKey[i].0 != key;
      ListsItsKey(m, more, target, byKey[i].0);
      FromLastStays(m, entries, more, target, byKey[i].1);
    }
  }

  lemma WrittenKeys(byKey: JsMap.Map<CandidateKey, Candidate>, candidate: Candidate)
    requires KeyedByThemselves(byKey)
    ensures var before, key := KeysOf(MapValues(byKey)), KeyOf(candidate);
            KeysOf(MapValues(JsMap.Set(byKey, key, candidate))) == if key in before then before else before + [key]
  {
    var before, key := KeysOf(MapValues(byKey)), KeyOf(candidate);
    var at := JsMap.IndexOf(byKey, key);
    assert forall i :: 0 <= i < |byKey| ==> before[i] == byKey[i].0;
    if at >= 0 {
      assert before[at] == key;
    }
  }

  lemma WriteStep(m: Manifest, entries: seq<ResolveOptions>, more: ResolveOptions, target: Selection,
                  byKey: JsMap.Map<CandidateKey, Candidate>)
    requires Resolvable(m) && CandidateOf(m, more).Success? && CandidateOf(m, more).value.selection != target
    requires KeyedByThemselves(byKey) && MapRight(m, entries, target, MapValues(byKey))
    ensures var candidate := CandidateOf(m, more).value;
            MapRight(m, entries + [more], target, MapValues(JsMap.Set(byKey, KeyOf(candidate), candidate)))
  {
    var candidate := CandidateOf(m, more).value;
    var before, next := KeysOf(MapValues(byKey)), JsMap.Set(byKey, KeyOf(candidate), candidate);
    WrittenKeys(byKey, candidate);
    forall i | 0 <= i < |next|
      ensures FromLast(m, entries + [more], target, next[i].1)
    {
      assert forall j :: 0 <= j < |byKey| ==> MapValues(byKey)[j] == byKey[j].1;
      WrittenFromLast(m, entries, more, target, byKey, i);
    }
    OrderStays(m, entries, more, target, MapValues(byKey), KeysOf(MapValues(next)));
    AllListedStay(m, entries, more, target, before, KeysOf(MapValues(next)));
  }

  ghost predicate Mapped(m: Manifest, entries: seq<ResolveOptions>, target: Selection, byKey: JsMap.Map<CandidateKey, Candidate>)
    requires Resolvable(m)
  {
    KeyedByThemselves(byKey) && MapRight(m, entries, target, MapValues(byKey))
  }

  /** One more entry: the target changes nothing, another key is written into the map. */
  lemma MapStep(m: Manifest, entries: seq<ResolveOptions>, more: ResolveOptions, target: Selection,
                byKey: JsMap.Map<CandidateKey, Candidate>)
    requires Resolvable(m) && CandidateOf(m, more).Success? && Mapped(m, entries, target, byKey)
    ensures var candidate := CandidateOf(m, more).value;
            Mapped(m, entries + [more], target,
                   if candidate.selection == target then byKey else JsMap.Set(byKey, KeyOf(candidate), candidate))
  {
    var candidate, all := CandidateOf(m, more).value, entries + [more];
    var protectors := MapValues(byKey);
    if candidate.selection == target {
      forall i | 0 <= i < |protectors|
        ensures FromLast(m, all, target, protectors[i])
      {
        ListsItsKey(m, more, target, KeyOf(protectors[i]));
        FromLastStays(m, entries, more, target, protectors[i]);
      }
      OrderStays(m, entries, more, target, protectors, KeysOf(protectors));
      AllListedStay(m, entries, more, target, KeysOf(protectors), KeysOf(protectors));
    } else {
      SetKeeps(byKey, candidate, KeyOf(candidate));
      WriteStep(m, entries, more, target, byKey);
    }
  }

  lemma NothingMapped(m: Manifest, entries: seq<ResolveOptions>, candidates: seq<Candidate>, target: Selection)
    requires Resolvable(m)
    ensures Mapped(m, entries[..0], target, ProtectorMap(candidates, 0, target))
  {
  }

  /** Writing the next candidate into the map, on the list of entries. */
  lemma NextMapped(m: Manifest, entries: seq<ResolveOptions>, candidates: seq<Candidate>, n: nat, target: Selection)
    requires Resolvable(m) && 0 < n <= |entries| == |candidates|
    requires CandidateOf(m, entries[n - 1]) == Success(candidates[n - 1])
    requires Mapped(m, entries[..n - 1], target, ProtectorMap(candidates, n - 1, target))
    ensures Mapped(m, entries[..n], target, ProtectorMap(candidates, n, target))
  {
    var before, entry, byKey := entries[..n - 1], entries[n - 1], ProtectorMap(candidates, n - 1, target);
    assert entries[..n] == before + [entry];
    MapStep(m, before, entry, target, byKey);
  }

  lemma {:induction false} MapIsRight(m: Manifest, entries: seq<ResolveOptions>, candidates: seq<Candidate>, n: nat,
                                      target: Selection)
    requires Resolvable(m) && n <= |entries| == |candidates|
    requires forall k {:trigger CandidateOf(m, entries[k])} :: 0 <= k < |entries| ==> CandidateOf(m, entries[k]) == Success(candidates[k])
    ensures Mapped(m, entries[..n], target, ProtectorMap(candidates, n, target))
  {
    if n == 0 {
      NothingMapped(m, entries, candidates, target);
    } else {
      MapIsRight(m, entries, candidates, n - 1, target);
      NextMapped(m, entries, candidates, n, target);
    }
  }

  /**
    With a `protect` list, the protectors are what its entries beside the target resolve to, one for each
    label and file list, in the order in which these are first listed; an entry that does not resolve fails
    the call with its labels.
   */
  lemma ListedProtectorsAre(m: Manifest, entries: seq<ResolveOptions>, target: Selection)
    requires Resolvable(m)
    ensures var r := ProtectorsOf(m, entries, target);
            && (r.Success? <==> forall k :: 0 <= k < |entries| ==> RefsOf(m, entries[k]).Success?)
            && (r.Failure? ==> exists k: nat :: FirstUnresolved(m, entries, k, r.error))
            && (r.Success? ==>
                  && (forall i :: 0 <= i < |r.value| ==> FromLast(m, entries, target, r.value[i]))
                  && (forall i, j :: 0 <= i < j < |r.value| ==> KeyOf(r.value[i]) != KeyOf(r.value[j]))
                  && AllFiled(m, entries, target, KeysOf(r.value))
                  && InOrderOfEntries(m, entries, target, KeysOf(r.value)))
  {
    var lookup, r := CandidateLookup(m), ProtectorsOf(m, entries, target);
    CandidatesIff(lookup, entries, |entries|);
    forall k | 0 <= k < |entries|
      ensures lookup(entries[k]) == CandidateOf(m, entries[k])
    {
    }
    if r.Failure? {
      var k :| 0 <= k < |entries| && FailsFirst(lookup, entries, k, r.error);
      assert FirstUnresolved(m, entries, k, r.error);
    } else {
      var candidates := Candidates(lookup, entries, |entries|).value;
      forall k | 0 <= k < |entries|
        ensures CandidateOf(m, entries[k]) == Success(candidates[k])
      {
        CandidatesAre(lookup, entries, |entries|, k);
      }
      MapIsRight(m, entries, candidates, |entries|, target);
      assert entries[..|entries|] == entries;
    }
  }

  // ----- when the call fails ------------------------------------------------------------------

  /** The call comes through exactly when its own names and those of the `protect` list are declared and the source has a cache. */
  lemma EvictsIff(m: Manifest, options: ResolveOptions, protect: Option<seq<ResolveOptions>>, source: Source)
    requires Resolvable(m)
    ensures var r := Evict(m, options, protect, source);
            && (r.Success? <==>
                  && Declared(m, options) && source.evict.Some?
                  && (protect.Some? ==> forall k :: 0 <= k < |protect.value| ==> Declared(m, protect.value[k])))
            && (!Declared(m, options) ==> r == Failure(UnknownName(RefsOf(m, options).error)))
            && (Declared(m, options) && source.evict.None? ==> r == Failure(NoCache(m.available)))
            && (Declared(m, options) && source.evict.Some? && r.Failure? ==>
                  && protect.Some? && r.error.UnknownName?
                  && exists k: nat :: FirstUnresolved(m, protect.value, k, r.error.available))
  {
    ResolvesIffDeclared(m, options);
    if protect.Some? {
      ListedProtectorsAre(m, protect.value, NamedSelectionOr(m, options));
      forall k | 0 <= k < |protect.value|
        ensures RefsOf(m, protect.value[k]).Success? <==> Declared(m, protect.value[k])
      {
        ResolvesIffDeclared(m, protect.value[k]);
      }
    }
  }

  ghost function NamedSelectionOr(m: Manifest, options: ResolveOptions): Selection
    requires Resolvable(m)
  {
    if ResolveSelection(m, options).Success? then NamedSelection(m, options) else Selection("", "")
  }
}
