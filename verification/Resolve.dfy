/** From a model, a quant and a subset of the weights to a selection and its file list (packages/hub/src/resolve.ts). */
module Resolve {
  import opened Wrappers
  import opened FileRefs
  import opened ManifestParser
  import opened AcceptedManifests
  import JsMap

  datatype ResolveOptions = ResolveOptions(model: Option<string>, quant: Option<string>, weights: Option<seq<string>>)

  datatype ResolvedSelection = ResolvedSelection(
    model: string,
    quant: string,
    containers: JsMap.Map<string, ContainerRef>,
    assets: JsMap.Map<string, FileRef>
  )

  /** What resolving relies on: complete mappings and defaults that exist. */
  ghost predicate Resolvable(m: Manifest) {
    && JsMap.Has(m.models, m.defaultModel)
    && forall i :: 0 <= i < |m.models| ==> ResolvableModel(m.models[i].1)
  }

  ghost predicate ResolvableModel(entry: ModelEntry) {
    && JsMap.Has(entry.quants, entry.defaultQuant)
    && forall i :: 0 <= i < |entry.quants| ==> GoodMapping(entry.quants[i].1.weights, entry.weights)
  }

  lemma GoodIsResolvable(m: Manifest, ownRepo: Option<string>, seen: Seen)
    requires GoodManifest(m, ownRepo, seen)
    ensures Resolvable(m)
  {
    forall i | 0 <= i < |m.models|
      ensures ResolvableModel(m.models[i].1)
    {
      assert GoodModel(m.models[i].1, ownRepo, seen);
    }
  }

  // ----- the weights subset -------------------------------------------------------------------

  predicate DuplicateFree(names: seq<string>) {
    forall i, j :: 0 <= i < j < |names| ==> names[i] != names[j]
  }

  predicate AllDeclared(names: seq<string>, entry: ModelEntry) {
    forall i :: 0 <= i < |names| ==> JsMap.Has(entry.weights, names[i])
  }

  /** Those of the first n keys that are chosen, in the order of the keys. */
  function Chosen(keys: seq<string>, n: nat, names: set<string>): seq<string>
    requires n <= |keys|
  {
    if n == 0 then []
    else if keys[n - 1] in names then Chosen(keys, n - 1, names) + [keys[n - 1]]
    else Chosen(keys, n - 1, names)
  }

  function NameSet(names: seq<string>): set<string> { set name | name in names }

  /** The names to fetch, in the order of the declaration. */
  function SelectWeightNames(entry: ModelEntry, weights: Option<seq<string>>): Result<seq<string>, Labels> {
    match weights
    case None => Success(Keys(entry.weights))
    case Some(names) =>
      if AllDeclared(names, entry) && DuplicateFree(names) then
        Success(Chosen(Keys(entry.weights), |entry.weights|, NameSet(names)))
      else Failure(entry.available)
  }

  method SelectNames(entry: ModelEntry, weights: Option<seq<string>>) returns (r: Result<seq<string>, Labels>)
    ensures r == SelectWeightNames(entry, weights)
  {
    var declared := Keys(entry.weights);
    if weights.None? {
      return Success(declared);
    }
    var names := weights.value;
    var chosen: set<string> := {};
    for n := 0 to |names|
      invariant chosen == NameSet(names[..n])
      invariant AllDeclared(names[..n], entry) && DuplicateFree(names[..n])
    {
      var name := names[n];
      if !JsMap.Has(entry.weights, name) {
        return Failure(entry.available);
      }
      if name in chosen {
        return Failure(entry.available);
      }
      chosen := chosen + {name};
      assert names[..n + 1] == names[..n] + [name];
    }
    assert names[..|names|] == names;
    r := Success(Chosen(declared, |declared|, chosen));
  }

  lemma {:induction false} ChosenAre(keys: seq<string>, n: nat, names: set<string>)
    requires n <= |keys| && DuplicateFree(keys)
    ensures forall name :: name in Chosen(keys, n, names) <==> name in names && name in keys[..n]
    ensures DuplicateFree(Chosen(keys, n, names))
  {
    if n > 0 {
      ChosenAre(keys, n - 1, names);
      assert keys[..n] == keys[..n - 1] + [keys[n - 1]];
      assert keys[n - 1] !in keys[..n - 1];
    }
  }

  // ----- the selection ------------------------------------------------------------------------

  function ModelName(m: Manifest, options: ResolveOptions): string {
    if options.model.Some? then options.model.value else m.defaultModel
  }

  function QuantName(entry: ModelEntry, options: ResolveOptions): string {
    if options.quant.Some? then options.quant.value else entry.defaultQuant
  }

  function ContainerOf(entry: ModelEntry, mapping: JsMap.Map<string, string>, name: string): ContainerRef
    requires GoodMapping(mapping, entry.weights) && JsMap.Has(entry.weights, name)
  {
    assert JsMap.Has(mapping, name);
    JsMap.Get(JsMap.Get(entry.weights, name).value, JsMap.Get(mapping, name).value).value
  }

  /** The containers of the first n names. */
  function Containers(entry: ModelEntry, mapping: JsMap.Map<string, string>, names: seq<string>, n: nat)
    : JsMap.Map<string, ContainerRef>
    requires GoodMapping(mapping, entry.weights) && n <= |names| && AllDeclared(names, entry)
  {
    if n == 0 then []
    else Containers(entry, mapping, names, n - 1) + [(names[n - 1], ContainerOf(entry, mapping, names[n - 1]))]
  }

  lemma {:induction false} ChosenDeclared(entry: ModelEntry, keys: seq<string>, n: nat, names: set<string>)
    requires n <= |keys| && AllDeclared(keys, entry)
    ensures AllDeclared(Chosen(keys, n, names), entry)
  {
    if n > 0 {
      ChosenDeclared(entry, keys, n - 1, names);
    }
  }

  lemma KeysDeclared(entry: ModelEntry)
    ensures AllDeclared(Keys(entry.weights), entry)
  {
    forall i | 0 <= i < |entry.weights|
      ensures JsMap.Has(entry.weights, Keys(entry.weights)[i])
    {
      JsMap.HasIff(entry.weights, entry.weights[i].0);
    }
  }

  lemma SelectedDeclared(entry: ModelEntry, weights: Option<seq<string>>)
    ensures SelectWeightNames(entry, weights).Success? ==> AllDeclared(SelectWeightNames(entry, weights).value, entry)
  {
    KeysDeclared(entry);
    if weights.Some? {
      ChosenDeclared(entry, Keys(entry.weights), |entry.weights|, NameSet(weights.value));
    }
  }

  function ResolveSelection(m: Manifest, options: ResolveOptions): Result<ResolvedSelection, Labels>
    requires Resolvable(m)
  {
    var model := ModelName(m, options);
    if !JsMap.Has(m.models, model) then Failure(m.available)
    else
      var entry := JsMap.Get(m.models, model).value;
      var quant := QuantName(entry, options);
      if !JsMap.Has(entry.quants, quant) then Failure(entry.available)
      else
        var mapping := JsMap.Get(entry.quants, quant).value.weights;
        assert ResolvableModel(entry);
        var names :- SelectWeightNames(entry, options.weights);
        SelectedDeclared(entry, options.weights);
        Success(ResolvedSelection(model, quant, Containers(entry, mapping, names, |names|), entry.assets))
  }

  ghost predicate DeclaredModel(m: Manifest, options: ResolveOptions) {
    options.model.Some? ==> options.model.value in Keys(m.models)
  }

  ghost predicate DeclaredQuant(entry: ModelEntry, options: ResolveOptions) {
    options.quant.Some? ==> options.quant.value in Keys(entry.quants)
  }

  ghost predicate DeclaredSubset(entry: ModelEntry, options: ResolveOptions) {
    options.weights.Some? ==>
      DuplicateFree(options.weights.value) && forall name :: name in options.weights.value ==> name in Keys(entry.weights)
  }

  /** The names given are declared, and the weights are listed without duplicates. */
  ghost predicate Declared(m: Manifest, options: ResolveOptions) {
    && DeclaredModel(m, options)
    && var entry := JsMap.Get(m.models, ModelName(m, options));
       entry.Some? && DeclaredQuant(entry.value, options) && DeclaredSubset(entry.value, options)
  }

  /** The entry keeps c under this name, at the label the mapping gives the name. */
  ghost predicate Mapped(entry: ModelEntry, mapping: JsMap.Map<string, string>, name: string, c: ContainerRef) {
    && JsMap.Has(entry.weights, name) && JsMap.Has(mapping, name)
    && JsMap.Get(JsMap.Get(entry.weights, name).value, JsMap.Get(mapping, name).value) == Some(c)
  }

  /** The names stand in the order in which the entry declares them. */
  ghost predicate InDeclaredOrder(names: seq<string>, entry: ModelEntry) {
    forall i, j :: 0 <= i < j < |names| ==> JsMap.IndexOf(entry.weights, names[i]) < JsMap.IndexOf(entry.weights, names[j])
  }

  /** One container per name asked for, the one the mapping chooses, in declaration order, and all assets. */
  ghost predicate Selects(selection: ResolvedSelection, entry: ModelEntry, mapping: JsMap.Map<string, string>,
                          weights: Option<seq<string>>) {
    && (forall name :: name in Keys(selection.containers) <==>
          name in Keys(entry.weights) && (weights.Some? ==> name in weights.value))
    && InDeclaredOrder(Keys(selection.containers), entry)
    && (forall i :: 0 <= i < |selection.containers| ==>
          Mapped(entry, mapping, selection.containers[i].0, selection.containers[i].1))
    && selection.assets == entry.assets
  }

  /** The selection is of the model and quant asked for and holds what they declare. */
  ghost predicate AnswersTo(m: Manifest, options: ResolveOptions, selection: ResolvedSelection) {
    && selection.model == options.model.GetOr(m.defaultModel) && JsMap.Has(m.models, selection.model)
    && var entry := JsMap.Get(m.models, selection.model).value;
       && selection.quant == options.quant.GetOr(entry.defaultQuant) && JsMap.Has(entry.quants, selection.quant)
       && Selects(selection, entry, JsMap.Get(entry.quants, selection.quant).value.weights, options.weights)
  }

  ghost predicate InEntry(c: ContainerRef, entry: ModelEntry) {
    exists i, j :: 0 <= i < |entry.weights| && 0 <= j < |entry.weights[i].1| && entry.weights[i].1[j].1 == c
  }

  lemma HasKey<V>(m: JsMap.Map<string, V>, name: string)
    ensures JsMap.Has(m, name) <==> name in Keys(m)
  {
    JsMap.HasIff(m, name);
    if JsMap.Has(m, name) {
      assert Keys(m)[JsMap.IndexOf(m, name)] == name;
    }
  }

  lemma MappedInEntry(entry: ModelEntry, mapping: JsMap.Map<string, string>, name: string, c: ContainerRef)
    requires Mapped(entry, mapping, name, c)
    ensures InEntry(c, entry)
  {
    var i := JsMap.IndexOf(entry.weights, name);
    var j := JsMap.IndexOf(entry.weights[i].1, JsMap.Get(mapping, name).value);
    assert entry.weights[i].1[j].1 == c;
  }

  lemma {:induction false} ContainersAre(entry: ModelEntry, mapping: JsMap.Map<string, string>, names: seq<string>, n: nat)
    requires GoodMapping(mapping, entry.weights) && n <= |names| && AllDeclared(names, entry)
    ensures var containers := Containers(entry, mapping, names, n);
            && |containers| == n
            && forall i :: 0 <= i < n ==> containers[i] == (names[i], ContainerOf(entry, mapping, names[i]))
  {
    if n > 0 {
      ContainersAre(entry, mapping, names, n - 1);
    }
  }

  /**
    Acceptance closes resolution: a selection is found exactly when the names given are declared and the
    weights are listed once each, whatever the mappings and labels inside.
   */
  lemma ResolvesIffDeclared(m: Manifest, options: ResolveOptions)
    requires Resolvable(m)
    ensures ResolveSelection(m, options).Success? <==> Declared(m, options)
  {
    HasKey(m.models, ModelName(m, options));
    if JsMap.Has(m.models, ModelName(m, options)) {
      var entry := JsMap.Get(m.models, ModelName(m, options)).value;
      assert ResolvableModel(entry);
      HasKey(entry.quants, QuantName(entry, options));
      if options.weights.Some? {
        var names := options.weights.value;
        forall i | 0 <= i < |names|
          ensures JsMap.Has(entry.weights, names[i]) <==> names[i] in Keys(entry.weights)
        {
          HasKey(entry.weights, names[i]);
        }
      }
    }
  }

  /**
    What a failed resolution lists: an unknown model the names of the manifest, an unknown quant or a bad list
    of weights the names of its own model.
   */
  lemma FailureLists(m: Manifest, options: ResolveOptions)
    requires Resolvable(m) && ResolveSelection(m, options).Failure?
    ensures var error := ResolveSelection(m, options).error;
            && (ModelName(m, options) !in Keys(m.models) ==> error == m.available)
            && forall i :: 0 <= i < |m.models| && JsMap.Distinct(m.models) && m.models[i].0 == ModelName(m, options) ==>
                 error == m.models[i].1.available
  {
    HasKey(m.models, ModelName(m, options));
    forall i | 0 <= i < |m.models| && JsMap.Distinct(m.models) && m.models[i].0 == ModelName(m, options)
      ensures ResolveSelection(m, options).error == m.models[i].1.available
    {
      JsMap.GetEntry(m.models, i);
    }
  }

  /** The containers of a resolved selection, one by one. */
  lemma ResolvedContainers(m: Manifest, options: ResolveOptions, entry: ModelEntry, mapping: JsMap.Map<string, string>)
    requires Resolvable(m) && ResolveSelection(m, options).Success?
    requires JsMap.Get(m.models, ModelName(m, options)) == Some(entry)
    requires JsMap.Has(entry.quants, QuantName(entry, options))
    requires JsMap.Get(entry.quants, QuantName(entry, options)).value.weights == mapping
    ensures GoodMapping(mapping, entry.weights)
    ensures var names, containers :=
              SelectWeightNames(entry, options.weights).value, ResolveSelection(m, options).value.containers;
            && AllDeclared(names, entry) && |containers| == |names|
            && forall i :: 0 <= i < |names| ==> containers[i] == (names[i], ContainerOf(entry, mapping, names[i]))
  {
    assert ResolvableModel(entry) by {
      assert m.models[JsMap.IndexOf(m.models, ModelName(m, options))].1 == entry;
    }
    SelectedDeclared(entry, options.weights);
    var names := SelectWeightNames(entry, options.weights).value;
    ContainersAre(entry, mapping, names, |names|);
  }

  /**
    What resolving finds is what was asked for: of the model and quant named or defaulted to, for every
    name asked for the container its quant maps the name to, and no other.
   */
  lemma SelectsWhatIsAsked(m: Manifest, options: ResolveOptions)
    requires Resolvable(m) && ResolveSelection(m, options).Success?
    requires forall i :: 0 <= i < |m.models| ==> JsMap.Distinct(m.models[i].1.weights)
    ensures AnswersTo(m, options, ResolveSelection(m, options).value)
  {
    var selection := ResolveSelection(m, options).value;
    var entry := JsMap.Get(m.models, selection.model).value;
    assert m.models[JsMap.IndexOf(m.models, selection.model)].1 == entry;
    var mapping := JsMap.Get(entry.quants, selection.quant).value.weights;
    ResolvedContainers(m, options, entry, mapping);
    NamesAreSelected(selection, entry, mapping, options.weights);
  }

  lemma NamesAreSelected(selection: ResolvedSelection, entry: ModelEntry, mapping: JsMap.Map<string, string>,
                         weights: Option<seq<string>>)
    requires GoodMapping(mapping, entry.weights) && JsMap.Distinct(entry.weights)
    requires SelectWeightNames(entry, weights).Success? && selection.assets == entry.assets
    requires var names := SelectWeightNames(entry, weights).value;
             && AllDeclared(names, entry) && |selection.containers| == |names|
             && forall i :: 0 <= i < |names| ==> selection.containers[i] == (names[i], ContainerOf(entry, mapping, names[i]))
    ensures Selects(selection, entry, mapping, weights)
  {
    SelectedNames(entry, weights);
    assert Keys(selection.containers) == SelectWeightNames(entry, weights).value;
  }

  lemma SelectedNames(entry: ModelEntry, weights: Option<seq<string>>)
    requires SelectWeightNames(entry, weights).Success? && JsMap.Distinct(entry.weights)
    ensures var names := SelectWeightNames(entry, weights).value;
            && InDeclaredOrder(names, entry)
            && forall name :: name in names <==> name in Keys(entry.weights) && (weights.Some? ==> name in weights.value)
  {
    var keys := Keys(entry.weights);
    assert keys[..|keys|] == keys;
    if weights.Some? {
      ChosenAre(keys, |keys|, NameSet(weights.value));
      ChosenInOrder(entry, |keys|, NameSet(weights.value));
    } else {
      forall i | 0 <= i < |keys|
        ensures JsMap.IndexOf(entry.weights, keys[i]) == i
      {
        assert entry.weights[i].0 == keys[i];
      }
    }
  }

  lemma {:induction false} ChosenInOrder(entry: ModelEntry, n: nat, names: set<string>)
    requires JsMap.Distinct(entry.weights) && n <= |entry.weights|
    ensures var chosen := Chosen(Keys(entry.weights), n, names);
            && InDeclaredOrder(chosen, entry)
            && forall i :: 0 <= i < |chosen| ==> 0 <= JsMap.IndexOf(entry.weights, chosen[i]) < n
  {
    if n > 0 {
      ChosenInOrder(entry, n - 1, names);
      assert entry.weights[n - 1].0 == Keys(entry.weights)[n - 1];
      assert JsMap.IndexOf(entry.weights, Keys(entry.weights)[n - 1]) == n - 1;
    }
  }

  /** The order in which the caller lists the weights does not matter. */
  lemma WeightsOrderIsIrrelevant(m: Manifest, options: ResolveOptions, listed: seq<string>)
    requires Resolvable(m) && options.weights.Some? && multiset(listed) == multiset(options.weights.value)
    ensures ResolveSelection(m, options.(weights := Some(listed))) == ResolveSelection(m, options)
  {
    if JsMap.Has(m.models, ModelName(m, options)) {
      SameNamesSelected(JsMap.Get(m.models, ModelName(m, options)).value, listed, options.weights.value);
    }
  }

  lemma SameNamesSelected(entry: ModelEntry, listed: seq<string>, names: seq<string>)
    requires multiset(listed) == multiset(names)
    ensures SelectWeightNames(entry, Some(listed)) == SelectWeightNames(entry, Some(names))
  {
    SameNames(listed, names);
    DuplicateFreeIsCounted(names);
    DuplicateFreeIsCounted(listed);
    assert AllDeclared(listed, entry) <==> forall name :: name in NameSet(listed) ==> JsMap.Has(entry.weights, name);
    assert AllDeclared(names, entry) <==> forall name :: name in NameSet(names) ==> JsMap.Has(entry.weights, name);
  }

  lemma SameNames(listed: seq<string>, names: seq<string>)
    requires multiset(listed) == multiset(names)
    ensures NameSet(listed) == NameSet(names)
  {
    forall name | true
      ensures name in listed <==> name in names
    {
      assert name in listed <==> name in multiset(listed);
      assert name in names <==> name in multiset(names);
    }
  }

  /** Whether a list has duplicates can be told from how often each name occurs. */
  lemma {:induction false} DuplicateFreeIsCounted(names: seq<string>)
    ensures DuplicateFree(names) <==> forall name :: multiset(names)[name] <= 1
  {
    if names != [] {
      var before, last := names[..|names| - 1], names[|names| - 1];
      DuplicateFreeIsCounted(before);
      assert names == before + [last];
      if DuplicateFree(names) {
        assert last !in multiset(before) by {
          assert last !in before;
        }
      } else if DuplicateFree(before) {
        var i, j :| 0 <= i < j < |names| && names[i] == names[j];
        assert names[i] in multiset(before);
        assert multiset(names)[last] >= 2;
      } else {
        var name :| multiset(before)[name] > 1;
        assert multiset(names)[name] > 1;
      }
    }
  }

  // ----- the file list ------------------------------------------------------------------------

  /** The parts that bring bytes. */
  function NonEmpty(parts: seq<FileRef>, n: nat): seq<FileRef>
    requires n <= |parts|
  {
    if n == 0 then []
    else if parts[n - 1].size > 0 then NonEmpty(parts, n - 1) + [parts[n - 1]]
    else NonEmpty(parts, n - 1)
  }

  /** Of the first n containers, in order. */
  function PartRefs(containers: JsMap.Map<string, ContainerRef>, n: nat): seq<FileRef>
    requires n <= |containers|
  {
    if n == 0 then [] else PartRefs(containers, n - 1) + NonEmpty(containers[n - 1].1.parts, |containers[n - 1].1.parts|)
  }

  /** Containers' parts in index order without the empty ones, then the assets. */
  function ListedRefs(selection: ResolvedSelection): seq<FileRef> {
    PartRefs(selection.containers, |selection.containers|) + Values(selection.assets)
  }

  function SelectionRefs(selection: ResolvedSelection): seq<FileRef> {
    Unique(ListedRefs(selection))
  }

  method PutRef(unique: JsMap.Map<string, FileRef>, ghost listed: seq<FileRef>, ref: FileRef)
    returns (more: JsMap.Map<string, FileRef>)
    requires Values(unique) == Unique(listed) && ByKey(unique)
    ensures Values(more) == Unique(listed + [ref]) && ByKey(more)
  {
    var key := FileRefKey(ref);
    assert (listed + [ref])[..|listed|] == listed && (listed + [ref])[..|listed| + 1] == listed + [ref];
    UniqueStep(listed + [ref], |listed|, unique);
    more := if JsMap.Has(unique, key) then unique else JsMap.Set(unique, key, ref);
  }

  method PutParts(unique: JsMap.Map<string, FileRef>, ghost listed: seq<FileRef>, parts: seq<FileRef>)
    returns (more: JsMap.Map<string, FileRef>)
    requires Values(unique) == Unique(listed) && ByKey(unique)
    ensures Values(more) == Unique(listed + NonEmpty(parts, |parts|)) && ByKey(more)
  {
    more := unique;
    ghost var all := listed;
    for n := 0 to |parts|
      invariant all == listed + NonEmpty(parts, n)
      invariant Values(more) == Unique(all) && ByKey(more)
    {
      if parts[n].size > 0 {
        more := PutRef(more, all, parts[n]);
        all := all + [parts[n]];
      }
    }
  }

  method PutAssets(unique: JsMap.Map<string, FileRef>, ghost listed: seq<FileRef>, assets: JsMap.Map<string, FileRef>)
    returns (more: JsMap.Map<string, FileRef>)
    requires Values(unique) == Unique(listed) && ByKey(unique)
    ensures Values(more) == Unique(listed + Values(assets)) && ByKey(more)
  {
    more := unique;
    assert listed + Values(assets)[..0] == listed;
    for n := 0 to |assets|
      invariant Values(more) == Unique(listed + Values(assets)[..n]) && ByKey(more)
    {
      assert listed + Values(assets)[..n + 1] == (listed + Values(assets)[..n]) + [assets[n].1];
      more := PutRef(more, listed + Values(assets)[..n], assets[n].1);
    }
    assert Values(assets)[..|assets|] == Values(assets);
  }

  /** The loops that fold a selection into its file list. */
  method ListSelectionRefs(selection: ResolvedSelection) returns (refs: seq<FileRef>)
    ensures refs == SelectionRefs(selection)
  {
    var containers := selection.containers;
    var unique: JsMap.Map<string, FileRef> := [];
    for n := 0 to |containers|
      invariant Values(unique) == Unique(PartRefs(containers, n)) && ByKey(unique)
    {
      unique := PutParts(unique, PartRefs(containers, n), containers[n].1.parts);
    }
    unique := PutAssets(unique, PartRefs(containers, |containers|), selection.assets);
    refs := Values(unique);
  }

  // ----- what the file list is ----------------------------------------------------------------

  /** A file the selection needs: a part with bytes of one of its containers, or one of its assets. */
  ghost predicate Needs(selection: ResolvedSelection, ref: FileRef) {
    || (exists i :: 0 <= i < |selection.containers| && ref.size > 0 && ref in selection.containers[i].1.parts)
    || (exists i :: 0 <= i < |selection.assets| && selection.assets[i].1 == ref)
  }

  lemma {:induction false} NonEmptyAre(parts: seq<FileRef>, n: nat)
    requires n <= |parts|
    ensures forall ref :: ref in NonEmpty(parts, n) <==> ref.size > 0 && ref in parts[..n]
  {
    if n > 0 {
      NonEmptyAre(parts, n - 1);
      assert parts[..n] == parts[..n - 1] + [parts[n - 1]];
    }
  }

  ghost predicate InFirst(containers: JsMap.Map<string, ContainerRef>, n: nat, ref: FileRef)
    requires n <= |containers|
  {
    exists i :: 0 <= i < n && ref.size > 0 && ref in containers[i].1.parts
  }

  lemma {:induction false} PartRefsAre(containers: JsMap.Map<string, ContainerRef>, n: nat, ref: FileRef)
    requires n <= |containers|
    ensures ref in PartRefs(containers, n) <==> InFirst(containers, n, ref)
  {
    if n > 0 {
      PartRefsAre(containers, n - 1, ref);
      var parts := containers[n - 1].1.parts;
      NonEmptyAre(parts, |parts|);
      assert parts[..|parts|] == parts;
      if InFirst(containers, n - 1, ref) {
        assert InFirst(containers, n, ref);
      }
    }
  }

  lemma ListedAre(selection: ResolvedSelection, ref: FileRef)
    ensures ref in ListedRefs(selection) <==> Needs(selection, ref)
  {
    PartRefsAre(selection.containers, |selection.containers|, ref);
    if ref in Values(selection.assets) {
      var i :| 0 <= i < |selection.assets| && Values(selection.assets)[i] == ref;
      assert selection.assets[i].1 == ref;
    }
    if i :| 0 <= i < |selection.assets| && selection.assets[i].1 == ref {
      assert Values(selection.assets)[i] == ref;
    }
  }

  /** A selection resolved from the manifest. */
  ghost predicate From(selection: ResolvedSelection, m: Manifest) {
    exists i :: 0 <= i < |m.models|
      && (forall k :: 0 <= k < |selection.containers| ==> InEntry(selection.containers[k].1, m.models[i].1))
      && selection.assets == m.models[i].1.assets
  }

  lemma NeedsInManifest(selection: ResolvedSelection, m: Manifest, ref: FileRef)
    requires From(selection, m) && Needs(selection, ref)
    ensures InManifest(ref, m)
  {
    var i :| 0 <= i < |m.models|
      && (forall k :: 0 <= k < |selection.containers| ==> InEntry(selection.containers[k].1, m.models[i].1))
      && selection.assets == m.models[i].1.assets;
    var entry := m.models[i].1;
    if k :| 0 <= k < |selection.containers| && ref.size > 0 && ref in selection.containers[k].1.parts {
      assert InEntry(selection.containers[k].1, entry);
      assert InWeights(ref, entry);
    } else {
      assert InAssets(ref, entry);
    }
  }

  /** One key, one file. */
  ghost predicate KeysIdentify(m: Manifest) {
    forall r1: FileRef, r2: FileRef ::
      InManifest(r1, m) && InManifest(r2, m) && FileRefKey(r1) == FileRefKey(r2) ==> r1 == r2
  }

  lemma GoodKeysIdentify(m: Manifest, ownRepo: Option<string>, seen: Seen)
    requires GoodManifest(m, ownRepo, seen)
    ensures KeysIdentify(m)
  {
    forall r1: FileRef, r2: FileRef | InManifest(r1, m) && InManifest(r2, m) && FileRefKey(r1) == FileRefKey(r2)
      ensures r1 == r2
    {
      InTable(r1, m, ownRepo, seen);
      InTable(r2, m, ownRepo, seen);
    }
  }

  /**
    The file list of a selection holds each file the selection needs exactly once and nothing else, in
    the order in which the selection lists them.
   */
  lemma FileListIsExact(selection: ResolvedSelection, m: Manifest) returns (at: seq<nat>)
    requires From(selection, m) && KeysIdentify(m)
    ensures forall ref :: ref in SelectionRefs(selection) <==> Needs(selection, ref)
    ensures DistinctKeys(SelectionRefs(selection))
    ensures PicksFirstOccurrences(ListedRefs(selection), SelectionRefs(selection), at)
  {
    var listed, refs := ListedRefs(selection), SelectionRefs(selection);
    UniqueProperties(listed);
    at := UniqueKeepsOrder(listed);
    forall ref | true
      ensures ref in refs <==> Needs(selection, ref)
    {
      ListedAre(selection, ref);
      if ref in listed {
        assert FileRefKey(ref) in KeySet(listed);
        var i :| 0 <= i < |refs| && FileRefKey(refs[i]) == FileRefKey(ref);
        ListedAre(selection, refs[i]);
        NeedsInManifest(selection, m, ref);
        NeedsInManifest(selection, m, refs[i]);
      }
    }
  }

  /** Where a file stands in a selection. */
  datatype Spot = PartSpot(container: nat, part: nat) | AssetSpot(asset: nat)

  /** Parts before assets, parts by container and index, assets by position. */
  ghost predicate Ahead(a: Spot, b: Spot) {
    match (a, b)
    case (PartSpot(i, p), PartSpot(j, q)) => i < j || (i == j && p < q)
    case (PartSpot(_, _), AssetSpot(_)) => true
    case (AssetSpot(_), PartSpot(_, _)) => false
    case (AssetSpot(i), AssetSpot(j)) => i < j
  }

  /** The spot holds the file; an empty part is not a file to fetch. */
  ghost predicate HoldsAt(selection: ResolvedSelection, spot: Spot, ref: FileRef) {
    match spot
    case PartSpot(i, p) =>
      && i < |selection.containers| && p < |selection.containers[i].1.parts|
      && selection.containers[i].1.parts[p] == ref && ref.size > 0
    case AssetSpot(i) => i < |selection.assets| && selection.assets[i].1 == ref
  }

  /** The spots are those of the files, in the order of the selection. */
  ghost predicate InOrder(selection: ResolvedSelection, refs: seq<FileRef>, spots: seq<Spot>) {
    && |spots| == |refs|
    && (forall k :: 0 <= k < |refs| ==> HoldsAt(selection, spots[k], refs[k]))
    && (forall k, l :: 0 <= k < l < |refs| ==> Ahead(spots[k], spots[l]))
  }

  ghost predicate AllSpots(selection: ResolvedSelection, spots: seq<Spot>) {
    forall spot, ref {:trigger spot in spots, HoldsAt(selection, spot, ref)} :: HoldsAt(selection, spot, ref) ==> spot in spots
  }

  lemma {:induction false} PartSpots(selection: ResolvedSelection, i: nat, n: nat) returns (spots: seq<Spot>)
    requires i < |selection.containers| && n <= |selection.containers[i].1.parts|
    ensures InOrder(selection, NonEmpty(selection.containers[i].1.parts, n), spots)
    ensures forall spot :: spot in spots <==>
              spot.PartSpot? && spot.container == i && spot.part < n && selection.containers[i].1.parts[spot.part].size > 0
  {
    if n == 0 {
      spots := [];
    } else {
      spots := PartSpots(selection, i, n - 1);
      if selection.containers[i].1.parts[n - 1].size > 0 {
        forall k | 0 <= k < |spots|
          ensures Ahead(spots[k], PartSpot(i, n - 1))
        {
          assert spots[k] in spots;
        }
        spots := spots + [PartSpot(i, n - 1)];
      }
    }
  }

  ghost predicate PartBefore(selection: ResolvedSelection, spot: Spot, n: nat) {
    && spot.PartSpot? && spot.container < n && spot.container < |selection.containers|
    && spot.part < |selection.containers[spot.container].1.parts|
    && selection.containers[spot.container].1.parts[spot.part].size > 0
  }

  lemma {:induction false} ContainerSpots(selection: ResolvedSelection, n: nat) returns (spots: seq<Spot>)
    requires n <= |selection.containers|
    ensures InOrder(selection, PartRefs(selection.containers, n), spots)
    ensures forall spot :: spot in spots <==> PartBefore(selection, spot, n)
  {
    if n == 0 {
      spots := [];
    } else {
      var before := ContainerSpots(selection, n - 1);
      var next := PartSpots(selection, n - 1, |selection.containers[n - 1].1.parts|);
      spots := before + next;
      forall k, l | 0 <= k < |before| && 0 <= l < |next|
        ensures Ahead(before[k], next[l])
      {
        assert before[k] in before && next[l] in next;
      }
    }
  }

  /**
    The file list is made from the parts that bring bytes, container by container, and then the assets, and
    no spot of the selection is left out.
   */
  lemma ListedInOrder(selection: ResolvedSelection) returns (spots: seq<Spot>)
    ensures InOrder(selection, ListedRefs(selection), spots) && AllSpots(selection, spots)
  {
    var parts := ContainerSpots(selection, |selection.containers|);
    var assets := seq(|selection.assets|, i requires 0 <= i < |selection.assets| => AssetSpot(i));
    spots := parts + assets;
    forall k | 0 <= k < |spots|
      ensures HoldsAt(selection, spots[k], ListedRefs(selection)[k])
    {
      if k >= |parts| {
        assert ListedRefs(selection)[k] == Values(selection.assets)[k - |parts|];
      }
    }
    forall k, l | 0 <= k < |parts| && 0 <= l < |assets|
      ensures Ahead(parts[k], assets[l])
    {
      assert parts[k] in parts;
    }
    forall spot, ref | HoldsAt(selection, spot, ref)
      ensures spot in spots
    {
      if spot.PartSpot? {
        assert PartBefore(selection, spot, |selection.containers|);
      } else {
        assert assets[spot.asset] == spot;
      }
    }
  }

  /** No other spot of the same file is ahead of this one. */
  ghost predicate FirstSpot(selection: ResolvedSelection, spot: Spot, key: string) {
    forall other, ref ::
      HoldsAt(selection, other, ref) && FileRefKey(ref) == key ==> other == spot || Ahead(spot, other)
  }

  /** The first occurrence of a file in the list of all spots is its first spot. */
  lemma FirstOccurrenceIsFirst(selection: ResolvedSelection, listed: seq<FileRef>, all: seq<Spot>, n: nat)
    requires InOrder(selection, listed, all) && AllSpots(selection, all) && FirstOccurrence(listed, n) && n < |listed|
    ensures FirstSpot(selection, all[n], FileRefKey(listed[n]))
  {
    forall other, ref | HoldsAt(selection, other, ref) && FileRefKey(ref) == FileRefKey(listed[n])
      ensures other == all[n] || Ahead(all[n], other)
    {
      assert other in all;
      var i :| 0 <= i < |all| && all[i] == other;
      assert HoldsAt(selection, all[i], listed[i]);
      assert listed[i] == ref;
    }
  }

  /** The file list follows the selection: of every file the first spot counts. */
  lemma FilesInOrder(selection: ResolvedSelection) returns (spots: seq<Spot>)
    ensures InOrder(selection, SelectionRefs(selection), spots)
    ensures forall k :: 0 <= k < |spots| ==> FirstSpot(selection, spots[k], FileRefKey(SelectionRefs(selection)[k]))
  {
    var listed, refs := ListedRefs(selection), SelectionRefs(selection);
    var all := ListedInOrder(selection);
    var at := UniqueKeepsOrder(listed);
    spots := seq(|refs|, k requires 0 <= k < |refs| => all[at[k]]);
    forall k | 0 <= k < |spots|
      ensures FirstSpot(selection, spots[k], FileRefKey(refs[k]))
    {
      FirstOccurrenceIsFirst(selection, listed, all, at[k]);
    }
  }

  lemma ResolvedIsFrom(m: Manifest, options: ResolveOptions)
    requires Resolvable(m) && ResolveSelection(m, options).Success?
    requires forall i :: 0 <= i < |m.models| ==> JsMap.Distinct(m.models[i].1.weights)
    ensures From(ResolveSelection(m, options).value, m)
  {
    SelectsWhatIsAsked(m, options);
    var selection := ResolveSelection(m, options).value;
    var entry := JsMap.Get(m.models, selection.model).value;
    assert m.models[JsMap.IndexOf(m.models, selection.model)].1 == entry;
    forall i | 0 <= i < |selection.containers|
      ensures InEntry(selection.containers[i].1, entry)
    {
      MappedInEntry(entry, JsMap.Get(entry.quants, selection.quant).value.weights,
                    selection.containers[i].0, selection.containers[i].1);
    }
  }

  /** No listed file is empty. */
  lemma ListedFilesHaveBytes(selection: ResolvedSelection, m: Manifest, ownRepo: Option<string>, seen: Seen, ref: FileRef)
    requires GoodManifest(m, ownRepo, seen) && From(selection, m) && Needs(selection, ref)
    ensures ref.size > 0
  {
    var i :| 0 <= i < |m.models|
      && (forall k :: 0 <= k < |selection.containers| ==> InEntry(selection.containers[k].1, m.models[i].1))
      && selection.assets == m.models[i].1.assets;
    assert GoodModel(m.models[i].1, ownRepo, seen);
    if k :| 0 <= k < |selection.assets| && selection.assets[k].1 == ref {
      assert GoodAsset(m.models[i].1.assets[k].1, ownRepo, seen);
    }
  }

  /** Narrowing the weights narrows the files. */
  lemma NarrowedNeedsLess(m: Manifest, options: ResolveOptions, weights: seq<string>, ref: FileRef)
    requires Resolvable(m) && forall i :: 0 <= i < |m.models| ==> JsMap.Distinct(m.models[i].1.weights)
    requires ResolveSelection(m, options.(weights := None)).Success?
    requires ResolveSelection(m, options.(weights := Some(weights))).Success?
    requires Needs(ResolveSelection(m, options.(weights := Some(weights))).value, ref)
    ensures Needs(ResolveSelection(m, options.(weights := None)).value, ref)
  {
    var full := ResolveSelection(m, options.(weights := None)).value;
    var narrow := ResolveSelection(m, options.(weights := Some(weights))).value;
    var entry := JsMap.Get(m.models, ModelName(m, options)).value;
    var mapping := JsMap.Get(entry.quants, QuantName(entry, options)).value.weights;
    if i :| 0 <= i < |narrow.containers| && ref.size > 0 && ref in narrow.containers[i].1.parts {
      ResolvedContainers(m, options.(weights := None), entry, mapping);
      ResolvedContainers(m, options.(weights := Some(weights)), entry, mapping);
      assert m.models[JsMap.IndexOf(m.models, ModelName(m, options))].1 == entry;
      var j := NarrowedName(entry, weights, i);
      assert full.containers[j].1 == narrow.containers[i].1;
    }
  }

  lemma NarrowedName(entry: ModelEntry, weights: seq<string>, i: nat) returns (j: nat)
    requires JsMap.Distinct(entry.weights) && SelectWeightNames(entry, Some(weights)).Success?
    requires i < |SelectWeightNames(entry, Some(weights)).value|
    ensures j < |entry.weights| && Keys(entry.weights)[j] == SelectWeightNames(entry, Some(weights)).value[i]
  {
    SelectedNames(entry, Some(weights));
    var name := SelectWeightNames(entry, Some(weights)).value[i];
    assert name in Keys(entry.weights);
    j :| 0 <= j < |Keys(entry.weights)| && Keys(entry.weights)[j] == name;
  }

  lemma GoodEntryContainer(entry: ModelEntry, ownRepo: Option<string>, seen: Seen, c: ContainerRef)
    requires GoodModel(entry, ownRepo, seen) && InEntry(c, entry)
    ensures GoodContainer(c, ownRepo)
  {
    var i, j :| 0 <= i < |entry.weights| && 0 <= j < |entry.weights[i].1| && entry.weights[i].1[j].1 == c;
    assert GoodWeightEntry(entry.weights[i].1, ownRepo, seen);
  }

  /**
    Acceptance closes resolution: for an accepted manifest every selection of declared names resolves, to
    containers that are consistent, and its file list names each file it needs once and no empty file.
   */
  lemma AcceptedResolves(root: Json, env: Env, options: ResolveOptions)
    requires OneValuePerKey(root) && ParseRepoManifest(root, env).Success?
    ensures var m := ParseRepoManifest(root, env).value;
            && Resolvable(m)
            && (ResolveSelection(m, options).Success? <==> Declared(m, options))
            && (ResolveSelection(m, options).Success? ==>
                  var selection := ResolveSelection(m, options).value;
                  && AnswersTo(m, options, selection)
                  && (forall i :: 0 <= i < |selection.containers| ==> GoodContainer(selection.containers[i].1, env.ownRepo))
                  && DistinctKeys(SelectionRefs(selection))
                  && (forall ref :: ref in SelectionRefs(selection) <==> Needs(selection, ref))
                  && (forall ref :: ref in SelectionRefs(selection) ==> ref.size > 0))
  {
    var m := ParseRepoManifest(root, env).value;
    var seen := AcceptedIsGood(root, env);
    GoodIsResolvable(m, env.ownRepo, seen);
    ResolvesIffDeclared(m, options);
    if ResolveSelection(m, options).Success? {
      var selection := ResolveSelection(m, options).value;
      GoodNames(m, env.ownRepo, seen);
      SelectsWhatIsAsked(m, options);
      ResolvedIsFrom(m, options);
      GoodKeysIdentify(m, env.ownRepo, seen);
      var _ := FileListIsExact(selection, m);
      forall ref | Needs(selection, ref)
        ensures ref.size > 0
      {
        ListedFilesHaveBytes(selection, m, env.ownRepo, seen, ref);
      }
      forall i | 0 <= i < |selection.containers|
        ensures GoodContainer(selection.containers[i].1, env.ownRepo)
      {
        SelectedContainerIsGood(m, env.ownRepo, seen, selection, i);
      }
    }
  }

  lemma GoodNames(m: Manifest, ownRepo: Option<string>, seen: Seen)
    requires GoodManifest(m, ownRepo, seen)
    ensures forall i :: 0 <= i < |m.models| ==> JsMap.Distinct(m.models[i].1.weights)
  {
    forall i | 0 <= i < |m.models|
      ensures JsMap.Distinct(m.models[i].1.weights)
    {
      assert GoodModel(m.models[i].1, ownRepo, seen);
    }
  }

  lemma SelectedContainerIsGood(m: Manifest, ownRepo: Option<string>, seen: Seen, selection: ResolvedSelection, k: nat)
    requires GoodManifest(m, ownRepo, seen) && From(selection, m) && k < |selection.containers|
    ensures GoodContainer(selection.containers[k].1, ownRepo)
  {
    var i :| 0 <= i < |m.models|
      && (forall k :: 0 <= k < |selection.containers| ==> InEntry(selection.containers[k].1, m.models[i].1))
      && selection.assets == m.models[i].1.assets;
    assert GoodModel(m.models[i].1, ownRepo, seen);
    GoodEntryContainer(m.models[i].1, ownRepo, seen, selection.containers[k].1);
  }
}
