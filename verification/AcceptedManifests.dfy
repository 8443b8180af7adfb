/** What an accepted manifest guarantees to everything that reads it later (packages/hub/src/manifest.ts). */
module AcceptedManifests {
  import opened Wrappers
  import opened FileRefs
  import opened ManifestParser
  import JsMap

  // ----- the table of references --------------------------------------------------------------

  /** What the checks on one reference establish. */
  ghost predicate GoodRef(ref: FileRef, ownRepo: Option<string>) {
    && ValidRef(ref)
    && IsSha256(ref.sha256)
    && ref.size <= MAX_FILE_BYTES
    && (ref.size == 0 ==> ref.sha256 == EMPTY_SHA256)
    && (ref.repo.Some? ==> ref.repo != ownRepo)
  }

  /** The table maps the key of every reference it holds to that reference. */
  ghost predicate Table(seen: Seen, ownRepo: Option<string>) {
    forall key :: key in seen ==> FileRefKey(seen[key]) == key && GoodRef(seen[key], ownRepo)
  }

  ghost predicate Extends(before: Seen, after: Seen) {
    forall key :: key in before ==> key in after && after[key] == before[key]
  }

  ghost predicate Recorded(ref: FileRef, seen: Seen) {
    FileRefKey(ref) in seen && seen[FileRefKey(ref)] == ref
  }

  /** The object a manifest writes for a reference. */
  function EncodeRef(ref: FileRef): Json {
    JObj([("path", JStr(ref.path)), ("size", JNum(true, ref.size as real)), ("sha256", JStr(ref.sha256))]
         + (if ref.repo.Some? then [("repo", JStr(ref.repo.value))] else [])
         + (if ref.revision.Some? then [("revision", JStr(ref.revision.value))] else []))
  }

  /** What is read is what the object says, field by field. */
  ghost predicate Says(raw: Json, ref: FileRef) {
    && raw.JObj?
    && Field(raw.fields, "path") == Some(JStr(ref.path))
    && Field(raw.fields, "size") == Some(JNum(true, ref.size as real))
    && Field(raw.fields, "sha256") == Some(JStr(ref.sha256))
    && Field(raw.fields, "repo") == (if ref.repo.None? then None else Some(JStr(ref.repo.value)))
    && Field(raw.fields, "revision") == (if ref.revision.None? then None else Some(JStr(ref.revision.value)))
  }

  /** A reference is read exactly when it is good and, where it must bring bytes, not empty. */
  lemma ReadsBack(raw: Json, ref: FileRef, allowEmpty: bool, ownRepo: Option<string>)
    requires Says(raw, ref)
    ensures ReadFileRef(raw, allowEmpty, ownRepo) == Success(ref) <==>
            OnlyKeys(raw.fields, FILE_REF_KEYS) && GoodRef(ref, ownRepo) && (allowEmpty || ref.size > 0)
    ensures ReadFileRef(raw, allowEmpty, ownRepo).Success? ==> ReadFileRef(raw, allowEmpty, ownRepo) == Success(ref)
  {
    assert (ref.size as real).Floor == ref.size;
  }

  lemma ReadSays(raw: Json, allowEmpty: bool, ownRepo: Option<string>)
    requires ReadFileRef(raw, allowEmpty, ownRepo).Success?
    ensures var ref := ReadFileRef(raw, allowEmpty, ownRepo).value;
            Says(raw, ref) && GoodRef(ref, ownRepo) && (allowEmpty || ref.size > 0)
  {
  }

  /** Two good references with one key and the same size and hash are the same reference. */
  lemma SameKeySameRef(r1: FileRef, r2: FileRef, ownRepo: Option<string>)
    requires GoodRef(r1, ownRepo) && GoodRef(r2, ownRepo) && FileRefKey(r1) == FileRefKey(r2)
    requires r1.size == r2.size && r1.sha256 == r2.sha256
    ensures r1 == r2
  {
    KeyInjective(r1, r2);
  }

  /**
    Recording a reference fails exactly when its key is taken by a different reference; otherwise what
    is returned, also when it is an earlier declaration, is the reference as it was written.
   */
  lemma RecordLaw(ref: FileRef, seen: Seen, ownRepo: Option<string>)
    requires Table(seen, ownRepo) && GoodRef(ref, ownRepo)
    ensures Record(ref, seen).Failure? <==> FileRefKey(ref) in seen && seen[FileRefKey(ref)] != ref
    ensures Record(ref, seen).Success? ==>
              var (got, after) := Record(ref, seen).value;
              got == ref && Recorded(ref, after) && Table(after, ownRepo) && Extends(seen, after)
  {
    var key := FileRefKey(ref);
    if key in seen && seen[key].size == ref.size && seen[key].sha256 == ref.sha256 {
      SameKeySameRef(seen[key], ref, ownRepo);
    }
  }

  // ----- what every part of the tree guarantees -----------------------------------------------

  ghost predicate GoodPart(parts: seq<FileRef>, i: nat, ownRepo: Option<string>)
    requires i < |parts|
  {
    && GoodRef(parts[i], ownRepo)
    && parts[i].size <= MAX_PART_BYTES
    && (i == 0 ==> parts[i].size > 0)
    && CrossRefOf(parts[i]) == CrossRefOf(parts[0])
  }

  ghost predicate GoodDocument(document: Document) {
    0 < document.length <= MAX_DESCRIPTOR_BYTES && IsSha256(document.sha256)
  }

  /** 2 to 1024 parts of one origin; part 0 is the header and the two documents. */
  ghost predicate GoodContainer(c: ContainerRef, ownRepo: Option<string>) {
    && GoodDocument(c.graph) && GoodDocument(c.model)
    && 2 <= |c.parts| <= MAX_PARTS
    && c.parts[0].size == CONTAINER_HEADER_BYTES + c.graph.length + c.model.length
    && forall i :: 0 <= i < |c.parts| ==> GoodPart(c.parts, i, ownRepo)
  }

  ghost predicate AllRecorded(refs: seq<FileRef>, seen: Seen) {
    forall i :: 0 <= i < |refs| ==> Recorded(refs[i], seen)
  }

  ghost predicate GoodWeightEntry(entry: WeightEntry, ownRepo: Option<string>, seen: Seen) {
    && entry != []
    && forall i :: 0 <= i < |entry| ==> GoodContainer(entry[i].1, ownRepo) && AllRecorded(entry[i].1.parts, seen)
  }

  ghost predicate GoodWeights(weights: Weights, ownRepo: Option<string>, seen: Seen) {
    && 1 <= |weights| <= MAX_WEIGHTS
    && forall i :: 0 <= i < |weights| ==> GoodWeightEntry(weights[i].1, ownRepo, seen)
  }

  ghost predicate GoodAsset(ref: FileRef, ownRepo: Option<string>, seen: Seen) {
    GoodRef(ref, ownRepo) && ref.size > 0 && Recorded(ref, seen)
  }

  ghost predicate GoodAssets(assets: JsMap.Map<string, FileRef>, ownRepo: Option<string>, seen: Seen) {
    && |assets| <= MAX_ASSETS
    && forall i :: 0 <= i < |assets| ==> GoodAsset(assets[i].1, ownRepo, seen)
  }

  /** Every weights name has exactly one dtype label, and the entry has that label. */
  ghost predicate GoodMapping(mapping: JsMap.Map<string, string>, weights: Weights) {
    && JsMap.Distinct(mapping)
    && (forall name: string :: JsMap.Has(mapping, name) <==> JsMap.Has(weights, name))
    && (forall name: string :: JsMap.Has(mapping, name) ==>
          JsMap.Has(JsMap.Get(weights, name).value, JsMap.Get(mapping, name).value))
  }

  ghost predicate GoodQuants(quants: JsMap.Map<string, Quant>, weights: Weights) {
    && 1 <= |quants| <= MAX_QUANTS
    && forall i :: 0 <= i < |quants| ==> GoodMapping(quants[i].1.weights, weights)
  }

  /** `available` lists exactly the declared labels. */
  ghost predicate ExactLabels(m: ModelEntry, models: seq<string>) {
    && m.available.models == models
    && m.available.quants == Keys(m.quants)
    && Keys(m.available.dtypes) == Keys(m.weights)
    && forall i :: 0 <= i < |m.weights| ==> m.available.dtypes[i].1 == Keys(m.weights[i].1)
  }

  ghost predicate DistinctNames(m: ModelEntry) {
    && JsMap.Distinct(m.weights) && JsMap.Distinct(m.assets) && JsMap.Distinct(m.quants)
    && forall i :: 0 <= i < |m.weights| ==> JsMap.Distinct(m.weights[i].1)
  }

  ghost predicate GoodModel(m: ModelEntry, ownRepo: Option<string>, seen: Seen) {
    && GoodWeights(m.weights, ownRepo, seen)
    && GoodAssets(m.assets, ownRepo, seen)
    && GoodQuants(m.quants, m.weights)
    && JsMap.Has(m.quants, m.defaultQuant)
    && DistinctNames(m)
  }

  ghost predicate GoodManifest(m: Manifest, ownRepo: Option<string>, seen: Seen) {
    && Table(seen, ownRepo)
    && 1 <= |m.models| <= MAX_MODELS
    && JsMap.Distinct(m.models)
    && JsMap.Has(m.models, m.defaultModel)
    && m.available == Labels(Keys(m.models), [], [])
    && forall i :: 0 <= i < |m.models| ==>
         GoodModel(m.models[i].1, ownRepo, seen) && ExactLabels(m.models[i].1, Keys(m.models))
  }

  // ----- parsing establishes it ---------------------------------------------------------------

  /** JSON.parse keeps one value per key. */
  ghost predicate OneValuePerKey(value: Json)
    decreases value
  {
    match value
    case JArr(items) => forall i :: 0 <= i < |items| ==> OneValuePerKey(items[i])
    case JObj(fields) => JsMap.Distinct(fields) && forall i :: 0 <= i < |fields| ==> OneValuePerKey(fields[i].1)
    case _ => true
  }

  lemma FieldOfDistinct(value: Json, name: string)
    requires value.JObj? && OneValuePerKey(value) && Field(value.fields, name).Some?
    ensures OneValuePerKey(Field(value.fields, name).value)
  {
    var i := JsMap.IndexOf(value.fields, name);
    assert OneValuePerKey(value.fields[i].1);
  }

  lemma FileRefKeeps(raw: Json, allowEmpty: bool, ownRepo: Option<string>, seen: Seen)
    requires Table(seen, ownRepo) && ParseFileRef(raw, allowEmpty, ownRepo, seen).Success?
    ensures var (ref, after) := ParseFileRef(raw, allowEmpty, ownRepo, seen).value;
            && Says(raw, ref) && GoodRef(ref, ownRepo) && (allowEmpty || ref.size > 0)
            && Recorded(ref, after) && Table(after, ownRepo) && Extends(seen, after)
  {
    ReadSays(raw, allowEmpty, ownRepo);
    RecordLaw(ReadFileRef(raw, allowEmpty, ownRepo).value, seen, ownRepo);
  }

  lemma StillRecorded(refs: seq<FileRef>, before: Seen, after: Seen)
    requires AllRecorded(refs, before) && Extends(before, after)
    ensures AllRecorded(refs, after)
  {
    forall i | 0 <= i < |refs|
      ensures Recorded(refs[i], after)
    {
      assert Recorded(refs[i], before);
    }
  }

  ghost predicate GoodSizes(parts: seq<FileRef>, ownRepo: Option<string>) {
    forall i :: 0 <= i < |parts| ==>
      GoodRef(parts[i], ownRepo) && parts[i].size <= MAX_PART_BYTES && (i == 0 ==> parts[i].size > 0)
  }

  lemma AppendPart(parts: seq<FileRef>, part: FileRef, ownRepo: Option<string>, before: Seen, after: Seen)
    requires GoodSizes(parts, ownRepo) && AllRecorded(parts, before) && Extends(before, after)
    requires GoodRef(part, ownRepo) && part.size <= MAX_PART_BYTES && (parts == [] ==> part.size > 0) && Recorded(part, after)
    ensures GoodSizes(parts + [part], ownRepo) && AllRecorded(parts + [part], after)
  {
    StillRecorded(parts, before, after);
  }

  lemma PartKeeps(raw: Json, index: nat, ownRepo: Option<string>, seen: Seen)
    requires Table(seen, ownRepo) && ParsePart(raw, index, ownRepo, seen).Success?
    ensures var (part, after) := ParsePart(raw, index, ownRepo, seen).value;
            && GoodRef(part, ownRepo) && part.size <= MAX_PART_BYTES && (index == 0 ==> part.size > 0)
            && Recorded(part, after) && Table(after, ownRepo) && Extends(seen, after)
  {
    FileRefKeeps(raw, index > 0, ownRepo, seen);
  }

  lemma NextPartKeeps(item: Json, parts: seq<FileRef>, ownRepo: Option<string>, at: Seen)
    requires Table(at, ownRepo) && GoodSizes(parts, ownRepo) && AllRecorded(parts, at)
    requires PartParser(ownRepo)(|parts|, item, at).Success?
    ensures var (part, after) := PartParser(ownRepo)(|parts|, item, at).value;
            && GoodSizes(parts + [part], ownRepo) && AllRecorded(parts + [part], after)
            && Table(after, ownRepo) && Extends(at, after)
  {
    assert PartParser(ownRepo)(|parts|, item, at) == ParsePart(item, |parts|, ownRepo, at);
    PartKeeps(item, |parts|, ownRepo, at);
    var part := ParsePart(item, |parts|, ownRepo, at).value;
    AppendPart(parts, part.0, ownRepo, at, part.1);
  }

  lemma {:induction false} PartsKeep(items: seq<Json>, n: nat, ownRepo: Option<string>, seen: Seen)
    requires n <= |items| && Table(seen, ownRepo) && ParseItems(items, n, PartParser(ownRepo), seen).Success?
    ensures var (parts, after) := ParseItems(items, n, PartParser(ownRepo), seen).value;
            && |parts| == n && GoodSizes(parts, ownRepo) && AllRecorded(parts, after)
            && Table(after, ownRepo) && Extends(seen, after)
  {
    if n > 0 {
      PartsKeep(items, n - 1, ownRepo, seen);
      var before := ParseItems(items, n - 1, PartParser(ownRepo), seen).value;
      NextPartKeeps(items[n - 1], before.0, ownRepo, before.1);
    }
  }

  lemma ContainerKeeps(raw: Json, ownRepo: Option<string>, seen: Seen)
    requires Table(seen, ownRepo) && ParseWeightContainer(raw, ownRepo, seen).Success?
    ensures var (c, after) := ParseWeightContainer(raw, ownRepo, seen).value;
            && GoodContainer(c, ownRepo) && AllRecorded(c.parts, after)
            && Table(after, ownRepo) && Extends(seen, after)
  {
    var container := Field(raw.fields, "container").value;
    var items := Field(container.fields, "parts").value.items;
    PartsKeep(items, |items|, ownRepo, seen);
    var (c, after) := ParseWeightContainer(raw, ownRepo, seen).value;
    forall i | 0 <= i < |c.parts|
      ensures GoodPart(c.parts, i, ownRepo)
    {
      assert UniformOrigin(c.parts);
    }
  }

  /** Reading entry i keeps the table and gives a value that holds ... */
  ghost predicate Reads<T(!new), E(!new)>(
    fields: Fields, parse: (string, Json, Seen) -> Result<(T, Seen), E>, ownRepo: Option<string>,
    holds: (nat, T, Seen) -> bool)
  {
    forall i: nat, at: Seen :: i < |fields| && Table(at, ownRepo) && parse(fields[i].0, fields[i].1, at).Success? ==>
      var (value, after) := parse(fields[i].0, fields[i].1, at).value;
      Table(after, ownRepo) && Extends(at, after) && holds(i, value, after)
  }

  /** ... and more entries do not undo that. */
  ghost predicate Stays<T(!new)>(holds: (nat, T, Seen) -> bool) {
    forall i: nat, value: T, before: Seen, after: Seen ::
      holds(i, value, before) && Extends(before, after) ==> holds(i, value, after)
  }

  ghost predicate AllHold<T(!new)>(fields: Fields, parsed: JsMap.Map<string, T>, holds: (nat, T, Seen) -> bool, seen: Seen) {
    && |parsed| <= |fields|
    && forall i :: 0 <= i < |parsed| ==> parsed[i].0 == fields[i].0 && holds(i, parsed[i].1, seen)
  }

  lemma OneMoreHolds<T(!new)>(fields: Fields, parsed: JsMap.Map<string, T>, value: T, holds: (nat, T, Seen) -> bool,
                              before: Seen, after: Seen)
    requires AllHold(fields, parsed, holds, before) && |parsed| < |fields|
    requires Stays(holds) && Extends(before, after) && holds(|parsed|, value, after)
    ensures AllHold(fields, parsed + [(fields[|parsed|].0, value)], holds, after)
  {
    forall i | 0 <= i < |parsed|
      ensures holds(i, parsed[i].1, after)
    {
      assert holds(i, parsed[i].1, before);
    }
  }

  lemma {:induction false} FieldsKeep<T(!new), E(!new)>(
    fields: Fields, n: nat, parse: (string, Json, Seen) -> Result<(T, Seen), E>, seen: Seen,
    ownRepo: Option<string>, holds: (nat, T, Seen) -> bool)
    requires n <= |fields| && Table(seen, ownRepo) && Reads(fields, parse, ownRepo, holds) && Stays(holds)
    requires ParseFields(fields, n, parse, seen).Success?
    ensures var (parsed, after) := ParseFields(fields, n, parse, seen).value;
            |parsed| == n && Table(after, ownRepo) && Extends(seen, after) && AllHold(fields, parsed, holds, after)
  {
    if n > 0 {
      FieldsKeep(fields, n - 1, parse, seen, ownRepo, holds);
      var (parsed, at) := ParseFields(fields, n - 1, parse, seen).value;
      assert parse(fields[n - 1].0, fields[n - 1].1, at).Success?;
      var (value, after) := parse(fields[n - 1].0, fields[n - 1].1, at).value;
      OneMoreHolds(fields, parsed, value, holds, at, after);
    }
  }

  lemma WeightEntryKeeps(raw: Json, ownRepo: Option<string>, seen: Seen)
    requires Table(seen, ownRepo) && OneValuePerKey(raw) && ParseWeightEntry(raw, ownRepo, seen).Success?
    ensures var (entry, after) := ParseWeightEntry(raw, ownRepo, seen).value;
            && GoodWeightEntry(entry, ownRepo, after) && JsMap.Distinct(entry) && Keys(entry) == Keys(raw.fields)
            && Table(after, ownRepo) && Extends(seen, after)
  {
    var parse := ContainerParser(ownRepo);
    var holds := (i: nat, c: ContainerRef, at: Seen) => GoodContainer(c, ownRepo) && AllRecorded(c.parts, at);
    forall i: nat, at: Seen | i < |raw.fields| && Table(at, ownRepo) && parse(raw.fields[i].0, raw.fields[i].1, at).Success?
      ensures var (value, after) := parse(raw.fields[i].0, raw.fields[i].1, at).value;
              Table(after, ownRepo) && Extends(at, after) && holds(i, value, after)
    {
      ContainerKeeps(raw.fields[i].1, ownRepo, at);
    }
    forall i: nat, c: ContainerRef, before: Seen, after: Seen | holds(i, c, before) && Extends(before, after)
      ensures holds(i, c, after)
    {
      StillRecorded(c.parts, before, after);
    }
    FieldsKeep(raw.fields, |raw.fields|, parse, seen, ownRepo, holds);
  }

  lemma StillGoodEntry(entry: WeightEntry, ownRepo: Option<string>, before: Seen, after: Seen)
    requires GoodWeightEntry(entry, ownRepo, before) && Extends(before, after)
    ensures GoodWeightEntry(entry, ownRepo, after)
  {
    forall i | 0 <= i < |entry|
      ensures AllRecorded(entry[i].1.parts, after)
    {
      StillRecorded(entry[i].1.parts, before, after);
    }
  }

  ghost predicate WeightsRead(weights: Weights, raw: Fields, ownRepo: Option<string>, seen: Seen) {
    && GoodWeights(weights, ownRepo, seen) && Keys(weights) == Keys(raw)
    && forall i :: 0 <= i < |weights| ==>
         JsMap.Distinct(weights[i].1) && raw[i].1.JObj? && Keys(weights[i].1) == Keys(raw[i].1.fields)
  }

  lemma WeightsKeep(raw: Option<Json>, env: Env, seen: Seen)
    requires Table(seen, env.ownRepo) && (raw.Some? ==> OneValuePerKey(raw.value))
    requires ParseMap(raw, MAX_WEIGHTS, false, WeightEntryParser(env), seen, Format).Success?
    ensures var (weights, after) := ParseMap(raw, MAX_WEIGHTS, false, WeightEntryParser(env), seen, Format).value;
            && WeightsRead(weights, raw.value.fields, env.ownRepo, after)
            && Table(after, env.ownRepo) && Extends(seen, after)
  {
    var fields := raw.value.fields;
    var parse := WeightEntryParser(env);
    var holds := (i: nat, entry: WeightEntry, at: Seen) =>
      GoodWeightEntry(entry, env.ownRepo, at) && i < |fields| && fields[i].1.JObj?
      && JsMap.Distinct(entry) && Keys(entry) == Keys(fields[i].1.fields);
    forall i: nat, at: Seen | i < |fields| && Table(at, env.ownRepo) && parse(fields[i].0, fields[i].1, at).Success?
      ensures var (value, after) := parse(fields[i].0, fields[i].1, at).value;
              Table(after, env.ownRepo) && Extends(at, after) && holds(i, value, after)
    {
      WeightEntryKeeps(fields[i].1, env.ownRepo, at);
    }
    forall i: nat, entry: WeightEntry, before: Seen, after: Seen | holds(i, entry, before) && Extends(before, after)
      ensures holds(i, entry, after)
    {
      StillGoodEntry(entry, env.ownRepo, before, after);
    }
    FieldsKeep(fields, |fields|, parse, seen, env.ownRepo, holds);
  }

  lemma StillGoodAsset(ref: FileRef, ownRepo: Option<string>, before: Seen, after: Seen)
    requires GoodAsset(ref, ownRepo, before) && Extends(before, after)
    ensures GoodAsset(ref, ownRepo, after)
  {
  }

  lemma AssetsKeep(raw: Option<Json>, env: Env, seen: Seen)
    requires Table(seen, env.ownRepo)
    requires ParseMap(raw, MAX_ASSETS, true, FileRefParser(env.ownRepo), seen, Format).Success?
    ensures var (assets, after) := ParseMap(raw, MAX_ASSETS, true, FileRefParser(env.ownRepo), seen, Format).value;
            && GoodAssets(assets, env.ownRepo, after) && Keys(assets) == Keys(raw.value.fields)
            && Table(after, env.ownRepo) && Extends(seen, after)
  {
    var fields := raw.value.fields;
    var parse := FileRefParser(env.ownRepo);
    var holds := (i: nat, ref: FileRef, at: Seen) => GoodAsset(ref, env.ownRepo, at);
    forall i: nat, at: Seen | i < |fields| && Table(at, env.ownRepo) && parse(fields[i].0, fields[i].1, at).Success?
      ensures var (value, after) := parse(fields[i].0, fields[i].1, at).value;
              Table(after, env.ownRepo) && Extends(at, after) && holds(i, value, after)
    {
      FileRefKeeps(fields[i].1, false, env.ownRepo, at);
    }
    forall i: nat, ref: FileRef, before: Seen, after: Seen | holds(i, ref, before) && Extends(before, after)
      ensures holds(i, ref, after)
    {
      StillGoodAsset(ref, env.ownRepo, before, after);
    }
    FieldsKeep(fields, |fields|, parse, seen, env.ownRepo, holds);
  }

  /** Entry i of a quant's mapping: the name and label written there, both of which exist. */
  ghost predicate MappingEntry(mapping: JsMap.Map<string, string>, fields: Fields, weights: Weights, i: nat)
    requires i < |mapping| && i < |fields|
  {
    && mapping[i].0 == fields[i].0 && fields[i].1 == JStr(mapping[i].1)
    && JsMap.Get(weights, mapping[i].0).Some?
    && JsMap.Has(JsMap.Get(weights, mapping[i].0).value, mapping[i].1)
  }

  lemma NewKeyAppends<V>(m: JsMap.Map<string, V>, key: string, value: V)
    requires forall i :: 0 <= i < |m| ==> m[i].0 != key
    ensures JsMap.Set(m, key, value) == m + [(key, value)]
  {
  }

  lemma {:induction false} MappingEntries(fields: Fields, n: nat, weights: Weights)
    requires n <= |fields| && JsMap.Distinct(fields) && ParseQuantEntries(fields, n, weights).Success?
    ensures var mapping := ParseQuantEntries(fields, n, weights).value;
            |mapping| == n && forall i :: 0 <= i < n ==> MappingEntry(mapping, fields, weights, i)
  {
    if n > 0 {
      MappingEntries(fields, n - 1, weights);
      var before := ParseQuantEntries(fields, n - 1, weights).value;
      forall i | 0 <= i < n - 1
        ensures before[i].0 != fields[n - 1].0
      {
        assert MappingEntry(before, fields, weights, i);
      }
      NewKeyAppends(before, fields[n - 1].0, fields[n - 1].1.str);
      var mapping := ParseQuantEntries(fields, n, weights).value;
      forall i | 0 <= i < n
        ensures MappingEntry(mapping, fields, weights, i)
      {
        assert i < n - 1 ==> MappingEntry(before, fields, weights, i);
      }
    }
  }

  lemma MappingIsGood(raw: Option<Json>, weights: Weights)
    requires raw.Some? ==> OneValuePerKey(raw.value)
    requires ParseQuantWeights(raw, weights).Success?
    ensures GoodMapping(ParseQuantWeights(raw, weights).value, weights)
  {
    var fields := raw.value.fields;
    var mapping := ParseQuantWeights(raw, weights).value;
    MappingEntries(fields, |fields|, weights);
    forall i, j | 0 <= i < j < |mapping|
      ensures mapping[i].0 != mapping[j].0
    {
      assert MappingEntry(mapping, fields, weights, i) && MappingEntry(mapping, fields, weights, j);
    }
    forall name: string
      ensures JsMap.Has(mapping, name) <==> JsMap.Has(weights, name)
      ensures JsMap.Has(mapping, name) ==>
                JsMap.Has(JsMap.Get(weights, name).value, JsMap.Get(mapping, name).value)
    {
      var i, j := JsMap.IndexOf(mapping, name), JsMap.IndexOf(weights, name);
      if i >= 0 {
        assert MappingEntry(mapping, fields, weights, i);
      }
      if j >= 0 {
        assert JsMap.Has(mapping, weights[j].0);
      }
    }
  }

  lemma QuantsKeep(raw: Option<Json>, weights: Weights, env: Env, seen: Seen)
    requires Table(seen, env.ownRepo) && (raw.Some? ==> OneValuePerKey(raw.value))
    requires ParseMap(raw, MAX_QUANTS, false, QuantParser(weights, env), seen, Format).Success?
    ensures var (quants, after) := ParseMap(raw, MAX_QUANTS, false, QuantParser(weights, env), seen, Format).value;
            && GoodQuants(quants, weights) && Keys(quants) == Keys(raw.value.fields)
  {
    var fields := raw.value.fields;
    var parse := QuantParser(weights, env);
    var holds := (i: nat, quant: Quant, at: Seen) => GoodMapping(quant.weights, weights);
    forall i: nat, at: Seen | i < |fields| && Table(at, env.ownRepo) && parse(fields[i].0, fields[i].1, at).Success?
      ensures var (value, after) := parse(fields[i].0, fields[i].1, at).value;
              Table(after, env.ownRepo) && Extends(at, after) && holds(i, value, after)
    {
      var quant := fields[i].1;
      assert OneValuePerKey(quant);
      if Field(quant.fields, "weights").Some? {
        FieldOfDistinct(quant, "weights");
      }
      MappingIsGood(Field(quant.fields, "weights"), weights);
    }
    FieldsKeep(fields, |fields|, parse, seen, env.ownRepo, holds);
  }

  // ----- the survey ---------------------------------------------------------------------------

  /** The dtype labels of the first n names, as declared. */
  ghost predicate Surveyed(dtypes: JsMap.Map<string, seq<string>>, raw: Fields, n: nat) {
    && |dtypes| == n <= |raw|
    && forall i :: 0 <= i < n ==> raw[i].1.JObj? && dtypes[i] == (raw[i].0, Keys(raw[i].1.fields))
  }

  lemma SurveyNext(dtypes: JsMap.Map<string, seq<string>>, raw: Fields, n: nat)
    requires n < |raw| && JsMap.Distinct(raw) && raw[n].1.JObj? && Surveyed(dtypes, raw, n)
    ensures Surveyed(JsMap.Set(dtypes, raw[n].0, Keys(raw[n].1.fields)), raw, n + 1)
  {
    forall i | 0 <= i < n
      ensures dtypes[i].0 != raw[n].0
    {
      assert dtypes[i].0 == raw[i].0;
    }
    NewKeyAppends(dtypes, raw[n].0, Keys(raw[n].1.fields));
  }

  lemma {:induction false} SurveyAll(raw: Fields, n: nat)
    requires n <= |raw| && JsMap.Distinct(raw) && forall i :: 0 <= i < n ==> raw[i].1.JObj?
    ensures Surveyed(SurveyDtypes(raw, Keys(raw), n), raw, n)
  {
    if n > 0 {
      SurveyAll(raw, n - 1);
      JsMap.GetEntry(raw, n - 1);
      SurveyNext(SurveyDtypes(raw, Keys(raw), n - 1), raw, n - 1);
      assert Field(raw, Keys(raw)[n - 1]) == Some(raw[n - 1].1);
    }
  }

  /** For a model that passes the checks nothing was cut off, and the survey lists its tables as declared. */
  lemma SurveyIsExact(root: Fields, name: string)
    requires FieldsOf(Field(root, "models")) != [] && |FieldsOf(Field(root, "models"))| <= MAX_MODELS
    requires var entry := Field(FieldsOf(Field(root, "models")), name);
             && entry.Some? && entry.value.JObj?
             && var weights := FieldsOf(Field(entry.value.fields, "weights"));
             var quants := FieldsOf(Field(entry.value.fields, "quants"));
             && |weights| <= MAX_WEIGHTS && |quants| <= MAX_QUANTS
             && JsMap.Distinct(weights) && forall i :: 0 <= i < |weights| ==> weights[i].1.JObj?
    ensures var survey := SurveyLabels(root, Some(name));
            var entry := Field(FieldsOf(Field(root, "models")), name).value.fields;
            var weights := FieldsOf(Field(entry, "weights"));
            && !survey.truncated
            && survey.available.models == Keys(FieldsOf(Field(root, "models")))
            && survey.available.quants == Keys(FieldsOf(Field(entry, "quants")))
            && |survey.available.dtypes| == |weights|
            && forall i :: 0 <= i < |weights| ==>
                 survey.available.dtypes[i] == (weights[i].0, Keys(weights[i].1.fields))
  {
    var entry := Field(FieldsOf(Field(root, "models")), name).value.fields;
    var weights := FieldsOf(Field(entry, "weights"));
    SurveyAll(weights, |weights|);
  }

  ghost predicate IsTable(fields: Fields, name: string) {
    Field(fields, name).Some? && Field(fields, name).value.JObj?
  }

  /** The tables of a model, as they were read and as their fields are written. */
  ghost predicate TablesRead(m: ModelEntry, fields: Fields) {
    && IsTable(fields, "weights") && IsTable(fields, "quants")
    && Keys(m.weights) == Keys(Field(fields, "weights").value.fields)
    && Keys(m.quants) == Keys(Field(fields, "quants").value.fields)
    && forall i :: 0 <= i < |m.weights| ==>
         var raw := Field(fields, "weights").value.fields[i].1;
         raw.JObj? && Keys(m.weights[i].1) == Keys(raw.fields)
  }

  lemma WeightsTable(raw: Json, env: Env, seen: Seen)
    requires Table(seen, env.ownRepo) && raw.JObj? && OneValuePerKey(raw)
    requires ParseMap(Field(raw.fields, "weights"), MAX_WEIGHTS, false, WeightEntryParser(env), seen, Format).Success?
    ensures var (weights, after) :=
              ParseMap(Field(raw.fields, "weights"), MAX_WEIGHTS, false, WeightEntryParser(env), seen, Format).value;
            && WeightsRead(weights, Field(raw.fields, "weights").value.fields, env.ownRepo, after)
            && JsMap.Distinct(weights) && Table(after, env.ownRepo) && Extends(seen, after)
  {
    FieldOfDistinct(raw, "weights");
    WeightsKeep(Field(raw.fields, "weights"), env, seen);
    DistinctLike(ParseMap(Field(raw.fields, "weights"), MAX_WEIGHTS, false, WeightEntryParser(env), seen, Format).value.0,
                 Field(raw.fields, "weights").value.fields);
  }

  lemma AssetsTable(raw: Json, env: Env, seen: Seen)
    requires Table(seen, env.ownRepo) && raw.JObj? && OneValuePerKey(raw)
    requires ParseMap(Field(raw.fields, "assets"), MAX_ASSETS, true, FileRefParser(env.ownRepo), seen, Format).Success?
    ensures var (assets, after) :=
              ParseMap(Field(raw.fields, "assets"), MAX_ASSETS, true, FileRefParser(env.ownRepo), seen, Format).value;
            && GoodAssets(assets, env.ownRepo, after) && JsMap.Distinct(assets)
            && Table(after, env.ownRepo) && Extends(seen, after)
  {
    FieldOfDistinct(raw, "assets");
    AssetsKeep(Field(raw.fields, "assets"), env, seen);
    DistinctLike(ParseMap(Field(raw.fields, "assets"), MAX_ASSETS, true, FileRefParser(env.ownRepo), seen, Format).value.0,
                 Field(raw.fields, "assets").value.fields);
  }

  lemma QuantsTable(raw: Json, weights: Weights, env: Env, seen: Seen)
    requires Table(seen, env.ownRepo) && raw.JObj? && OneValuePerKey(raw)
    requires ParseMap(Field(raw.fields, "quants"), MAX_QUANTS, false, QuantParser(weights, env), seen, Format).Success?
    ensures var (quants, after) :=
              ParseMap(Field(raw.fields, "quants"), MAX_QUANTS, false, QuantParser(weights, env), seen, Format).value;
            && GoodQuants(quants, weights) && JsMap.Distinct(quants)
            && Keys(quants) == Keys(Field(raw.fields, "quants").value.fields)
  {
    FieldOfDistinct(raw, "quants");
    QuantsKeep(Field(raw.fields, "quants"), weights, env, seen);
    DistinctLike(ParseMap(Field(raw.fields, "quants"), MAX_QUANTS, false, QuantParser(weights, env), seen, Format).value.0,
                 Field(raw.fields, "quants").value.fields);
  }

  lemma ModelAssembled(m: ModelEntry, fields: Fields, ownRepo: Option<string>, atWeights: Seen, after: Seen)
    requires IsTable(fields, "weights") && IsTable(fields, "quants")
    requires WeightsRead(m.weights, Field(fields, "weights").value.fields, ownRepo, atWeights)
    requires Extends(atWeights, after) && GoodAssets(m.assets, ownRepo, after) && GoodQuants(m.quants, m.weights)
    requires Keys(m.quants) == Keys(Field(fields, "quants").value.fields)
    requires JsMap.Distinct(m.weights) && JsMap.Distinct(m.assets) && JsMap.Distinct(m.quants)
    requires JsMap.Has(m.quants, m.defaultQuant)
    ensures GoodModel(m, ownRepo, after) && TablesRead(m, fields)
  {
    StillGoodWeights(m.weights, ownRepo, atWeights, after);
  }

  /** How the tables of a model are read one after the other. */
  ghost predicate TablesParsed(m: ModelEntry, fields: Fields, env: Env, seen: Seen, atWeights: Seen, after: Seen) {
    && ParseMap(Field(fields, "weights"), MAX_WEIGHTS, false, WeightEntryParser(env), seen, Format)
       == Success((m.weights, atWeights))
    && ParseMap(Field(fields, "assets"), MAX_ASSETS, true, FileRefParser(env.ownRepo), atWeights, Format)
       == Success((m.assets, after))
    && var quants := ParseMap(Field(fields, "quants"), MAX_QUANTS, false, QuantParser(m.weights, env), after, Format);
       quants.Success? && quants.value.0 == m.quants
  }

  lemma ModelFieldsParsed(fields: Fields, available: Labels, env: Env, seen: Seen) returns (atWeights: Seen)
    requires ParseModelFields(fields, available, env, seen).Success?
    ensures var (m, after) := ParseModelFields(fields, available, env, seen).value;
            && TablesParsed(m, fields, env, seen, atWeights, after)
            && m.available == available && JsMap.Has(m.quants, m.defaultQuant)
  {
    atWeights := ParseMap(Field(fields, "weights"), MAX_WEIGHTS, false, WeightEntryParser(env), seen, Format).value.1;
  }

  lemma TablesKeep(m: ModelEntry, raw: Json, env: Env, seen: Seen, atWeights: Seen, after: Seen)
    requires Table(seen, env.ownRepo) && raw.JObj? && OneValuePerKey(raw)
    requires TablesParsed(m, raw.fields, env, seen, atWeights, after) && JsMap.Has(m.quants, m.defaultQuant)
    ensures GoodModel(m, env.ownRepo, after) && TablesRead(m, raw.fields)
    ensures Table(after, env.ownRepo) && Extends(seen, after)
  {
    WeightsTable(raw, env, seen);
    AssetsTable(raw, env, atWeights);
    QuantsTable(raw, m.weights, env, after);
    ModelAssembled(m, raw.fields, env.ownRepo, atWeights, after);
  }

  lemma ModelKeeps(root: Fields, name: string, raw: Json, env: Env, seen: Seen)
    requires Table(seen, env.ownRepo) && OneValuePerKey(raw) && ParseModel(root, name, raw, env, seen).Success?
    ensures var (m, after) := ParseModel(root, name, raw, env, seen).value;
            && GoodModel(m, env.ownRepo, after) && TablesRead(m, raw.fields)
            && m.available == SurveyLabels(root, Some(name)).available
            && Table(after, env.ownRepo) && Extends(seen, after)
  {
    var available := SurveyLabels(root, Some(name)).available;
    var (m, after) := ParseModelFields(raw.fields, available, env, seen).value;
    var atWeights := ModelFieldsParsed(raw.fields, available, env, seen);
    TablesKeep(m, raw, env, seen, atWeights, after);
  }

  lemma StillGoodWeights(weights: Weights, ownRepo: Option<string>, before: Seen, after: Seen)
    requires GoodWeights(weights, ownRepo, before) && Extends(before, after)
    ensures GoodWeights(weights, ownRepo, after)
  {
    forall i | 0 <= i < |weights|
      ensures GoodWeightEntry(weights[i].1, ownRepo, after)
    {
      StillGoodEntry(weights[i].1, ownRepo, before, after);
    }
  }

  lemma DistinctLike<V, W>(parsed: JsMap.Map<string, V>, raw: JsMap.Map<string, W>)
    requires Keys(parsed) == Keys(raw) && JsMap.Distinct(raw)
    ensures JsMap.Distinct(parsed)
  {
    assert forall i :: 0 <= i < |parsed| ==> parsed[i].0 == Keys(parsed)[i];
  }

  lemma StillGoodModel(m: ModelEntry, ownRepo: Option<string>, before: Seen, after: Seen)
    requires GoodModel(m, ownRepo, before) && Extends(before, after)
    ensures GoodModel(m, ownRepo, after)
  {
    StillGoodWeights(m.weights, ownRepo, before, after);
    forall i | 0 <= i < |m.assets|
      ensures GoodAsset(m.assets[i].1, ownRepo, after)
    {
      StillGoodAsset(m.assets[i].1, ownRepo, before, after);
    }
  }

  /** The survey lists the tables as they are written, and they are read in that order. */
  lemma SurveyMatchesTables(m: ModelEntry, fields: Fields, models: seq<string>)
    requires TablesRead(m, fields)
    requires m.available.models == models && m.available.quants == Keys(Field(fields, "quants").value.fields)
    requires var weights := Field(fields, "weights").value.fields;
             && |m.available.dtypes| == |weights|
             && forall j :: 0 <= j < |m.weights| ==> m.available.dtypes[j] == (weights[j].0, Keys(weights[j].1.fields))
    ensures ExactLabels(m, models)
  {
    var weights, dtypes := Field(fields, "weights").value.fields, m.available.dtypes;
    assert |m.weights| == |Keys(m.weights)| == |weights|;
    forall j | 0 <= j < |m.weights|
      ensures dtypes[j].0 == m.weights[j].0 && dtypes[j].1 == Keys(m.weights[j].1)
    {
      assert m.weights[j].0 == Keys(m.weights)[j] == weights[j].0;
    }
    assert Keys(dtypes) == Keys(m.weights);
  }

  /** A model that was read lists its own tables as available. */
  lemma LabelsAreExact(root: Fields, models: Json, i: nat, m: ModelEntry)
    requires models.JObj? && OneValuePerKey(models) && Field(root, "models") == Some(models)
    requires i < |models.fields| <= MAX_MODELS && models.fields[i].1.JObj? && TablesRead(m, models.fields[i].1.fields)
    requires |m.weights| <= MAX_WEIGHTS && |m.quants| <= MAX_QUANTS
    requires m.available == SurveyLabels(root, Some(models.fields[i].0)).available
    ensures ExactLabels(m, Keys(models.fields))
  {
    var raw := models.fields[i].1;
    ModelFound(models, i);
    FieldOfDistinct(raw, "weights");
    assert |Field(raw.fields, "weights").value.fields| == |Keys(m.weights)|;
    assert |Field(raw.fields, "quants").value.fields| == |Keys(m.quants)|;
    SurveyIsExact(root, models.fields[i].0);
    SurveyMatchesTables(m, raw.fields, Keys(models.fields));
  }

  lemma ModelFound(models: Json, i: nat)
    requires models.JObj? && OneValuePerKey(models) && i < |models.fields|
    ensures Field(models.fields, models.fields[i].0) == Some(models.fields[i].1) && OneValuePerKey(models.fields[i].1)
  {
    JsMap.GetEntry(models.fields, i);
  }

  lemma ModelsKeep(root: Fields, models: Json, env: Env)
    requires models.JObj? && OneValuePerKey(models) && Field(root, "models") == Some(models)
    requires ParseFields(models.fields, |models.fields|, ModelParser(root, env), map[]).Success?
    requires |models.fields| <= MAX_MODELS
    ensures var (parsed, seen) := ParseFields(models.fields, |models.fields|, ModelParser(root, env), map[]).value;
            && Keys(parsed) == Keys(models.fields) && Table(seen, env.ownRepo)
            && forall i :: 0 <= i < |parsed| ==>
                 GoodModel(parsed[i].1, env.ownRepo, seen) && ExactLabels(parsed[i].1, Keys(models.fields))
  {
    var fields := models.fields;
    var parse := ModelParser(root, env);
    var holds := (i: nat, m: ModelEntry, at: Seen) => GoodModel(m, env.ownRepo, at) && ExactLabels(m, Keys(fields));
    forall i: nat, at: Seen | i < |fields| && Table(at, env.ownRepo) && parse(fields[i].0, fields[i].1, at).Success?
      ensures var (value, after) := parse(fields[i].0, fields[i].1, at).value;
              Table(after, env.ownRepo) && Extends(at, after) && holds(i, value, after)
    {
      assert OneValuePerKey(fields[i].1);
      ModelKeeps(root, fields[i].0, fields[i].1, env, at);
      LabelsAreExact(root, models, i, parse(fields[i].0, fields[i].1, at).value.0);
    }
    forall i: nat, m: ModelEntry, before: Seen, after: Seen | holds(i, m, before) && Extends(before, after)
      ensures holds(i, m, after)
    {
      StillGoodModel(m, env.ownRepo, before, after);
    }
    FieldsKeep(fields, |fields|, parse, map[], env.ownRepo, holds);
  }

  // ----- the guarantees -----------------------------------------------------------------------

  /**
    An accepted manifest is good: every reference passes the allowlists and is recorded in one table,
    every container is consistent, every quant maps every weights name to a label it has, the defaults
    exist, and `available` lists exactly what is declared.
   */
  lemma AcceptedIsGood(root: Json, env: Env) returns (seen: Seen)
    requires OneValuePerKey(root) && ParseRepoManifest(root, env).Success?
    ensures GoodManifest(ParseRepoManifest(root, env).value, env.ownRepo, seen)
  {
    var models := Field(root.fields, "models").value;
    FieldOfDistinct(root, "models");
    ModelsKeep(root.fields, models, env);
    var parsed := ParseFields(models.fields, |models.fields|, ModelParser(root.fields, env), map[]).value;
    seen := parsed.1;
    DistinctLike(parsed.0, models.fields);
    assert Keys(models.fields)[..|models.fields|] == Keys(models.fields);
  }

  ghost predicate InWeights(ref: FileRef, m: ModelEntry) {
    exists i, j :: 0 <= i < |m.weights| && 0 <= j < |m.weights[i].1| && ref in m.weights[i].1[j].1.parts
  }

  ghost predicate InAssets(ref: FileRef, m: ModelEntry) {
    exists i :: 0 <= i < |m.assets| && ref == m.assets[i].1
  }

  ghost predicate InManifest(ref: FileRef, m: Manifest) {
    exists i :: 0 <= i < |m.models| && (InWeights(ref, m.models[i].1) || InAssets(ref, m.models[i].1))
  }

  lemma InTable(ref: FileRef, m: Manifest, ownRepo: Option<string>, seen: Seen)
    requires GoodManifest(m, ownRepo, seen) && InManifest(ref, m)
    ensures Recorded(ref, seen) && GoodRef(ref, ownRepo)
  {
    var i :| 0 <= i < |m.models| && (InWeights(ref, m.models[i].1) || InAssets(ref, m.models[i].1));
    var model := m.models[i].1;
    assert GoodModel(model, ownRepo, seen);
    if InWeights(ref, model) {
      var k, j :| 0 <= k < |model.weights| && 0 <= j < |model.weights[k].1| && ref in model.weights[k].1[j].1.parts;
      assert GoodWeightEntry(model.weights[k].1, ownRepo, seen);
      var parts := model.weights[k].1[j].1.parts;
      var p :| 0 <= p < |parts| && parts[p] == ref;
      assert GoodPart(parts, p, ownRepo) && Recorded(parts[p], seen);
    } else {
      var k :| 0 <= k < |model.assets| && ref == model.assets[k].1;
      assert GoodAsset(model.assets[k].1, ownRepo, seen);
    }
  }

  /**
    Identity over the whole manifest: wherever two references stand, they have the same key exactly when
    they name the same file, and then they agree in everything.
   */
  lemma OneFilePerKey(root: Json, env: Env, r1: FileRef, r2: FileRef)
    requires OneValuePerKey(root) && ParseRepoManifest(root, env).Success?
    requires InManifest(r1, ParseRepoManifest(root, env).value) && InManifest(r2, ParseRepoManifest(root, env).value)
    ensures FileRefKey(r1) == FileRefKey(r2) <==> r1 == r2
    ensures FileRefKey(r1) == FileRefKey(r2) <==> r1.path == r2.path && CrossRefOf(r1) == CrossRefOf(r2)
  {
    var m := ParseRepoManifest(root, env).value;
    var seen := AcceptedIsGood(root, env);
    InTable(r1, m, env.ownRepo, seen);
    InTable(r2, m, env.ownRepo, seen);
    KeyInjective(r1, r2);
  }
}
