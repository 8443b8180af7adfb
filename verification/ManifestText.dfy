/**
  What the text of a manifest says, field by field, and that parsing accepts exactly the well-formed texts
  of acceptable manifests (packages/hub/src/manifest.ts).  No field of the text is left out and none is added.
 */
module ManifestText {
  import opened Wrappers
  import opened FileRefs
  import opened ManifestParser
  import opened AcceptedManifests
  import JsMap

  // ----- forbidden keys and depth, path by path -----------------------------------------------

  predicate HasChild(value: Json, i: nat) {
    (value.JArr? && i < |value.items|) || (value.JObj? && i < |value.fields|)
  }

  function Child(value: Json, i: nat): Json
    requires HasChild(value, i)
  {
    if value.JArr? then value.items[i] else value.fields[i].1
  }

  /** The path leads from the value to something in it. */
  predicate Leads(value: Json, path: seq<nat>)
    decreases |path|
  {
    path == [] || (HasChild(value, path[0]) && Leads(Child(value, path[0]), path[1..]))
  }

  /** No step of the path goes by a name that could reach a prototype. */
  predicate NamesFine(value: Json, path: seq<nat>)
    requires Leads(value, path)
    decreases |path|
  {
    path != [] ==>
      && (value.JObj? ==> value.fields[path[0]].0 !in {"__proto__", "constructor", "prototype"})
      && NamesFine(Child(value, path[0]), path[1..])
  }

  /** Nothing lies deeper than 64 levels, and no path goes by a forbidden name. */
  ghost predicate WellFormed(value: Json, depth: nat) {
    forall path: seq<nat> | Leads(value, path) :: depth + |path| <= 64 && NamesFine(value, path)
  }

  lemma PathBelow(value: Json, i: nat, path: seq<nat>)
    requires HasChild(value, i) && Leads(Child(value, i), path)
    ensures Leads(value, [i] + path)
    ensures NamesFine(value, [i] + path) <==>
            (value.JObj? ==> value.fields[i].0 !in {"__proto__", "constructor", "prototype"}) && NamesFine(Child(value, i), path)
  {
    assert ([i] + path)[1..] == path;
  }

  lemma ChildrenWellFormed(value: Json, depth: nat, i: nat)
    requires WellFormed(value, depth) && HasChild(value, i)
    ensures WellFormed(Child(value, i), depth + 1)
    ensures value.JObj? ==> value.fields[i].0 !in {"__proto__", "constructor", "prototype"}
  {
    forall path: seq<nat> | Leads(Child(value, i), path)
      ensures depth + 1 + |path| <= 64 && NamesFine(Child(value, i), path)
    {
      PathBelow(value, i, path);
      assert |[i] + path| == 1 + |path|;
    }
    PathBelow(value, i, []);
    assert Leads(Child(value, i), []);
  }

  lemma ParentWellFormed(value: Json, depth: nat)
    requires depth <= 64
    requires forall i: nat :: HasChild(value, i) ==>
               && WellFormed(Child(value, i), depth + 1)
               && (value.JObj? ==> value.fields[i].0 !in {"__proto__", "constructor", "prototype"})
    ensures WellFormed(value, depth)
  {
    forall path: seq<nat> | Leads(value, path)
      ensures depth + |path| <= 64 && NamesFine(value, path)
    {
      if path != [] {
        assert WellFormed(Child(value, path[0]), depth + 1) && Leads(Child(value, path[0]), path[1..]);
      }
    }
  }

  /** The recursive check of the source finds exactly the values with a bad path. */
  lemma {:induction false} WellFormedIff(value: Json, depth: nat)
    ensures NoForbiddenKeys(value, depth) <==> WellFormed(value, depth)
    decreases value
  {
    assert Leads(value, []);
    match value
    case JArr(items) =>
      forall i | 0 <= i < |items|
        ensures NoForbiddenKeys(items[i], depth + 1) <==> WellFormed(items[i], depth + 1)
      {
        WellFormedIff(items[i], depth + 1);
      }
      BranchWellFormed(value, depth);
    case JObj(fields) =>
      forall i | 0 <= i < |fields|
        ensures NoForbiddenKeys(fields[i].1, depth + 1) <==> WellFormed(fields[i].1, depth + 1)
      {
        WellFormedIff(fields[i].1, depth + 1);
      }
      BranchWellFormed(value, depth);
    case _ =>
      forall path: seq<nat> | Leads(value, path)
        ensures path == []
      {
      }
  }

  lemma BranchWellFormed(value: Json, depth: nat)
    requires value.JArr? || value.JObj?
    requires forall i: nat :: HasChild(value, i) ==>
               (NoForbiddenKeys(Child(value, i), depth + 1) <==> WellFormed(Child(value, i), depth + 1))
    ensures NoForbiddenKeys(value, depth) <==> WellFormed(value, depth)
  {
    assert Leads(value, []);
    assert forall name: string :: name in FORBIDDEN_KEYS <==> name in {"__proto__", "constructor", "prototype"};
    if NoForbiddenKeys(value, depth) {
      forall i: nat | HasChild(value, i)
        ensures WellFormed(Child(value, i), depth + 1)
        ensures value.JObj? ==> value.fields[i].0 !in {"__proto__", "constructor", "prototype"}
      {
        assert NoForbiddenKeys(Child(value, i), depth + 1);
      }
      ParentWellFormed(value, depth);
    }
    if WellFormed(value, depth) {
      forall i: nat | HasChild(value, i)
        ensures NoForbiddenKeys(Child(value, i), depth + 1)
        ensures value.JObj? ==> value.fields[i].0 !in FORBIDDEN_KEYS
      {
        ChildrenWellFormed(value, depth, i);
      }
      forall i | value.JArr? && 0 <= i < |value.items|
        ensures NoForbiddenKeys(value.items[i], depth + 1)
      {
        assert HasChild(value, i) && Child(value, i) == value.items[i];
      }
      forall i | value.JObj? && 0 <= i < |value.fields|
        ensures value.fields[i].0 !in FORBIDDEN_KEYS && NoForbiddenKeys(value.fields[i].1, depth + 1)
      {
        assert HasChild(value, i) && Child(value, i) == value.fields[i].1;
      }
    }
  }

  // ----- what the text says -------------------------------------------------------------------

  ghost predicate Only(raw: Json, names: set<string>) {
    raw.JObj? && forall i :: 0 <= i < |raw.fields| ==> raw.fields[i].0 in names
  }

  function At(raw: Json, name: string): Option<Json> {
    if raw.JObj? then Field(raw.fields, name) else None
  }

  ghost predicate SaysRef(raw: Json, ref: FileRef) {
    Only(raw, {"path", "size", "sha256", "repo", "revision"}) && Says(raw, ref)
  }

  ghost predicate SaysDocument(raw: Json, d: Document) {
    && Only(raw, {"length", "sha256"})
    && At(raw, "length") == Some(JNum(true, d.length as real)) && At(raw, "sha256") == Some(JStr(d.sha256))
  }

  ghost predicate SaysParts(raw: Json, parts: seq<FileRef>) {
    && raw.JArr? && |raw.items| == |parts|
    && forall i :: 0 <= i < |parts| ==> SaysRef(raw.items[i], parts[i])
  }

  ghost predicate SaysDescriptor(raw: Json, c: ContainerRef) {
    && Only(raw, {"graph", "model"})
    && At(raw, "graph").Some? && SaysDocument(At(raw, "graph").value, c.graph)
    && At(raw, "model").Some? && SaysDocument(At(raw, "model").value, c.model)
  }

  ghost predicate SaysContainer(raw: Json, c: ContainerRef) {
    && Only(raw, {"container"}) && At(raw, "container").Some?
    && var container := At(raw, "container").value;
       && Only(container, {"descriptor", "parts"})
       && At(container, "descriptor").Some? && SaysDescriptor(At(container, "descriptor").value, c)
       && At(container, "parts").Some? && SaysParts(At(container, "parts").value, c.parts)
  }

  /** A table: the same names in the same order, and every value says its entry. */
  ghost predicate SaysTable<T(!new)>(raw: Json, m: JsMap.Map<string, T>, says: (Json, T) -> bool) {
    && raw.JObj? && |raw.fields| == |m|
    && forall i :: 0 <= i < |m| ==> raw.fields[i].0 == m[i].0 && says(raw.fields[i].1, m[i].1)
  }

  ghost predicate SaysEntry(raw: Json, entry: WeightEntry) {
    SaysTable(raw, entry, (r: Json, c: ContainerRef) => SaysContainer(r, c))
  }

  ghost predicate SaysWeights(raw: Json, weights: Weights) {
    SaysTable(raw, weights, (r: Json, entry: WeightEntry) => SaysEntry(r, entry))
  }

  ghost predicate SaysAssets(raw: Json, assets: JsMap.Map<string, FileRef>) {
    SaysTable(raw, assets, (r: Json, ref: FileRef) => SaysRef(r, ref))
  }

  ghost predicate SaysMapping(raw: Json, mapping: JsMap.Map<string, string>) {
    SaysTable(raw, mapping, (r: Json, dtype: string) => r == JStr(dtype))
  }

  /** The mapping is the field `weights`, and the settings are all other fields as they stand. */
  ghost predicate SaysQuant(raw: Json, quant: Quant) {
    && Only(raw, {"weights", "session", "gpuFeatures", "label", "description", "requiredLimits"})
    && exists k: nat :: k < |raw.fields| && MappingAt(raw.fields, quant, k)
  }

  ghost predicate MappingAt(fields: Fields, quant: Quant, k: nat)
    requires k < |fields|
  {
    fields[k].0 == "weights" && SaysMapping(fields[k].1, quant.weights) && quant.settings == fields[..k] + fields[k + 1..]
  }

  ghost predicate SaysQuants(raw: Json, quants: JsMap.Map<string, Quant>) {
    SaysTable(raw, quants, (r: Json, quant: Quant) => SaysQuant(r, quant))
  }

  function Digits(n: nat): string {
    if n < 10 then [('0' as int + n) as char] else Digits(n / 10) + [('0' as int + n % 10) as char]
  }

  ghost predicate SaysModel(raw: Json, m: ModelEntry) {
    && Only(raw, {"pipeline", "weights", "assets", "quants", "defaultQuant", "pipelineConfig"})
    && At(raw, "pipeline") == Some(JStr(m.pipeline.name + "/" + Digits(m.pipeline.major)))
    && At(raw, "weights").Some? && SaysWeights(At(raw, "weights").value, m.weights)
    && At(raw, "assets").Some? && SaysAssets(At(raw, "assets").value, m.assets)
    && At(raw, "quants").Some? && SaysQuants(At(raw, "quants").value, m.quants)
    && At(raw, "defaultQuant") == Some(JStr(m.defaultQuant))
    && At(raw, "pipelineConfig") == Some(JObj(m.pipelineConfig))
  }

  ghost predicate SaysModels(raw: Json, models: JsMap.Map<string, ModelEntry>) {
    SaysTable(raw, models, (r: Json, m: ModelEntry) => SaysModel(r, m))
  }

  /** The text of a manifest. */
  ghost predicate SaysManifest(root: Json, m: Manifest) {
    && Only(root, {"format", "generator", "defaultModel", "models"})
    && At(root, "format") == Some(JStr("karume/5"))
    && At(root, "generator") == Some(JStr(m.generator))
    && At(root, "defaultModel") == Some(JStr(m.defaultModel))
    && At(root, "models").Some? && SaysModels(At(root, "models").value, m.models)
  }

  /** The names allowed at each level are those the parser looks for. */
  lemma AllowedNamesAre(raw: Json)
    ensures Only(raw, {"path", "size", "sha256", "repo", "revision"}) <==> raw.JObj? && OnlyKeys(raw.fields, FILE_REF_KEYS)
    ensures Only(raw, {"length", "sha256"}) <==> raw.JObj? && OnlyKeys(raw.fields, DOCUMENT_KEYS)
    ensures Only(raw, {"graph", "model"}) <==> raw.JObj? && OnlyKeys(raw.fields, DESCRIPTOR_KEYS)
    ensures Only(raw, {"container"}) <==> raw.JObj? && OnlyKeys(raw.fields, WEIGHT_DTYPE_KEYS)
    ensures Only(raw, {"descriptor", "parts"}) <==> raw.JObj? && OnlyKeys(raw.fields, CONTAINER_KEYS)
    ensures Only(raw, {"weights", "session", "gpuFeatures", "label", "description", "requiredLimits"}) <==>
            raw.JObj? && OnlyKeys(raw.fields, QUANT_KEYS)
    ensures Only(raw, {"pipeline", "weights", "assets", "quants", "defaultQuant", "pipelineConfig"}) <==>
            raw.JObj? && OnlyKeys(raw.fields, MODEL_KEYS)
    ensures Only(raw, {"format", "generator", "defaultModel", "models"}) <==> raw.JObj? && OnlyKeys(raw.fields, ENVELOPE_KEYS)
  {
  }

  // ----- reading back: references and containers ----------------------------------------------

  lemma RefNamesAre(raw: Json)
    ensures Only(raw, {"path", "size", "sha256", "repo", "revision"}) <==> raw.JObj? && OnlyKeys(raw.fields, FILE_REF_KEYS)
  {
  }

  lemma RefRead(raw: Json, ref: FileRef, allowEmpty: bool, ownRepo: Option<string>)
    requires SaysRef(raw, ref) && GoodRef(ref, ownRepo) && (allowEmpty || ref.size > 0)
    ensures ReadFileRef(raw, allowEmpty, ownRepo) == Success(ref)
  {
    RefNamesAre(raw);
    ReadsBack(raw, ref, allowEmpty, ownRepo);
  }

  lemma RefBack(raw: Json, ref: FileRef, allowEmpty: bool, ownRepo: Option<string>, seen: Seen, all: Seen)
    requires SaysRef(raw, ref)
    requires GoodRef(ref, ownRepo) && (allowEmpty || ref.size > 0) && Recorded(ref, all) && Extends(seen, all)
    ensures var r := ParseFileRef(raw, allowEmpty, ownRepo, seen);
            r.Success? && r.value.0 == ref && Extends(r.value.1, all)
  {
    RefRead(raw, ref, allowEmpty, ownRepo);
  }

  /** From the table `at`, item i reads as value i and only records what the whole table holds. */
  ghost predicate ItemReads<T(!new), E(!new)>(items: seq<Json>, values: seq<T>, i: nat,
    parse: (nat, Json, Seen) -> Result<(T, Seen), E>, at: Seen, all: Seen)
    requires i < |items| && i < |values|
  {
    Extends(at, all) ==>
      var r := parse(i, items[i], at);
      r.Success? && r.value.0 == values[i] && Extends(r.value.1, all)
  }

  ghost predicate ItemsRead<T(!new), E(!new)>(items: seq<Json>, values: seq<T>,
    parse: (nat, Json, Seen) -> Result<(T, Seen), E>, all: Seen)
  {
    && |items| == |values|
    && forall i: nat, at: Seen :: i < |items| ==> ItemReads(items, values, i, parse, at, all)
  }

  lemma {:induction false} ItemsBack<T(!new), E(!new)>(items: seq<Json>, values: seq<T>, n: nat,
    parse: (nat, Json, Seen) -> Result<(T, Seen), E>, seen: Seen, all: Seen) returns (after: Seen)
    requires n <= |values| && ItemsRead(items, values, parse, all) && Extends(seen, all)
    ensures ParseItems(items, n, parse, seen) == Success((values[..n], after)) && Extends(after, all)
  {
    if n == 0 {
      after := seen;
    } else {
      var at := ItemsBack(items, values, n - 1, parse, seen, all);
      assert ItemReads(items, values, n - 1, parse, at, all);
      after := parse(n - 1, items[n - 1], at).value.1;
      assert values[..n] == values[..n - 1] + [values[n - 1]];
    }
  }

  lemma PartOfRef(raw: Json, index: nat, ownRepo: Option<string>, at: Seen, part: FileRef, after: Seen)
    requires ParseFileRef(raw, index > 0, ownRepo, at) == Success((part, after)) && part.size <= MAX_PART_BYTES
    ensures ParsePart(raw, index, ownRepo, at) == Success((part, after))
  {
  }

  lemma PartBack(raw: Json, part: FileRef, index: nat, ownRepo: Option<string>, at: Seen, all: Seen) returns (after: Seen)
    requires SaysRef(raw, part)
    requires GoodRef(part, ownRepo) && part.size <= MAX_PART_BYTES && (index == 0 ==> part.size > 0)
    requires Recorded(part, all) && Extends(at, all)
    ensures ParsePart(raw, index, ownRepo, at) == Success((part, after)) && Extends(after, all)
  {
    RefBack(raw, part, index > 0, ownRepo, at, all);
    after := ParseFileRef(raw, index > 0, ownRepo, at).value.1;
    PartOfRef(raw, index, ownRepo, at, part, after);
  }

  lemma PartReads(items: seq<Json>, parts: seq<FileRef>, i: nat, ownRepo: Option<string>, at: Seen, all: Seen)
    requires SaysParts(JArr(items), parts) && GoodSizes(parts, ownRepo) && AllRecorded(parts, all)
    requires i < |parts| && Extends(at, all)
    ensures ItemReads(items, parts, i, PartParser(ownRepo), at, all)
  {
    assert Recorded(parts[i], all) && SaysRef(items[i], parts[i]);
    var _ := PartBack(items[i], parts[i], i, ownRepo, at, all);
  }

  lemma PartsRead(items: seq<Json>, parts: seq<FileRef>, ownRepo: Option<string>, all: Seen)
    requires SaysParts(JArr(items), parts) && GoodSizes(parts, ownRepo) && AllRecorded(parts, all)
    ensures ItemsRead(items, parts, PartParser(ownRepo), all)
  {
    forall i: nat, at: Seen | i < |parts|
      ensures ItemReads(items, parts, i, PartParser(ownRepo), at, all)
    {
      if Extends(at, all) {
        PartReads(items, parts, i, ownRepo, at, all);
      }
    }
  }

  lemma DocumentBack(raw: Json, d: Document)
    requires SaysDocument(raw, d) && GoodDocument(d)
    ensures ParseDocument(Some(raw)) == Success(d)
  {
    AllowedNamesAre(raw);
    assert (d.length as real).Floor == d.length;
  }

  /** A container object whose fields read as the container's. */
  lemma ContainerReads(raw: Json, descriptor: Json, items: seq<Json>, c: ContainerRef, ownRepo: Option<string>,
                       seen: Seen, all: Seen)
    requires GoodContainer(c, ownRepo) && Extends(seen, all) && ItemsRead(items, c.parts, PartParser(ownRepo), all)
    requires raw.JObj? && OnlyKeys(raw.fields, CONTAINER_KEYS)
    requires Field(raw.fields, "descriptor") == Some(descriptor) && Field(raw.fields, "parts") == Some(JArr(items))
    requires descriptor.JObj? && OnlyKeys(descriptor.fields, DESCRIPTOR_KEYS)
    requires ParseDocument(Field(descriptor.fields, "graph")) == Success(c.graph)
    requires ParseDocument(Field(descriptor.fields, "model")) == Success(c.model)
    ensures var r := ParseContainer(Some(raw), ownRepo, seen);
            r.Success? && r.value.0 == c && Extends(r.value.1, all)
  {
    forall i | 0 <= i < |c.parts|
      ensures CrossRefOf(c.parts[i]) == CrossRefOf(c.parts[0])
    {
      assert GoodPart(c.parts, i, ownRepo);
    }
    var after := ItemsBack(items, c.parts, |c.parts|, PartParser(ownRepo), seen, all);
    assert c.parts[..|c.parts|] == c.parts;
    assert ParseParts(Some(JArr(items)), ownRepo, seen) == Success((c.parts, after));
  }

  lemma GoodPartsHaveGoodSizes(c: ContainerRef, ownRepo: Option<string>)
    requires GoodContainer(c, ownRepo)
    ensures GoodSizes(c.parts, ownRepo)
  {
    forall i | 0 <= i < |c.parts|
      ensures GoodRef(c.parts[i], ownRepo) && c.parts[i].size <= MAX_PART_BYTES && (i == 0 ==> c.parts[i].size > 0)
    {
      assert GoodPart(c.parts, i, ownRepo);
    }
  }

  lemma ContainerBack(raw: Json, c: ContainerRef, ownRepo: Option<string>, seen: Seen, all: Seen)
    requires SaysContainer(raw, c) && GoodContainer(c, ownRepo) && AllRecorded(c.parts, all) && Extends(seen, all)
    ensures var r := ParseWeightContainer(raw, ownRepo, seen);
            r.Success? && r.value.0 == c && Extends(r.value.1, all)
  {
    var container := At(raw, "container").value;
    var descriptor, parts := At(container, "descriptor").value, At(container, "parts").value;
    AllowedNamesAre(raw);
    AllowedNamesAre(container);
    AllowedNamesAre(descriptor);
    DocumentBack(At(descriptor, "graph").value, c.graph);
    DocumentBack(At(descriptor, "model").value, c.model);
    GoodPartsHaveGoodSizes(c, ownRepo);
    assert parts == JArr(parts.items);
    PartsRead(parts.items, c.parts, ownRepo, all);
    ContainerReads(container, descriptor, parts.items, c, ownRepo, seen, all);
  }

  // ----- reading back: tables -----------------------------------------------------------------

  /** Reading entry i of the object gives entry i of the table, and only records what `all` holds. */
  ghost predicate EntriesRead<T(!new), E(!new)>(
    fields: Fields, m: JsMap.Map<string, T>, parse: (string, Json, Seen) -> Result<(T, Seen), E>, all: Seen)
  {
    && |fields| == |m|
    && forall i: nat, at: Seen :: i < |m| && Extends(at, all) ==>
         var r := parse(fields[i].0, fields[i].1, at);
         fields[i].0 == m[i].0 && r.Success? && r.value.0 == m[i].1 && Extends(r.value.1, all)
  }

  lemma {:induction false} FieldsBack<T(!new), E(!new)>(
    fields: Fields, m: JsMap.Map<string, T>, n: nat, parse: (string, Json, Seen) -> Result<(T, Seen), E>,
    seen: Seen, all: Seen)
    requires n <= |m| && EntriesRead(fields, m, parse, all) && Extends(seen, all)
    ensures var r := ParseFields(fields, n, parse, seen);
            r.Success? && r.value.0 == m[..n] && Extends(r.value.1, all)
  {
    if n > 0 {
      FieldsBack(fields, m, n - 1, parse, seen, all);
      var before := ParseFields(fields, n - 1, parse, seen).value;
      assert parse(fields[n - 1].0, fields[n - 1].1, before.1).Success?;
      assert m[..n] == m[..n - 1] + [m[n - 1]];
    }
  }

  lemma MapBack<T(!new), E(!new)>(
    fields: Fields, m: JsMap.Map<string, T>, max: nat, allowEmpty: bool,
    parse: (string, Json, Seen) -> Result<(T, Seen), E>, seen: Seen, all: Seen, formatError: E)
    requires EntriesRead(fields, m, parse, all) && Extends(seen, all)
    requires |m| <= max && (allowEmpty || m != [])
    ensures var r := ParseMap(Some(JObj(fields)), max, allowEmpty, parse, seen, formatError);
            r.Success? && r.value.0 == m && Extends(r.value.1, all)
  {
    FieldsBack(fields, m, |m|, parse, seen, all);
    assert m[..|m|] == m;
  }

  lemma WeightEntryBack(raw: Json, entry: WeightEntry, ownRepo: Option<string>, seen: Seen, all: Seen)
    requires SaysEntry(raw, entry) && GoodWeightEntry(entry, ownRepo, all) && Extends(seen, all)
    ensures var r := ParseWeightEntry(raw, ownRepo, seen);
            r.Success? && r.value.0 == entry && Extends(r.value.1, all)
  {
    var parse := ContainerParser(ownRepo);
    forall i: nat, at: Seen | i < |entry| && Extends(at, all)
      ensures var r := parse(raw.fields[i].0, raw.fields[i].1, at);
              raw.fields[i].0 == entry[i].0 && r.Success? && r.value.0 == entry[i].1 && Extends(r.value.1, all)
    {
      ContainerBack(raw.fields[i].1, entry[i].1, ownRepo, at, all);
    }
    FieldsBack(raw.fields, entry, |entry|, parse, seen, all);
    assert entry[..|entry|] == entry;
  }

  lemma WeightsBack(raw: Json, weights: Weights, env: Env, seen: Seen, all: Seen)
    requires SaysWeights(raw, weights) && GoodWeights(weights, env.ownRepo, all) && Extends(seen, all)
    ensures var r := ParseMap(Some(raw), MAX_WEIGHTS, false, WeightEntryParser(env), seen, Format);
            r.Success? && r.value.0 == weights && Extends(r.value.1, all)
  {
    var parse := WeightEntryParser(env);
    forall i: nat, at: Seen | i < |weights| && Extends(at, all)
      ensures var r := parse(raw.fields[i].0, raw.fields[i].1, at);
              raw.fields[i].0 == weights[i].0 && r.Success? && r.value.0 == weights[i].1 && Extends(r.value.1, all)
    {
      WeightEntryBack(raw.fields[i].1, weights[i].1, env.ownRepo, at, all);
    }
    MapBack(raw.fields, weights, MAX_WEIGHTS, false, parse, seen, all, Format);
  }

  lemma AssetsBack(raw: Json, assets: JsMap.Map<string, FileRef>, ownRepo: Option<string>, seen: Seen, all: Seen)
    requires SaysAssets(raw, assets) && GoodAssets(assets, ownRepo, all) && Extends(seen, all)
    ensures var r := ParseMap(Some(raw), MAX_ASSETS, true, FileRefParser(ownRepo), seen, Format);
            r.Success? && r.value.0 == assets && Extends(r.value.1, all)
  {
    var parse := FileRefParser(ownRepo);
    forall i: nat, at: Seen | i < |assets| && Extends(at, all)
      ensures var r := parse(raw.fields[i].0, raw.fields[i].1, at);
              raw.fields[i].0 == assets[i].0 && r.Success? && r.value.0 == assets[i].1 && Extends(r.value.1, all)
    {
      assert GoodAsset(assets[i].1, ownRepo, all);
      RefBack(raw.fields[i].1, assets[i].1, false, ownRepo, at, all);
    }
    MapBack(raw.fields, assets, MAX_ASSETS, true, parse, seen, all, Format);
  }

  // ----- reading back: quants -----------------------------------------------------------------

  lemma LabelBack(mapping: JsMap.Map<string, string>, i: nat, weights: Weights)
    requires i < |mapping| && GoodMapping(mapping, weights)
    ensures var entry := JsMap.Get(weights, mapping[i].0); entry.Some? && JsMap.Has(entry.value, mapping[i].1)
    ensures JsMap.Set(mapping[..i], mapping[i].0, mapping[i].1) == mapping[..i + 1]
  {
    JsMap.GetEntry(mapping, i);
    assert JsMap.Has(mapping, mapping[i].0);
    NewKeyAppends(mapping[..i], mapping[i].0, mapping[i].1);
    assert mapping[..i + 1] == mapping[..i] + [mapping[i]];
  }

  lemma {:induction false} MappingBack(raw: Json, mapping: JsMap.Map<string, string>, n: nat, weights: Weights)
    requires SaysMapping(raw, mapping) && n <= |mapping| && GoodMapping(mapping, weights)
    ensures ParseQuantEntries(raw.fields, n, weights) == Success(mapping[..n])
  {
    if n > 0 {
      MappingBack(raw, mapping, n - 1, weights);
      LabelBack(mapping, n - 1, weights);
    }
  }

  lemma QuantWeightsBack(raw: Json, mapping: JsMap.Map<string, string>, weights: Weights)
    requires SaysMapping(raw, mapping) && GoodMapping(mapping, weights)
    ensures ParseQuantWeights(Some(raw), weights) == Success(mapping)
  {
    MappingBack(raw, mapping, |mapping|, weights);
    assert mapping[..|mapping|] == mapping;
    forall i | 0 <= i < |weights|
      ensures JsMap.Has(mapping, weights[i].0)
    {
      JsMap.HasIff(weights, weights[i].0);
    }
  }

  /** The settings of a quant name none of its own fields but the known ones, and their readers accept them. */
  ghost predicate GoodSettings(settings: Fields, env: Env) {
    && OnlyKeys(settings, QUANT_KEYS) && !JsMap.Has(settings, "weights")
    && env.settingsError(settings).None?
  }

  /** Of a field that no other field is named after, and of the fields beside it. */
  lemma {:induction false} FieldBetween(before: Fields, name: string, value: Json, after: Fields)
    requires !JsMap.Has(before, name) && !JsMap.Has(after, name)
    ensures Field(before + [(name, value)] + after, name) == Some(value)
    ensures Without(before + [(name, value)] + after, name) == before + after
  {
    var all := before + [(name, value)] + after;
    JsMap.HasIff(after, name);
    if after == [] {
      assert all[..|all| - 1] == before && before + after == before;
      WithoutNone(before, name);
    } else {
      var n := |after| - 1;
      JsMap.HasIff(after[..n], name);
      FieldBetween(before, name, value, after[..n]);
      assert all[..|all| - 1] == before + [(name, value)] + after[..n] && all[|all| - 1] == after[n];
      assert before + after[..n] + [after[n]] == before + after;
    }
  }

  lemma {:induction false} WithoutNone(fields: Fields, name: string)
    requires !JsMap.Has(fields, name)
    ensures Without(fields, name) == fields
  {
    JsMap.HasIff(fields, name);
    if fields != [] {
      JsMap.HasIff(fields[..|fields| - 1], name);
      WithoutNone(fields[..|fields| - 1], name);
    }
  }

  /** Where no setting is named after the mapping, the mapping's field and the settings are found. */
  lemma MappingFound(fields: Fields, quant: Quant, k: nat)
    requires k < |fields| && MappingAt(fields, quant, k) && !JsMap.Has(quant.settings, "weights")
    ensures Field(fields, "weights") == Some(fields[k].1) && Without(fields, "weights") == quant.settings
  {
    var before, after := fields[..k], fields[k + 1..];
    assert fields == before + [("weights", fields[k].1)] + after;
    NoneInPieces(before, after, "weights");
    FieldBetween(before, "weights", fields[k].1, after);
  }

  lemma NoneInPieces(before: Fields, after: Fields, name: string)
    ensures !JsMap.Has(before + after, name) <==> !JsMap.Has(before, name) && !JsMap.Has(after, name)
  {
    JsMap.HasIff(before + after, name);
    JsMap.HasIff(before, name);
    JsMap.HasIff(after, name);
    if i :| 0 <= i < |before| && before[i].0 == name {
      assert (before + after)[i] == before[i];
    }
    if i :| 0 <= i < |after| && after[i].0 == name {
      assert (before + after)[|before| + i] == after[i];
    }
  }

  lemma QuantBack(raw: Json, quant: Quant, weights: Weights, env: Env)
    requires SaysQuant(raw, quant) && GoodMapping(quant.weights, weights) && GoodSettings(quant.settings, env)
    ensures ParseQuant(raw, weights, env) == Success(quant)
  {
    AllowedNamesAre(raw);
    var k: nat :| k < |raw.fields| && MappingAt(raw.fields, quant, k);
    MappingFound(raw.fields, quant, k);
    QuantWeightsBack(raw.fields[k].1, quant.weights, weights);
  }

  lemma QuantsBack(raw: Json, quants: JsMap.Map<string, Quant>, weights: Weights, env: Env, seen: Seen, all: Seen)
    requires SaysQuants(raw, quants) && GoodQuants(quants, weights) && Extends(seen, all)
    requires forall i :: 0 <= i < |quants| ==> GoodSettings(quants[i].1.settings, env)
    ensures var r := ParseMap(Some(raw), MAX_QUANTS, false, QuantParser(weights, env), seen, Format);
            r.Success? && r.value.0 == quants
  {
    var parse := QuantParser(weights, env);
    forall i: nat, at: Seen | i < |quants| && Extends(at, all)
      ensures var r := parse(raw.fields[i].0, raw.fields[i].1, at);
              raw.fields[i].0 == quants[i].0 && r.Success? && r.value.0 == quants[i].1 && Extends(r.value.1, all)
    {
      QuantBack(raw.fields[i].1, quants[i].1, weights, env);
    }
    MapBack(raw.fields, quants, MAX_QUANTS, false, parse, seen, all, Format);
  }

  // ----- pipelines ----------------------------------------------------------------------------

  ghost predicate GoodPipeline(p: PipelineId) {
    IsPipelineName(p.name) && 1 <= p.major <= MAX_SAFE_INTEGER
  }

  ghost predicate AllDigits(s: string) {
    forall i :: 0 <= i < |s| ==> IsDigit(s[i])
  }

  lemma {:induction false} DigitsBack(n: nat)
    ensures Digits(n) != "" && AllDigits(Digits(n)) && Decimal(Digits(n)) == n
    ensures n > 0 ==> Digits(n)[0] != '0'
  {
    if n < 10 {
      assert Digits(n)[..0] == "";
      assert Decimal("") == 0;
    } else {
      DigitsBack(n / 10);
      assert Digits(n)[..|Digits(n)| - 1] == Digits(n / 10);
    }
  }

  lemma {:induction false} DecimalPositive(s: string)
    requires s != "" && AllDigits(s) && s[0] != '0'
    ensures Decimal(s) >= 1
  {
    assert IsDigit(s[0]);
    if |s| > 1 {
      assert s[..|s| - 1][0] == s[0];
      assert forall i :: 0 <= i < |s| - 1 ==> s[..|s| - 1][i] == s[i];
      DecimalPositive(s[..|s| - 1]);
    } else {
      assert s[..0] == "";
    }
  }

  lemma OneMoreDigit(n: nat, d: nat)
    requires n >= 1 && d < 10
    ensures Digits(10 * n + d) == Digits(n) + [('0' as int + d) as char]
  {
    assert (10 * n + d) / 10 == n && (10 * n + d) % 10 == d;
  }

  /** A decimal without leading zeros is the digits of its number. */
  lemma {:induction false} DecimalBack(s: string)
    requires s != "" && AllDigits(s) && s[0] != '0'
    ensures Digits(Decimal(s)) == s
  {
    var before, last := s[..|s| - 1], s[|s| - 1];
    assert IsDigit(last) && s == before + [last];
    if before != "" {
      assert before[0] == s[0] && forall i :: 0 <= i < |before| ==> before[i] == s[i];
      DecimalPositive(before);
      DecimalBack(before);
      OneMoreDigit(Decimal(before), last as int - '0' as int);
    } else {
      assert Decimal(before) == 0;
    }
  }

  lemma {:induction false} SplitNone(s: string, sep: char)
    requires sep !in s
    ensures Split(s, sep) == [s]
  {
    if s != "" {
      assert s[0] in s;
      SplitNone(s[1..], sep);
      assert s == [s[0]] + s[1..];
    }
  }

  lemma {:induction false} SplitOnce(a: string, sep: char, b: string)
    requires sep !in a && sep !in b
    ensures Split(a + [sep] + b, sep) == [a, b]
  {
    var s := a + [sep] + b;
    if a == "" {
      assert s[1..] == b && s[0] == sep;
      SplitNone(b, sep);
    } else {
      assert a[0] in a;
      assert s[1..] == a[1..] + [sep] + b && s[0] == a[0];
      SplitOnce(a[1..], sep, b);
      assert a == [a[0]] + a[1..];
    }
  }

  lemma {:induction false} OneSegment(s: string, sep: char)
    requires |Split(s, sep)| == 1
    ensures Split(s, sep) == [s]
  {
    if s != "" {
      OneSegment(s[1..], sep);
      assert s == [s[0]] + s[1..];
    }
  }

  lemma {:induction false} TwoSegments(s: string, sep: char)
    requires |Split(s, sep)| == 2
    ensures s == Split(s, sep)[0] + [sep] + Split(s, sep)[1]
  {
    var rest := Split(s[1..], sep);
    assert s == [s[0]] + s[1..];
    if s[0] == sep {
      OneSegment(s[1..], sep);
    } else {
      TwoSegments(s[1..], sep);
    }
  }

  lemma PipelineBack(p: PipelineId)
    requires GoodPipeline(p)
    ensures ParsePipeline(Some(JStr(p.name + "/" + Digits(p.major)))) == Success(p)
  {
    var digits := Digits(p.major);
    DigitsBack(p.major);
    forall i | 0 <= i < |p.name|
      ensures p.name[i] != '/'
    {
      assert IsLetter(p.name[i]) || IsDigit(p.name[i]) || p.name[i] in "_-";
    }
    SplitOnce(p.name, '/', digits);
    assert p.name + "/" + digits == p.name + ['/'] + digits;
  }

  lemma PipelineSaid(raw: Option<Json>)
    requires ParsePipeline(raw).Success?
    ensures var p := ParsePipeline(raw).value;
            GoodPipeline(p) && raw == Some(JStr(p.name + "/" + Digits(p.major)))
  {
    var text := raw.value.str;
    var segments := Split(text, '/');
    TwoSegments(text, '/');
    DecimalPositive(segments[1]);
    DecimalBack(segments[1]);
    assert segments[0] + ['/'] + segments[1] == segments[0] + "/" + segments[1];
  }

  // ----- reading back: models -----------------------------------------------------------------

  /** What a model must meet beside GoodModel: the checks on its own texts, settings and configuration. */
  ghost predicate WritableModel(m: ModelEntry, env: Env) {
    && GoodPipeline(m.pipeline)
    && (forall i :: 0 <= i < |m.quants| ==> GoodSettings(m.quants[i].1.settings, env))
    && env.configBytes(m.pipelineConfig) <= MAX_PIPELINE_CONFIG_BYTES
  }

  lemma ModelFieldsAssembled(fields: Fields, m: ModelEntry, env: Env, seen: Seen, atWeights: Seen, after: Seen)
    requires TablesParsed(m, fields, env, seen, atWeights, after)
    requires ParsePipeline(Field(fields, "pipeline")) == Success(m.pipeline)
    requires Field(fields, "defaultQuant") == Some(JStr(m.defaultQuant)) && JsMap.Has(m.quants, m.defaultQuant)
    requires ParsePipelineConfig(Field(fields, "pipelineConfig"), env) == Success(m.pipelineConfig)
    ensures ParseModelFields(fields, m.available, env, seen) == Success((m, after))
  {
  }

  lemma TablesBack(raw: Json, m: ModelEntry, env: Env, seen: Seen, all: Seen) returns (atWeights: Seen, after: Seen)
    requires SaysModel(raw, m) && GoodModel(m, env.ownRepo, all) && Extends(seen, all)
    requires forall i :: 0 <= i < |m.quants| ==> GoodSettings(m.quants[i].1.settings, env)
    ensures TablesParsed(m, raw.fields, env, seen, atWeights, after) && Extends(after, all)
  {
    WeightsBack(At(raw, "weights").value, m.weights, env, seen, all);
    atWeights := ParseMap(At(raw, "weights"), MAX_WEIGHTS, false, WeightEntryParser(env), seen, Format).value.1;
    AssetsBack(At(raw, "assets").value, m.assets, env.ownRepo, atWeights, all);
    after := ParseMap(At(raw, "assets"), MAX_ASSETS, true, FileRefParser(env.ownRepo), atWeights, Format).value.1;
    QuantsBack(At(raw, "quants").value, m.quants, m.weights, env, after, all);
  }

  lemma ModelFieldsBack(raw: Json, m: ModelEntry, env: Env, seen: Seen, all: Seen) returns (after: Seen)
    requires SaysModel(raw, m) && GoodModel(m, env.ownRepo, all) && WritableModel(m, env) && Extends(seen, all)
    ensures ParseModelFields(raw.fields, m.available, env, seen) == Success((m, after)) && Extends(after, all)
  {
    PipelineBack(m.pipeline);
    var atWeights: Seen;
    atWeights, after := TablesBack(raw, m, env, seen, all);
    ModelFieldsAssembled(raw.fields, m, env, seen, atWeights, after);
  }

  lemma KeysSaid<T(!new)>(raw: Json, m: JsMap.Map<string, T>, says: (Json, T) -> bool)
    requires SaysTable(raw, m, says)
    ensures Keys(raw.fields) == Keys(m) && (JsMap.Distinct(m) ==> JsMap.Distinct(raw.fields))
  {
  }

  lemma EntryKeysSaid(raw: Json, weights: Weights, i: nat)
    requires SaysWeights(raw, weights) && i < |weights|
    ensures raw.fields[i].0 == weights[i].0 && raw.fields[i].1.JObj? && Keys(raw.fields[i].1.fields) == Keys(weights[i].1)
  {
    assert SaysEntry(raw.fields[i].1, weights[i].1);
    KeysSaid(raw.fields[i].1, weights[i].1, (r: Json, c: ContainerRef) => SaysContainer(r, c));
  }

  /** The survey of the text lists what the model lists as available. */
  lemma SurveyBack(root: Fields, raw: Json, models: JsMap.Map<string, ModelEntry>, i: nat)
    requires i < |models| <= MAX_MODELS && JsMap.Distinct(models)
    requires Field(root, "models") == Some(raw) && SaysModels(raw, models)
    requires ExactLabels(models[i].1, Keys(models))
    requires JsMap.Distinct(models[i].1.weights) && |models[i].1.weights| <= MAX_WEIGHTS && |models[i].1.quants| <= MAX_QUANTS
    ensures SurveyLabels(root, Some(models[i].0)).available == models[i].1.available
  {
    var m, entry := models[i].1, raw.fields[i].1;
    KeysSaid(raw, models, (r: Json, model: ModelEntry) => SaysModel(r, model));
    JsMap.GetEntry(raw.fields, i);
    assert SaysModel(entry, m);
    var weights, quants := At(entry, "weights").value, At(entry, "quants").value;
    KeysSaid(weights, m.weights, (r: Json, e: WeightEntry) => SaysEntry(r, e));
    KeysSaid(quants, m.quants, (r: Json, q: Quant) => SaysQuant(r, q));
    forall j | 0 <= j < |m.weights|
      ensures weights.fields[j].1.JObj?
    {
      EntryKeysSaid(weights, m.weights, j);
    }
    SurveyIsExact(root, models[i].0);
    var dtypes := SurveyLabels(root, Some(models[i].0)).available.dtypes;
    assert |m.available.dtypes| == |Keys(m.available.dtypes)| == |m.weights|;
    forall j | 0 <= j < |m.weights|
      ensures dtypes[j] == m.available.dtypes[j]
    {
      EntryKeysSaid(weights, m.weights, j);
      assert m.available.dtypes[j].0 == Keys(m.available.dtypes)[j] == m.weights[j].0;
    }
    assert dtypes == m.available.dtypes;
  }

  lemma ModelBack(root: Fields, raw: Json, models: JsMap.Map<string, ModelEntry>, i: nat, env: Env, seen: Seen, all: Seen)
    requires i < |models| <= MAX_MODELS && JsMap.Distinct(models)
    requires Field(root, "models") == Some(raw) && SaysModels(raw, models)
    requires ExactLabels(models[i].1, Keys(models)) && GoodModel(models[i].1, env.ownRepo, all)
    requires WritableModel(models[i].1, env) && Extends(seen, all)
    ensures raw.fields[i].0 == models[i].0
    ensures var r := ParseModel(root, raw.fields[i].0, raw.fields[i].1, env, seen);
            r.Success? && r.value.0 == models[i].1 && Extends(r.value.1, all)
  {
    var entry := raw.fields[i].1;
    assert SaysModel(entry, models[i].1);
    SurveyBack(root, raw, models, i);
    AllowedNamesAre(entry);
    var after := ModelFieldsBack(entry, models[i].1, env, seen, all);
    ModelParsed(root, raw.fields[i].0, entry, models[i].1.available, env, seen, (models[i].1, after));
  }

  lemma ModelParsed(root: Fields, name: string, raw: Json, available: Labels, env: Env, seen: Seen, read: (ModelEntry, Seen))
    requires raw.JObj? && OnlyKeys(raw.fields, MODEL_KEYS) && SurveyLabels(root, Some(name)).available == available
    requires ParseModelFields(raw.fields, available, env, seen) == Success(read)
    ensures ParseModel(root, name, raw, env, seen) == Success(read)
  {
  }

  // ----- reading back: the manifest -----------------------------------------------------------

  /** The checks that are not about the text: the manifest is good, and what it names passes. */
  ghost predicate Passes(m: Manifest, env: Env, all: Seen) {
    && GoodManifest(m, env.ownRepo, all)
    && m.generator != ""
    && forall i :: 0 <= i < |m.models| ==> WritableModel(m.models[i].1, env)
  }

  lemma ModelsBack(root: Fields, raw: Json, m: Manifest, env: Env, all: Seen)
    requires Passes(m, env, all) && Field(root, "models") == Some(raw) && SaysModels(raw, m.models)
    ensures var r := ParseMap(Field(root, "models"), MAX_MODELS, false, ModelParser(root, env), map[],
                              Rejection(Format, m.available));
            r.Success? && r.value.0 == m.models
  {
    var parse := ModelParser(root, env);
    forall i: nat, at: Seen | i < |m.models| && Extends(at, all)
      ensures var r := parse(raw.fields[i].0, raw.fields[i].1, at);
              raw.fields[i].0 == m.models[i].0 && r.Success? && r.value.0 == m.models[i].1 && Extends(r.value.1, all)
    {
      ModelBack(root, raw, m.models, i, env, at, all);
    }
    MapBack(raw.fields, m.models, MAX_MODELS, false, parse, map[], all, Rejection(Format, m.available));
  }

  lemma EnvelopeParsed(root: Json, m: Manifest, env: Env)
    requires root.JObj? && NoForbiddenKeys(root, 0) && OnlyKeys(root.fields, ENVELOPE_KEYS)
    requires SurveyLabels(root.fields, None).available == m.available
    requires Field(root.fields, "format") == Some(JStr("karume/5"))
    requires Field(root.fields, "generator") == Some(JStr(m.generator)) && m.generator != ""
    requires var r := ParseMap(Field(root.fields, "models"), MAX_MODELS, false, ModelParser(root.fields, env), map[],
                               Rejection(Format, m.available));
             r.Success? && r.value.0 == m.models
    requires Field(root.fields, "defaultModel") == Some(JStr(m.defaultModel)) && JsMap.Has(m.models, m.defaultModel)
    ensures ParseRepoManifest(root, env) == Success(m)
  {
  }

  lemma RootSurvey(fields: Fields, raw: Json, models: JsMap.Map<string, ModelEntry>)
    requires Field(fields, "models") == Some(raw) && SaysModels(raw, models) && |models| <= MAX_MODELS
    ensures SurveyLabels(fields, None).available == Labels(Keys(models), [], [])
  {
    KeysSaid(raw, models, (r: Json, m: ModelEntry) => SaysModel(r, m));
    assert Keys(models)[..|models|] == Keys(models);
  }

  /** A well-formed text of a manifest that passes the checks is accepted as just that manifest. */
  lemma TextIsAccepted(root: Json, m: Manifest, env: Env, all: Seen)
    requires SaysManifest(root, m) && NoForbiddenKeys(root, 0) && Passes(m, env, all)
    ensures ParseRepoManifest(root, env) == Success(m)
  {
    AllowedNamesAre(root);
    ModelsBack(root.fields, At(root, "models").value, m, env, all);
    RootSurvey(root.fields, At(root, "models").value, m.models);
    EnvelopeParsed(root, m, env);
  }

  // ----- what was read is what the text says --------------------------------------------------

  lemma RefSaid(raw: Json, allowEmpty: bool, ownRepo: Option<string>, seen: Seen)
    requires Table(seen, ownRepo) && ParseFileRef(raw, allowEmpty, ownRepo, seen).Success?
    ensures SaysRef(raw, ParseFileRef(raw, allowEmpty, ownRepo, seen).value.0)
  {
    FileRefKeeps(raw, allowEmpty, ownRepo, seen);
    AllowedNamesAre(raw);
  }

  lemma DocumentSaid(raw: Option<Json>)
    requires ParseDocument(raw).Success?
    ensures raw.Some? && SaysDocument(raw.value, ParseDocument(raw).value) && GoodDocument(ParseDocument(raw).value)
  {
    AllowedNamesAre(raw.value);
  }

  /** Reading an item keeps the table and gives what the item says. */
  ghost predicate ItemsSay<T(!new), E(!new)>(
    items: seq<Json>, parse: (nat, Json, Seen) -> Result<(T, Seen), E>, ownRepo: Option<string>, says: (Json, T) -> bool)
  {
    forall i: nat, at: Seen :: i < |items| && Table(at, ownRepo) && parse(i, items[i], at).Success? ==>
      says(items[i], parse(i, items[i], at).value.0) && Table(parse(i, items[i], at).value.1, ownRepo)
  }

  ghost predicate AllSaid<T(!new)>(items: seq<Json>, values: seq<T>, says: (Json, T) -> bool) {
    |values| <= |items| && forall i :: 0 <= i < |values| ==> says(items[i], values[i])
  }

  lemma OneMoreSaid<T(!new)>(items: seq<Json>, values: seq<T>, value: T, says: (Json, T) -> bool)
    requires AllSaid(items, values, says) && |values| < |items| && says(items[|values|], value)
    ensures AllSaid(items, values + [value], says)
  {
  }

  lemma {:induction false} ItemsSaid<T(!new), E(!new)>(
    items: seq<Json>, n: nat, parse: (nat, Json, Seen) -> Result<(T, Seen), E>, seen: Seen, ownRepo: Option<string>,
    says: (Json, T) -> bool)
    requires n <= |items| && Table(seen, ownRepo) && ParseItems(items, n, parse, seen).Success?
    requires ItemsSay(items, parse, ownRepo, says)
    ensures var (values, after) := ParseItems(items, n, parse, seen).value;
            Table(after, ownRepo) && AllSaid(items, values, says)
  {
    if n > 0 {
      ItemsSaid(items, n - 1, parse, seen, ownRepo, says);
      var (values, at) := ParseItems(items, n - 1, parse, seen).value;
      assert parse(n - 1, items[n - 1], at).Success?;
      OneMoreSaid(items, values, parse(n - 1, items[n - 1], at).value.0, says);
    }
  }

  lemma PartsSaid(items: seq<Json>, ownRepo: Option<string>, seen: Seen)
    requires Table(seen, ownRepo) && ParseItems(items, |items|, PartParser(ownRepo), seen).Success?
    ensures SaysParts(JArr(items), ParseItems(items, |items|, PartParser(ownRepo), seen).value.0)
  {
    var parse := PartParser(ownRepo);
    var says := (r: Json, ref: FileRef) => SaysRef(r, ref);
    forall i: nat, at: Seen | i < |items| && Table(at, ownRepo) && parse(i, items[i], at).Success?
      ensures says(items[i], parse(i, items[i], at).value.0) && Table(parse(i, items[i], at).value.1, ownRepo)
    {
      PartSaid(items[i], i, ownRepo, at);
      PartKeeps(items[i], i, ownRepo, at);
    }
    assert ItemsSay(items, parse, ownRepo, says);
    ItemsSaid(items, |items|, parse, seen, ownRepo, says);
    var parts := ParseItems(items, |items|, parse, seen).value.0;
    forall i | 0 <= i < |parts|
      ensures SaysRef(items[i], parts[i])
    {
      assert says(items[i], parts[i]);
    }
  }

  lemma PartSaid(raw: Json, index: nat, ownRepo: Option<string>, at: Seen)
    requires Table(at, ownRepo) && PartParser(ownRepo)(index, raw, at).Success?
    ensures SaysRef(raw, PartParser(ownRepo)(index, raw, at).value.0)
  {
    RefSaid(raw, index > 0, ownRepo, at);
  }

  lemma ContainerSaid(raw: Json, ownRepo: Option<string>, seen: Seen)
    requires Table(seen, ownRepo) && ParseWeightContainer(raw, ownRepo, seen).Success?
    ensures SaysContainer(raw, ParseWeightContainer(raw, ownRepo, seen).value.0)
  {
    var container := At(raw, "container").value;
    var descriptor, parts := At(container, "descriptor").value, At(container, "parts").value;
    AllowedNamesAre(raw);
    AllowedNamesAre(container);
    AllowedNamesAre(descriptor);
    DocumentSaid(At(descriptor, "graph"));
    DocumentSaid(At(descriptor, "model"));
    PartsSaid(parts.items, ownRepo, seen);
    assert parts == JArr(parts.items);
  }

  /** Reading an entry keeps the table and gives what the entry says. */
  ghost predicate ReadsSay<T(!new), E(!new)>(
    fields: Fields, parse: (string, Json, Seen) -> Result<(T, Seen), E>, ownRepo: Option<string>, says: (Json, T) -> bool)
  {
    forall i: nat, at: Seen :: i < |fields| && Table(at, ownRepo) && parse(fields[i].0, fields[i].1, at).Success? ==>
      var (value, after) := parse(fields[i].0, fields[i].1, at).value;
      Table(after, ownRepo) && Extends(at, after) && says(fields[i].1, value)
  }

  lemma FieldsSaid<T(!new), E(!new)>(
    fields: Fields, parse: (string, Json, Seen) -> Result<(T, Seen), E>, seen: Seen, ownRepo: Option<string>,
    says: (Json, T) -> bool)
    requires Table(seen, ownRepo) && ReadsSay(fields, parse, ownRepo, says)
    requires ParseFields(fields, |fields|, parse, seen).Success?
    ensures SaysTable(JObj(fields), ParseFields(fields, |fields|, parse, seen).value.0, says)
  {
    var holds := (i: nat, value: T, at: Seen) => i < |fields| && says(fields[i].1, value);
    assert Reads(fields, parse, ownRepo, holds);
    assert Stays(holds);
    FieldsKeep(fields, |fields|, parse, seen, ownRepo, holds);
    var (parsed, after) := ParseFields(fields, |fields|, parse, seen).value;
    forall i | 0 <= i < |parsed|
      ensures fields[i].0 == parsed[i].0 && says(fields[i].1, parsed[i].1)
    {
      assert holds(i, parsed[i].1, after);
    }
  }

  lemma EntrySaid(raw: Json, ownRepo: Option<string>, seen: Seen)
    requires Table(seen, ownRepo) && ParseWeightEntry(raw, ownRepo, seen).Success?
    ensures SaysEntry(raw, ParseWeightEntry(raw, ownRepo, seen).value.0)
  {
    var parse := ContainerParser(ownRepo);
    var says := (r: Json, c: ContainerRef) => SaysContainer(r, c);
    forall i: nat, at: Seen | i < |raw.fields| && Table(at, ownRepo) && parse(raw.fields[i].0, raw.fields[i].1, at).Success?
      ensures var (value, after) := parse(raw.fields[i].0, raw.fields[i].1, at).value;
              Table(after, ownRepo) && Extends(at, after) && says(raw.fields[i].1, value)
    {
      ContainerKeeps(raw.fields[i].1, ownRepo, at);
      ContainerSaid(raw.fields[i].1, ownRepo, at);
    }
    FieldsSaid(raw.fields, parse, seen, ownRepo, says);
    assert raw == JObj(raw.fields);
  }

  lemma WeightsSaid(raw: Option<Json>, env: Env, seen: Seen)
    requires Table(seen, env.ownRepo) && (raw.Some? ==> OneValuePerKey(raw.value))
    requires ParseMap(raw, MAX_WEIGHTS, false, WeightEntryParser(env), seen, Format).Success?
    ensures raw.Some?
    ensures SaysWeights(raw.value, ParseMap(raw, MAX_WEIGHTS, false, WeightEntryParser(env), seen, Format).value.0)
  {
    var fields := raw.value.fields;
    var parse := WeightEntryParser(env);
    var says := (r: Json, entry: WeightEntry) => SaysEntry(r, entry);
    forall i: nat, at: Seen | i < |fields| && Table(at, env.ownRepo) && parse(fields[i].0, fields[i].1, at).Success?
      ensures var (value, after) := parse(fields[i].0, fields[i].1, at).value;
              Table(after, env.ownRepo) && Extends(at, after) && says(fields[i].1, value)
    {
      assert OneValuePerKey(fields[i].1);
      WeightEntryKeeps(fields[i].1, env.ownRepo, at);
      EntrySaid(fields[i].1, env.ownRepo, at);
    }
    FieldsSaid(fields, parse, seen, env.ownRepo, says);
    assert raw.value == JObj(fields);
  }

  lemma AssetsSaid(raw: Option<Json>, env: Env, seen: Seen)
    requires Table(seen, env.ownRepo)
    requires ParseMap(raw, MAX_ASSETS, true, FileRefParser(env.ownRepo), seen, Format).Success?
    ensures raw.Some?
    ensures SaysAssets(raw.value, ParseMap(raw, MAX_ASSETS, true, FileRefParser(env.ownRepo), seen, Format).value.0)
  {
    var fields := raw.value.fields;
    var parse := FileRefParser(env.ownRepo);
    var says := (r: Json, ref: FileRef) => SaysRef(r, ref);
    forall i: nat, at: Seen | i < |fields| && Table(at, env.ownRepo) && parse(fields[i].0, fields[i].1, at).Success?
      ensures var (value, after) := parse(fields[i].0, fields[i].1, at).value;
              Table(after, env.ownRepo) && Extends(at, after) && says(fields[i].1, value)
    {
      FileRefKeeps(fields[i].1, false, env.ownRepo, at);
      RefSaid(fields[i].1, false, env.ownRepo, at);
    }
    FieldsSaid(fields, parse, seen, env.ownRepo, says);
    assert raw.value == JObj(fields);
  }

  lemma CutAt(fields: Fields, k: nat) returns (before: Fields, after: Fields)
    requires k < |fields|
    ensures fields == before + [fields[k]] + after && before == fields[..k] && after == fields[k + 1..]
    ensures JsMap.Distinct(fields) ==> !JsMap.Has(before, fields[k].0) && !JsMap.Has(after, fields[k].0)
  {
    before, after := fields[..k], fields[k + 1..];
    JsMap.HasIff(before, fields[k].0);
    JsMap.HasIff(after, fields[k].0);
    forall i | 0 <= i < |after|
      ensures JsMap.Distinct(fields) ==> after[i].0 != fields[k].0
    {
      assert after[i] == fields[k + 1 + i];
    }
  }

  /** Of fields with one name each, one taken out. */
  lemma WithoutOne(fields: Fields, k: nat)
    requires JsMap.Distinct(fields) && k < |fields|
    ensures Field(fields, fields[k].0) == Some(fields[k].1)
    ensures Without(fields, fields[k].0) == fields[..k] + fields[k + 1..]
  {
    var name, value := fields[k].0, fields[k].1;
    var before, after := CutAt(fields, k);
    FieldBetween(before, name, value, after);
  }

  lemma MappingSaid(raw: Option<Json>, weights: Weights)
    requires ParseQuantWeights(raw, weights).Success?
    requires raw.Some? ==> OneValuePerKey(raw.value)
    ensures raw.Some? && SaysMapping(raw.value, ParseQuantWeights(raw, weights).value)
  {
    var fields, mapping := raw.value.fields, ParseQuantWeights(raw, weights).value;
    MappingEntries(fields, |fields|, weights);
    forall i | 0 <= i < |mapping|
      ensures fields[i] == (mapping[i].0, JStr(mapping[i].1))
    {
      assert MappingEntry(mapping, fields, weights, i);
    }
  }

  lemma QuantSaid(raw: Json, weights: Weights, env: Env)
    requires OneValuePerKey(raw) && ParseQuant(raw, weights, env).Success?
    ensures SaysQuant(raw, ParseQuant(raw, weights, env).value)
  {
    AllowedNamesAre(raw);
    var quant, k := ParseQuant(raw, weights, env).value, JsMap.IndexOf(raw.fields, "weights");
    WithoutOne(raw.fields, k);
    MappingSaid(At(raw, "weights"), weights);
    assert MappingAt(raw.fields, quant, k);
  }

  lemma QuantsSaid(raw: Option<Json>, weights: Weights, env: Env, seen: Seen)
    requires Table(seen, env.ownRepo) && (raw.Some? ==> OneValuePerKey(raw.value))
    requires ParseMap(raw, MAX_QUANTS, false, QuantParser(weights, env), seen, Format).Success?
    ensures raw.Some?
    ensures SaysQuants(raw.value, ParseMap(raw, MAX_QUANTS, false, QuantParser(weights, env), seen, Format).value.0)
  {
    var fields := raw.value.fields;
    var parse := QuantParser(weights, env);
    var says := (r: Json, quant: Quant) => SaysQuant(r, quant);
    forall i: nat, at: Seen | i < |fields| && Table(at, env.ownRepo) && parse(fields[i].0, fields[i].1, at).Success?
      ensures var (value, after) := parse(fields[i].0, fields[i].1, at).value;
              Table(after, env.ownRepo) && Extends(at, after) && says(fields[i].1, value)
    {
      assert OneValuePerKey(fields[i].1);
      QuantSaid(fields[i].1, weights, env);
    }
    FieldsSaid(fields, parse, seen, env.ownRepo, says);
    assert raw.value == JObj(fields);
  }

  lemma TablesSaid(raw: Json, m: ModelEntry, env: Env, seen: Seen, atWeights: Seen, after: Seen)
    requires Table(seen, env.ownRepo) && raw.JObj? && OneValuePerKey(raw)
    requires TablesParsed(m, raw.fields, env, seen, atWeights, after)
    ensures At(raw, "weights").Some? && SaysWeights(At(raw, "weights").value, m.weights)
    ensures At(raw, "assets").Some? && SaysAssets(At(raw, "assets").value, m.assets)
    ensures At(raw, "quants").Some? && SaysQuants(At(raw, "quants").value, m.quants)
  {
    FieldOfDistinct(raw, "weights");
    FieldOfDistinct(raw, "quants");
    WeightsTable(raw, env, seen);
    AssetsTable(raw, env, atWeights);
    WeightsSaid(At(raw, "weights"), env, seen);
    AssetsSaid(At(raw, "assets"), env, atWeights);
    QuantsSaid(At(raw, "quants"), m.weights, env, after);
  }

  lemma PlainFieldsSaid(raw: Json, available: Labels, env: Env, seen: Seen)
    requires raw.JObj? && ParseModelFields(raw.fields, available, env, seen).Success?
    ensures var m := ParseModelFields(raw.fields, available, env, seen).value.0;
            && At(raw, "pipeline") == Some(JStr(m.pipeline.name + "/" + Digits(m.pipeline.major)))
            && At(raw, "defaultQuant") == Some(JStr(m.defaultQuant))
            && At(raw, "pipelineConfig") == Some(JObj(m.pipelineConfig))
  {
    PipelineSaid(At(raw, "pipeline"));
  }

  lemma ModelSaid(root: Fields, name: string, raw: Json, env: Env, seen: Seen)
    requires Table(seen, env.ownRepo) && OneValuePerKey(raw) && ParseModel(root, name, raw, env, seen).Success?
    ensures SaysModel(raw, ParseModel(root, name, raw, env, seen).value.0)
  {
    var available := SurveyLabels(root, Some(name)).available;
    var (m, after) := ParseModelFields(raw.fields, available, env, seen).value;
    var atWeights := ModelFieldsParsed(raw.fields, available, env, seen);
    AllowedNamesAre(raw);
    TablesSaid(raw, m, env, seen, atWeights, after);
    PlainFieldsSaid(raw, available, env, seen);
  }

  lemma ModelsSaid(root: Fields, raw: Json, env: Env)
    requires raw.JObj? && OneValuePerKey(raw)
    requires ParseFields(raw.fields, |raw.fields|, ModelParser(root, env), map[]).Success?
    ensures SaysModels(raw, ParseFields(raw.fields, |raw.fields|, ModelParser(root, env), map[]).value.0)
  {
    var fields := raw.fields;
    var parse := ModelParser(root, env);
    var says := (r: Json, m: ModelEntry) => SaysModel(r, m);
    forall i: nat, at: Seen | i < |fields| && Table(at, env.ownRepo) && parse(fields[i].0, fields[i].1, at).Success?
      ensures var (value, after) := parse(fields[i].0, fields[i].1, at).value;
              Table(after, env.ownRepo) && Extends(at, after) && says(fields[i].1, value)
    {
      assert OneValuePerKey(fields[i].1);
      ModelKeeps(root, fields[i].0, fields[i].1, env, at);
      ModelSaid(root, fields[i].0, fields[i].1, env, at);
    }
    FieldsSaid(fields, parse, map[], env.ownRepo, says);
    assert raw == JObj(fields);
  }

  /** Whatever text is accepted is well-formed, and the result is what it says. */
  lemma AcceptedSays(root: Json, env: Env)
    requires OneValuePerKey(root) && ParseRepoManifest(root, env).Success?
    ensures SaysManifest(root, ParseRepoManifest(root, env).value) && NoForbiddenKeys(root, 0)
  {
    AllowedNamesAre(root);
    FieldOfDistinct(root, "models");
    ModelsSaid(root.fields, At(root, "models").value, env);
  }
}
