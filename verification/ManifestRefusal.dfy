/**
  With which error kind, and listing which labels, a manifest is refused: the checks of every level in the
  order in which they are made (packages/hub/src/manifest.ts).  Each lemma reads the whole verdict of one level
  off its text, with None for a text that passes.
 */
module ManifestRefusal {
  import opened Wrappers
  import opened FileRefs
  import opened ManifestParser
  import opened AcceptedManifests
  import opened ManifestText
  import JsMap

  function ErrorOf<T, E>(r: Result<T, E>): Option<E> {
    match r case Success(_) => None case Failure(error) => Some(error)
  }

  /** A check with the error for failing it, before the rest. */
  function Check<E>(passes: bool, error: E, rest: Option<E>): Option<E> {
    if passes then rest else Some(error)
  }

  /** A verdict before the rest. */
  function Before<E>(verdict: Option<E>, rest: Option<E>): Option<E> {
    if verdict.Some? then verdict else rest
  }

  // ----- values in the text -------------------------------------------------------------------

  function TextAt(raw: Json, name: string): Option<string> {
    match At(raw, name) case Some(JStr(str)) => Some(str) case _ => None
  }

  /** A number that is an integer a double holds exactly. */
  function IntegerAt(raw: Json, name: string): Option<int> {
    match At(raw, name)
    case Some(JNum(finite, num)) =>
      if finite && num.Floor as real == num && -9007199254740991 <= num.Floor <= 9007199254740991 then Some(num.Floor)
      else None
    case _ => None
  }

  function ObjectAt(raw: Json, name: string): (r: Option<Json>)
    ensures r.Some? ==> r.value.JObj?
  {
    match At(raw, name) case Some(JObj(fields)) => Some(JObj(fields)) case _ => None
  }

  predicate IsHash(text: Option<string>) {
    text.Some? && |text.value| == 64 && forall i :: 0 <= i < 64 ==> IsHexLower(text.value[i])
  }

  // ----- references ---------------------------------------------------------------------------

  /** The SHA-256 of no bytes. */
  predicate IsEmptyHash(text: Option<string>) {
    text == Some("e3b0c44298fc1c149afbf4c8996fb92427ae41e4649b934ca495991b7852b855")
  }

  /** A size from 0, or from 1 where bytes are needed, to 16 GiB, with the empty hash when it is 0. */
  predicate SizedAndHashed(raw: Json, allowEmpty: bool) {
    && IsHash(TextAt(raw, "sha256")) && IntegerAt(raw, "size").Some?
    && var size := IntegerAt(raw, "size").value;
       && (if allowEmpty then 0 else 1) <= size <= 16 * 1024 * 1024 * 1024
       && (size == 0 ==> IsEmptyHash(TextAt(raw, "sha256")))
  }

  /** Both cross-repo fields or neither; a repo other than the own one, and a full commit id. */
  predicate OriginFine(raw: Json, ownRepo: Option<string>) {
    if At(raw, "repo").None? && At(raw, "revision").None? then true
    else
      && TextAt(raw, "repo").Some? && TextAt(raw, "revision").Some?
      && IsRepoName(TextAt(raw, "repo").value) && IsCommitSha(TextAt(raw, "revision").value)
      && TextAt(raw, "repo") != ownRepo
  }

  function KeyAt(raw: Json): string {
    var path := TextAt(raw, "path").GetOr("");
    match (TextAt(raw, "repo"), TextAt(raw, "revision"))
    case (Some(repo), Some(revision)) => repo + "@" + revision + "/" + path
    case _ => path
  }

  /** Under the same key the document has not declared another size or hash so far. */
  predicate AgreesWith(raw: Json, seen: Seen) {
    KeyAt(raw) in seen ==>
      Some(seen[KeyAt(raw)].size as int) == IntegerAt(raw, "size") && Some(seen[KeyAt(raw)].sha256) == TextAt(raw, "sha256")
  }

  /** The checks on a reference by itself. */
  ghost function OwnVerdict(raw: Json, allowEmpty: bool, ownRepo: Option<string>): Option<Kind> {
    Check(raw.JObj?, Format,
    Check(Only(raw, {"path", "size", "sha256", "repo", "revision"}), Reference,
    Check(TextAt(raw, "path").Some? && SizedAndHashed(raw, allowEmpty), Format,
    Check(IsPath(TextAt(raw, "path").GetOr("")), Path,
    Check(OriginFine(raw, ownRepo), Format, None)))))
  }

  ghost function RefVerdict(raw: Json, allowEmpty: bool, ownRepo: Option<string>, seen: Seen): Option<Kind> {
    Before(OwnVerdict(raw, allowEmpty, ownRepo), Check(AgreesWith(raw, seen), Reference, None))
  }

  lemma OwnRefusal(raw: Json, allowEmpty: bool, ownRepo: Option<string>)
    ensures ErrorOf(ReadFileRef(raw, allowEmpty, ownRepo)) == OwnVerdict(raw, allowEmpty, ownRepo)
  {
    RefNamesAre(raw);
  }

  lemma RecordRefusal(raw: Json, ref: FileRef, seen: Seen)
    requires Says(raw, ref) && ref.repo.Some? == ref.revision.Some?
    requires IntegerAt(raw, "size") == Some(ref.size as int)
    ensures ErrorOf(Record(ref, seen)) == Check(AgreesWith(raw, seen), Reference, None)
  {
    assert KeyAt(raw) == FileRefKey(ref);
  }

  lemma RefRefusal(raw: Json, allowEmpty: bool, ownRepo: Option<string>, seen: Seen)
    ensures ErrorOf(ParseFileRef(raw, allowEmpty, ownRepo, seen)) == RefVerdict(raw, allowEmpty, ownRepo, seen)
  {
    OwnRefusal(raw, allowEmpty, ownRepo);
    if ReadFileRef(raw, allowEmpty, ownRepo).Success? {
      var ref := ReadFileRef(raw, allowEmpty, ownRepo).value;
      ReadSays(raw, allowEmpty, ownRepo);
      OwnSize(raw, allowEmpty, ownRepo);
      RecordRefusal(raw, ref, seen);
    }
  }

  lemma OwnSize(raw: Json, allowEmpty: bool, ownRepo: Option<string>)
    requires ReadFileRef(raw, allowEmpty, ownRepo).Success?
    ensures IntegerAt(raw, "size") == Some(ReadFileRef(raw, allowEmpty, ownRepo).value.size as int)
  {
  }

  // ----- containers ---------------------------------------------------------------------------

  ghost function DocumentVerdict(raw: Option<Json>): Option<Kind> {
    Check(raw.Some? && raw.value.JObj?, Format,
    Check(raw.Some? && Only(raw.value, {"length", "sha256"}), Reference,
    Check(raw.Some? && IntegerAt(raw.value, "length").Some? && IsHash(TextAt(raw.value, "sha256"))
          && 0 < IntegerAt(raw.value, "length").value <= 32 * 1024 * 1024, Format, None)))
  }

  lemma DocumentRefusal(raw: Option<Json>)
    ensures ErrorOf(ParseDocument(raw)) == DocumentVerdict(raw)
  {
    if raw.Some? {
      AllowedNamesAre(raw.value);
    }
  }

  /** Item k is the first that is refused, after the items before it were read. */
  ghost predicate FirstBadItem<T(!new), E(!new)>(items: seq<Json>, k: nat, parse: (nat, Json, Seen) -> Result<(T, Seen), E>,
                                                 seen: Seen, error: E)
  {
    && k < |items| && ParseItems(items, k, parse, seen).Success?
    && parse(k, items[k], ParseItems(items, k, parse, seen).value.1) == Failure(error)
  }

  lemma {:induction false} ItemsRefusal<T(!new), E(!new)>(
    items: seq<Json>, n: nat, parse: (nat, Json, Seen) -> Result<(T, Seen), E>, seen: Seen)
    requires n <= |items|
    ensures ParseItems(items, n, parse, seen).Failure? ==>
              exists k: nat :: k < n && FirstBadItem(items, k, parse, seen, ParseItems(items, n, parse, seen).error)
    ensures ParseItems(items, n, parse, seen).Success? ==>
              forall k: nat, error: E :: k < n ==> !FirstBadItem(items, k, parse, seen, error)
  {
    if n > 0 {
      ItemsRefusal(items, n - 1, parse, seen);
      if ParseItems(items, n - 1, parse, seen).Success? && ParseItems(items, n, parse, seen).Failure? {
        assert FirstBadItem(items, n - 1, parse, seen, ParseItems(items, n, parse, seen).error);
      }
    }
  }

  /** A part: a reference, empty from index 1 on, of at most 1 GiB. */
  lemma PartRefusal(raw: Json, index: nat, ownRepo: Option<string>, seen: Seen)
    ensures ErrorOf(ParsePart(raw, index, ownRepo, seen)) ==
            Before(RefVerdict(raw, index > 0, ownRepo, seen),
            Check(IntegerAt(raw, "size").GetOr(0) <= 1024 * 1024 * 1024, Format, None))
  {
    RefRefusal(raw, index > 0, ownRepo, seen);
    if ParseFileRef(raw, index > 0, ownRepo, seen).Success? {
      SizeRead(raw, index > 0, ownRepo, seen);
    }
  }

  lemma SizeRead(raw: Json, allowEmpty: bool, ownRepo: Option<string>, seen: Seen)
    requires ParseFileRef(raw, allowEmpty, ownRepo, seen).Success?
    ensures IntegerAt(raw, "size") == Some(ParseFileRef(raw, allowEmpty, ownRepo, seen).value.0.size as int)
  {
    OwnSize(raw, allowEmpty, ownRepo);
  }

  ghost function PartsVerdict(raw: Option<Json>, ownRepo: Option<string>, seen: Seen): Option<Kind> {
    Check(raw.Some? && raw.value.JArr? && 2 <= |raw.value.items| <= 1024, Format,
    if raw.Some? && raw.value.JArr? then ErrorOf(ParseItems(raw.value.items, |raw.value.items|, PartParser(ownRepo), seen))
    else None)
  }

  /** The layout of part 0 and the one origin of all parts, once the parts are read. */
  ghost predicate PartsFit(descriptor: Json, parts: seq<FileRef>) {
    && parts != [] && ObjectAt(descriptor, "graph").Some? && ObjectAt(descriptor, "model").Some?
    && parts[0].size as int == 24 + IntegerAt(ObjectAt(descriptor, "graph").value, "length").GetOr(0)
                               + IntegerAt(ObjectAt(descriptor, "model").value, "length").GetOr(0)
    && forall i, j :: 0 <= i < |parts| && 0 <= j < |parts| ==> CrossRefOf(parts[i]) == CrossRefOf(parts[j])
  }

  /** The documents and parts of a container, in this order, and how they fit. */
  ghost function ContentVerdict(container: Json, descriptor: Json, ownRepo: Option<string>, seen: Seen): Option<Kind> {
    Before(DocumentVerdict(At(descriptor, "graph")),
    Before(DocumentVerdict(At(descriptor, "model")),
    Before(PartsVerdict(At(container, "parts"), ownRepo, seen),
    Check(ParseParts(At(container, "parts"), ownRepo, seen).Success?
          && PartsFit(descriptor, ParseParts(At(container, "parts"), ownRepo, seen).value.0), Format, None))))
  }

  ghost function ContainerVerdict(raw: Json, ownRepo: Option<string>, seen: Seen): Option<Kind> {
    var container := ObjectAt(raw, "container").GetOr(JNull);
    var descriptor := ObjectAt(container, "descriptor").GetOr(JNull);
    Check(raw.JObj?, Format,
    Check(Only(raw, {"container"}), Reference,
    Check(container.JObj?, Format,
    Check(Only(container, {"descriptor", "parts"}), Reference,
    Check(descriptor.JObj?, Format,
    Check(Only(descriptor, {"graph", "model"}), Reference,
    ContentVerdict(container, descriptor, ownRepo, seen)))))))
  }

  lemma PartsRefusal(raw: Option<Json>, ownRepo: Option<string>, seen: Seen)
    ensures ErrorOf(ParseParts(raw, ownRepo, seen)) == PartsVerdict(raw, ownRepo, seen)
  {
  }

  lemma DocumentLength(raw: Option<Json>)
    requires ParseDocument(raw).Success?
    ensures raw.Some? && raw.value.JObj? && IntegerAt(raw.value, "length") == Some(ParseDocument(raw).value.length as int)
  {
  }

  lemma FitIff(descriptor: Json, parts: seq<FileRef>)
    requires ParseDocument(At(descriptor, "graph")).Success? && ParseDocument(At(descriptor, "model")).Success? && parts != []
    ensures PartsFit(descriptor, parts) <==>
            && parts[0].size == CONTAINER_HEADER_BYTES + ParseDocument(At(descriptor, "graph")).value.length
                                + ParseDocument(At(descriptor, "model")).value.length
            && UniformOrigin(parts)
  {
    DocumentLength(At(descriptor, "graph"));
    DocumentLength(At(descriptor, "model"));
  }

  lemma ContentRefusal(container: Json, descriptor: Json, ownRepo: Option<string>, seen: Seen)
    requires container.JObj? && OnlyKeys(container.fields, CONTAINER_KEYS)
    requires Field(container.fields, "descriptor") == Some(descriptor)
    requires descriptor.JObj? && OnlyKeys(descriptor.fields, DESCRIPTOR_KEYS)
    ensures ErrorOf(ParseContainer(Some(container), ownRepo, seen)) == ContentVerdict(container, descriptor, ownRepo, seen)
  {
    DocumentRefusal(At(descriptor, "graph"));
    DocumentRefusal(At(descriptor, "model"));
    PartsRefusal(At(container, "parts"), ownRepo, seen);
    if ParseDocument(At(descriptor, "graph")).Success? && ParseDocument(At(descriptor, "model")).Success?
       && ParseParts(At(container, "parts"), ownRepo, seen).Success? {
      FitIff(descriptor, ParseParts(At(container, "parts"), ownRepo, seen).value.0);
    }
  }

  lemma ContainerNamesAre(raw: Json)
    ensures Only(raw, {"container"}) <==> raw.JObj? && OnlyKeys(raw.fields, WEIGHT_DTYPE_KEYS)
    ensures Only(raw, {"descriptor", "parts"}) <==> raw.JObj? && OnlyKeys(raw.fields, CONTAINER_KEYS)
    ensures Only(raw, {"graph", "model"}) <==> raw.JObj? && OnlyKeys(raw.fields, DESCRIPTOR_KEYS)
  {
  }

  lemma ContainerRefusal(raw: Json, ownRepo: Option<string>, seen: Seen)
    ensures ErrorOf(ParseWeightContainer(raw, ownRepo, seen)) == ContainerVerdict(raw, ownRepo, seen)
  {
    var container := ObjectAt(raw, "container").GetOr(JNull);
    var descriptor := ObjectAt(container, "descriptor").GetOr(JNull);
    ContainerNamesAre(raw);
    ContainerNamesAre(container);
    ContainerNamesAre(descriptor);
    if Only(container, {"descriptor", "parts"}) && Only(descriptor, {"graph", "model"}) {
      ContentRefusal(container, descriptor, ownRepo, seen);
    }
  }

  // ----- tables -------------------------------------------------------------------------------

  /** Entry k is the first that is refused, after the entries before it were read. */
  ghost predicate FirstBadEntry<T(!new), E(!new)>(
    fields: Fields, k: nat, parse: (string, Json, Seen) -> Result<(T, Seen), E>, seen: Seen, error: E)
  {
    && k < |fields| && ParseFields(fields, k, parse, seen).Success?
    && parse(fields[k].0, fields[k].1, ParseFields(fields, k, parse, seen).value.1) == Failure(error)
  }

  lemma {:induction false} FieldsRefusal<T(!new), E(!new)>(
    fields: Fields, n: nat, parse: (string, Json, Seen) -> Result<(T, Seen), E>, seen: Seen)
    requires n <= |fields|
    ensures ParseFields(fields, n, parse, seen).Failure? ==>
              exists k: nat :: k < n && FirstBadEntry(fields, k, parse, seen, ParseFields(fields, n, parse, seen).error)
    ensures ParseFields(fields, n, parse, seen).Success? ==>
              forall k: nat, error: E :: k < n ==> !FirstBadEntry(fields, k, parse, seen, error)
  {
    if n > 0 {
      FieldsRefusal(fields, n - 1, parse, seen);
      if ParseFields(fields, n - 1, parse, seen).Success? && ParseFields(fields, n, parse, seen).Failure? {
        assert FirstBadEntry(fields, n - 1, parse, seen, ParseFields(fields, n, parse, seen).error);
      }
    }
  }

  /** An object with at most `max` entries, and at least one unless it may be empty; then its entries in order. */
  lemma TableRefusal<T(!new), E(!new)>(
    raw: Option<Json>, max: nat, allowEmpty: bool, parse: (string, Json, Seen) -> Result<(T, Seen), E>, seen: Seen,
    formatError: E)
    ensures var r := ParseMap(raw, max, allowEmpty, parse, seen, formatError);
            var table := raw.Some? && raw.value.JObj? && |raw.value.fields| <= max && (allowEmpty || raw.value.fields != []);
            && (!table ==> r == Failure(formatError))
            && (table && r.Failure? ==> exists k: nat :: FirstBadEntry(raw.value.fields, k, parse, seen, r.error))
            && (r.Success? ==>
                  table && forall k: nat, error: E :: !FirstBadEntry(raw.value.fields, k, parse, seen, error))
  {
    if raw.Some? && raw.value.JObj? {
      FieldsRefusal(raw.value.fields, |raw.value.fields|, parse, seen);
    }
  }

  // ----- quants -------------------------------------------------------------------------------

  /** One entry of a quant's mapping: its name is declared, and its label is a text declared under the name. */
  ghost function MappingEntryVerdict(entry: (string, Json), weights: Weights): Option<Kind> {
    Check(entry.0 in Keys(weights), Reference,
    Check(entry.1.JStr?, Format,
    Check(exists i :: 0 <= i < |weights| && DeclaredAt(entry, weights, i), Reference, None)))
  }

  ghost predicate DeclaredAt(entry: (string, Json), weights: Weights, i: nat)
    requires i < |weights|
  {
    weights[i].0 == entry.0 && entry.1.JStr? && entry.1.str in Keys(weights[i].1)
  }

  /** The first of n entries that is refused. */
  ghost function EntriesVerdict(fields: Fields, n: nat, weights: Weights): Option<Kind>
    requires n <= |fields|
  {
    if n == 0 then None else Before(EntriesVerdict(fields, n - 1, weights), MappingEntryVerdict(fields[n - 1], weights))
  }

  lemma HasName<V>(m: JsMap.Map<string, V>, name: string)
    ensures JsMap.Has(m, name) <==> name in Keys(m)
  {
    JsMap.HasIff(m, name);
    if JsMap.Has(m, name) {
      assert Keys(m)[JsMap.IndexOf(m, name)] == name;
    }
  }

  lemma EntryVerdictIs(entry: (string, Json), weights: Weights)
    requires JsMap.Distinct(weights)
    ensures MappingEntryVerdict(entry, weights).None? <==>
            && JsMap.Get(weights, entry.0).Some? && entry.1.JStr?
            && JsMap.Has(JsMap.Get(weights, entry.0).value, entry.1.str)
    ensures MappingEntryVerdict(entry, weights) == Some(Format) <==> JsMap.Get(weights, entry.0).Some? && !entry.1.JStr?
    ensures MappingEntryVerdict(entry, weights) != Some(Path)
  {
    HasName(weights, entry.0);
    JsMap.HasIff(weights, entry.0);
    if JsMap.Has(weights, entry.0) && entry.1.JStr? {
      var i := JsMap.IndexOf(weights, entry.0);
      HasName(weights[i].1, entry.1.str);
      assert DeclaredAt(entry, weights, i) <==> JsMap.Has(weights[i].1, entry.1.str);
      forall j | 0 <= j < |weights| && DeclaredAt(entry, weights, j)
        ensures j == i
      {
      }
    }
  }

  lemma NextEntryRefusal(fields: Fields, n: nat, weights: Weights)
    requires 0 < n <= |fields| && JsMap.Distinct(weights) && ParseQuantEntries(fields, n - 1, weights).Success?
    ensures ErrorOf(ParseQuantEntries(fields, n, weights)) == MappingEntryVerdict(fields[n - 1], weights)
  {
    EntryVerdictIs(fields[n - 1], weights);
  }

  lemma {:induction false} EntriesRefusal(fields: Fields, n: nat, weights: Weights)
    requires n <= |fields| && JsMap.Distinct(weights)
    ensures ErrorOf(ParseQuantEntries(fields, n, weights)) == EntriesVerdict(fields, n, weights)
  {
    if n > 0 {
      EntriesRefusal(fields, n - 1, weights);
      if ParseQuantEntries(fields, n - 1, weights).Success? {
        NextEntryRefusal(fields, n, weights);
      }
    }
  }

  /** Every name with weights is among the names written. */
  ghost predicate AllMapped(fields: Fields, weights: Weights) {
    forall name :: name in Keys(weights) ==> name in Keys(fields)
  }

  /** A mapping: an object, its entries in order, then that every declared name is mapped. */
  lemma MappingRefusal(raw: Option<Json>, weights: Weights)
    requires JsMap.Distinct(weights)
    ensures var fields := if raw.Some? && raw.value.JObj? then raw.value.fields else [];
            ErrorOf(ParseQuantWeights(raw, weights)) ==
            Check(raw.Some? && raw.value.JObj?, Format,
            Before(EntriesVerdict(fields, |fields|, weights),
            Check(AllMapped(fields, weights), Reference, None)))
  {
    if raw.Some? && raw.value.JObj? {
      var fields := raw.value.fields;
      EntriesRefusal(fields, |fields|, weights);
      if ParseQuantEntries(fields, |fields|, weights).Success? {
        AssignedIff(fields, weights);
      }
    }
  }

  lemma AssignedIff(fields: Fields, weights: Weights)
    requires ParseQuantEntries(fields, |fields|, weights).Success?
    ensures Assigned(ParseQuantEntries(fields, |fields|, weights).value, weights) <==> AllMapped(fields, weights)
  {
    var mapping := ParseQuantEntries(fields, |fields|, weights).value;
    forall i | 0 <= i < |weights|
      ensures JsMap.Has(mapping, weights[i].0) <==> weights[i].0 in Keys(fields)
      ensures weights[i].0 in Keys(weights)
    {
      MappedNames(fields, |fields|, weights, weights[i].0);
      assert fields[..|fields|] == fields && Keys(weights)[i] == weights[i].0;
    }
    if Assigned(mapping, weights) {
      forall name | name in Keys(weights)
        ensures name in Keys(fields)
      {
        var i :| 0 <= i < |weights| && Keys(weights)[i] == name;
        assert weights[i].0 == name;
      }
    }
  }

  lemma {:induction false} MappedNames(fields: Fields, n: nat, weights: Weights, name: string)
    requires n <= |fields| && ParseQuantEntries(fields, n, weights).Success?
    ensures JsMap.Has(ParseQuantEntries(fields, n, weights).value, name) <==> name in Keys(fields[..n])
  {
    if n > 0 {
      MappedNames(fields, n - 1, weights, name);
      var before := ParseQuantEntries(fields, n - 1, weights).value;
      SetHas(before, fields[n - 1].0, fields[n - 1].1.str, name);
      assert Keys(fields[..n]) == Keys(fields[..n - 1]) + [fields[n - 1].0];
    }
  }

  lemma SetHas<V>(m: JsMap.Map<string, V>, key: string, value: V, name: string)
    ensures JsMap.Has(JsMap.Set(m, key, value), name) <==> JsMap.Has(m, name) || name == key
  {
    var n, i := JsMap.Set(m, key, value), JsMap.IndexOf(m, key);
    JsMap.HasIff(m, name);
    JsMap.HasIff(n, name);
    assert n[if i < 0 then |m| else i].0 == key;
    if j :| 0 <= j < |m| && m[j].0 == name {
      assert n[j].0 == name;
    }
    if j :| 0 <= j < |n| && n[j].0 == name {
      assert j < |m| && j != i ==> m[j].0 == name;
    }
  }

  /** A quant: an object of known names, its mapping, then the readers of its settings. */
  lemma QuantRefusal(raw: Json, weights: Weights, env: Env)
    ensures ErrorOf(ParseQuant(raw, weights, env)) ==
            Check(raw.JObj?, Format,
            Check(Only(raw, {"weights", "session", "gpuFeatures", "label", "description", "requiredLimits"}), Reference,
            Before(ErrorOf(ParseQuantWeights(At(raw, "weights"), weights)),
            env.settingsError(Without(if raw.JObj? then raw.fields else [], "weights")))))
  {
    AllowedNamesAre(raw);
  }

  // ----- models and the manifest --------------------------------------------------------------

  /** A pipeline is read exactly from a name, a slash and a major version without leading zeros. */
  lemma PipelineIff(raw: Option<Json>, p: PipelineId)
    ensures ParsePipeline(raw) == Success(p) <==>
            GoodPipeline(p) && raw == Some(JStr(p.name + "/" + Digits(p.major)))
    ensures ParsePipeline(raw).Failure? ==> ParsePipeline(raw).error == Format
  {
    if ParsePipeline(raw) == Success(p) {
      PipelineSaid(raw);
    }
    if GoodPipeline(p) && raw == Some(JStr(p.name + "/" + Digits(p.major))) {
      PipelineBack(p);
    }
  }

  /** The tables are read in this order, each with the references seen before it. */
  ghost function ModelVerdict(raw: Json, env: Env, seen: Seen): Option<Kind> {
    var weights := ParseMap(At(raw, "weights"), 32, false, WeightEntryParser(env), seen, Format);
    var atWeights := if weights.Success? then weights.value.1 else seen;
    var assets := ParseMap(At(raw, "assets"), 32, true, FileRefParser(env.ownRepo), atWeights, Format);
    var atAssets := if assets.Success? then assets.value.1 else atWeights;
    var quants := ParseMap(At(raw, "quants"), 32, false,
                           QuantParser(if weights.Success? then weights.value.0 else [], env), atAssets, Format);
    Check(raw.JObj?, Format,
    Check(Only(raw, {"pipeline", "weights", "assets", "quants", "defaultQuant", "pipelineConfig"}), Reference,
    Before(ErrorOf(ParsePipeline(At(raw, "pipeline"))),
    Before(ErrorOf(weights), Before(ErrorOf(assets), Before(ErrorOf(quants),
    Check(TextAt(raw, "defaultQuant").Some?, Format,
    Check(quants.Success? && TextAt(raw, "defaultQuant").GetOr("") in Keys(quants.value.0), Reference,
    Check(ObjectAt(raw, "pipelineConfig").Some?
          && env.configBytes(ObjectAt(raw, "pipelineConfig").value.fields) <= 256 * 1024, Format, None)))))))))
  }

  lemma ModelFieldsRefusal(raw: Json, available: Labels, env: Env, seen: Seen)
    requires raw.JObj? && Only(raw, {"pipeline", "weights", "assets", "quants", "defaultQuant", "pipelineConfig"})
    ensures ErrorOf(ParseModelFields(raw.fields, available, env, seen)) == ModelVerdict(raw, env, seen)
  {
    var weights := ParseMap(At(raw, "weights"), 32, false, WeightEntryParser(env), seen, Format);
    if weights.Success? {
      var assets := ParseMap(At(raw, "assets"), 32, true, FileRefParser(env.ownRepo), weights.value.1, Format);
      if assets.Success? {
        var quants := ParseMap(At(raw, "quants"), 32, false, QuantParser(weights.value.0, env), assets.value.1, Format);
        if quants.Success? {
          HasName(quants.value.0, TextAt(raw, "defaultQuant").GetOr(""));
        }
      }
    }
  }

  /** A refused model lists the labels surveyed for it. */
  lemma ModelRefusal(root: Fields, name: string, raw: Json, env: Env, seen: Seen)
    ensures var verdict := ModelVerdict(raw, env, seen);
            ErrorOf(ParseModel(root, name, raw, env, seen)) ==
            if verdict.None? then None else Some(Rejection(verdict.value, SurveyLabels(root, Some(name)).available))
  {
    AllowedNamesAre(raw);
    if Only(raw, {"pipeline", "weights", "assets", "quants", "defaultQuant", "pipelineConfig"}) {
      ModelFieldsRefusal(raw, SurveyLabels(root, Some(name)).available, env, seen);
    }
  }

  /** The checks of the envelope, which list the model names, around those of the models. */
  ghost function EnvelopeVerdict(root: Json, available: Labels, models: Result<(JsMap.Map<string, ModelEntry>, Seen), Rejection>)
    : Option<Rejection>
  {
    Check(TextAt(root, "format") == Some("karume/5"), Rejection(Format, available),
    Check(Only(root, {"format", "generator", "defaultModel", "models"}), Rejection(Reference, available),
    Check(TextAt(root, "generator").GetOr("") != "", Rejection(Format, available),
    Before(ErrorOf(models),
    Check(TextAt(root, "defaultModel").Some?, Rejection(Format, available),
    Check(models.Success? && TextAt(root, "defaultModel").GetOr("") in Keys(models.value.0),
          Rejection(Reference, available), None))))))
  }

  ghost function RootVerdict(root: Json, env: Env): Option<Rejection> {
    var fields := if root.JObj? then root.fields else [];
    var available := SurveyLabels(fields, None).available;
    var models := ParseMap(At(root, "models"), 32, false, ModelParser(fields, env), map[], Rejection(Format, available));
    Check(root.JObj? && WellFormed(root, 0), Rejection(Format, Labels([], [], [])), EnvelopeVerdict(root, available, models))
  }

  lemma EnvelopeNamesAre(raw: Json)
    ensures Only(raw, {"format", "generator", "defaultModel", "models"}) <==> raw.JObj? && OnlyKeys(raw.fields, ENVELOPE_KEYS)
  {
  }

  lemma EnvelopeRefusal(root: Json, env: Env, available: Labels, models: Result<(JsMap.Map<string, ModelEntry>, Seen), Rejection>)
    requires root.JObj? && NoForbiddenKeys(root, 0) && available == SurveyLabels(root.fields, None).available
    requires models == ParseMap(Field(root.fields, "models"), 32, false, ModelParser(root.fields, env), map[],
                                Rejection(Format, available))
    ensures ErrorOf(ParseRepoManifest(root, env)) == EnvelopeVerdict(root, available, models)
  {
    EnvelopeNamesAre(root);
    if models.Success? {
      HasName(models.value.0, TextAt(root, "defaultModel").GetOr(""));
    }
  }

  /**
    The whole verdict on a manifest, error kind and labels included: the first of these checks that its text
    does not pass, or acceptance.
   */
  lemma RootRefusal(root: Json, env: Env)
    ensures ErrorOf(ParseRepoManifest(root, env)) == RootVerdict(root, env)
  {
    WellFormedIff(root, 0);
    if root.JObj? && NoForbiddenKeys(root, 0) {
      var available := SurveyLabels(root.fields, None).available;
      EnvelopeRefusal(root, env, available, ParseMap(At(root, "models"), 32, false, ModelParser(root.fields, env), map[],
                                                     Rejection(Format, available)));
    }
  }

  // ----- the labels a refusal lists -----------------------------------------------------------

  ghost function FirstKeys(raw: Option<Json>): seq<string> {
    if raw.Some? && raw.value.JObj? then
      if |raw.value.fields| <= 32 then Keys(raw.value.fields) else Keys(raw.value.fields)[..32]
    else []
  }

  /** The dtype labels of a name, if it is among those listed and stands for an object. */
  ghost function LabelsOfName(weights: Json, names: seq<string>, name: string): Option<seq<string>> {
    if name !in names then None
    else match ObjectAt(weights, name) case Some(labels) => Some(Keys(labels.fields)) case None => None
  }

  ghost predicate ListsDtypes(dtypes: JsMap.Map<string, seq<string>>, weights: Json, names: seq<string>) {
    && JsMap.Distinct(dtypes)
    && forall name: string :: JsMap.Get(dtypes, name) == LabelsOfName(weights, names, name)
  }

  lemma NextDtypes(dtypes: JsMap.Map<string, seq<string>>, weights: Json, names: seq<string>, name: string)
    requires weights.JObj? && ListsDtypes(dtypes, weights, names)
    ensures ListsDtypes(match ObjectAt(weights, name)
                        case Some(labels) => JsMap.Set(dtypes, name, Keys(labels.fields))
                        case None => dtypes, weights, names + [name])
  {
    if ObjectAt(weights, name).Some? {
      JsMap.SetGet(dtypes, name, Keys(ObjectAt(weights, name).value.fields));
    }
    forall other: string
      ensures LabelsOfName(weights, names + [name], other) ==
              if other == name then LabelsOfName(weights, [name], name) else LabelsOfName(weights, names, other)
    {
    }
    assert JsMap.Get(dtypes, name) == LabelsOfName(weights, names, name);
  }

  lemma {:induction false} DtypesListed(weights: Fields, names: seq<string>, n: nat)
    requires n <= |names|
    ensures ListsDtypes(SurveyDtypes(weights, names, n), JObj(weights), names[..n])
  {
    if n > 0 {
      DtypesListed(weights, names, n - 1);
      assert names[..n] == names[..n - 1] + [names[n - 1]];
      NextDtypes(SurveyDtypes(weights, names, n - 1), JObj(weights), names[..n - 1], names[n - 1]);
    }
  }

  lemma HeadIsFirst(raw: Json, name: string)
    requires raw.JObj?
    ensures HeadKeys(FieldsOf(At(raw, name)), 32).keys == FirstKeys(ObjectAt(raw, name))
  {
  }

  lemma DtypeSurvey(entry: Json, names: seq<string>)
    requires entry.JObj?
    ensures ListsDtypes(SurveyDtypes(FieldsOf(At(entry, "weights")), names, |names|),
                        ObjectAt(entry, "weights").GetOr(JObj([])), names)
  {
    DtypesListed(FieldsOf(At(entry, "weights")), names, |names|);
    assert names[..|names|] == names;
  }

  /**
    What the survey for one model lists: the first 32 model names, of the model the first 32 quant names, and
    the dtype labels of its first 32 weights names.
   */
  lemma SurveyLists(root: Fields, name: string)
    ensures var available := SurveyLabels(root, Some(name)).available;
            var models := ObjectAt(JObj(root), "models");
            var entry := if models.Some? then ObjectAt(models.value, name) else None;
            && available.models == FirstKeys(models)
            && (entry.None? ==> available.quants == [] && available.dtypes == [])
            && (entry.Some? ==>
                  && available.quants == FirstKeys(ObjectAt(entry.value, "quants"))
                  && ListsDtypes(available.dtypes, ObjectAt(entry.value, "weights").GetOr(JObj([])),
                                 FirstKeys(ObjectAt(entry.value, "weights"))))
    ensures SurveyLabels(root, None).available == Labels(FirstKeys(ObjectAt(JObj(root), "models")), [], [])
  {
    var models := ObjectAt(JObj(root), "models");
    var entry := if models.Some? then ObjectAt(models.value, name) else None;
    if entry.Some? {
      HeadIsFirst(entry.value, "quants");
      HeadIsFirst(entry.value, "weights");
      DtypeSurvey(entry.value, FirstKeys(ObjectAt(entry.value, "weights")));
    }
  }
}
