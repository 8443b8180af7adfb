/**
  Reading a manifest (packages/hub/src/manifest.ts): the checks in the order of the source, with the
  table of references seen so far threaded through the whole tree.
 */
module ManifestParser {
  import opened Wrappers
  import opened FileRefs
  import JsMap

  /** A value JSON.parse returns; a number too large for a double is not finite. */
  datatype Json =
    | JNull
    | JBool(b: bool)
    | JNum(finite: bool, num: real)
    | JStr(str: string)
    | JArr(items: seq<Json>)
    | JObj(fields: Fields)

  type Fields = JsMap.Map<string, Json>

  datatype Kind = Format | Reference | Path

  type Seen = map<string, FileRef>

  datatype Document = Document(length: nat, sha256: string)

  datatype ContainerRef = ContainerRef(graph: Document, model: Document, parts: seq<FileRef>)

  /** dtype label -> container */
  type WeightEntry = JsMap.Map<string, ContainerRef>

  type Weights = JsMap.Map<string, WeightEntry>

  /** `settings` are the fields beside the weights mapping; their readers are not part of this model. */
  datatype Quant = Quant(weights: JsMap.Map<string, string>, settings: Fields)

  datatype PipelineId = PipelineId(name: string, major: nat)

  datatype Labels = Labels(models: seq<string>, quants: seq<string>, dtypes: JsMap.Map<string, seq<string>>)

  datatype ModelEntry = ModelEntry(
    pipeline: PipelineId,
    weights: Weights,
    assets: JsMap.Map<string, FileRef>,
    quants: JsMap.Map<string, Quant>,
    defaultQuant: string,
    pipelineConfig: Fields,
    available: Labels
  )

  datatype Manifest = Manifest(
    generator: string,
    defaultModel: string,
    models: JsMap.Map<string, ModelEntry>,
    available: Labels
  )

  datatype Rejection = Rejection(kind: Kind, available: Labels)

  /**
    What parsing takes from outside: the repo the manifest was loaded from, the readers of a quant's
    settings (None when they accept), and the byte length of a pipeline configuration as text.
   */
  datatype Env = Env(
    ownRepo: Option<string>,
    settingsError: Fields -> Option<Kind>,
    configBytes: Fields -> nat
  )

  const MAX_MODELS := 32
  const MAX_WEIGHTS := 32
  const MAX_ASSETS := 32
  const MAX_QUANTS := 32
  const MAX_PIPELINE_CONFIG_BYTES := 256 * 1024
  const MAX_MANIFEST_DEPTH := 64
  const MAX_FILE_BYTES := 17179869184
  const MAX_PARTS := 1024
  const MAX_PART_BYTES := 1073741824
  const MAX_DESCRIPTOR_BYTES := 33554432
  const CONTAINER_HEADER_BYTES := 24
  const EMPTY_SHA256 := "e3b0c44298fc1c149afbf4c8996fb92427ae41e4649b934ca495991b7852b855"
  const MAX_SAFE_INTEGER := 9007199254740991

  const FORBIDDEN_KEYS := ["__proto__", "constructor", "prototype"]
  const ENVELOPE_KEYS := ["format", "generator", "defaultModel", "models"]
  const MODEL_KEYS := ["pipeline", "weights", "assets", "quants", "defaultQuant", "pipelineConfig"]
  const WEIGHT_DTYPE_KEYS := ["container"]
  const CONTAINER_KEYS := ["descriptor", "parts"]
  const DESCRIPTOR_KEYS := ["graph", "model"]
  const DOCUMENT_KEYS := ["length", "sha256"]
  const FILE_REF_KEYS := ["path", "size", "sha256", "repo", "revision"]
  const QUANT_KEYS := ["weights", "session", "gpuFeatures", "label", "description", "requiredLimits"]

  const NO_LABELS := Labels([], [], [])

  function Field(fields: Fields, name: string): Option<Json> { JsMap.Get(fields, name) }

  predicate OnlyKeys(fields: Fields, allowed: seq<string>) {
    forall i :: 0 <= i < |fields| ==> fields[i].0 in allowed
  }

  function Keys<V>(m: JsMap.Map<string, V>): (keys: seq<string>)
    ensures |keys| == |m| && forall i :: 0 <= i < |m| ==> keys[i] == m[i].0
  {
    seq(|m|, i requires 0 <= i < |m| => m[i].0)
  }

  predicate IsSafeInteger(n: Json)
    requires n.JNum?
  {
    n.finite && n.num.Floor as real == n.num && -MAX_SAFE_INTEGER <= n.num.Floor <= MAX_SAFE_INTEGER
  }

  // ----- one file reference -------------------------------------------------------------------

  function ReadCrossRepo(fields: Fields, ownRepo: Option<string>): Result<Option<CrossRef>, Kind> {
    match (Field(fields, "repo"), Field(fields, "revision"))
    case (None, None) => Success(None)
    case (Some(JStr(repo)), Some(JStr(revision))) =>
      if !IsRepoName(repo) || !IsCommitSha(revision) || ownRepo == Some(repo) then Failure(Format)
      else Success(Some(CrossRef(repo, revision)))
    case _ => Failure(Format)
  }

  /** The checks on one reference by itself. */
  function ReadFileRef(raw: Json, allowEmpty: bool, ownRepo: Option<string>): Result<FileRef, Kind> {
    if !raw.JObj? then Failure(Format)
    else if !OnlyKeys(raw.fields, FILE_REF_KEYS) then Failure(Reference)
    else
      match (Field(raw.fields, "path"), Field(raw.fields, "size"), Field(raw.fields, "sha256"))
      case (Some(JStr(path)), Some(JNum(finite, num)), Some(JStr(sha256))) =>
        var size := num.Floor;
        if !IsSha256(sha256) then Failure(Format)
        else if !IsSafeInteger(JNum(finite, num)) || size < (if allowEmpty then 0 else 1) || size > MAX_FILE_BYTES then
          Failure(Format)
        else if size == 0 && sha256 != EMPTY_SHA256 then Failure(Format)
        else if !IsPath(path) then Failure(Path)
        else
          var cross :- ReadCrossRepo(raw.fields, ownRepo);
          Success(if cross.None? then FileRef(path, size, sha256, None, None)
                  else FileRef(path, size, sha256, Some(cross.value.repo), Some(cross.value.revision)))
      case _ => Failure(Format)
  }

  /** A file declared again must agree with its first declaration, which is what is returned. */
  function Record(ref: FileRef, seen: Seen): Result<(FileRef, Seen), Kind> {
    var key := FileRefKey(ref);
    if key !in seen then Success((ref, seen[key := ref]))
    else if seen[key].size != ref.size || seen[key].sha256 != ref.sha256 then Failure(Reference)
    else Success((seen[key], seen))
  }

  function ParseFileRef(raw: Json, allowEmpty: bool, ownRepo: Option<string>, seen: Seen): Result<(FileRef, Seen), Kind> {
    var ref :- ReadFileRef(raw, allowEmpty, ownRepo);
    Record(ref, seen)
  }

  // ----- containers ---------------------------------------------------------------------------

  function ParseDocument(raw: Option<Json>): Result<Document, Kind> {
    if raw.None? || !raw.value.JObj? then Failure(Format)
    else if !OnlyKeys(raw.value.fields, DOCUMENT_KEYS) then Failure(Reference)
    else
      match (Field(raw.value.fields, "length"), Field(raw.value.fields, "sha256"))
      case (Some(JNum(finite, num)), Some(JStr(sha256))) =>
        if !IsSafeInteger(JNum(finite, num)) || num.Floor <= 0 || num.Floor > MAX_DESCRIPTOR_BYTES then Failure(Format)
        else if !IsSha256(sha256) then Failure(Format)
        else Success(Document(num.Floor, sha256))
      case _ => Failure(Format)
  }

  /** Reads the first n items of a list in order; the first bad item is what fails. */
  function ParseItems<T, E>(items: seq<Json>, n: nat, parse: (nat, Json, Seen) -> Result<(T, Seen), E>, seen: Seen)
    : (r: Result<(seq<T>, Seen), E>)
    requires n <= |items|
    ensures r.Success? ==> |r.value.0| == n
  {
    if n == 0 then Success(([], seen))
    else
      var before :- ParseItems(items, n - 1, parse, seen);
      var item :- parse(n - 1, items[n - 1], before.1);
      Success((before.0 + [item.0], item.1))
  }

  /** A part: empty only from index 1 on, and within the limit of one part. */
  function ParsePart(raw: Json, index: nat, ownRepo: Option<string>, seen: Seen): Result<(FileRef, Seen), Kind> {
    var part :- ParseFileRef(raw, index > 0, ownRepo, seen);
    if part.0.size > MAX_PART_BYTES then Failure(Format) else Success(part)
  }

  function PartParser(ownRepo: Option<string>): (nat, Json, Seen) -> Result<(FileRef, Seen), Kind> {
    (index: nat, raw: Json, at: Seen) => ParsePart(raw, index, ownRepo, at)
  }

  function ParseParts(raw: Option<Json>, ownRepo: Option<string>, seen: Seen): (r: Result<(seq<FileRef>, Seen), Kind>)
    ensures r.Success? ==> 2 <= |r.value.0| <= MAX_PARTS
  {
    if raw.None? || !raw.value.JArr? then Failure(Format)
    else if |raw.value.items| < 2 || |raw.value.items| > MAX_PARTS then Failure(Format)
    else ParseItems(raw.value.items, |raw.value.items|, PartParser(ownRepo), seen)
  }

  predicate UniformOrigin(parts: seq<FileRef>) {
    forall i :: 0 <= i < |parts| ==> CrossRefOf(parts[i]) == CrossRefOf(parts[0])
  }

  function ParseContainer(raw: Option<Json>, ownRepo: Option<string>, seen: Seen): Result<(ContainerRef, Seen), Kind> {
    if raw.None? || !raw.value.JObj? then Failure(Format)
    else if !OnlyKeys(raw.value.fields, CONTAINER_KEYS) then Failure(Reference)
    else
      var descriptor := Field(raw.value.fields, "descriptor");
      if descriptor.None? || !descriptor.value.JObj? then Failure(Format)
      else if !OnlyKeys(descriptor.value.fields, DESCRIPTOR_KEYS) then Failure(Reference)
      else
        var graph :- ParseDocument(Field(descriptor.value.fields, "graph"));
        var model :- ParseDocument(Field(descriptor.value.fields, "model"));
        var parts :- ParseParts(Field(raw.value.fields, "parts"), ownRepo, seen);
        if parts.0[0].size != CONTAINER_HEADER_BYTES + graph.length + model.length then Failure(Format)
        else if !UniformOrigin(parts.0) then Failure(Format)
        else Success((ContainerRef(graph, model, parts.0), parts.1))
  }

  function ParseWeightContainer(raw: Json, ownRepo: Option<string>, seen: Seen): Result<(ContainerRef, Seen), Kind> {
    if !raw.JObj? then Failure(Format)
    else if !OnlyKeys(raw.fields, WEIGHT_DTYPE_KEYS) then Failure(Reference)
    else ParseContainer(Field(raw.fields, "container"), ownRepo, seen)
  }

  // ----- tables -------------------------------------------------------------------------------

  /** Reads the first n entries of an object in order; the first bad entry is what fails. */
  function ParseFields<T, E>(
    fields: Fields, n: nat, parse: (string, Json, Seen) -> Result<(T, Seen), E>, seen: Seen
  ): Result<(JsMap.Map<string, T>, Seen), E>
    requires n <= |fields|
  {
    if n == 0 then Success(([], seen))
    else
      var before :- ParseFields(fields, n - 1, parse, seen);
      var value :- parse(fields[n - 1].0, fields[n - 1].1, before.1);
      Success((before.0 + [(fields[n - 1].0, value.0)], value.1))
  }

  function ParseMap<T, E>(
    raw: Option<Json>, max: nat, allowEmpty: bool, parse: (string, Json, Seen) -> Result<(T, Seen), E>, seen: Seen,
    formatError: E
  ): Result<(JsMap.Map<string, T>, Seen), E>
  {
    if raw.None? || !raw.value.JObj? then Failure(formatError)
    else if raw.value.fields == [] && !allowEmpty then Failure(formatError)
    else if |raw.value.fields| > max then Failure(formatError)
    else ParseFields(raw.value.fields, |raw.value.fields|, parse, seen)
  }

  function ContainerParser(ownRepo: Option<string>): (string, Json, Seen) -> Result<(ContainerRef, Seen), Kind> {
    (dtype: string, value: Json, at: Seen) => ParseWeightContainer(value, ownRepo, at)
  }

  function ParseWeightEntry(raw: Json, ownRepo: Option<string>, seen: Seen): Result<(WeightEntry, Seen), Kind> {
    if !raw.JObj? || raw.fields == [] then Failure(Format)
    else ParseFields(raw.fields, |raw.fields|, ContainerParser(ownRepo), seen)
  }

  // ----- quants -------------------------------------------------------------------------------

  /** The first n entries of a quant's mapping: names that exist, to dtype labels they have. */
  function ParseQuantEntries(fields: Fields, n: nat, weights: Weights): Result<JsMap.Map<string, string>, Kind>
    requires n <= |fields|
  {
    if n == 0 then Success([])
    else
      var before :- ParseQuantEntries(fields, n - 1, weights);
      var name, dtype := fields[n - 1].0, fields[n - 1].1;
      var entry := JsMap.Get(weights, name);
      if entry.None? then Failure(Reference)
      else if !dtype.JStr? then Failure(Format)
      else if !JsMap.Has(entry.value, dtype.str) then Failure(Reference)
      else Success(JsMap.Set(before, name, dtype.str))
  }

  predicate Assigned(mapping: JsMap.Map<string, string>, weights: Weights) {
    forall i :: 0 <= i < |weights| ==> JsMap.Has(mapping, weights[i].0)
  }

  function ParseQuantWeights(raw: Option<Json>, weights: Weights): Result<JsMap.Map<string, string>, Kind> {
    if raw.None? || !raw.value.JObj? then Failure(Format)
    else
      var mapping :- ParseQuantEntries(raw.value.fields, |raw.value.fields|, weights);
      if Assigned(mapping, weights) then Success(mapping) else Failure(Reference)
  }

  function Without(fields: Fields, name: string): Fields {
    if fields == [] then []
    else
      var before := Without(fields[..|fields| - 1], name);
      if fields[|fields| - 1].0 == name then before else before + [fields[|fields| - 1]]
  }

  function ParseQuant(raw: Json, weights: Weights, env: Env): Result<Quant, Kind> {
    if !raw.JObj? then Failure(Format)
    else if !OnlyKeys(raw.fields, QUANT_KEYS) then Failure(Reference)
    else
      var mapping :- ParseQuantWeights(Field(raw.fields, "weights"), weights);
      var settings := Without(raw.fields, "weights");
      match env.settingsError(settings)
      case Some(kind) => Failure(kind)
      case None => Success(Quant(mapping, settings))
  }

  // ----- the label survey ---------------------------------------------------------------------

  datatype LabelSurvey = LabelSurvey(available: Labels, truncated: bool)

  datatype Head = Head(keys: seq<string>, truncated: bool)

  function HeadKeys(fields: Fields, max: nat): Head {
    var keys := Keys(fields);
    Head(if |keys| > max then keys[..max] else keys, |keys| > max)
  }

  function FieldsOf(raw: Option<Json>): Fields {
    if raw.Some? && raw.value.JObj? then raw.value.fields else []
  }

  /** The dtype labels of those of the first n names that are objects. */
  function SurveyDtypes(weights: Fields, names: seq<string>, n: nat): JsMap.Map<string, seq<string>>
    requires n <= |names|
  {
    if n == 0 then []
    else
      var before := SurveyDtypes(weights, names, n - 1);
      match Field(weights, names[n - 1])
      case Some(JObj(labels)) => JsMap.Set(before, names[n - 1], Keys(labels))
      case _ => before
  }

  function SurveyLabels(root: Fields, model: Option<string>): LabelSurvey {
    match Field(root, "models")
    case Some(JObj(modelsRaw)) =>
      var models := HeadKeys(modelsRaw, MAX_MODELS);
      var entry := if model.None? then None else Field(modelsRaw, model.value);
      if entry.None? || !entry.value.JObj? then LabelSurvey(Labels(models.keys, [], []), models.truncated)
      else
        var quants := HeadKeys(FieldsOf(Field(entry.value.fields, "quants")), MAX_QUANTS);
        var weightsRaw := FieldsOf(Field(entry.value.fields, "weights"));
        var weights := HeadKeys(weightsRaw, MAX_WEIGHTS);
        LabelSurvey(Labels(models.keys, quants.keys, SurveyDtypes(weightsRaw, weights.keys, |weights.keys|)),
                    models.truncated || quants.truncated || weights.truncated)
    case _ => LabelSurvey(NO_LABELS, false)
  }

  // ----- models and the envelope --------------------------------------------------------------

  predicate IsPipelineName(s: string) {
    s != "" && forall i :: 0 <= i < |s| ==> IsLetter(s[i]) || IsDigit(s[i]) || s[i] in "_-"
  }

  predicate IsMajor(s: string) {
    s != "" && s[0] != '0' && forall i :: 0 <= i < |s| ==> IsDigit(s[i])
  }

  function Decimal(s: string): nat
    requires forall i :: 0 <= i < |s| ==> IsDigit(s[i])
  {
    if s == "" then 0
    else
      assert IsDigit(s[|s| - 1]);
      10 * Decimal(s[..|s| - 1]) + (s[|s| - 1] as int - '0' as int)
  }

  function ParsePipeline(raw: Option<Json>): Result<PipelineId, Kind> {
    if raw.None? || !raw.value.JStr? then Failure(Format)
    else
      var segments := Split(raw.value.str, '/');
      if |segments| != 2 || !IsPipelineName(segments[0]) || !IsMajor(segments[1]) then Failure(Format)
      else if Decimal(segments[1]) > MAX_SAFE_INTEGER then Failure(Format)
      else Success(PipelineId(segments[0], Decimal(segments[1])))
  }

  function ParsePipelineConfig(raw: Option<Json>, env: Env): Result<Fields, Kind> {
    if raw.None? || !raw.value.JObj? then Failure(Format)
    else if env.configBytes(raw.value.fields) > MAX_PIPELINE_CONFIG_BYTES then Failure(Format)
    else Success(raw.value.fields)
  }

  function WeightEntryParser(env: Env): (string, Json, Seen) -> Result<(WeightEntry, Seen), Kind> {
    (name: string, value: Json, at: Seen) => ParseWeightEntry(value, env.ownRepo, at)
  }

  function FileRefParser(ownRepo: Option<string>): (string, Json, Seen) -> Result<(FileRef, Seen), Kind> {
    (name: string, value: Json, at: Seen) => ParseFileRef(value, false, ownRepo, at)
  }

  function QuantParser(weights: Weights, env: Env): (string, Json, Seen) -> Result<(Quant, Seen), Kind> {
    (name: string, value: Json, at: Seen) =>
      match ParseQuant(value, weights, env)
      case Success(quant) => Success((quant, at))
      case Failure(kind) => Failure(kind)
  }

  function ParseModelFields(fields: Fields, available: Labels, env: Env, seen: Seen): Result<(ModelEntry, Seen), Kind> {
    var pipeline :- ParsePipeline(Field(fields, "pipeline"));
    var weights :- ParseMap(Field(fields, "weights"), MAX_WEIGHTS, false, WeightEntryParser(env), seen, Format);
    var assets :- ParseMap(Field(fields, "assets"), MAX_ASSETS, true, FileRefParser(env.ownRepo), weights.1, Format);
    var quants :- ParseMap(Field(fields, "quants"), MAX_QUANTS, false, QuantParser(weights.0, env), assets.1, Format);
    var defaultQuant := Field(fields, "defaultQuant");
    if defaultQuant.None? || !defaultQuant.value.JStr? then Failure(Format)
    else if !JsMap.Has(quants.0, defaultQuant.value.str) then Failure(Reference)
    else
      var config :- ParsePipelineConfig(Field(fields, "pipelineConfig"), env);
      Success((ModelEntry(pipeline, weights.0, assets.0, quants.0, defaultQuant.value.str, config, available), assets.1))
  }

  function ParseModel(root: Fields, name: string, raw: Json, env: Env, seen: Seen): Result<(ModelEntry, Seen), Rejection> {
    var available := SurveyLabels(root, Some(name)).available;
    if !raw.JObj? then Failure(Rejection(Format, available))
    else if !OnlyKeys(raw.fields, MODEL_KEYS) then Failure(Rejection(Reference, available))
    else
      match ParseModelFields(raw.fields, available, env, seen)
      case Success(model) => Success(model)
      case Failure(kind) => Failure(Rejection(kind, available))
  }

  function ModelParser(root: Fields, env: Env): (string, Json, Seen) -> Result<(ModelEntry, Seen), Rejection> {
    (name: string, value: Json, at: Seen) => ParseModel(root, name, value, env, at)
  }

  /** No forbidden key anywhere, and no nesting beyond the limit. */
  predicate NoForbiddenKeys(value: Json, depth: nat)
    decreases value
  {
    && depth <= MAX_MANIFEST_DEPTH
    && match value
       case JArr(items) => forall i :: 0 <= i < |items| ==> NoForbiddenKeys(items[i], depth + 1)
       case JObj(fields) =>
         forall i :: 0 <= i < |fields| ==> fields[i].0 !in FORBIDDEN_KEYS && NoForbiddenKeys(fields[i].1, depth + 1)
       case _ => true
  }

  function ParseRepoManifest(root: Json, env: Env): Result<Manifest, Rejection> {
    if !root.JObj? || !NoForbiddenKeys(root, 0) then Failure(Rejection(Format, NO_LABELS))
    else
      var fields := root.fields;
      var available := SurveyLabels(fields, None).available;
      if Field(fields, "format") != Some(JStr("karume/5")) then Failure(Rejection(Format, available))
      else if !OnlyKeys(fields, ENVELOPE_KEYS) then Failure(Rejection(Reference, available))
      else
        match Field(fields, "generator")
        case Some(JStr(generator)) =>
          if generator == "" then Failure(Rejection(Format, available))
          else
            var models :- ParseMap(Field(fields, "models"), MAX_MODELS, false, ModelParser(fields, env), map[],
                                   Rejection(Format, available));
            (match Field(fields, "defaultModel")
             case Some(JStr(defaultModel)) =>
               if !JsMap.Has(models.0, defaultModel) then Failure(Rejection(Reference, available))
               else Success(Manifest(generator, defaultModel, models.0, available))
             case _ => Failure(Rejection(Format, available)))
        case _ => Failure(Rejection(Format, available))
  }

  // ----- the parser's loops -------------------------------------------------------------------

  lemma {:induction false} ItemFailureStays<T, E>(
    items: seq<Json>, n: nat, m: nat, parse: (nat, Json, Seen) -> Result<(T, Seen), E>, seen: Seen)
    requires n <= m <= |items| && ParseItems(items, n, parse, seen).Failure?
    ensures ParseItems(items, m, parse, seen) == ParseItems(items, n, parse, seen)
    decreases m - n
  {
    if n < m {
      ItemFailureStays(items, n, m - 1, parse, seen);
    }
  }

  lemma NextItem<T, E>(items: seq<Json>, n: nat, parse: (nat, Json, Seen) -> Result<(T, Seen), E>, seen: Seen,
                       parsed: seq<T>, at: Seen)
    requires n < |items| && ParseItems(items, n, parse, seen) == Success((parsed, at))
    ensures ParseItems(items, n + 1, parse, seen) ==
            match parse(n, items[n], at)
            case Success((value, after)) => Success((parsed + [value], after))
            case Failure(error) => Failure(error)
  {
  }

  lemma {:induction false} FieldFailureStays<T, E>(
    fields: Fields, n: nat, m: nat, parse: (string, Json, Seen) -> Result<(T, Seen), E>, seen: Seen)
    requires n <= m <= |fields| && ParseFields(fields, n, parse, seen).Failure?
    ensures ParseFields(fields, m, parse, seen) == ParseFields(fields, n, parse, seen)
    decreases m - n
  {
    if n < m {
      FieldFailureStays(fields, n, m - 1, parse, seen);
    }
  }

  lemma NextField<T, E>(fields: Fields, n: nat, parse: (string, Json, Seen) -> Result<(T, Seen), E>, seen: Seen,
                        parsed: JsMap.Map<string, T>, at: Seen)
    requires n < |fields| && ParseFields(fields, n, parse, seen) == Success((parsed, at))
    ensures ParseFields(fields, n + 1, parse, seen) ==
            match parse(fields[n].0, fields[n].1, at)
            case Success((value, after)) => Success((parsed + [(fields[n].0, value)], after))
            case Failure(error) => Failure(error)
  {
  }

  lemma {:induction false} MappingFailureStays(fields: Fields, n: nat, m: nat, weights: Weights)
    requires n <= m <= |fields| && ParseQuantEntries(fields, n, weights).Failure?
    ensures ParseQuantEntries(fields, m, weights) == ParseQuantEntries(fields, n, weights)
    decreases m - n
  {
    if n < m {
      MappingFailureStays(fields, n, m - 1, weights);
    }
  }

  /** The context one parse shares: the references seen so far and the repo of the manifest. */
  class RefScope {
    var seen: Seen
    const ownRepo: Option<string>

    constructor (ownRepo: Option<string>)
      ensures seen == map[] && this.ownRepo == ownRepo
    {
      seen := map[];
      this.ownRepo := ownRepo;
    }

    method ParseRef(raw: Json, allowEmpty: bool) returns (r: Result<FileRef, Kind>)
      modifies this`seen
      ensures match ParseFileRef(raw, allowEmpty, ownRepo, old(seen))
              case Success((ref, after)) => r == Success(ref) && seen == after
              case Failure(kind) => r == Failure(kind) && seen == old(seen)
    {
      var read := ReadFileRef(raw, allowEmpty, ownRepo);
      if read.Failure? {
        return Failure(read.error);
      }
      var ref := read.value;
      var key := FileRefKey(ref);
      if key in seen {
        var previous := seen[key];
        if previous.size != ref.size || previous.sha256 != ref.sha256 {
          return Failure(Reference);
        }
        return Success(previous);
      }
      seen := seen[key := ref];
      r := Success(ref);
    }

    method ParsePartItems(items: seq<Json>) returns (r: Result<seq<FileRef>, Kind>)
      modifies this`seen
      ensures match ParseItems(items, |items|, PartParser(ownRepo), old(seen))
              case Success((parts, after)) => r == Success(parts) && seen == after
              case Failure(kind) => r == Failure(kind)
    {
      ghost var parse := PartParser(ownRepo);
      var parts := [];
      for n := 0 to |items|
        invariant ParseItems(items, n, parse, old(seen)) == Success((parts, seen))
      {
        NextItem(items, n, parse, old(seen), parts, seen);
        var part := ParseRef(items[n], n > 0);
        if part.Failure? || part.value.size > MAX_PART_BYTES {
          ItemFailureStays(items, n + 1, |items|, parse, old(seen));
          return Failure(if part.Failure? then part.error else Format);
        }
        parts := parts + [part.value];
      }
      r := Success(parts);
    }

    method ParseContainerParts(raw: Option<Json>) returns (r: Result<seq<FileRef>, Kind>)
      modifies this`seen
      ensures match ParseParts(raw, ownRepo, old(seen))
              case Success((parts, after)) => r == Success(parts) && seen == after
              case Failure(kind) => r == Failure(kind)
    {
      if raw.None? || !raw.value.JArr? || |raw.value.items| < 2 || |raw.value.items| > MAX_PARTS {
        return Failure(Format);
      }
      r := ParsePartItems(raw.value.items);
    }

    /** The loop of parseMap over the assets. */
    method ParseAssetFields(fields: Fields) returns (r: Result<JsMap.Map<string, FileRef>, Kind>)
      modifies this`seen
      ensures match ParseFields(fields, |fields|, FileRefParser(ownRepo), old(seen))
              case Success((assets, after)) => r == Success(assets) && seen == after
              case Failure(kind) => r == Failure(kind)
    {
      ghost var parse := FileRefParser(ownRepo);
      var assets := [];
      for n := 0 to |fields|
        invariant ParseFields(fields, n, parse, old(seen)) == Success((assets, seen))
      {
        NextField(fields, n, parse, old(seen), assets, seen);
        var ref := ParseRef(fields[n].1, false);
        if ref.Failure? {
          FieldFailureStays(fields, n + 1, |fields|, parse, old(seen));
          return Failure(ref.error);
        }
        assets := assets + [(fields[n].0, ref.value)];
      }
      r := Success(assets);
    }

    method ParseAssets(raw: Option<Json>) returns (r: Result<JsMap.Map<string, FileRef>, Kind>)
      modifies this`seen
      ensures match ParseMap(raw, MAX_ASSETS, true, FileRefParser(ownRepo), old(seen), Format)
              case Success((assets, after)) => r == Success(assets) && seen == after
              case Failure(kind) => r == Failure(kind)
    {
      if raw.None? || !raw.value.JObj? || |raw.value.fields| > MAX_ASSETS {
        return Failure(Format);
      }
      r := ParseAssetFields(raw.value.fields);
    }
  }

  /** The first loop, over the names written. */
  method ReadQuantEntries(fields: Fields, weights: Weights) returns (r: Result<JsMap.Map<string, string>, Kind>)
    ensures r == ParseQuantEntries(fields, |fields|, weights)
  {
    var mapping := [];
    for n := 0 to |fields|
      invariant ParseQuantEntries(fields, n, weights) == Success(mapping)
    {
      var name, dtype := fields[n].0, fields[n].1;
      var entry := JsMap.Get(weights, name);
      if entry.None? {
        MappingFailureStays(fields, n + 1, |fields|, weights);
        return Failure(Reference);
      }
      if !dtype.JStr? {
        MappingFailureStays(fields, n + 1, |fields|, weights);
        return Failure(Format);
      }
      if !JsMap.Has(entry.value, dtype.str) {
        MappingFailureStays(fields, n + 1, |fields|, weights);
        return Failure(Reference);
      }
      mapping := JsMap.Set(mapping, name, dtype.str);
    }
    r := Success(mapping);
  }

  /** A quant's mapping: every name written must exist, and every name that exists must be written. */
  method ReadQuantWeights(raw: Option<Json>, weights: Weights) returns (r: Result<JsMap.Map<string, string>, Kind>)
    ensures r == ParseQuantWeights(raw, weights)
  {
    if raw.None? || !raw.value.JObj? {
      return Failure(Format);
    }
    var mapping :- ReadQuantEntries(raw.value.fields, weights);
    for n := 0 to |weights|
      invariant forall i :: 0 <= i < n ==> JsMap.Has(mapping, weights[i].0)
    {
      if !JsMap.Has(mapping, weights[n].0) {
        return Failure(Reference);
      }
    }
    r := Success(mapping);
  }
}
