/**
  Exactly which manifests parsing accepts: those it can return are the acceptable ones, and each of them
  comes back from its own text (packages/hub/src/manifest.ts).
 */
module ManifestAcceptance {
  import opened Wrappers
  import opened FileRefs
  import opened ManifestParser
  import opened AcceptedManifests
  import opened ManifestText
  import opened ManifestRoundTrip
  import JsMap

  // ----- forbidden keys and repeated keys -----------------------------------------------------

  /** A value JSON.parse can return at this depth of an accepted text. */
  ghost predicate Tidy(value: Json, depth: nat) {
    NoForbiddenKeys(value, depth) && OneValuePerKey(value)
  }

  ghost predicate TidyFields(fields: Fields, depth: nat) {
    && JsMap.Distinct(fields)
    && forall i :: 0 <= i < |fields| ==> fields[i].0 !in FORBIDDEN_KEYS && Tidy(fields[i].1, depth)
  }

  lemma TidyObject(fields: Fields, depth: nat)
    requires depth <= MAX_MANIFEST_DEPTH
    ensures Tidy(JObj(fields), depth) <==> TidyFields(fields, depth + 1)
  {
    var value := JObj(fields);
    if Tidy(value, depth) {
      forall i | 0 <= i < |fields|
        ensures fields[i].0 !in FORBIDDEN_KEYS && Tidy(fields[i].1, depth + 1)
      {
        assert NoForbiddenKeys(value.fields[i].1, depth + 1) && OneValuePerKey(value.fields[i].1);
      }
    }
  }

  lemma TidyAppend(fields: Fields, name: string, value: Json, depth: nat)
    requires TidyFields(fields, depth) && Tidy(value, depth) && name !in FORBIDDEN_KEYS
    requires forall i :: 0 <= i < |fields| ==> fields[i].0 != name
    ensures TidyFields(fields + [(name, value)], depth)
  {
  }

  lemma TidyOne(name: string, value: Json, depth: nat)
    requires Tidy(value, depth) && name !in FORBIDDEN_KEYS
    ensures TidyFields([(name, value)], depth)
  {
  }

  lemma TidyText(s: string, depth: nat)
    requires depth <= MAX_MANIFEST_DEPTH
    ensures Tidy(JStr(s), depth)
  {
  }

  lemma TidyNumber(n: nat, depth: nat)
    requires depth <= MAX_MANIFEST_DEPTH
    ensures Tidy(JNum(true, n as real), depth)
  {
  }

  ghost predicate AllowedNames<T>(m: JsMap.Map<string, T>) {
    JsMap.Distinct(m) && forall i :: 0 <= i < |m| ==> m[i].0 !in FORBIDDEN_KEYS
  }

  lemma TidyWritten<T>(m: JsMap.Map<string, T>, encode: T -> Json, depth: nat)
    requires AllowedNames(m) && depth < MAX_MANIFEST_DEPTH
    requires forall i :: 0 <= i < |m| ==> Tidy(encode(m[i].1), depth + 1)
    ensures Tidy(JObj(EncodeFields(m, encode)), depth)
  {
    DistinctWritten(m, encode);
    TidyObject(EncodeFields(m, encode), depth);
  }

  // ----- a written manifest is tidy -----------------------------------------------------------

  lemma BaseTidy(ref: FileRef, depth: nat)
    requires depth <= MAX_MANIFEST_DEPTH
    ensures TidyFields(BaseFields(ref), depth)
    ensures forall i :: 0 <= i < |BaseFields(ref)| ==> BaseFields(ref)[i].0 != "repo" && BaseFields(ref)[i].0 != "revision"
  {
    var path, size := ("path", JStr(ref.path)), ("size", JNum(true, ref.size as real));
    var hash := ("sha256", JStr(ref.sha256));
    TidyText(ref.path, depth);
    TidyNumber(ref.size, depth);
    TidyText(ref.sha256, depth);
    TidyOne(path.0, path.1, depth);
    TidyAppend([path], size.0, size.1, depth);
    TidyAppend([path, size], hash.0, hash.1, depth);
    assert [path] + [size] == [path, size] && [path, size] + [hash] == BaseFields(ref);
  }

  /** An optional last field. */
  lemma TidyMaybe(fields: Fields, name: string, value: Option<string>, depth: nat)
    requires TidyFields(fields, depth) && depth <= MAX_MANIFEST_DEPTH && name !in FORBIDDEN_KEYS
    requires forall i :: 0 <= i < |fields| ==> fields[i].0 != name
    ensures TidyFields(fields + (if value.Some? then [(name, JStr(value.value))] else []), depth)
  {
    if value.Some? {
      TidyText(value.value, depth);
      TidyAppend(fields, name, JStr(value.value), depth);
    } else {
      assert fields + [] == fields;
    }
  }

  lemma RefTidy(ref: FileRef, depth: nat)
    requires depth < MAX_MANIFEST_DEPTH
    ensures Tidy(EncodeRef(ref), depth)
  {
    BaseTidy(ref, depth + 1);
    TidyMaybe(BaseFields(ref), "repo", ref.repo, depth + 1);
    var withRepo: Fields := BaseFields(ref) + (if ref.repo.Some? then [("repo", JStr(ref.repo.value))] else []);
    TidyMaybe(withRepo, "revision", ref.revision, depth + 1);
    TidyObject(EncodeRef(ref).fields, depth);
  }

  lemma TidyPair(n1: string, v1: Json, n2: string, v2: Json, depth: nat)
    requires depth < MAX_MANIFEST_DEPTH && Tidy(v1, depth + 1) && Tidy(v2, depth + 1)
    requires n1 != n2 && n1 !in FORBIDDEN_KEYS && n2 !in FORBIDDEN_KEYS
    ensures Tidy(JObj([(n1, v1), (n2, v2)]), depth)
  {
    TidyOne(n1, v1, depth + 1);
    TidyAppend([(n1, v1)], n2, v2, depth + 1);
    assert [(n1, v1)] + [(n2, v2)] == [(n1, v1), (n2, v2)];
    TidyObject([(n1, v1), (n2, v2)], depth);
  }

  lemma DocumentTidy(d: Document, depth: nat)
    requires depth < MAX_MANIFEST_DEPTH
    ensures Tidy(EncodeDocument(d), depth)
  {
    TidyNumber(d.length, depth + 1);
    TidyText(d.sha256, depth + 1);
    TidyPair("length", JNum(true, d.length as real), "sha256", JStr(d.sha256), depth);
  }

  lemma PartsTidy(parts: seq<FileRef>, depth: nat)
    requires depth + 1 < MAX_MANIFEST_DEPTH
    ensures Tidy(JArr(EncodeParts(parts)), depth)
  {
    forall i | 0 <= i < |parts|
      ensures Tidy(EncodeParts(parts)[i], depth + 1)
    {
      RefTidy(parts[i], depth + 1);
    }
  }

  lemma ContainerTidy(c: ContainerRef, depth: nat)
    requires depth + 4 < MAX_MANIFEST_DEPTH
    ensures Tidy(EncodeContainer(c), depth)
  {
    DocumentTidy(c.graph, depth + 3);
    DocumentTidy(c.model, depth + 3);
    TidyPair("graph", EncodeDocument(c.graph), "model", EncodeDocument(c.model), depth + 2);
    PartsTidy(c.parts, depth + 2);
    TidyPair("descriptor", EncodeDescriptor(c), "parts", JArr(EncodeParts(c.parts)), depth + 1);
    var container := JObj([("descriptor", EncodeDescriptor(c)), ("parts", JArr(EncodeParts(c.parts)))]);
    TidyOne("container", container, depth + 1);
    TidyObject([("container", container)], depth);
  }

  lemma EntryTidy(entry: WeightEntry, depth: nat)
    requires depth + 5 < MAX_MANIFEST_DEPTH && AllowedNames(entry)
    ensures Tidy(EncodeEntry(entry), depth)
  {
    forall i | 0 <= i < |entry|
      ensures Tidy(EncodeContainer(entry[i].1), depth + 1)
    {
      ContainerTidy(entry[i].1, depth + 1);
    }
    TidyWritten(entry, EncodeContainer, depth);
  }

  /** The settings of a quant, at their depth below the root. */
  ghost predicate TidyQuant(quant: Quant) {
    AllowedNames(quant.weights) && TidyFields(quant.settings, 5) && !JsMap.Has(quant.settings, "weights")
  }

  lemma QuantTidy(quant: Quant)
    requires TidyQuant(quant)
    ensures Tidy(EncodeQuant(quant), 4)
  {
    var mapping := ("weights", JObj(EncodeFields(quant.weights, EncodeLabel)));
    forall i | 0 <= i < |quant.weights|
      ensures Tidy(EncodeLabel(quant.weights[i].1), 6)
    {
      TidyText(quant.weights[i].1, 6);
    }
    TidyWritten(quant.weights, EncodeLabel, 5);
    var fields := [mapping] + quant.settings;
    JsMap.HasIff(quant.settings, "weights");
    forall i | 0 <= i < |fields|
      ensures fields[i].0 !in FORBIDDEN_KEYS && Tidy(fields[i].1, 5) && (i > 0 ==> fields[i].0 != "weights")
    {
      assert i > 0 ==> fields[i] == quant.settings[i - 1];
    }
    forall i, j | 0 <= i < j < |fields|
      ensures fields[i].0 != fields[j].0
    {
      assert fields[j] == quant.settings[j - 1];
      assert i > 0 ==> fields[i] == quant.settings[i - 1];
    }
    TidyObject(fields, 4);
  }

  ghost predicate TidyModel(m: ModelEntry) {
    && AllowedNames(m.weights) && AllowedNames(m.assets) && AllowedNames(m.quants)
    && (forall i :: 0 <= i < |m.weights| ==> AllowedNames(m.weights[i].1))
    && (forall i :: 0 <= i < |m.quants| ==> TidyQuant(m.quants[i].1))
    && TidyFields(m.pipelineConfig, 4)
  }

  lemma WeightsTidy(m: ModelEntry)
    requires TidyModel(m)
    ensures Tidy(JObj(EncodeFields(m.weights, EncodeEntry)), 3)
  {
    forall i | 0 <= i < |m.weights|
      ensures Tidy(EncodeEntry(m.weights[i].1), 4)
    {
      EntryTidy(m.weights[i].1, 4);
    }
    TidyWritten(m.weights, EncodeEntry, 3);
  }

  lemma AssetsTidy(m: ModelEntry)
    requires TidyModel(m)
    ensures Tidy(JObj(EncodeFields(m.assets, EncodeRef)), 3)
  {
    forall i | 0 <= i < |m.assets|
      ensures Tidy(EncodeRef(m.assets[i].1), 4)
    {
      RefTidy(m.assets[i].1, 4);
    }
    TidyWritten(m.assets, EncodeRef, 3);
  }

  lemma QuantsTidy(m: ModelEntry)
    requires TidyModel(m)
    ensures Tidy(JObj(EncodeFields(m.quants, EncodeQuant)), 3)
  {
    forall i | 0 <= i < |m.quants|
      ensures Tidy(EncodeQuant(m.quants[i].1), 4)
    {
      QuantTidy(m.quants[i].1);
    }
    TidyWritten(m.quants, EncodeQuant, 3);
  }

  lemma ModelTidy(m: ModelEntry)
    requires TidyModel(m)
    ensures Tidy(EncodeModel(m), 2)
  {
    WeightsTidy(m);
    AssetsTidy(m);
    QuantsTidy(m);
    TidyText(m.pipeline.name + "/" + Digits(m.pipeline.major), 3);
    TidyText(m.defaultQuant, 3);
    TidyObject(m.pipelineConfig, 3);
    var pipeline := ("pipeline", EncodePipeline(m.pipeline));
    var weights := ("weights", JObj(EncodeFields(m.weights, EncodeEntry)));
    var assets := ("assets", JObj(EncodeFields(m.assets, EncodeRef)));
    var quants := ("quants", JObj(EncodeFields(m.quants, EncodeQuant)));
    var quant, config := ("defaultQuant", JStr(m.defaultQuant)), ("pipelineConfig", JObj(m.pipelineConfig));
    SixTidy(pipeline, weights, assets, quants, quant, config);
    TidyObject(EncodeModel(m).fields, 2);
  }

  lemma SixTidy(f1: (string, Json), f2: (string, Json), f3: (string, Json),
                f4: (string, Json), f5: (string, Json), f6: (string, Json))
    requires Tidy(f1.1, 3) && Tidy(f2.1, 3) && Tidy(f3.1, 3) && Tidy(f4.1, 3) && Tidy(f5.1, 3) && Tidy(f6.1, 3)
    requires [f1.0, f2.0, f3.0, f4.0, f5.0, f6.0] == MODEL_KEYS
    ensures TidyFields([f1, f2, f3, f4, f5, f6], 3)
  {
    TidyOne(f1.0, f1.1, 3);
    TidyAppend([f1], f2.0, f2.1, 3);
    TidyAppend([f1, f2], f3.0, f3.1, 3);
    TidyAppend([f1, f2, f3], f4.0, f4.1, 3);
    TidyAppend([f1, f2, f3, f4], f5.0, f5.1, 3);
    TidyAppend([f1, f2, f3, f4, f5], f6.0, f6.1, 3);
    assert [f1] + [f2] == [f1, f2] && [f1, f2] + [f3] == [f1, f2, f3] && [f1, f2, f3] + [f4] == [f1, f2, f3, f4];
    assert [f1, f2, f3, f4] + [f5] == [f1, f2, f3, f4, f5] && [f1, f2, f3, f4, f5] + [f6] == [f1, f2, f3, f4, f5, f6];
  }

  // ----- acceptable manifests -----------------------------------------------------------------

  /**
    Every check, on the manifest itself: it is good, its generator is named, its pipelines, settings and
    configurations pass, and no table has a forbidden name or a configuration too deep.
   */
  ghost predicate Acceptable(m: Manifest, env: Env, seen: Seen) {
    && GoodManifest(m, env.ownRepo, seen)
    && m.generator != ""
    && AllowedNames(m.models)
    && forall i :: 0 <= i < |m.models| ==> WritableModel(m.models[i].1, env) && TidyModel(m.models[i].1)
  }

  lemma ModelsTidy(models: JsMap.Map<string, ModelEntry>)
    requires AllowedNames(models) && forall i :: 0 <= i < |models| ==> TidyModel(models[i].1)
    ensures Tidy(JObj(EncodeFields(models, EncodeModel)), 1)
  {
    forall i | 0 <= i < |models|
      ensures Tidy(EncodeModel(models[i].1), 2)
    {
      ModelTidy(models[i].1);
    }
    TidyWritten(models, EncodeModel, 1);
  }

  lemma EnvelopeTidy(m: Manifest, models: Json)
    requires Tidy(models, 1) && models == JObj(EncodeFields(m.models, EncodeModel))
    ensures Tidy(EncodeManifest(m), 0)
  {
    TidyText("karume/5", 1);
    TidyText(m.generator, 1);
    TidyText(m.defaultModel, 1);
    FourTidy(("format", JStr("karume/5")), ("generator", JStr(m.generator)), ("defaultModel", JStr(m.defaultModel)),
             ("models", models));
    TidyObject(EncodeManifest(m).fields, 0);
  }

  lemma ManifestTidy(m: Manifest, env: Env, seen: Seen)
    requires Acceptable(m, env, seen)
    ensures Tidy(EncodeManifest(m), 0)
  {
    ModelsTidy(m.models);
    EnvelopeTidy(m, JObj(EncodeFields(m.models, EncodeModel)));
  }

  lemma FourTidy(f1: (string, Json), f2: (string, Json), f3: (string, Json), f4: (string, Json))
    requires Tidy(f1.1, 1) && Tidy(f2.1, 1) && Tidy(f3.1, 1) && Tidy(f4.1, 1)
    requires [f1.0, f2.0, f3.0, f4.0] == ENVELOPE_KEYS
    ensures TidyFields([f1, f2, f3, f4], 1)
  {
    TidyOne(f1.0, f1.1, 1);
    TidyAppend([f1], f2.0, f2.1, 1);
    TidyAppend([f1, f2], f3.0, f3.1, 1);
    TidyAppend([f1, f2, f3], f4.0, f4.1, 1);
    assert [f1] + [f2] == [f1, f2] && [f1, f2] + [f3] == [f1, f2, f3] && [f1, f2, f3] + [f4] == [f1, f2, f3, f4];
  }

  /** Every acceptable manifest is accepted from its own text, and comes back as it was. */
  lemma AcceptableIsAccepted(m: Manifest, env: Env, seen: Seen)
    requires Acceptable(m, env, seen)
    ensures Tidy(EncodeManifest(m), 0) && ParseRepoManifest(EncodeManifest(m), env) == Success(m)
  {
    ManifestTidy(m, env, seen);
    WritableIsAccepted(m, env, seen);
  }

  // ----- accepted manifests are acceptable ----------------------------------------------------

  lemma TidyField(value: Json, name: string, depth: nat)
    requires value.JObj? && Tidy(value, depth) && Field(value.fields, name).Some?
    ensures Tidy(Field(value.fields, name).value, depth + 1)
  {
    if depth <= MAX_MANIFEST_DEPTH {
      TidyObject(value.fields, depth);
    }
    var i := JsMap.IndexOf(value.fields, name);
    assert Tidy(value.fields[i].1, depth + 1);
  }

  /** Entry i of a table was read from entry i of its object. */
  lemma {:induction false} EntryRead<T, E>(
    fields: Fields, n: nat, parse: (string, Json, Seen) -> Result<(T, Seen), E>, seen: Seen, i: nat) returns (at: Seen)
    requires i < n <= |fields| && ParseFields(fields, n, parse, seen).Success?
    ensures var parsed := ParseFields(fields, n, parse, seen).value.0;
            && |parsed| == n && parsed[i].0 == fields[i].0
            && parse(fields[i].0, fields[i].1, at).Success?
            && parse(fields[i].0, fields[i].1, at).value.0 == parsed[i].1
  {
    var before := ParseFields(fields, n - 1, parse, seen).value;
    FieldsRead(fields, n, parse, seen);
    FieldsRead(fields, n - 1, parse, seen);
    if i == n - 1 {
      at := before.1;
    } else {
      at := EntryRead(fields, n - 1, parse, seen, i);
    }
  }

  lemma {:induction false} FieldsRead<T, E>(
    fields: Fields, n: nat, parse: (string, Json, Seen) -> Result<(T, Seen), E>, seen: Seen)
    requires n <= |fields| && ParseFields(fields, n, parse, seen).Success?
    ensures var parsed := ParseFields(fields, n, parse, seen).value.0;
            |parsed| == n && forall i :: 0 <= i < n ==> parsed[i].0 == fields[i].0
  {
    if n > 0 {
      FieldsRead(fields, n - 1, parse, seen);
    }
  }

  lemma NamesAllowed<T, E>(raw: Json, depth: nat, parse: (string, Json, Seen) -> Result<(T, Seen), E>, seen: Seen)
    requires raw.JObj? && Tidy(raw, depth) && ParseFields(raw.fields, |raw.fields|, parse, seen).Success?
    ensures AllowedNames(ParseFields(raw.fields, |raw.fields|, parse, seen).value.0)
  {
    TidyObject(raw.fields, depth);
    FieldsRead(raw.fields, |raw.fields|, parse, seen);
  }

  /** Without one name: the other fields, which stay tidy. */
  lemma {:induction false} WithoutKeeps(fields: Fields, name: string, n: nat)
    requires n == |fields|
    ensures forall f :: f in Without(fields, name) <==> f in fields && f.0 != name
    ensures JsMap.Distinct(fields) ==> JsMap.Distinct(Without(fields, name))
  {
    if fields != [] {
      var before, last := fields[..n - 1], fields[n - 1];
      WithoutKeeps(before, name, n - 1);
      assert fields == before + [last];
      if JsMap.Distinct(fields) {
        assert forall i, j :: 0 <= i < j < n - 1 ==> before[i].0 != before[j].0;
        forall i | 0 <= i < |Without(before, name)|
          ensures Without(before, name)[i].0 != last.0
        {
          assert Without(before, name)[i] in Without(before, name);
          var k :| 0 <= k < n - 1 && before[k] == Without(before, name)[i];
          assert fields[k].0 != fields[n - 1].0;
        }
      }
    }
  }

  lemma ReadSettingsAreTidy(raw: Json)
    requires raw.JObj? && Tidy(raw, 4) && OnlyKeys(raw.fields, QUANT_KEYS)
    ensures var settings := Without(raw.fields, "weights");
            TidyFields(settings, 5) && OnlyKeys(settings, QUANT_KEYS) && !JsMap.Has(settings, "weights")
  {
    var settings := Without(raw.fields, "weights");
    TidyObject(raw.fields, 4);
    WithoutKeeps(raw.fields, "weights", |raw.fields|);
    forall i | 0 <= i < |settings|
      ensures settings[i].0 in QUANT_KEYS && settings[i].0 != "weights"
      ensures settings[i].0 !in FORBIDDEN_KEYS && Tidy(settings[i].1, 5)
    {
      assert settings[i] in settings;
      var k :| 0 <= k < |raw.fields| && raw.fields[k] == settings[i];
    }
    JsMap.HasIff(settings, "weights");
  }

  lemma ReadMappingIsAllowed(raw: Option<Json>, weights: Weights)
    requires raw.Some? ==> Tidy(raw.value, 5)
    requires ParseQuantWeights(raw, weights).Success?
    ensures AllowedNames(ParseQuantWeights(raw, weights).value)
  {
    var fields, mapping := raw.value.fields, ParseQuantWeights(raw, weights).value;
    TidyObject(fields, 5);
    MappingIsGood(raw, weights);
    MappingEntries(fields, |fields|, weights);
    forall i | 0 <= i < |mapping|
      ensures mapping[i].0 !in FORBIDDEN_KEYS
    {
      assert MappingEntry(mapping, fields, weights, i);
    }
  }

  lemma ReadQuantIsTidy(raw: Json, weights: Weights, env: Env)
    requires Tidy(raw, 4) && ParseQuant(raw, weights, env).Success?
    ensures var quant := ParseQuant(raw, weights, env).value;
            GoodSettings(quant.settings, env) && TidyQuant(quant)
  {
    ReadSettingsAreTidy(raw);
    if Field(raw.fields, "weights").Some? {
      TidyField(raw, "weights", 4);
    }
    ReadMappingIsAllowed(Field(raw.fields, "weights"), weights);
  }

  lemma ReadQuantsAreTidy(raw: Json, weights: Weights, env: Env, seen: Seen)
    requires raw.JObj? && Tidy(raw, 3)
    requires ParseFields(raw.fields, |raw.fields|, QuantParser(weights, env), seen).Success?
    ensures var quants := ParseFields(raw.fields, |raw.fields|, QuantParser(weights, env), seen).value.0;
            && AllowedNames(quants)
            && forall i :: 0 <= i < |quants| ==> GoodSettings(quants[i].1.settings, env) && TidyQuant(quants[i].1)
  {
    var parse := QuantParser(weights, env);
    NamesAllowed(raw, 3, parse, seen);
    TidyObject(raw.fields, 3);
    FieldsRead(raw.fields, |raw.fields|, parse, seen);
    var quants := ParseFields(raw.fields, |raw.fields|, parse, seen).value.0;
    forall i | 0 <= i < |quants|
      ensures GoodSettings(quants[i].1.settings, env) && TidyQuant(quants[i].1)
    {
      var at := EntryRead(raw.fields, |raw.fields|, parse, seen, i);
      ReadQuantIsTidy(raw.fields[i].1, weights, env);
    }
  }

  lemma ReadWeightsAreAllowed(raw: Json, env: Env, seen: Seen)
    requires raw.JObj? && Tidy(raw, 3)
    requires ParseFields(raw.fields, |raw.fields|, WeightEntryParser(env), seen).Success?
    ensures var weights := ParseFields(raw.fields, |raw.fields|, WeightEntryParser(env), seen).value.0;
            AllowedNames(weights) && forall i :: 0 <= i < |weights| ==> AllowedNames(weights[i].1)
  {
    var parse := WeightEntryParser(env);
    NamesAllowed(raw, 3, parse, seen);
    TidyObject(raw.fields, 3);
    FieldsRead(raw.fields, |raw.fields|, parse, seen);
    var weights := ParseFields(raw.fields, |raw.fields|, parse, seen).value.0;
    forall i | 0 <= i < |weights|
      ensures AllowedNames(weights[i].1)
    {
      var at := EntryRead(raw.fields, |raw.fields|, parse, seen, i);
      NamesAllowed(raw.fields[i].1, 4, ContainerParser(env.ownRepo), at);
    }
  }

  lemma ReadTablesAreTidy(m: ModelEntry, raw: Json, env: Env, seen: Seen, atWeights: Seen, after: Seen)
    requires raw.JObj? && Tidy(raw, 2) && TablesParsed(m, raw.fields, env, seen, atWeights, after)
    ensures AllowedNames(m.weights) && AllowedNames(m.assets) && AllowedNames(m.quants)
    ensures forall i :: 0 <= i < |m.weights| ==> AllowedNames(m.weights[i].1)
    ensures forall i :: 0 <= i < |m.quants| ==> GoodSettings(m.quants[i].1.settings, env) && TidyQuant(m.quants[i].1)
  {
    TidyField(raw, "weights", 2);
    TidyField(raw, "assets", 2);
    TidyField(raw, "quants", 2);
    ReadWeightsAreAllowed(Field(raw.fields, "weights").value, env, seen);
    NamesAllowed(Field(raw.fields, "assets").value, 3, FileRefParser(env.ownRepo), atWeights);
    ReadQuantsAreTidy(Field(raw.fields, "quants").value, m.weights, env, after);
  }

  lemma ReadModelIsWritable(raw: Json, available: Labels, env: Env, seen: Seen)
    requires raw.JObj? && Tidy(raw, 2) && ParseModelFields(raw.fields, available, env, seen).Success?
    ensures var m := ParseModelFields(raw.fields, available, env, seen).value.0;
            WritableModel(m, env) && TidyModel(m)
  {
    var (m, after) := ParseModelFields(raw.fields, available, env, seen).value;
    var atWeights := ModelFieldsParsed(raw.fields, available, env, seen);
    ReadTablesAreTidy(m, raw, env, seen, atWeights, after);
    PipelineSaid(Field(raw.fields, "pipeline"));
    TidyField(raw, "pipelineConfig", 2);
    TidyObject(m.pipelineConfig, 3);
  }

  lemma ReadModelsAreWritable(root: Fields, models: Json, env: Env)
    requires models.JObj? && Tidy(models, 1)
    requires ParseFields(models.fields, |models.fields|, ModelParser(root, env), map[]).Success?
    ensures var parsed := ParseFields(models.fields, |models.fields|, ModelParser(root, env), map[]).value.0;
            && AllowedNames(parsed)
            && forall i :: 0 <= i < |parsed| ==> WritableModel(parsed[i].1, env) && TidyModel(parsed[i].1)
  {
    var parse := ModelParser(root, env);
    NamesAllowed(models, 1, parse, map[]);
    TidyObject(models.fields, 1);
    FieldsRead(models.fields, |models.fields|, parse, map[]);
    var parsed := ParseFields(models.fields, |models.fields|, parse, map[]).value.0;
    forall i | 0 <= i < |parsed|
      ensures WritableModel(parsed[i].1, env) && TidyModel(parsed[i].1)
    {
      var at := EntryRead(models.fields, |models.fields|, parse, map[], i);
      ModelWasRead(root, models.fields[i].0, models.fields[i].1, env, at);
    }
  }

  lemma ModelWasRead(root: Fields, name: string, raw: Json, env: Env, seen: Seen)
    requires Tidy(raw, 2) && ParseModel(root, name, raw, env, seen).Success?
    ensures var m := ParseModel(root, name, raw, env, seen).value.0; WritableModel(m, env) && TidyModel(m)
  {
    ReadModelIsWritable(raw, SurveyLabels(root, Some(name)).available, env, seen);
  }

  /** Whatever parsing returns is acceptable. */
  lemma AcceptedIsAcceptable(root: Json, env: Env) returns (seen: Seen)
    requires OneValuePerKey(root) && ParseRepoManifest(root, env).Success?
    ensures Acceptable(ParseRepoManifest(root, env).value, env, seen)
  {
    seen := AcceptedIsGood(root, env);
    TidyField(root, "models", 0);
    ReadModelsAreWritable(root.fields, Field(root.fields, "models").value, env);
  }

  // ----- exactly which texts are accepted -----------------------------------------------------

  ghost predicate PassesChecks(m: Manifest, env: Env) {
    exists seen: Seen :: Passes(m, env, seen)
  }

  /**
    A text is accepted as a manifest exactly when no path in it is too deep or goes by a forbidden name, its
    format is the one version, every level holds its allowed names only and says the manifest field by field,
    and the manifest passes the checks on its references, containers, mappings, defaults and settings.
   */
  lemma AcceptsIff(root: Json, m: Manifest, env: Env)
    requires OneValuePerKey(root)
    ensures ParseRepoManifest(root, env) == Success(m) <==>
            WellFormed(root, 0) && SaysManifest(root, m) && PassesChecks(m, env)
  {
    WellFormedIff(root, 0);
    if ParseRepoManifest(root, env) == Success(m) {
      AcceptedSays(root, env);
      var seen := AcceptedIsAcceptable(root, env);
      assert Passes(m, env, seen);
    }
    if WellFormed(root, 0) && SaysManifest(root, m) && PassesChecks(m, env) {
      var seen: Seen :| Passes(m, env, seen);
      TextIsAccepted(root, m, env, seen);
    }
  }

  // ----- exactly the acceptable manifests -----------------------------------------------------

  ghost predicate Returned(m: Manifest, env: Env) {
    exists root: Json :: OneValuePerKey(root) && ParseRepoManifest(root, env) == Success(m)
  }

  ghost predicate IsAcceptable(m: Manifest, env: Env) {
    exists seen: Seen :: Acceptable(m, env, seen)
  }

  /** The manifests parsing can return are exactly the acceptable ones. */
  lemma ReturnsExactlyTheAcceptable(m: Manifest, env: Env)
    ensures Returned(m, env) <==> IsAcceptable(m, env)
  {
    if Returned(m, env) {
      var root: Json :| OneValuePerKey(root) && ParseRepoManifest(root, env) == Success(m);
      var seen := AcceptedIsAcceptable(root, env);
      assert Acceptable(m, env, seen);
    }
    if IsAcceptable(m, env) {
      var seen: Seen :| Acceptable(m, env, seen);
      AcceptableIsAccepted(m, env, seen);
      assert OneValuePerKey(EncodeManifest(m));
    }
  }

  /** An accepted manifest, written down again, is parsed to itself. */
  lemma ParsedReadsBack(root: Json, env: Env)
    requires OneValuePerKey(root) && ParseRepoManifest(root, env).Success?
    ensures ParseRepoManifest(EncodeManifest(ParseRepoManifest(root, env).value), env) == ParseRepoManifest(root, env)
  {
    var seen := AcceptedIsAcceptable(root, env);
    AcceptableIsAccepted(ParseRepoManifest(root, env).value, env, seen);
  }
}
