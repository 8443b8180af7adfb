/** Every good manifest that can be written is accepted: written as JSON and parsed, it comes back as it was. */
module ManifestRoundTrip {
  import opened Wrappers
  import opened FileRefs
  import opened ManifestParser
  import opened AcceptedManifests
  import opened ManifestText
  import JsMap

  // ----- writing ------------------------------------------------------------------------------

  function EncodeDocument(d: Document): Json {
    JObj([("length", JNum(true, d.length as real)), ("sha256", JStr(d.sha256))])
  }

  function EncodeParts(parts: seq<FileRef>): (items: seq<Json>)
    ensures |items| == |parts| && forall i :: 0 <= i < |parts| ==> items[i] == EncodeRef(parts[i])
  {
    seq(|parts|, i requires 0 <= i < |parts| => EncodeRef(parts[i]))
  }

  function EncodeDescriptor(c: ContainerRef): Json {
    JObj([("graph", EncodeDocument(c.graph)), ("model", EncodeDocument(c.model))])
  }

  function EncodeContainer(c: ContainerRef): Json {
    JObj([("container", JObj([("descriptor", EncodeDescriptor(c)), ("parts", JArr(EncodeParts(c.parts)))]))])
  }

  function EncodeFields<T>(m: JsMap.Map<string, T>, encode: T -> Json): (fields: Fields)
    ensures |fields| == |m| && forall i :: 0 <= i < |m| ==> fields[i] == (m[i].0, encode(m[i].1))
  {
    seq(|m|, i requires 0 <= i < |m| => (m[i].0, encode(m[i].1)))
  }

  function EncodeEntry(entry: WeightEntry): Json { JObj(EncodeFields(entry, EncodeContainer)) }

  function EncodeLabel(dtype: string): Json { JStr(dtype) }

  function EncodeQuant(quant: Quant): Json {
    JObj([("weights", JObj(EncodeFields(quant.weights, EncodeLabel)))] + quant.settings)
  }

  function EncodePipeline(p: PipelineId): Json { JStr(p.name + "/" + Digits(p.major)) }

  function EncodeModel(m: ModelEntry): Json {
    JObj([("pipeline", EncodePipeline(m.pipeline)),
          ("weights", JObj(EncodeFields(m.weights, EncodeEntry))),
          ("assets", JObj(EncodeFields(m.assets, EncodeRef))),
          ("quants", JObj(EncodeFields(m.quants, EncodeQuant))),
          ("defaultQuant", JStr(m.defaultQuant)),
          ("pipelineConfig", JObj(m.pipelineConfig))])
  }

  function EncodeManifest(m: Manifest): Json {
    JObj([("format", JStr("karume/5")), ("generator", JStr(m.generator)), ("defaultModel", JStr(m.defaultModel)),
          ("models", JObj(EncodeFields(m.models, EncodeModel)))])
  }

  // ----- looking a written field up -----------------------------------------------------------

  lemma FieldAppend(fields: Fields, name: string, value: Json, wanted: string)
    ensures Field(fields + [(name, value)], wanted) == (if name == wanted then Some(value) else Field(fields, wanted))
  {
    var more := fields + [(name, value)];
    assert more[..|more| - 1] == fields;
  }

  lemma FieldOfEmpty(wanted: string)
    ensures Field([], wanted) == None
  {
  }

  lemma ThreeFields(f1: (string, Json), f2: (string, Json), f3: (string, Json), wanted: string)
    ensures Field([f1, f2, f3], wanted) ==
            (if wanted == f3.0 then Some(f3.1) else if wanted == f2.0 then Some(f2.1)
             else if wanted == f1.0 then Some(f1.1) else None)
  {
    FieldOfEmpty(wanted);
    FieldAppend([], f1.0, f1.1, wanted);
    FieldAppend([f1], f2.0, f2.1, wanted);
    FieldAppend([f1, f2], f3.0, f3.1, wanted);
    assert [] + [f1] == [f1] && [f1] + [f2] == [f1, f2] && [f1, f2] + [f3] == [f1, f2, f3];
  }

  /** An optional last field. */
  lemma MaybeField(fields: Fields, name: string, value: Option<string>, wanted: string)
    ensures Field(fields + (if value.Some? then [(name, JStr(value.value))] else []), wanted) ==
            (if wanted == name && value.Some? then Some(JStr(value.value)) else Field(fields, wanted))
  {
    if value.Some? {
      FieldAppend(fields, name, JStr(value.value), wanted);
    } else {
      assert fields + [] == fields;
    }
  }

  function BaseFields(ref: FileRef): Fields {
    [("path", JStr(ref.path)), ("size", JNum(true, ref.size as real)), ("sha256", JStr(ref.sha256))]
  }

  lemma RefField(ref: FileRef, wanted: string)
    ensures Field(EncodeRef(ref).fields, wanted) ==
            (if wanted == "revision" && ref.revision.Some? then Some(JStr(ref.revision.value))
             else if wanted == "repo" && ref.repo.Some? then Some(JStr(ref.repo.value))
             else Field(BaseFields(ref), wanted))
  {
    var withRepo: Fields := BaseFields(ref) + (if ref.repo.Some? then [("repo", JStr(ref.repo.value))] else []);
    MaybeField(BaseFields(ref), "repo", ref.repo, wanted);
    MaybeField(withRepo, "revision", ref.revision, wanted);
  }

  lemma RefSays(ref: FileRef)
    ensures Says(EncodeRef(ref), ref)
  {
    var base := BaseFields(ref);
    RefField(ref, "path");
    RefField(ref, "size");
    RefField(ref, "sha256");
    RefField(ref, "repo");
    RefField(ref, "revision");
    ThreeFields(base[0], base[1], base[2], "path");
    ThreeFields(base[0], base[1], base[2], "size");
    ThreeFields(base[0], base[1], base[2], "sha256");
    ThreeFields(base[0], base[1], base[2], "repo");
    ThreeFields(base[0], base[1], base[2], "revision");
  }

  lemma TwoFields(n1: string, v1: Json, n2: string, v2: Json)
    requires n1 != n2
    ensures Field([(n1, v1), (n2, v2)], n1) == Some(v1) && Field([(n1, v1), (n2, v2)], n2) == Some(v2)
  {
    forall wanted: string | true
      ensures Field([(n1, v1), (n2, v2)], wanted) == (if wanted == n2 then Some(v2) else if wanted == n1 then Some(v1) else None)
    {
      FieldOfEmpty(wanted);
      FieldAppend([], n1, v1, wanted);
      FieldAppend([(n1, v1)], n2, v2, wanted);
      assert [] + [(n1, v1)] == [(n1, v1)] && [(n1, v1)] + [(n2, v2)] == [(n1, v1), (n2, v2)];
    }
  }

  lemma OneField(name: string, value: Json)
    ensures Field([(name, value)], name) == Some(value)
  {
    FieldAppend([], name, value, name);
    assert [] + [(name, value)] == [(name, value)];
  }

  // ----- what is written says what was written ------------------------------------------------

  lemma RefWritten(ref: FileRef)
    ensures SaysRef(EncodeRef(ref), ref)
  {
    RefSays(ref);
  }

  lemma DocumentWritten(d: Document)
    ensures SaysDocument(EncodeDocument(d), d)
  {
    TwoFields("length", JNum(true, d.length as real), "sha256", JStr(d.sha256));
  }

  lemma PartsWritten(parts: seq<FileRef>)
    ensures SaysParts(JArr(EncodeParts(parts)), parts)
  {
    forall i | 0 <= i < |parts|
      ensures SaysRef(EncodeParts(parts)[i], parts[i])
    {
      RefWritten(parts[i]);
    }
  }

  lemma DescriptorWritten(c: ContainerRef)
    ensures SaysDescriptor(EncodeDescriptor(c), c)
  {
    TwoFields("graph", EncodeDocument(c.graph), "model", EncodeDocument(c.model));
    DocumentWritten(c.graph);
    DocumentWritten(c.model);
  }

  lemma ContainerWritten(c: ContainerRef)
    ensures SaysContainer(EncodeContainer(c), c)
  {
    var container := JObj([("descriptor", EncodeDescriptor(c)), ("parts", JArr(EncodeParts(c.parts)))]);
    OneField("container", container);
    TwoFields("descriptor", EncodeDescriptor(c), "parts", JArr(EncodeParts(c.parts)));
    DescriptorWritten(c);
    PartsWritten(c.parts);
  }

  lemma EntryWritten(entry: WeightEntry)
    ensures SaysEntry(EncodeEntry(entry), entry)
  {
    forall i | 0 <= i < |entry|
      ensures SaysContainer(EncodeEntry(entry).fields[i].1, entry[i].1)
    {
      ContainerWritten(entry[i].1);
    }
  }

  lemma WeightsWritten(weights: Weights)
    ensures SaysWeights(JObj(EncodeFields(weights, EncodeEntry)), weights)
  {
    forall i | 0 <= i < |weights|
      ensures SaysEntry(EncodeFields(weights, EncodeEntry)[i].1, weights[i].1)
    {
      EntryWritten(weights[i].1);
    }
  }

  lemma AssetsWritten(assets: JsMap.Map<string, FileRef>)
    ensures SaysAssets(JObj(EncodeFields(assets, EncodeRef)), assets)
  {
    forall i | 0 <= i < |assets|
      ensures SaysRef(EncodeFields(assets, EncodeRef)[i].1, assets[i].1)
    {
      RefWritten(assets[i].1);
    }
  }

  lemma QuantWritten(quant: Quant)
    requires OnlyKeys(quant.settings, QUANT_KEYS)
    ensures SaysQuant(EncodeQuant(quant), quant)
  {
    var fields := EncodeQuant(quant).fields;
    AllowedNamesAre(EncodeQuant(quant));
    forall i | 0 <= i < |fields|
      ensures fields[i].0 in QUANT_KEYS
    {
      if i > 0 {
        assert fields[i] == quant.settings[i - 1];
      }
    }
    assert fields[..0] + fields[0 + 1..] == quant.settings;
    assert MappingAt(fields, quant, 0);
  }

  lemma QuantsWritten(quants: JsMap.Map<string, Quant>)
    requires forall i :: 0 <= i < |quants| ==> OnlyKeys(quants[i].1.settings, QUANT_KEYS)
    ensures SaysQuants(JObj(EncodeFields(quants, EncodeQuant)), quants)
  {
    forall i | 0 <= i < |quants|
      ensures SaysQuant(EncodeFields(quants, EncodeQuant)[i].1, quants[i].1)
    {
      QuantWritten(quants[i].1);
    }
  }

  lemma SixFields(f1: (string, Json), f2: (string, Json), f3: (string, Json),
                  f4: (string, Json), f5: (string, Json), f6: (string, Json), wanted: string)
    ensures Field([f1, f2, f3, f4, f5, f6], wanted) ==
            (if wanted == f6.0 then Some(f6.1) else if wanted == f5.0 then Some(f5.1) else if wanted == f4.0 then Some(f4.1)
             else if wanted == f3.0 then Some(f3.1) else if wanted == f2.0 then Some(f2.1)
             else if wanted == f1.0 then Some(f1.1) else None)
  {
    ThreeFields(f1, f2, f3, wanted);
    FieldAppend([f1, f2, f3], f4.0, f4.1, wanted);
    FieldAppend([f1, f2, f3, f4], f5.0, f5.1, wanted);
    FieldAppend([f1, f2, f3, f4, f5], f6.0, f6.1, wanted);
    assert [f1, f2, f3] + [f4] == [f1, f2, f3, f4] && [f1, f2, f3, f4] + [f5] == [f1, f2, f3, f4, f5];
    assert [f1, f2, f3, f4, f5] + [f6] == [f1, f2, f3, f4, f5, f6];
  }

  lemma ModelWritten(m: ModelEntry)
    requires forall i :: 0 <= i < |m.quants| ==> OnlyKeys(m.quants[i].1.settings, QUANT_KEYS)
    ensures SaysModel(EncodeModel(m), m)
  {
    var pipeline := ("pipeline", EncodePipeline(m.pipeline));
    var weights := ("weights", JObj(EncodeFields(m.weights, EncodeEntry)));
    var assets := ("assets", JObj(EncodeFields(m.assets, EncodeRef)));
    var quants := ("quants", JObj(EncodeFields(m.quants, EncodeQuant)));
    var quant, config := ("defaultQuant", JStr(m.defaultQuant)), ("pipelineConfig", JObj(m.pipelineConfig));
    SixFields(pipeline, weights, assets, quants, quant, config, "pipeline");
    SixFields(pipeline, weights, assets, quants, quant, config, "weights");
    SixFields(pipeline, weights, assets, quants, quant, config, "assets");
    SixFields(pipeline, weights, assets, quants, quant, config, "quants");
    SixFields(pipeline, weights, assets, quants, quant, config, "defaultQuant");
    SixFields(pipeline, weights, assets, quants, quant, config, "pipelineConfig");
    WeightsWritten(m.weights);
    AssetsWritten(m.assets);
    QuantsWritten(m.quants);
  }

  lemma DistinctWritten<T>(m: JsMap.Map<string, T>, encode: T -> Json)
    requires JsMap.Distinct(m)
    ensures JsMap.Distinct(EncodeFields(m, encode))
  {
  }

  // ----- the manifest -------------------------------------------------------------------------

  /** A good manifest whose text has no forbidden key and no nesting beyond the limit. */
  ghost predicate Writable(m: Manifest, env: Env, all: Seen) {
    Passes(m, env, all) && NoForbiddenKeys(EncodeManifest(m), 0)
  }

  lemma ManifestFields(m: Manifest)
    ensures var fields := EncodeManifest(m).fields;
            && Field(fields, "format") == Some(JStr("karume/5"))
            && Field(fields, "generator") == Some(JStr(m.generator))
            && Field(fields, "defaultModel") == Some(JStr(m.defaultModel))
            && Field(fields, "models") == Some(JObj(EncodeFields(m.models, EncodeModel)))
            && OnlyKeys(fields, ENVELOPE_KEYS)
  {
    var format, generator := ("format", JStr("karume/5")), ("generator", JStr(m.generator));
    var model, models := ("defaultModel", JStr(m.defaultModel)), ("models", JObj(EncodeFields(m.models, EncodeModel)));
    forall wanted: string | true
      ensures Field(EncodeManifest(m).fields, wanted) ==
              (if wanted == "models" then Some(models.1) else if wanted == "defaultModel" then Some(model.1)
               else if wanted == "generator" then Some(generator.1) else if wanted == "format" then Some(format.1) else None)
    {
      ThreeFields(format, generator, model, wanted);
      FieldAppend([format, generator, model], models.0, models.1, wanted);
      assert [format, generator, model] + [models] == EncodeManifest(m).fields;
    }
  }

  /** The text written for a manifest says that manifest. */
  lemma ManifestWritten(m: Manifest, env: Env)
    requires forall i :: 0 <= i < |m.models| ==> WritableModel(m.models[i].1, env)
    ensures SaysManifest(EncodeManifest(m), m)
  {
    ManifestFields(m);
    AllowedNamesAre(EncodeManifest(m));
    forall i | 0 <= i < |m.models|
      ensures SaysModel(EncodeFields(m.models, EncodeModel)[i].1, m.models[i].1)
    {
      ModelWritten(m.models[i].1);
    }
  }

  /** Every writable manifest is accepted, and comes back as it was. */
  lemma WritableIsAccepted(m: Manifest, env: Env, all: Seen)
    requires Writable(m, env, all)
    ensures ParseRepoManifest(EncodeManifest(m), env) == Success(m)
  {
    ManifestWritten(m, env);
    TextIsAccepted(EncodeManifest(m), m, env, all);
  }
}
