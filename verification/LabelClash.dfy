/** An accepted manifest in which two selections have one label (packages/hub/src/inventory.ts). */
module LabelClash {
  import opened Wrappers
  import opened FileRefs
  import opened ManifestParser
  import opened AcceptedManifests
  import opened ManifestText
  import opened ManifestRoundTrip
  import opened ManifestAcceptance
  import opened Resolve
  import opened Inventory
  import JsMap

  function Hash(): string { seq(64, _ => '0') }

  function DescriptorPart(): FileRef { FileRef("p", 26, Hash(), None, None) }

  function ConstPart(): FileRef { FileRef("q", 1, Hash(), None, None) }

  function Container(): ContainerRef {
    ContainerRef(Document(1, Hash()), Document(1, Hash()), [DescriptorPart(), ConstPart()])
  }

  function OneWeight(): Weights { [("w", [("f32", Container())])] }

  function OneQuant(): Quant { Quant([("w", "f32")], []) }

  function ModelWith(quant: string): ModelEntry {
    ModelEntry(PipelineId("x", 1), OneWeight(), [], [(quant, OneQuant())], quant, [],
               Labels(["a", "a/b"], [quant], [("w", ["f32"])]))
  }

  function Clashing(): Manifest {
    Manifest("g", "a", [("a", ModelWith("b/c")), ("a/b", ModelWith("c"))], Labels(["a", "a/b"], [], []))
  }

  function Refs(): Seen { map["p" := DescriptorPart(), "q" := ConstPart()] }

  lemma PathIsGood(path: string)
    requires |path| == 1 && IsLetter(path[0])
    ensures IsPath(path)
  {
    assert path[1..] == "";
    assert path == [path[0]] + "";
    assert Split(path, '/') == [path];
  }

  lemma ContainerIsGood(ownRepo: Option<string>)
    ensures Table(Refs(), ownRepo)
    ensures GoodContainer(Container(), ownRepo) && AllRecorded(Container().parts, Refs())
  {
    PathIsGood("p");
    PathIsGood("q");
    assert GoodRef(DescriptorPart(), ownRepo) && GoodRef(ConstPart(), ownRepo);
    assert GoodPart(Container().parts, 0, ownRepo) && GoodPart(Container().parts, 1, ownRepo);
    assert Recorded(Container().parts[0], Refs()) && Recorded(Container().parts[1], Refs());
  }

  lemma MappingIsComplete()
    ensures GoodMapping(OneQuant().weights, OneWeight())
  {
    forall name: string | true
      ensures JsMap.Has(OneQuant().weights, name) <==> name == "w"
      ensures JsMap.Has(OneWeight(), name) <==> name == "w"
    {
      JsMap.HasIff(OneQuant().weights, name);
      JsMap.HasIff(OneWeight(), name);
      assert OneQuant().weights[0].0 == "w" && OneWeight()[0].0 == "w";
    }
    JsMap.GetEntry(OneWeight(), 0);
    JsMap.GetEntry(OneQuant().weights, 0);
    JsMap.HasIff(OneWeight()[0].1, "f32");
    assert OneWeight()[0].1[0].0 == "f32";
  }

  lemma ModelIsGood(quant: string, ownRepo: Option<string>)
    ensures GoodModel(ModelWith(quant), ownRepo, Refs())
    ensures ExactLabels(ModelWith(quant), ["a", "a/b"])
  {
    var m := ModelWith(quant);
    ContainerIsGood(ownRepo);
    MappingIsComplete();
    assert GoodWeightEntry(m.weights[0].1, ownRepo, Refs());
    JsMap.HasIff(m.quants, quant);
    assert m.quants[0].0 == quant;
    assert Keys(m.quants) == [quant] && Keys(m.weights) == ["w"] && Keys(m.weights[0].1) == ["f32"];
    assert Keys(m.available.dtypes) == ["w"];
  }

  lemma ModelIsWritable(quant: string, env: Env)
    requires quant !in FORBIDDEN_KEYS
    requires env.settingsError([]).None? && env.configBytes([]) <= MAX_PIPELINE_CONFIG_BYTES
    ensures WritableModel(ModelWith(quant), env) && TidyModel(ModelWith(quant))
  {
    JsMap.HasIff<string, Json>([], "weights");
    assert GoodSettings(OneQuant().settings, env) && TidyQuant(OneQuant());
  }

  /** What a model needs to stand in an acceptable manifest with these model names. */
  ghost predicate Fits(m: ModelEntry, models: seq<string>, env: Env, seen: Seen) {
    && GoodModel(m, env.ownRepo, seen) && ExactLabels(m, models)
    && WritableModel(m, env) && TidyModel(m)
  }

  lemma FittingModelsAreAcceptable(m: Manifest, env: Env, seen: Seen)
    requires Table(seen, env.ownRepo) && m.generator != ""
    requires 1 <= |m.models| <= MAX_MODELS && AllowedNames(m.models) && JsMap.Has(m.models, m.defaultModel)
    requires m.available == Labels(Keys(m.models), [], [])
    requires forall i :: 0 <= i < |m.models| ==> Fits(m.models[i].1, Keys(m.models), env, seen)
    ensures Acceptable(m, env, seen)
  {
    forall i | 0 <= i < |m.models|
      ensures GoodModel(m.models[i].1, env.ownRepo, seen) && ExactLabels(m.models[i].1, Keys(m.models))
      ensures WritableModel(m.models[i].1, env) && TidyModel(m.models[i].1)
    {
      assert Fits(m.models[i].1, Keys(m.models), env, seen);
    }
  }

  lemma ModelFits(quant: string, env: Env)
    requires env.settingsError([]).None? && env.configBytes([]) <= MAX_PIPELINE_CONFIG_BYTES
    requires quant !in FORBIDDEN_KEYS
    ensures Fits(ModelWith(quant), ["a", "a/b"], env, Refs())
  {
    ModelIsGood(quant, env.ownRepo);
    ModelIsWritable(quant, env);
  }

  lemma ClashingIsAcceptable(env: Env)
    requires env.settingsError([]).None? && env.configBytes([]) <= MAX_PIPELINE_CONFIG_BYTES
    ensures Acceptable(Clashing(), env, Refs())
  {
    var m := Clashing();
    ContainerIsGood(env.ownRepo);
    ModelFits("b/c", env);
    ModelFits("c", env);
    assert Keys(m.models) == ["a", "a/b"];
    JsMap.HasIff(m.models, "a");
    assert m.models[0].0 == "a" && m.models[1].0 == "a/b";
    FittingModelsAreAcceptable(m, env, Refs());
  }

  lemma PairExists(m: Manifest, i: nat, model: string, quant: string)
    requires i < |m.models| && JsMap.Distinct(m.models) && m.models[i].0 == model
    requires |m.models[i].1.quants| == 1 && m.models[i].1.quants[0].0 == quant
    ensures Exists(m, Selection(model, quant))
  {
    JsMap.GetEntry(m.models, i);
    JsMap.HasIff(m.models, model);
    JsMap.HasIff(m.models[i].1.quants, quant);
  }

  lemma OneLabel()
    ensures LabelOf(Selection("a", "b/c")) == LabelOf(Selection("a/b", "c"))
  {
    assert "a/b" == "a" + "/" + "b" && "b/c" == "b" + "/" + "c";
    assert Shifted(Selection("a", "b/c"), Selection("a/b", "c"));
    ShiftedLabelsAreEqual(Selection("a", "b/c"), Selection("a/b", "c"));
  }

  /** A manifest that is accepted and declares two selections whose reports carry one name. */
  lemma AcceptedLabelsCanClash(env: Env)
    requires env.settingsError([]).None? && env.configBytes([]) <= MAX_PIPELINE_CONFIG_BYTES
    ensures ParseRepoManifest(EncodeManifest(Clashing()), env) == Success(Clashing())
    ensures var s1, s2 := Selection("a", "b/c"), Selection("a/b", "c");
            s1 != s2 && Exists(Clashing(), s1) && Exists(Clashing(), s2) && LabelOf(s1) == LabelOf(s2)
  {
    ClashingIsAcceptable(env);
    AcceptableIsAccepted(Clashing(), env, Refs());
    PairExists(Clashing(), 0, "a", "b/c");
    PairExists(Clashing(), 1, "a/b", "c");
    OneLabel();
  }
}
