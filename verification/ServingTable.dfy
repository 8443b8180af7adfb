/**
  The table of the playground's HF-compatible route: which repo is served at which revision, from which
  directory, and which other revisions are aliases of it (apps/playground/vite-plugin-distributions.ts).
 */
module ServingTable {
  import opened Wrappers
  import opened FileRefs
  import opened ManifestParser
  import opened AcceptedManifests
  import JsMap

  /**
    `root` is the real path of a directory that holds a manifest; `revision` and `refs` come from that
    manifest.
   */
  datatype Mount = Mount(
    hfRepo: Option<string>,
    root: Option<string>,
    basename: string,
    aliasReferencedRevisions: bool,
    revision: string,
    refs: seq<FileRef>
  )

  datatype Alias = Alias(files: set<string>, referencedBy: set<string>)

  /** `own`: served under the mount's own repo name. */
  datatype Served = Served(revision: string, mount: nat, root: string, own: bool, aliases: map<string, Alias>)

  datatype Table = Table(repos: map<string, Served>, unserved: set<CrossRef>)

  datatype Referral = Referral(referrer: string, ref: FileRef)

  datatype Conflict = TwoClaims | TwoRevisions | DifferentFile

  // ----- every reference of a manifest --------------------------------------------------------

  function EntryRefs(entry: WeightEntry, n: nat): seq<FileRef>
    requires n <= |entry|
  {
    if n == 0 then [] else EntryRefs(entry, n - 1) + entry[n - 1].1.parts
  }

  function WeightRefs(weights: Weights, n: nat): seq<FileRef>
    requires n <= |weights|
  {
    if n == 0 then [] else WeightRefs(weights, n - 1) + EntryRefs(weights[n - 1].1, |weights[n - 1].1|)
  }

  function ModelRefs(models: JsMap.Map<string, ModelEntry>, n: nat): seq<FileRef>
    requires n <= |models|
  {
    if n == 0 then []
    else
      var m := models[n - 1].1;
      ModelRefs(models, n - 1) + (WeightRefs(m.weights, |m.weights|) + Values(m.assets))
  }

  function AllFileRefs(m: Manifest): seq<FileRef> {
    ModelRefs(m.models, |m.models|)
  }

  lemma {:induction false} EntryRefsAre(entry: WeightEntry, n: nat, ref: FileRef)
    requires n <= |entry|
    ensures ref in EntryRefs(entry, n) <==> exists j :: 0 <= j < n && ref in entry[j].1.parts
  {
    if n > 0 {
      EntryRefsAre(entry, n - 1, ref);
    }
  }

  lemma {:induction false} WeightRefsAre(weights: Weights, n: nat, ref: FileRef)
    requires n <= |weights|
    ensures ref in WeightRefs(weights, n) <==>
            exists i, j :: 0 <= i < n && 0 <= j < |weights[i].1| && ref in weights[i].1[j].1.parts
  {
    if n > 0 {
      WeightRefsAre(weights, n - 1, ref);
      EntryRefsAre(weights[n - 1].1, |weights[n - 1].1|, ref);
    }
  }

  lemma {:induction false} ModelRefsAre(models: JsMap.Map<string, ModelEntry>, n: nat, ref: FileRef)
    requires n <= |models|
    ensures ref in ModelRefs(models, n) <==>
            exists i :: 0 <= i < n && (InWeights(ref, models[i].1) || InAssets(ref, models[i].1))
  {
    if n > 0 {
      ModelRefsAre(models, n - 1, ref);
      var m := models[n - 1].1;
      WeightRefsAre(m.weights, |m.weights|, ref);
      if ref in Values(m.assets) {
        var k :| 0 <= k < |m.assets| && Values(m.assets)[k] == ref;
        assert ref == m.assets[k].1;
      }
      if InAssets(ref, m) {
        var k :| 0 <= k < |m.assets| && ref == m.assets[k].1;
        assert Values(m.assets)[k] == ref;
      }
    }
  }

  /** The list holds exactly the references of the manifest. */
  lemma AllFileRefsAre(m: Manifest, ref: FileRef)
    ensures ref in AllFileRefs(m) <==> InManifest(ref, m)
  {
    ModelRefsAre(m.models, |m.models|, ref);
  }

  /** Own files with one path are one file; an accepted manifest guarantees it. */
  ghost predicate OneFilePerPath(refs: seq<FileRef>) {
    forall r1, r2 :: r1 in refs && r2 in refs && r1.repo.None? && r2.repo.None? && r1.path == r2.path ==> r1 == r2
  }

  lemma AcceptedHasOneFilePerPath(root: Json, env: Env)
    requires OneValuePerKey(root) && ParseRepoManifest(root, env).Success?
    ensures OneFilePerPath(AllFileRefs(ParseRepoManifest(root, env).value))
  {
    var m := ParseRepoManifest(root, env).value;
    forall r1, r2 | r1 in AllFileRefs(m) && r2 in AllFileRefs(m) && r1.repo.None? && r2.repo.None? && r1.path == r2.path
      ensures r1 == r2
    {
      AllFileRefsAre(m, r1);
      AllFileRefsAre(m, r2);
      OneFilePerKey(root, env, r1, r2);
    }
  }

  // ----- what is asked for --------------------------------------------------------------------

  ghost predicate OwnMount(mounts: seq<Mount>, repo: string, i: nat) {
    i < |mounts| && mounts[i].hfRepo == Some(repo) && mounts[i].root.Some?
  }

  ghost predicate HasOwn(mounts: seq<Mount>, repo: string) {
    exists i :: OwnMount(mounts, repo, i)
  }

  /** The last element of a repo name. */
  function Directory(repo: string): string {
    if repo == "" then ""
    else
      var last := repo[|repo| - 1];
      if last == '/' then "" else Directory(repo[..|repo| - 1]) + [last]
  }

  /** The first mount, from i on, whose directory has the name. */
  function FindMount(mounts: seq<Mount>, i: nat, directory: string): (r: Option<nat>)
    requires i <= |mounts|
    ensures r.Some? ==> i <= r.value < |mounts| && mounts[r.value].basename == directory
    ensures forall j :: i <= j < (if r.Some? then r.value else |mounts|) ==> mounts[j].basename != directory
    decreases |mounts| - i
  {
    if i == |mounts| then None
    else if mounts[i].basename == directory then Some(i)
    else FindMount(mounts, i + 1, directory)
  }

  /** The mount named after the repo, when it holds a manifest. */
  function DirectoryMount(mounts: seq<Mount>, repo: string): (r: Option<nat>)
    ensures r.Some? ==> r.value < |mounts| && mounts[r.value].root.Some?
  {
    var found := FindMount(mounts, 0, Directory(repo));
    if found.Some? && mounts[found.value].root.Some? then found else None
  }

  /** The text is the name, or ends in it after a slash; the name holds none. */
  ghost predicate EndsIn(text: string, name: string) {
    && '/' !in name && |name| <= |text| && text[|text| - |name|..] == name
    && (|name| < |text| ==> text[|text| - |name| - 1] == '/')
  }

  lemma {:induction false} DirectoryEnds(repo: string)
    ensures EndsIn(repo, Directory(repo))
  {
    if repo != "" && repo[|repo| - 1] != '/' {
      var before, last := repo[..|repo| - 1], repo[|repo| - 1];
      DirectoryEnds(before);
      DirectoryEndsAfter(before, Directory(before), last);
      assert before + [last] == repo;
    }
  }

  lemma DirectoryEndsAfter(before: string, name: string, last: char)
    requires EndsIn(before, name) && last != '/'
    ensures EndsIn(before + [last], name + [last])
  {
    assert (before + [last])[|before| - |name|..] == before[|before| - |name|..] + [last];
  }

  lemma OneEnd(text: string, name: string, other: string)
    requires EndsIn(text, name) && EndsIn(text, other)
    ensures |name| <= |other|
  {
  }

  /** The mount's directory is named after the last element of the repo name. */
  ghost predicate NamedAfter(mount: Mount, repo: string) {
    EndsIn(repo, mount.basename)
  }

  lemma DirectoryIff(mount: Mount, repo: string)
    ensures mount.basename == Directory(repo) <==> NamedAfter(mount, repo)
  {
    DirectoryEnds(repo);
    if NamedAfter(mount, repo) {
      OneEnd(repo, mount.basename, Directory(repo));
      OneEnd(repo, Directory(repo), mount.basename);
    }
  }

  /** Mount i is the first named after the repo. */
  ghost predicate FirstNamedAfter(mounts: seq<Mount>, repo: string, i: nat) {
    i < |mounts| && NamedAfter(mounts[i], repo) && forall j :: 0 <= j < i ==> !NamedAfter(mounts[j], repo)
  }

  lemma FirstIsFound(mounts: seq<Mount>, repo: string, i: nat)
    ensures FirstNamedAfter(mounts, repo, i) ==> FindMount(mounts, 0, Directory(repo)) == Some(i)
  {
    if FirstNamedAfter(mounts, repo, i) {
      DirectoryIff(mounts[i], repo);
      forall j | 0 <= j < i
        ensures mounts[j].basename != Directory(repo)
      {
        DirectoryIff(mounts[j], repo);
      }
    }
  }

  lemma FoundIsFirst(mounts: seq<Mount>, repo: string, i: nat)
    requires FindMount(mounts, 0, Directory(repo)) == Some(i)
    ensures FirstNamedAfter(mounts, repo, i)
  {
    DirectoryIff(mounts[i], repo);
    forall j | 0 <= j < i
      ensures !NamedAfter(mounts[j], repo)
    {
      DirectoryIff(mounts[j], repo);
    }
  }

  /**
    A repo without a mount of its own is served from the first directory named after its last element,
    if that holds a manifest; a later directory of the same name is not asked.
   */
  lemma DirectoryMountIff(mounts: seq<Mount>, repo: string, i: nat)
    ensures DirectoryMount(mounts, repo) == Some(i) <==> FirstNamedAfter(mounts, repo, i) && mounts[i].root.Some?
  {
    FirstIsFound(mounts, repo, i);
    if FindMount(mounts, 0, Directory(repo)) == Some(i) {
      FoundIsFirst(mounts, repo, i);
    }
  }

  ghost predicate RefersTo(refs: seq<Referral>, cross: CrossRef) {
    exists k :: 0 <= k < |refs| && CrossRefOf(refs[k].ref) == Some(cross)
  }

  ghost predicate RefersToRepo(refs: seq<Referral>, repo: string) {
    exists k :: 0 <= k < |refs| && CrossRefOf(refs[k].ref).Some? && CrossRefOf(refs[k].ref).value.repo == repo
  }

  ghost predicate RefersToFile(refs: seq<Referral>, cross: CrossRef, path: string) {
    exists k :: 0 <= k < |refs| && CrossRefOf(refs[k].ref) == Some(cross) && refs[k].ref.path == path
  }

  ghost predicate RefersFrom(refs: seq<Referral>, cross: CrossRef, referrer: string) {
    exists k :: 0 <= k < |refs| && CrossRefOf(refs[k].ref) == Some(cross) && refs[k].referrer == referrer
  }

  /** The mount's manifest lists the file as its own, with the same size and hash. */
  ghost predicate MatchesOwn(mount: Mount, ref: FileRef) {
    exists own :: own in mount.refs && own.repo.None? && own.path == ref.path && own.size == ref.size && own.sha256 == ref.sha256
  }

  /** The repo's own mount stands at another revision and may not stand in for the referenced one. */
  ghost predicate BadRevision(mounts: seq<Mount>, ref: FileRef) {
    && CrossRefOf(ref).Some?
    && var cross := CrossRefOf(ref).value;
       exists i: nat :: OwnMount(mounts, cross.repo, i) && mounts[i].revision != cross.revision
                   && !(mounts[i].aliasReferencedRevisions && MatchesOwn(mounts[i], ref))
  }

  /** One directory, found by name, would have to hold two revisions. */
  ghost predicate BadPair(mounts: seq<Mount>, r1: FileRef, r2: FileRef) {
    && CrossRefOf(r1).Some? && CrossRefOf(r2).Some?
    && var c1, c2 := CrossRefOf(r1).value, CrossRefOf(r2).value;
       c1.repo == c2.repo && c1.revision != c2.revision && !HasOwn(mounts, c1.repo) && DirectoryMount(mounts, c1.repo).Some?
  }

  ghost predicate TwoMountsClaim(mounts: seq<Mount>) {
    exists i, j, repo :: 0 <= i < j && OwnMount(mounts, repo, i) && OwnMount(mounts, repo, j)
  }

  ghost predicate Inconsistent(mounts: seq<Mount>, refs: seq<Referral>) {
    || (exists k :: 0 <= k < |refs| && BadRevision(mounts, refs[k].ref))
    || (exists k, l :: 0 <= k < |refs| && 0 <= l < |refs| && BadPair(mounts, refs[k].ref, refs[l].ref))
  }

  // ----- what the table says ------------------------------------------------------------------

  ghost predicate ServedRight(mounts: seq<Mount>, refs: seq<Referral>, repo: string, s: Served) {
    && s.mount < |mounts| && mounts[s.mount].root == Some(s.root)
    && (s.own <==> HasOwn(mounts, repo))
    && (s.own ==> OwnMount(mounts, repo, s.mount) && s.revision == mounts[s.mount].revision)
    && (!s.own ==> DirectoryMount(mounts, repo) == Some(s.mount) && RefersTo(refs, CrossRef(repo, s.revision)))
  }

  ghost predicate AliasesRight(refs: seq<Referral>, repo: string, s: Served) {
    forall revision: string :: AliasRight(refs, repo, s, revision)
  }

  ghost predicate AliasRight(refs: seq<Referral>, repo: string, s: Served, revision: string) {
    && (revision in s.aliases <==> s.own && revision != s.revision && RefersTo(refs, CrossRef(repo, revision)))
    && (revision in s.aliases ==>
          && (forall path: string :: path in s.aliases[revision].files <==> RefersToFile(refs, CrossRef(repo, revision), path))
          && (forall referrer: string ::
                referrer in s.aliases[revision].referencedBy <==> RefersFrom(refs, CrossRef(repo, revision), referrer)))
  }

  /** The table in terms of the mounts and the set of references, whatever their order. */
  ghost predicate Describes(table: Table, mounts: seq<Mount>, refs: seq<Referral>) {
    && (forall repo: string :: repo in table.repos <==>
          HasOwn(mounts, repo) || (DirectoryMount(mounts, repo).Some? && RefersToRepo(refs, repo)))
    && (forall repo: string :: repo in table.repos ==>
          ServedRight(mounts, refs, repo, table.repos[repo]) && AliasesRight(refs, repo, table.repos[repo]))
    && (forall cross: CrossRef :: cross in table.unserved <==>
          RefersTo(refs, cross) && !HasOwn(mounts, cross.repo) && DirectoryMount(mounts, cross.repo).None?)
  }

  // ----- one reference at a time --------------------------------------------------------------

  function OwnFile(refs: seq<FileRef>, path: string): (r: Option<FileRef>)
    ensures r.Some? ==> r.value in refs && r.value.repo.None? && r.value.path == path
    ensures r.None? ==> forall own :: own in refs && own.repo.None? ==> own.path != path
  {
    if refs == [] then None
    else if refs[|refs| - 1].repo.None? && refs[|refs| - 1].path == path then Some(refs[|refs| - 1])
    else OwnFile(refs[..|refs| - 1], path)
  }

  lemma OwnFileMatches(mount: Mount, ref: FileRef)
    requires OneFilePerPath(mount.refs)
    ensures var own := OwnFile(mount.refs, ref.path);
            MatchesOwn(mount, ref) <==> own.Some? && own.value.size == ref.size && own.value.sha256 == ref.sha256
  {
  }

  function AddAlias(s: Served, revision: string, path: string, referrer: string): Served {
    var alias := if revision in s.aliases then s.aliases[revision] else Alias({}, {});
    s.(aliases := s.aliases[revision := Alias(alias.files + {path}, alias.referencedBy + {referrer})])
  }

  function Next(table: Table, mounts: seq<Mount>, r: Referral): Result<Table, Conflict>
    requires forall repo :: repo in table.repos ==> table.repos[repo].mount < |mounts|
  {
    match CrossRefOf(r.ref)
    case None => Success(table)
    case Some(CrossRef(repo, revision)) =>
      if repo in table.repos then
        var known := table.repos[repo];
        var mount := mounts[known.mount];
        if known.revision == revision then Success(table)
        else if !mount.aliasReferencedRevisions || !known.own then Failure(TwoRevisions)
        else
          var own := OwnFile(mount.refs, r.ref.path);
          if own.None? || own.value.size != r.ref.size || own.value.sha256 != r.ref.sha256 then Failure(DifferentFile)
          else Success(table.(repos := table.repos[repo := AddAlias(known, revision, r.ref.path, r.referrer)]))
      else
        match DirectoryMount(mounts, repo)
        case None => Success(table.(unserved := table.unserved + {CrossRef(repo, revision)}))
        case Some(i) => Success(table.(repos := table.repos[repo := Served(revision, i, mounts[i].root.value, false, map[])]))
  }

  lemma RefersAppend(done: seq<Referral>, r: Referral, cross: CrossRef)
    ensures RefersTo(done + [r], cross) <==> RefersTo(done, cross) || CrossRefOf(r.ref) == Some(cross)
  {
    var more := done + [r];
    assert more[|done|] == r;
    if RefersTo(done, cross) {
      var k :| 0 <= k < |done| && CrossRefOf(done[k].ref) == Some(cross);
      assert more[k] == done[k];
    }
  }

  lemma RefersToRepoAppend(done: seq<Referral>, r: Referral, repo: string)
    ensures RefersToRepo(done + [r], repo) <==>
            RefersToRepo(done, repo) || (CrossRefOf(r.ref).Some? && CrossRefOf(r.ref).value.repo == repo)
  {
    var more := done + [r];
    assert more[|done|] == r;
    if RefersToRepo(done, repo) {
      var k :| 0 <= k < |done| && CrossRefOf(done[k].ref).Some? && CrossRefOf(done[k].ref).value.repo == repo;
      assert more[k] == done[k];
    }
  }

  lemma RefersToFileAppend(done: seq<Referral>, r: Referral, cross: CrossRef, path: string)
    ensures RefersToFile(done + [r], cross, path) <==>
            RefersToFile(done, cross, path) || (CrossRefOf(r.ref) == Some(cross) && r.ref.path == path)
  {
    var more := done + [r];
    assert more[|done|] == r;
    if RefersToFile(done, cross, path) {
      var k :| 0 <= k < |done| && CrossRefOf(done[k].ref) == Some(cross) && done[k].ref.path == path;
      assert more[k] == done[k];
    }
  }

  lemma RefersFromAppend(done: seq<Referral>, r: Referral, cross: CrossRef, referrer: string)
    ensures RefersFrom(done + [r], cross, referrer) <==>
            RefersFrom(done, cross, referrer) || (CrossRefOf(r.ref) == Some(cross) && r.referrer == referrer)
  {
    var more := done + [r];
    assert more[|done|] == r;
    if RefersFrom(done, cross, referrer) {
      var k :| 0 <= k < |done| && CrossRefOf(done[k].ref) == Some(cross) && done[k].referrer == referrer;
      assert more[k] == done[k];
    }
  }

  /** r clashes with the mounts or with an earlier reference. */
  ghost predicate Clashes(mounts: seq<Mount>, done: seq<Referral>, r: Referral) {
    BadRevision(mounts, r.ref) || exists k :: 0 <= k < |done| && BadPair(mounts, done[k].ref, r.ref)
  }

  lemma InconsistentAppend(mounts: seq<Mount>, done: seq<Referral>, r: Referral)
    ensures Inconsistent(mounts, done + [r]) <==> Inconsistent(mounts, done) || Clashes(mounts, done, r)
  {
    var more := done + [r];
    assert more[|done|] == r && forall k :: 0 <= k < |done| ==> more[k] == done[k];
    if k :| 0 <= k < |done| && BadRevision(mounts, done[k].ref) {
      assert BadRevision(mounts, more[k].ref);
    }
    if k, l :| 0 <= k < |done| && 0 <= l < |done| && BadPair(mounts, done[k].ref, done[l].ref) {
      assert BadPair(mounts, more[k].ref, more[l].ref);
    }
    if k :| 0 <= k < |done| && BadPair(mounts, done[k].ref, r.ref) {
      assert BadPair(mounts, more[k].ref, more[|done|].ref);
    }
    if k, l :| 0 <= k < |more| && 0 <= l < |more| && BadPair(mounts, more[k].ref, more[l].ref) {
      if k == |done| {
        assert BadPair(mounts, more[l].ref, more[k].ref);
      }
    }
  }

  /** Which conflict is named: the file, if the repo's own mount may stand in for other revisions, else the revisions. */
  ghost predicate KindRight(mounts: seq<Mount>, r: Referral, kind: Conflict) {
    CrossRefOf(r.ref).Some? &&
    var repo := CrossRefOf(r.ref).value.repo;
    if exists i: nat :: OwnMount(mounts, repo, i) && mounts[i].aliasReferencedRevisions then kind == DifferentFile
    else kind == TwoRevisions
  }

  /** The reference fails exactly when it clashes, with the kind that the mounts give it. */
  lemma FailsIffClash(table: Table, mounts: seq<Mount>, done: seq<Referral>, r: Referral)
    requires Describes(table, mounts, done) && !Inconsistent(mounts, done) && !TwoMountsClaim(mounts)
    requires forall i :: 0 <= i < |mounts| ==> OneFilePerPath(mounts[i].refs)
    ensures Next(table, mounts, r).Failure? <==> Clashes(mounts, done, r)
    ensures Next(table, mounts, r).Failure? ==> KindRight(mounts, r, Next(table, mounts, r).error)
  {
    if CrossRefOf(r.ref).Some? {
      var cross := CrossRefOf(r.ref).value;
      if cross.repo !in table.repos {
        NewRepoIsClean(table, mounts, done, r);
      } else if table.repos[cross.repo].own {
        OwnRepoClash(table, mounts, done, r);
      } else {
        DirectoryRepoClash(table, mounts, done, r);
      }
    }
  }

  lemma NewRepoIsClean(table: Table, mounts: seq<Mount>, done: seq<Referral>, r: Referral)
    requires Describes(table, mounts, done)
    requires CrossRefOf(r.ref).Some? && CrossRefOf(r.ref).value.repo !in table.repos
    ensures !Clashes(mounts, done, r)
  {
    var repo := CrossRefOf(r.ref).value.repo;
    assert !HasOwn(mounts, repo) && (DirectoryMount(mounts, repo).None? || !RefersToRepo(done, repo));
    assert BadRevision(mounts, r.ref) ==> HasOwn(mounts, repo);
  }

  lemma OwnMountIsUnique(mounts: seq<Mount>, repo: string, n: nat)
    requires !TwoMountsClaim(mounts) && OwnMount(mounts, repo, n)
    ensures forall i: nat :: OwnMount(mounts, repo, i) ==> i == n
  {
  }

  lemma OwnRepoClash(table: Table, mounts: seq<Mount>, done: seq<Referral>, r: Referral)
    requires Describes(table, mounts, done) && !TwoMountsClaim(mounts)
    requires forall i :: 0 <= i < |mounts| ==> OneFilePerPath(mounts[i].refs)
    requires CrossRefOf(r.ref).Some? && CrossRefOf(r.ref).value.repo in table.repos
    requires table.repos[CrossRefOf(r.ref).value.repo].own
    ensures Next(table, mounts, r).Failure? <==> Clashes(mounts, done, r)
    ensures Next(table, mounts, r).Failure? ==> KindRight(mounts, r, Next(table, mounts, r).error)
  {
    var cross := CrossRefOf(r.ref).value;
    var known := table.repos[cross.repo];
    assert ServedRight(mounts, done, cross.repo, known);
    var mount := mounts[known.mount];
    OwnFileMatches(mount, r.ref);
    OwnMountIsUnique(mounts, cross.repo, known.mount);
    assert BadRevision(mounts, r.ref) <==>
           known.revision != cross.revision && !(mount.aliasReferencedRevisions && MatchesOwn(mount, r.ref));
    assert forall k :: 0 <= k < |done| ==> !BadPair(mounts, done[k].ref, r.ref);
  }

  lemma DirectoryRepoClash(table: Table, mounts: seq<Mount>, done: seq<Referral>, r: Referral)
    requires Describes(table, mounts, done) && !Inconsistent(mounts, done)
    requires CrossRefOf(r.ref).Some? && CrossRefOf(r.ref).value.repo in table.repos
    requires !table.repos[CrossRefOf(r.ref).value.repo].own
    ensures Next(table, mounts, r).Failure? <==> Clashes(mounts, done, r)
    ensures Next(table, mounts, r).Failure? ==> KindRight(mounts, r, Next(table, mounts, r).error)
  {
    var cross := CrossRefOf(r.ref).value;
    var known := table.repos[cross.repo];
    assert ServedRight(mounts, done, cross.repo, known);
    assert forall i: nat :: OwnMount(mounts, cross.repo, i) ==> HasOwn(mounts, cross.repo);
    var w :| 0 <= w < |done| && CrossRefOf(done[w].ref) == Some(CrossRef(cross.repo, known.revision));
    assert !BadRevision(mounts, r.ref);
    if known.revision != cross.revision {
      assert BadPair(mounts, done[w].ref, r.ref);
    } else {
      forall k | 0 <= k < |done|
        ensures !BadPair(mounts, done[k].ref, r.ref)
      {
        assert !BadPair(mounts, done[k].ref, done[w].ref);
      }
    }
  }

  /** What one more reference means for an alias of a served repo. */
  lemma AliasUnchanged(done: seq<Referral>, r: Referral, repo: string, s: Served)
    requires AliasesRight(done, repo, s)
    requires CrossRefOf(r.ref).Some? && CrossRefOf(r.ref).value.repo == repo ==>
               !s.own || CrossRefOf(r.ref).value.revision == s.revision
    ensures AliasesRight(done + [r], repo, s)
  {
    forall revision: string | true
      ensures AliasRight(done + [r], repo, s, revision)
    {
      assert AliasRight(done, repo, s, revision);
      var cross := CrossRef(repo, revision);
      RefersAppend(done, r, cross);
      forall path: string | true
        ensures revision in s.aliases ==> (RefersToFile(done + [r], cross, path) <==> RefersToFile(done, cross, path))
      {
        RefersToFileAppend(done, r, cross, path);
      }
      forall referrer: string | true
        ensures revision in s.aliases ==> (RefersFrom(done + [r], cross, referrer) <==> RefersFrom(done, cross, referrer))
      {
        RefersFromAppend(done, r, cross, referrer);
      }
    }
  }

  lemma AliasAdded(done: seq<Referral>, r: Referral, repo: string, s: Served, revision: string)
    requires AliasesRight(done, repo, s) && s.own && revision != s.revision
    requires CrossRefOf(r.ref) == Some(CrossRef(repo, revision))
    ensures AliasesRight(done + [r], repo, AddAlias(s, revision, r.ref.path, r.referrer))
  {
    var more := AddAlias(s, revision, r.ref.path, r.referrer);
    forall other: string | true
      ensures AliasRight(done + [r], repo, more, other)
    {
      assert AliasRight(done, repo, s, other);
      var cross := CrossRef(repo, other);
      RefersAppend(done, r, cross);
      AliasFiles(done, r, repo, s, revision, other);
      AliasReferrers(done, r, repo, s, revision, other);
    }
  }

  lemma AliasFiles(done: seq<Referral>, r: Referral, repo: string, s: Served, revision: string, other: string)
    requires AliasRight(done, repo, s, other) && s.own && revision != s.revision
    requires CrossRefOf(r.ref) == Some(CrossRef(repo, revision))
    ensures var more := AddAlias(s, revision, r.ref.path, r.referrer);
            other in more.aliases ==> forall path: string ::
              path in more.aliases[other].files <==> RefersToFile(done + [r], CrossRef(repo, other), path)
  {
    var more := AddAlias(s, revision, r.ref.path, r.referrer);
    if other in more.aliases {
      forall path: string | true
        ensures path in more.aliases[other].files <==> RefersToFile(done + [r], CrossRef(repo, other), path)
      {
        RefersToFileAppend(done, r, CrossRef(repo, other), path);
        if RefersToFile(done, CrossRef(repo, other), path) {
          assert RefersTo(done, CrossRef(repo, other));
        }
      }
    }
  }

  lemma AliasReferrers(done: seq<Referral>, r: Referral, repo: string, s: Served, revision: string, other: string)
    requires AliasRight(done, repo, s, other) && s.own && revision != s.revision
    requires CrossRefOf(r.ref) == Some(CrossRef(repo, revision))
    ensures var more := AddAlias(s, revision, r.ref.path, r.referrer);
            other in more.aliases ==> forall referrer: string ::
              referrer in more.aliases[other].referencedBy <==> RefersFrom(done + [r], CrossRef(repo, other), referrer)
  {
    var more := AddAlias(s, revision, r.ref.path, r.referrer);
    if other in more.aliases {
      forall referrer: string | true
        ensures referrer in more.aliases[other].referencedBy <==> RefersFrom(done + [r], CrossRef(repo, other), referrer)
      {
        RefersFromAppend(done, r, CrossRef(repo, other), referrer);
        if RefersFrom(done, CrossRef(repo, other), referrer) {
          assert RefersTo(done, CrossRef(repo, other));
        }
      }
    }
  }

  /** One row of the table, before and after a reference that does not clash. */
  lemma NextRow(table: Table, mounts: seq<Mount>, done: seq<Referral>, r: Referral, repo: string)
    requires Describes(table, mounts, done) && Next(table, mounts, r).Success?
    ensures var after := Next(table, mounts, r).value;
            && (repo in after.repos <==>
                  HasOwn(mounts, repo) || (DirectoryMount(mounts, repo).Some? && RefersToRepo(done + [r], repo)))
            && (repo in after.repos ==>
                  ServedRight(mounts, done + [r], repo, after.repos[repo]) && AliasesRight(done + [r], repo, after.repos[repo]))
  {
    var after := Next(table, mounts, r).value;
    RefersToRepoAppend(done, r, repo);
    if repo in table.repos {
      var s := table.repos[repo];
      assert ServedRight(mounts, done, repo, s);
      RefersAppend(done, r, CrossRef(repo, s.revision));
      var cross := CrossRefOf(r.ref);
      if cross.Some? && cross.value.repo == repo && s.own && cross.value.revision != s.revision {
        AliasAdded(done, r, repo, s, cross.value.revision);
      } else {
        AliasUnchanged(done, r, repo, s);
      }
    } else if repo in after.repos {
      RefersAppend(done, r, CrossRef(repo, after.repos[repo].revision));
    }
  }

  lemma NextDescribes(table: Table, mounts: seq<Mount>, done: seq<Referral>, r: Referral)
    requires Describes(table, mounts, done) && Next(table, mounts, r).Success?
    ensures Describes(Next(table, mounts, r).value, mounts, done + [r])
  {
    var after := Next(table, mounts, r).value;
    forall repo: string | true
      ensures repo in after.repos <==>
                HasOwn(mounts, repo) || (DirectoryMount(mounts, repo).Some? && RefersToRepo(done + [r], repo))
      ensures repo in after.repos ==>
                ServedRight(mounts, done + [r], repo, after.repos[repo]) && AliasesRight(done + [r], repo, after.repos[repo])
    {
      NextRow(table, mounts, done, r, repo);
    }
    forall cross: CrossRef | true
      ensures cross in after.unserved <==>
                RefersTo(done + [r], cross) && !HasOwn(mounts, cross.repo) && DirectoryMount(mounts, cross.repo).None?
    {
      RefersAppend(done, r, cross);
    }
  }

  // ----- the two loops ------------------------------------------------------------------------

  function ReferencesOf(referrer: string, refs: seq<FileRef>): (r: seq<Referral>)
    ensures |r| == |refs| && forall i :: 0 <= i < |refs| ==> r[i] == Referral(referrer, refs[i])
  {
    seq(|refs|, i requires 0 <= i < |refs| => Referral(referrer, refs[i]))
  }

  /** The references of the served manifests among the first n mounts, in order. */
  function References(mounts: seq<Mount>, n: nat): seq<Referral>
    requires n <= |mounts|
  {
    if n == 0 then []
    else
      var mount := mounts[n - 1];
      if mount.hfRepo.None? || mount.root.None? then References(mounts, n - 1)
      else References(mounts, n - 1) + ReferencesOf(mount.hfRepo.value, mount.refs)
  }

  /** How many references the served manifests among the first n mounts make. */
  ghost function ReferenceCount(mounts: seq<Mount>, n: nat): nat
    requires n <= |mounts|
  {
    if n == 0 then 0
    else ReferenceCount(mounts, n - 1) + (if mounts[n - 1].hfRepo.Some? && mounts[n - 1].root.Some? then |mounts[n - 1].refs| else 0)
  }

  ghost predicate StandsAt(mounts: seq<Mount>, n: nat, i: nat, p: nat) {
    i < n <= |mounts| && mounts[i].hfRepo.Some? && mounts[i].root.Some? && p < |mounts[i].refs|
  }

  ghost predicate RefersAt(mounts: seq<Mount>, n: nat, i: nat, p: nat)
    requires StandsAt(mounts, n, i, p)
  {
    var at := ReferenceCount(mounts, i) + p;
    at < |References(mounts, n)| && References(mounts, n)[at] == Referral(mounts[i].hfRepo.value, mounts[i].refs[p])
  }

  /** Mount by mount, the references of each served manifest stand in its own order, under the name of its repo. */
  lemma {:induction false} ReferencesAre(mounts: seq<Mount>, n: nat)
    requires n <= |mounts|
    ensures |References(mounts, n)| == ReferenceCount(mounts, n)
    ensures forall i: nat, p: nat :: StandsAt(mounts, n, i, p) ==> RefersAt(mounts, n, i, p)
  {
    if n > 0 {
      ReferencesAre(mounts, n - 1);
      forall i: nat, p: nat | StandsAt(mounts, n, i, p)
        ensures RefersAt(mounts, n, i, p)
      {
        if i < n - 1 {
          assert StandsAt(mounts, n - 1, i, p) && RefersAt(mounts, n - 1, i, p);
        }
      }
    }
  }

  /** After the first n mounts: each available one under its own repo name. */
  ghost predicate Claimed(repos: map<string, Served>, mounts: seq<Mount>, n: nat)
    requires n <= |mounts|
  {
    && (forall repo: string :: repo in repos ==> ClaimedRight(repos[repo], mounts, n, repo))
    && (forall i: nat, repo :: i < n && OwnMount(mounts, repo, i) ==> repo in repos && repos[repo].mount == i)
  }

  ghost predicate ClaimedRight(s: Served, mounts: seq<Mount>, n: nat, repo: string) {
    s.mount < n && OwnMount(mounts, repo, s.mount) && s.own && s.aliases == map[]
    && mounts[s.mount].root == Some(s.root) && s.revision == mounts[s.mount].revision
  }

  lemma ClaimsDescribe(repos: map<string, Served>, mounts: seq<Mount>)
    requires Claimed(repos, mounts, |mounts|)
    ensures !TwoMountsClaim(mounts) && Describes(Table(repos, {}), mounts, [])
  {
    assert forall i: nat, repo :: OwnMount(mounts, repo, i) ==> repo in repos && repos[repo].mount == i;
    forall repo: string | true
      ensures repo in repos <==> HasOwn(mounts, repo)
      ensures repo in repos ==> ServedRight(mounts, [], repo, repos[repo]) && AliasesRight([], repo, repos[repo])
    {
      if HasOwn(mounts, repo) {
        var i: nat :| OwnMount(mounts, repo, i);
        assert i < |mounts|;
      }
      if repo in repos {
        assert ClaimedRight(repos[repo], mounts, |mounts|, repo);
      }
    }
  }

  /** Serving fails exactly when two mounts claim one repo or the references are inconsistent with the mounts. */
  ghost predicate Conflicting(mounts: seq<Mount>) {
    TwoMountsClaim(mounts) || Inconsistent(mounts, References(mounts, |mounts|))
  }

  method ClaimRepos(mounts: seq<Mount>) returns (r: Result<map<string, Served>, Conflict>, references: seq<Referral>)
    ensures r.Failure? ==> TwoMountsClaim(mounts) && r.error == TwoClaims
    ensures r.Success? ==> Claimed(r.value, mounts, |mounts|) && references == References(mounts, |mounts|)
  {
    var repos: map<string, Served> := map[];
    references := [];
    for n := 0 to |mounts|
      invariant Claimed(repos, mounts, n) && references == References(mounts, n)
    {
      var mount := mounts[n];
      if mount.hfRepo.None? || mount.root.None? {
        continue;
      }
      var repo := mount.hfRepo.value;
      if repo in repos {
        assert ClaimedRight(repos[repo], mounts, n, repo) && OwnMount(mounts, repo, n);
        return Failure(TwoClaims), references;
      }
      var was := repos;
      repos := repos[repo := Served(mount.revision, n, mount.root.value, true, map[])];
      assert forall other: string :: other in was ==> ClaimedRight(was[other], mounts, n, other);
      references := references + ReferencesOf(repo, mount.refs);
    }
    r := Success(repos);
  }

  lemma {:induction false} InconsistentStays(mounts: seq<Mount>, refs: seq<Referral>, n: nat)
    requires n <= |refs| && Inconsistent(mounts, refs[..n])
    ensures Inconsistent(mounts, refs)
    decreases |refs| - n
  {
    if n < |refs| {
      assert refs[..n + 1] == refs[..n] + [refs[n]];
      InconsistentAppend(mounts, refs[..n], refs[n]);
      InconsistentStays(mounts, refs, n + 1);
    } else {
      assert refs[..n] == refs;
    }
  }

  ghost predicate Referring(table: Table, mounts: seq<Mount>, refs: seq<Referral>, n: nat) {
    n <= |refs| && Describes(table, mounts, refs[..n]) && !Inconsistent(mounts, refs[..n])
  }

  lemma RowsHaveMounts(table: Table, mounts: seq<Mount>, refs: seq<Referral>)
    requires Describes(table, mounts, refs)
    ensures forall repo :: repo in table.repos ==> table.repos[repo].mount < |mounts|
  {
    forall repo | repo in table.repos
      ensures table.repos[repo].mount < |mounts|
    {
      assert ServedRight(mounts, refs, repo, table.repos[repo]);
    }
  }

  /** Reference k is the first that clashes with the mounts or an earlier reference. */
  ghost predicate FirstClash(mounts: seq<Mount>, refs: seq<Referral>, k: nat) {
    k < |refs| && !Inconsistent(mounts, refs[..k]) && Clashes(mounts, refs[..k], refs[k])
  }

  /** The error names the two mounts that claim a repo, or the conflict of the first reference that clashes. */
  ghost predicate NamesConflict(mounts: seq<Mount>, refs: seq<Referral>, error: Conflict) {
    if TwoMountsClaim(mounts) then error == TwoClaims
    else exists k: nat :: FirstClash(mounts, refs, k) && KindRight(mounts, refs[k], error)
  }

  lemma ReferStep(table: Table, mounts: seq<Mount>, refs: seq<Referral>, n: nat)
    requires Referring(table, mounts, refs, n) && n < |refs| && !TwoMountsClaim(mounts)
    requires forall i :: 0 <= i < |mounts| ==> OneFilePerPath(mounts[i].refs)
    ensures forall repo :: repo in table.repos ==> table.repos[repo].mount < |mounts|
    ensures Next(table, mounts, refs[n]).Failure? ==>
              Inconsistent(mounts, refs) && NamesConflict(mounts, refs, Next(table, mounts, refs[n]).error)
    ensures Next(table, mounts, refs[n]).Success? ==> Referring(Next(table, mounts, refs[n]).value, mounts, refs, n + 1)
  {
    RowsHaveMounts(table, mounts, refs[..n]);
    FailsIffClash(table, mounts, refs[..n], refs[n]);
    InconsistentAppend(mounts, refs[..n], refs[n]);
    assert refs[..n + 1] == refs[..n] + [refs[n]];
    if Next(table, mounts, refs[n]).Success? {
      NextDescribes(table, mounts, refs[..n], refs[n]);
    } else {
      InconsistentStays(mounts, refs, n + 1);
      assert FirstClash(mounts, refs, n);
    }
  }

  /** The body of the loop over the references. */
  method Refer(table: Table, mounts: seq<Mount>, r: Referral) returns (result: Result<Table, Conflict>)
    requires forall repo :: repo in table.repos ==> table.repos[repo].mount < |mounts|
    ensures result == Next(table, mounts, r)
  {
    var repos, unserved := table.repos, table.unserved;
    var cross := CrossRefOf(r.ref);
    if cross.None? {
      return Success(table);
    }
    var repo, revision := cross.value.repo, cross.value.revision;
    if repo in repos {
      var known := repos[repo];
      if known.revision == revision {
        return Success(table);
      }
      if !mounts[known.mount].aliasReferencedRevisions || !known.own {
        return Failure(TwoRevisions);
      }
      var own := OwnFile(mounts[known.mount].refs, r.ref.path);
      if own.None? || own.value.size != r.ref.size || own.value.sha256 != r.ref.sha256 {
        return Failure(DifferentFile);
      }
      var alias := if revision in known.aliases then known.aliases[revision] else Alias({}, {});
      var aliases := known.aliases[revision := Alias(alias.files + {r.ref.path}, alias.referencedBy + {r.referrer})];
      repos := repos[repo := known.(aliases := aliases)];
    } else {
      var mount := DirectoryMount(mounts, repo);
      if mount.None? {
        unserved := unserved + {CrossRef(repo, revision)};
      } else {
        repos := repos[repo := Served(revision, mount.value, mounts[mount.value].root.value, false, map[])];
      }
    }
    result := Success(Table(repos, unserved));
  }

  /**
    Builds the table from the mounts as they are now.  It fails exactly when the mounts and the set of
    references conflict, and otherwise says what they say, in whatever order the references come.
   */
  method HfServingTable(mounts: seq<Mount>) returns (r: Result<Table, Conflict>)
    requires forall i :: 0 <= i < |mounts| ==> OneFilePerPath(mounts[i].refs)
    ensures r.Failure? <==> Conflicting(mounts)
    ensures r.Failure? ==> NamesConflict(mounts, References(mounts, |mounts|), r.error)
    ensures r.Success? ==> Describes(r.value, mounts, References(mounts, |mounts|))
  {
    var claimed, refs := ClaimRepos(mounts);
    if claimed.Failure? {
      return Failure(claimed.error);
    }
    ClaimsDescribe(claimed.value, mounts);
    var table := Table(claimed.value, {});
    assert refs[..0] == [];
    for n := 0 to |refs|
      invariant Referring(table, mounts, refs, n)
    {
      ReferStep(table, mounts, refs, n);
      var next := Refer(table, mounts, refs[n]);
      if next.Failure? {
        return next;
      }
      table := next.value;
    }
    assert refs[..|refs|] == refs;
    r := Success(table);
  }

  // ----- what follows from the description ----------------------------------------------------

  /** The references as a set of pairs. */
  ghost predicate SameReferences(refs1: seq<Referral>, refs2: seq<Referral>) {
    forall r: Referral :: r in refs1 <==> r in refs2
  }

  lemma SameQuestions(refs1: seq<Referral>, refs2: seq<Referral>, cross: CrossRef)
    requires SameReferences(refs1, refs2)
    ensures RefersTo(refs1, cross) ==> RefersTo(refs2, cross)
    ensures RefersToRepo(refs1, cross.repo) ==> RefersToRepo(refs2, cross.repo)
    ensures forall path :: RefersToFile(refs1, cross, path) ==> RefersToFile(refs2, cross, path)
    ensures forall referrer :: RefersFrom(refs1, cross, referrer) ==> RefersFrom(refs2, cross, referrer)
  {
    forall k | 0 <= k < |refs1|
      ensures exists l :: 0 <= l < |refs2| && refs2[l] == refs1[k]
    {
      assert refs1[k] in refs1;
    }
  }

  lemma SameInconsistency(mounts: seq<Mount>, refs1: seq<Referral>, refs2: seq<Referral>)
    requires SameReferences(refs1, refs2) && Inconsistent(mounts, refs1)
    ensures Inconsistent(mounts, refs2)
  {
    if k :| 0 <= k < |refs1| && BadRevision(mounts, refs1[k].ref) {
      assert refs1[k] in refs2;
      var l :| 0 <= l < |refs2| && refs2[l] == refs1[k];
      assert BadRevision(mounts, refs2[l].ref);
    } else {
      var i, j :| 0 <= i < |refs1| && 0 <= j < |refs1| && BadPair(mounts, refs1[i].ref, refs1[j].ref);
      assert refs1[i] in refs2 && refs1[j] in refs2;
      var k :| 0 <= k < |refs2| && refs2[k] == refs1[i];
      var l :| 0 <= l < |refs2| && refs2[l] == refs1[j];
      assert BadPair(mounts, refs2[k].ref, refs2[l].ref);
    }
  }

  lemma SameDescription(table: Table, mounts: seq<Mount>, refs1: seq<Referral>, refs2: seq<Referral>)
    requires SameReferences(refs1, refs2) && Describes(table, mounts, refs1)
    ensures Describes(table, mounts, refs2)
  {
    forall cross: CrossRef | true
      ensures RefersTo(refs1, cross) <==> RefersTo(refs2, cross)
      ensures RefersToRepo(refs1, cross.repo) <==> RefersToRepo(refs2, cross.repo)
      ensures forall path :: RefersToFile(refs1, cross, path) <==> RefersToFile(refs2, cross, path)
      ensures forall referrer :: RefersFrom(refs1, cross, referrer) <==> RefersFrom(refs2, cross, referrer)
    {
      SameQuestions(refs1, refs2, cross);
      SameQuestions(refs2, refs1, cross);
    }
    forall repo: string | true
      ensures RefersToRepo(refs1, repo) <==> RefersToRepo(refs2, repo)
    {
      assert CrossRef(repo, "").repo == repo;
      SameQuestions(refs1, refs2, CrossRef(repo, ""));
      SameQuestions(refs2, refs1, CrossRef(repo, ""));
    }
    forall repo: string | repo in table.repos
      ensures ServedRight(mounts, refs2, repo, table.repos[repo]) && AliasesRight(refs2, repo, table.repos[repo])
    {
      var s := table.repos[repo];
      assert ServedRight(mounts, refs1, repo, s);
      forall revision: string | true
        ensures AliasRight(refs2, repo, s, revision)
      {
        assert AliasRight(refs1, repo, s, revision);
      }
    }
  }

  lemma SameAliases(refs: seq<Referral>, repo: string, s1: Served, s2: Served)
    requires AliasesRight(refs, repo, s1) && AliasesRight(refs, repo, s2)
    requires s1.own == s2.own && s1.revision == s2.revision
    ensures s1.aliases == s2.aliases
  {
    forall revision: string | true
      ensures revision in s1.aliases <==> revision in s2.aliases
      ensures revision in s1.aliases ==> s1.aliases[revision] == s2.aliases[revision]
    {
      assert AliasRight(refs, repo, s1, revision) && AliasRight(refs, repo, s2, revision);
      if revision in s1.aliases {
        assert s1.aliases[revision].files == s2.aliases[revision].files;
        assert s1.aliases[revision].referencedBy == s2.aliases[revision].referencedBy;
      }
    }
  }

  lemma SameRow(mounts: seq<Mount>, refs: seq<Referral>, repo: string, s1: Served, s2: Served)
    requires ServedRight(mounts, refs, repo, s1) && ServedRight(mounts, refs, repo, s2)
    requires AliasesRight(refs, repo, s1) && AliasesRight(refs, repo, s2)
    requires !TwoMountsClaim(mounts) && !Inconsistent(mounts, refs)
    ensures s1 == s2
  {
    if s1.own {
      OwnMountIsUnique(mounts, repo, s1.mount);
    } else {
      var i :| 0 <= i < |refs| && CrossRefOf(refs[i].ref) == Some(CrossRef(repo, s1.revision));
      var j :| 0 <= j < |refs| && CrossRefOf(refs[j].ref) == Some(CrossRef(repo, s2.revision));
      assert !BadPair(mounts, refs[i].ref, refs[j].ref);
    }
    SameAliases(refs, repo, s1, s2);
  }

  lemma OneTable(mounts: seq<Mount>, refs: seq<Referral>, t1: Table, t2: Table)
    requires Describes(t1, mounts, refs) && Describes(t2, mounts, refs)
    requires !TwoMountsClaim(mounts) && !Inconsistent(mounts, refs)
    ensures t1 == t2
  {
    forall repo: string | true
      ensures repo in t1.repos <==> repo in t2.repos
      ensures repo in t1.repos ==> t1.repos[repo] == t2.repos[repo]
    {
      if repo in t1.repos {
        SameRow(mounts, refs, repo, t1.repos[repo], t2.repos[repo]);
      }
    }
    assert forall cross: CrossRef :: cross in t1.unserved <==> cross in t2.unserved;
  }

  /**
    The order of the references, and how often each occurs, does not matter: neither whether serving
    fails nor the table that comes out depends on it.
   */
  lemma ReferenceOrderIsIrrelevant(mounts: seq<Mount>, refs1: seq<Referral>, refs2: seq<Referral>, t1: Table, t2: Table)
    requires SameReferences(refs1, refs2) && !TwoMountsClaim(mounts)
    ensures Inconsistent(mounts, refs1) <==> Inconsistent(mounts, refs2)
    ensures !Inconsistent(mounts, refs1) && Describes(t1, mounts, refs1) && Describes(t2, mounts, refs2) ==> t1 == t2
  {
    if Inconsistent(mounts, refs1) {
      SameInconsistency(mounts, refs1, refs2);
    } else if Inconsistent(mounts, refs2) {
      SameInconsistency(mounts, refs2, refs1);
    } else if Describes(t1, mounts, refs1) && Describes(t2, mounts, refs2) {
      SameDescription(t2, mounts, refs2, refs1);
      OneTable(mounts, refs1, t1, t2);
    }
  }

  // ----- requests -----------------------------------------------------------------------------

  /** The directory a resolve request is answered from, or None for "not found". */
  function ResolveRequest(table: Table, repo: string, revision: string, path: string): Option<string> {
    if repo !in table.repos then None
    else
      var s := table.repos[repo];
      if revision == s.revision then Some(s.root)
      else if revision !in s.aliases || path !in s.aliases[revision].files then None
      else Some(s.root)
  }

  /** The commit a revision request is answered with. */
  function RevisionRequest(table: Table, repo: string, ref: string): Option<string> {
    if repo !in table.repos then None
    else Some(if ref in table.repos[repo].aliases then ref else table.repos[repo].revision)
  }

  /** A file resolves to its repo's directory at the primary revision, or when a reference names it at another one. */
  lemma ResolvesIff(table: Table, mounts: seq<Mount>, refs: seq<Referral>, repo: string, revision: string, path: string)
    requires Describes(table, mounts, refs)
    ensures ResolveRequest(table, repo, revision, path) ==
            if repo !in table.repos then None
            else
              var s := table.repos[repo];
              if s.mount < |mounts| && (revision == s.revision || (s.own && RefersToFile(refs, CrossRef(repo, revision), path)))
              then mounts[s.mount].root else None
  {
    if repo in table.repos {
      var s, cross := table.repos[repo], CrossRef(repo, revision);
      assert ServedRight(mounts, refs, repo, s) && AliasRight(refs, repo, s, revision);
      if RefersToFile(refs, cross, path) {
        assert RefersTo(refs, cross);
      }
    }
  }

  /** A revision request answers the revision asked for when references name it, and otherwise the primary one. */
  lemma RevisionIff(table: Table, mounts: seq<Mount>, refs: seq<Referral>, repo: string, ref: string)
    requires Describes(table, mounts, refs)
    ensures RevisionRequest(table, repo, ref) ==
            if repo !in table.repos then None
            else if table.repos[repo].own && RefersTo(refs, CrossRef(repo, ref)) then Some(ref)
            else Some(table.repos[repo].revision)
  {
    if repo in table.repos {
      assert AliasRight(refs, repo, table.repos[repo], ref);
    }
  }

  predicate AtPrimary(table: Table, cross: CrossRef) {
    cross.repo in table.repos && table.repos[cross.repo].revision == cross.revision
  }

  predicate AtAlias(table: Table, cross: CrossRef, path: string) {
    && cross.repo in table.repos && table.repos[cross.repo].revision != cross.revision
    && cross.revision in table.repos[cross.repo].aliases
    && path in table.repos[cross.repo].aliases[cross.revision].files
  }

  /**
    Every cross-repo reference of a served manifest has exactly one place: the repo's primary revision,
    an alias whose files hold it and match the mount's own file, or the list of what is not served.  It
    resolves exactly when it is not on that list.
   */
  lemma EachReferenceHasOnePlace(table: Table, mounts: seq<Mount>, refs: seq<Referral>, k: nat)
    requires Describes(table, mounts, refs) && !Inconsistent(mounts, refs)
    requires k < |refs| && CrossRefOf(refs[k].ref).Some?
    ensures var cross, path := CrossRefOf(refs[k].ref).value, refs[k].ref.path;
            && (AtPrimary(table, cross) || AtAlias(table, cross, path) || cross in table.unserved)
            && !(AtPrimary(table, cross) && AtAlias(table, cross, path))
            && (cross in table.unserved ==> cross.repo !in table.repos)
            && (AtAlias(table, cross, path) ==>
                  var mount := table.repos[cross.repo].mount;
                  mount < |mounts| && MatchesOwn(mounts[mount], refs[k].ref))
            && (ResolveRequest(table, cross.repo, cross.revision, path).Some? <==> cross !in table.unserved)
  {
    var cross := CrossRefOf(refs[k].ref).value;
    assert RefersTo(refs, cross) && RefersToRepo(refs, cross.repo);
    if cross.repo in table.repos {
      var s := table.repos[cross.repo];
      assert ServedRight(mounts, refs, cross.repo, s) && AliasRight(refs, cross.repo, s, cross.revision);
      assert !BadRevision(mounts, refs[k].ref);
      if s.own {
        assert RefersToFile(refs, CrossRef(cross.repo, cross.revision), refs[k].ref.path);
      } else {
        var w :| 0 <= w < |refs| && CrossRefOf(refs[w].ref) == Some(CrossRef(cross.repo, s.revision));
        assert !BadPair(mounts, refs[k].ref, refs[w].ref);
      }
    }
  }

  /** Under an alias revision only files some manifest refers to are served. */
  lemma AliasServesOnlyReferenced(table: Table, mounts: seq<Mount>, refs: seq<Referral>, repo: string, revision: string,
                                  path: string)
    requires Describes(table, mounts, refs) && ResolveRequest(table, repo, revision, path).Some?
    ensures table.repos[repo].revision == revision || RefersToFile(refs, CrossRef(repo, revision), path)
  {
    var s := table.repos[repo];
    assert AliasRight(refs, repo, s, revision);
  }

  /** What the revision request answers is a revision at which the repo is served. */
  lemma AnsweredRevisionIsServed(table: Table, mounts: seq<Mount>, refs: seq<Referral>, repo: string, ref: string)
    requires Describes(table, mounts, refs) && RevisionRequest(table, repo, ref).Some?
    ensures var sha := RevisionRequest(table, repo, ref).value;
            table.repos[repo].revision == sha || exists path :: ResolveRequest(table, repo, sha, path).Some?
  {
    var s, sha := table.repos[repo], RevisionRequest(table, repo, ref).value;
    if sha != s.revision {
      assert AliasRight(refs, repo, s, sha);
      var k :| 0 <= k < |refs| && CrossRefOf(refs[k].ref) == Some(CrossRef(repo, sha));
      assert RefersToFile(refs, CrossRef(repo, sha), refs[k].ref.path);
      assert ResolveRequest(table, repo, sha, refs[k].ref.path).Some?;
    }
  }
}
