/**
 * `CurseforgePublisher` (Kotlin). `publish()` reports missing credentials or
 * files and stops; otherwise it fetches CurseForge's game-version tags
 * (an empty list on any failure), resolves each trimmed configured version
 * to the id of the first tag whose name matches it ignoring case, and
 * stops when nothing resolves. Otherwise it builds the metadata, with the
 * relations always present, and uploads it with the first file only.
 * Upload failures are only logged: nothing escapes `publish`.
 */
module KotlinCurseforgePublisher {
  import opened Wrappers
  import opened Text
  import opened Sequences
  import opened Http
  import opened Publishing
  import opened KotlinTypes
  import opened KotlinCurseforgeTypes
  import opened KotlinCurseforgeConfig

  /** One entry of CurseForge's game-version list. */
  datatype GameVersionTag = GameVersionTag(id: int, gameVersionTypeId: int, name: string, slug: string)

  const Labels: MissingLabels := MissingLabels("CurseForge token", "Project ID", "File to upload (CurseForge allows only one)")

  /** Each label names one item, so the log tells which entries are missing. */
  lemma LabelsIdentifyItems(a: ConfigItem, b: ConfigItem)
    ensures Labels.LabelOf(a) == Labels.LabelOf(b) ==> a == b
  {
  }

  /**
   * One related project as the publisher builds it: no slug, the declared
   * (integer) project id and the declared relation.
   */
  datatype Relation = Relation(slug: Option<string>, projectId: Option<int>, relationType: RelationType)

  /**
   * The metadata the publisher builds: the resolved integer ids, the
   * configured release type as written, and the relations, which are
   * always present (`Projects(relations)`, possibly empty).
   */
  datatype Metadata = Metadata(
    changelog: string,
    changelogType: ChangelogType,
    displayName: Option<string>,
    gameVersions: seq<int>,
    releaseType: string,
    isMarkedForManualRelease: bool,
    relations: seq<Relation>)

  /**
   * `fetchValidGameVersions`: the decoded tags when the answer is 2xx with
   * a non-blank body that decodes; the empty list on a non-2xx answer, a
   * blank body, a decoding failure or a transport error.
   */
  function FetchValidGameVersions(fetch: Exchange, decoded: Option<seq<GameVersionTag>>): (tags: seq<GameVersionTag>)
    ensures !Succeeded(fetch) ==> tags == []
    ensures Succeeded(fetch) && IsBlank(KotlinSpace, fetch.response.body) ==> tags == []
    ensures decoded.None? ==> tags == []
    ensures Succeeded(fetch) && !IsBlank(KotlinSpace, fetch.response.body) && decoded.Some? ==> tags == decoded.value
    ensures tags != [] ==> Succeeded(fetch) && !IsBlank(KotlinSpace, fetch.response.body) && decoded == Some(tags)
  {
    if !Succeeded(fetch) then []
    else if IsBlank(KotlinSpace, fetch.response.body) then []
    else match decoded
      case None => []
      case Some(tags) => tags
  }

  /**
   * `firstOrNull { it.name.equals(name, ignoreCase = true) }`: the position
   * of the first tag whose name matches, or none when no tag does.
   */
  function FirstMatch(tags: seq<GameVersionTag>, name: string): (r: Option<nat>)
    ensures r.Some? ==> r.value < |tags| && EqualsIgnoreCase(tags[r.value].name, name)
    ensures r.Some? ==> forall j :: 0 <= j < r.value ==> !EqualsIgnoreCase(tags[j].name, name)
    ensures r.None? <==> forall j :: 0 <= j < |tags| ==> !EqualsIgnoreCase(tags[j].name, name)
  {
    if tags == [] then None
    else if EqualsIgnoreCase(tags[0].name, name) then Some(0)
    else match FirstMatch(tags[1..], name)
      case None => None
      case Some(k) => Some(k + 1)
  }

  /**
   * `userVersions.mapNotNull { ... ?.id }`: for each configured version in
   * order, the id of its first matching tag; versions without a match are
   * dropped.
   */
  function ResolveVersionIds(tags: seq<GameVersionTag>, user: seq<string>): (ids: seq<int>)
    ensures |ids| <= |user|
    ensures forall id :: id in ids ==> exists j :: 0 <= j < |tags| && tags[j].id == id
  {
    if user == [] then []
    else
      var head := match FirstMatch(tags, user[0]) case None => [] case Some(k) => [tags[k].id];
      head + ResolveVersionIds(tags, user[1..])
  }

  /** A configured version resolves when some tag matches it. */
  function HasMatch(tags: seq<GameVersionTag>): string -> bool
  {
    name => FirstMatch(tags, name).Some?
  }

  /** The id of the first tag matching a version that has one. */
  function MatchId(tags: seq<GameVersionTag>, name: string): int
    requires FirstMatch(tags, name).Some?
  {
    tags[FirstMatch(tags, name).value].id
  }

  /** The ids of the first matches of versions that all have one. */
  function MatchedIds(tags: seq<GameVersionTag>, names: seq<string>): (ids: seq<int>)
    requires forall i :: 0 <= i < |names| ==> FirstMatch(tags, names[i]).Some?
    ensures |ids| == |names|
  {
    seq(|names|, i requires 0 <= i < |names| => MatchId(tags, names[i]))
  }

  /** Matching a version in front of others puts its id in front of theirs. */
  lemma MatchedIdsCons(tags: seq<GameVersionTag>, name: string, rest: seq<string>)
    requires FirstMatch(tags, name).Some?
    requires forall i :: 0 <= i < |rest| ==> FirstMatch(tags, rest[i]).Some?
    ensures forall i :: 0 <= i < |[name] + rest| ==> FirstMatch(tags, ([name] + rest)[i]).Some?
    ensures MatchedIds(tags, [name] + rest) == [MatchId(tags, name)] + MatchedIds(tags, rest)
  {
  }

  /**
   * Reference definition: the resolution keeps the versions that have a
   * match, in order, and replaces each by its first match's id.
   */
  lemma {:induction false} ResolveIsFilterThenMap(tags: seq<GameVersionTag>, user: seq<string>)
    ensures forall i :: 0 <= i < |Filter(user, HasMatch(tags))| ==> FirstMatch(tags, Filter(user, HasMatch(tags))[i]).Some?
    ensures ResolveVersionIds(tags, user) == MatchedIds(tags, Filter(user, HasMatch(tags)))
  {
    var p := HasMatch(tags);
    var kept := Filter(user, p);
    assert forall i :: 0 <= i < |kept| ==> p(kept[i]) by {
      forall i | 0 <= i < |kept| ensures p(kept[i]) { assert kept[i] in kept; }
    }
    if user != [] {
      ResolveIsFilterThenMap(tags, user[1..]);
      var rest := Filter(user[1..], p);
      assert kept == (if p(user[0]) then [user[0]] else []) + rest;
      if p(user[0]) {
        MatchedIdsCons(tags, user[0], rest);
      } else {
        assert MatchedIds(tags, kept) == MatchedIds(tags, rest);
      }
    }
  }

  /**
   * The resolved ids follow the configured versions: the k-th id belongs
   * to the k-th configured version that has a match, it is the id of that
   * version's first matching tag, and every version with a match
   * contributes.
   */
  lemma ResolvedIdsFollowUserOrder(tags: seq<GameVersionTag>, user: seq<string>)
    ensures var ids := ResolveVersionIds(tags, user);
      var ps := KeptPositions(user, HasMatch(tags), 0);
      |ps| == |ids| &&
      (forall k :: 0 <= k < |ps| ==>
        ps[k] < |user| && FirstMatch(tags, user[ps[k]]).Some? &&
        ids[k] == tags[FirstMatch(tags, user[ps[k]]).value].id) &&
      (forall k, l :: 0 <= k < l < |ps| ==> ps[k] < ps[l]) &&
      (forall i :: 0 <= i < |user| ==> (i in ps <==> exists j :: 0 <= j < |tags| && EqualsIgnoreCase(tags[j].name, user[i])))
  {
    ResolveIsFilterThenMap(tags, user);
    FilterKeepsOrder(user, HasMatch(tags));
  }

  /** Nothing resolves exactly when no tag matches any configured version. */
  lemma ResolutionEmptyIff(tags: seq<GameVersionTag>, user: seq<string>)
    ensures ResolveVersionIds(tags, user) == [] <==>
      forall i, j :: 0 <= i < |user| && 0 <= j < |tags| ==> !EqualsIgnoreCase(tags[j].name, user[i])
  {
    ResolveIsFilterThenMap(tags, user);
    FilterEmptyIff(user, HasMatch(tags));
  }

  /** The tags' classification and slug play no part in finding a match. */
  lemma {:induction false} FirstMatchIgnoresClassification(a: seq<GameVersionTag>, b: seq<GameVersionTag>, name: string)
    requires |a| == |b|
    requires forall j :: 0 <= j < |a| ==> a[j].name == b[j].name
    ensures FirstMatch(a, name) == FirstMatch(b, name)
  {
    if a != [] {
      FirstMatchIgnoresClassification(a[1..], b[1..], name);
    }
  }

  /**
   * Only names and ids matter: relabelling the tags' classification or
   * slug never changes the resolution (there is no classification filter).
   */
  lemma {:induction false} ResolutionIgnoresClassification(a: seq<GameVersionTag>, b: seq<GameVersionTag>, user: seq<string>)
    requires |a| == |b|
    requires forall j :: 0 <= j < |a| ==> a[j].name == b[j].name && a[j].id == b[j].id
    ensures ResolveVersionIds(a, user) == ResolveVersionIds(b, user)
  {
    if user != [] {
      FirstMatchIgnoresClassification(a, b, user[0]);
      ResolutionIgnoresClassification(a, b, user[1..]);
    }
  }

  /**
   * Two tags named "1.20.1": the first wins whatever its classification,
   * and "1.21-Snapshot" matches a configured "1.21-snapshot".
   */
  lemma FirstMatchWinsExample()
    ensures ResolveVersionIds(
      [GameVersionTag(1, 1, "1.20.1", "1-20-1"), GameVersionTag(9990, 77784, "1.20.1", "1-20-1"),
       GameVersionTag(9991, 77784, "1.21-Snapshot", "1-21-snapshot")],
      ["1.20.1", "1.19", "1.21-snapshot"]) == [1, 9991]
  {
    var tags := [GameVersionTag(1, 1, "1.20.1", "1-20-1"), GameVersionTag(9990, 77784, "1.20.1", "1-20-1"),
                 GameVersionTag(9991, 77784, "1.21-Snapshot", "1-21-snapshot")];
    var user := ["1.20.1", "1.19", "1.21-snapshot"];
    assert FirstMatch(tags, "1.20.1") == Some(0);
    assert !EqualsIgnoreCase(tags[0].name, "1.19") && !EqualsIgnoreCase(tags[2].name, "1.19");
    assert FirstMatch(tags, "1.19") == None;
    assert !EqualsIgnoreCase(tags[0].name, "1.21-snapshot") && !EqualsIgnoreCase(tags[1].name, "1.21-snapshot");
    assert EqualsIgnoreCase(tags[2].name, "1.21-snapshot");
    assert FirstMatch(tags, "1.21-snapshot") == Some(2);
    assert user[1..][1..][1..] == [];
  }

  /** The relation of one declaration: no slug, its project id and its relation type. */
  function RelationOf(dep: CurseForgeDependency): (r: Relation)
    ensures r.slug.None?
    ensures CurseForgeDependency(r.projectId, r.relationType) == dep
  {
    Relation(None, dep.projectId, dep.relationType)
  }

  /** `dependencies.asMap.values.map { ... }`: one relation per declaration, in container order. */
  function RelationList(order: seq<string>, deps: map<string, CurseForgeDependency>): (list: seq<Relation>)
    requires forall k :: k in order ==> k in deps
    ensures |list| == |order|
    ensures forall i :: 0 <= i < |order| ==>
      list[i].slug.None? && list[i].projectId == deps[order[i]].projectId && list[i].relationType == deps[order[i]].relationType
  {
    seq(|order|, i requires 0 <= i < |order| => RelationOf(deps[order[i]]))
  }

  /** Every declaration, and only those, appears among the relations. */
  lemma RelationsCoverDeclarations(order: seq<string>, deps: map<string, CurseForgeDependency>)
    requires Enumerates(order, deps)
    ensures |RelationList(order, deps)| == |deps|
    ensures forall k :: k in deps ==> RelationOf(deps[k]) in RelationList(order, deps)
  {
    var list := RelationList(order, deps);
    forall k | k in deps ensures RelationOf(deps[k]) in list {
      var i :| 0 <= i < |order| && order[i] == k;
      assert list[i] == RelationOf(deps[k]);
    }
    EnumerationSize(order, deps);
  }

  /**
   * `CurseforgeMetadata(...)` as the publisher calls it: the changelog,
   * display name and release type of the extension, the changelog type and
   * manual-release flag of the configuration, the resolved ids and the
   * relations.
   */
  function MetadataFor(ext: Extension, changelogType: ChangelogType, manualRelease: bool,
                       ids: seq<int>, relations: seq<Relation>)
    : (m: Metadata)
    ensures m.changelog == ext.changelog && m.displayName == ext.displayName && m.releaseType == ext.releaseType
    ensures m.changelogType == changelogType && m.isMarkedForManualRelease == manualRelease
    ensures m.gameVersions == ids && m.relations == relations
  {
    Metadata(ext.changelog, changelogType, ext.displayName, ids, ext.releaseType, manualRelease, relations)
  }

  /** The metadata part's field name. */
  const MetadataPartName: string := "metadata"

  /** A failed upload, whether a non-2xx answer or a transport error, is logged and `publish` returns. */
  function UploadOutcome(upload: Exchange): (o: Outcome)
    ensures o == Uploaded <==> Succeeded(upload)
    ensures o != Uploaded ==> o == UploadFailureLogged
  {
    if Succeeded(upload) then Uploaded else UploadFailureLogged
  }

  /**
   * `publishingToCurseforge`: the metadata part, then the first file under
   * "file", posted to the project with the token; with no file `first()`
   * throws before anything is sent.
   */
  method PublishingToCurseforge(files: seq<File>, projectId: string, token: string, upload: Exchange)
    returns (request: Option<Request>, outcome: Outcome)
    ensures files == [] ==> request.None? && outcome == Raised(NoSuchElement)
    ensures files != [] ==>
      request == Some(Request(token, Some(projectId), [MetadataPart(MetadataPartName), FilePart("file", files[0])])) &&
      outcome == UploadOutcome(upload)
  {
    var builder := new MultipartBuilder();
    builder.AddFormDataPart(MetadataPart(MetadataPartName));
    if files == [] {
      return None, Raised(NoSuchElement);
    }
    var file := files[0];
    builder.AddFormDataPart(FilePart("file", file));
    assert builder.parts == [MetadataPart(MetadataPartName), FilePart("file", file)];
    request := Some(Request(token, Some(projectId), builder.parts));
    outcome := UploadOutcome(upload);
  }

  /**
   * `publish()`. Every stop is a logged abort; a run that uploads sends the
   * metadata with the resolved ids and the first file only, to the trimmed
   * project id with the trimmed token.
   */
  method Publish(ext: Extension, config: CurseforgeConfig, order: seq<string>,
                 fetch: Exchange, decoded: Option<seq<GameVersionTag>>, upload: Exchange)
    returns (run: Run<Metadata>)
    requires Enumerates(order, config.dependencies)
    ensures run.AbortsCleanly()
    ensures !run.outcome.Raised?
    ensures run.request.Some? ==> run.metadata.Some? && run.fetched
    ensures
      var token := TrimOrNull(config.token);
      var projectId := TrimOrNull(config.projectId);
      var missing := MissingItems(token, projectId, ext.files != []);
      (missing != [] ==> run == Run(false, None, None, Aborted(MissingConfiguration(Labels.LabelsOf(missing))))) &&
      (missing == [] ==>
        var ids := ResolveVersionIds(FetchValidGameVersions(fetch, decoded), TrimAll(ext.gameVersions));
        (ids == [] ==> run == Run(true, None, None, Aborted(NoValidGameVersions))) &&
        (ids != [] ==>
          run.metadata == Some(MetadataFor(ext, config.changelogType, config.manualRelease, ids,
                                           RelationList(order, config.dependencies))) &&
          run.request == Some(Request(token.value, Some(projectId.value),
                                      [MetadataPart(MetadataPartName), FilePart("file", ext.files[0])])) &&
          run.outcome == UploadOutcome(upload)))
  {
    var token := TrimOrNull(config.token);
    var projectId := TrimOrNull(config.projectId);
    var files := ext.files;

    var missing := MissingItems(token, projectId, files != []);
    if missing != [] {
      return Run(false, None, None, Aborted(MissingConfiguration(Labels.LabelsOf(missing))));
    }
    assert token.Some? && projectId.Some? && files != [];

    var validVersions := FetchValidGameVersions(fetch, decoded);
    var userVersions := TrimAll(ext.gameVersions);
    var resolvedVersionIds := ResolveVersionIds(validVersions, userVersions);
    if resolvedVersionIds == [] {
      return Run(true, None, None, Aborted(NoValidGameVersions));
    }

    var relations := RelationList(order, config.dependencies);
    var metadata := MetadataFor(ext, config.changelogType, config.manualRelease, resolvedVersionIds, relations);
    var request, outcome := PublishingToCurseforge(files, projectId.value, token.value, upload);
    assert request == Some(Request(token.value, Some(projectId.value), [MetadataPart(MetadataPartName), FilePart("file", files[0])]));
    run := Run(true, Some(metadata), request, outcome);
  }
}
