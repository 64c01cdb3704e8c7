/**
 * `ModrinthPublisher` (Kotlin). `publish()` reports missing credentials or
 * files and stops; otherwise it fetches the set of Modrinth game versions
 * (empty on any failure) and stops when it is empty, when a trimmed
 * configured version is not in it, or when the lowercased release type is
 * not release/beta/alpha. Otherwise it posts the metadata under "data"
 * and every file under its positional part name. Upload failures are only
 * logged: nothing escapes `publish`.
 */
module KotlinModrinthPublisher {
  import opened Wrappers
  import opened Text
  import opened Sequences
  import opened Http
  import opened Publishing
  import opened KotlinTypes
  import opened KotlinModrinthTypes
  import opened KotlinModrinthConfig
  import opened KotlinModrinthMetadata

  /** One entry of Modrinth's game-version list. */
  datatype GameVersionTag = GameVersionTag(version: string, versionType: string, date: string, major: bool)

  const Labels: MissingLabels := MissingLabels("Modrinth token", "Project ID", "Files to upload")

  /** Each label names one item, so the log tells which entries are missing. */
  lemma LabelsIdentifyItems(a: ConfigItem, b: ConfigItem)
    ensures Labels.LabelOf(a) == Labels.LabelOf(b) ==> a == b
  {
  }

  /**
   * `fetchValidGameVersions`: the versions of the decoded tags when the
   * answer is 2xx with a non-blank body that decodes; the empty set on a
   * non-2xx answer, a blank body, a decoding failure or a transport error.
   */
  function FetchValidGameVersions(fetch: Exchange, decoded: Option<seq<GameVersionTag>>): (versions: set<string>)
    ensures !Succeeded(fetch) ==> versions == {}
    ensures Succeeded(fetch) && IsBlank(KotlinSpace, fetch.response.body) ==> versions == {}
    ensures decoded.None? ==> versions == {}
    ensures Succeeded(fetch) && !IsBlank(KotlinSpace, fetch.response.body) && decoded.Some? ==>
      forall v :: v in versions <==> exists i :: 0 <= i < |decoded.value| && decoded.value[i].version == v
  {
    if !Succeeded(fetch) then {}
    else if IsBlank(KotlinSpace, fetch.response.body) then {}
    else match decoded
      case None => {}
      case Some(tags) => set i | 0 <= i < |tags| :: tags[i].version
  }

  function NotIn(remote: set<string>): string -> bool
  {
    v => v !in remote
  }

  /** `filterNot { it in validGameVersions }`: the configured versions Modrinth does not know. */
  function InvalidVersions(user: seq<string>, remote: set<string>): (invalid: seq<string>)
    ensures |invalid| <= |user|
    ensures forall v :: v in invalid <==> v in user && v !in remote
  {
    Filter(user, NotIn(remote))
  }

  /** No invalid version exactly when every configured version is known to Modrinth. */
  lemma InvalidVersionsEmptyIff(user: seq<string>, remote: set<string>)
    ensures InvalidVersions(user, remote) == [] <==> forall i :: 0 <= i < |user| ==> user[i] in remote
  {
    FilterEmptyIff(user, NotIn(remote));
  }

  /** Once nothing is invalid, every configured version is one Modrinth knows. */
  lemma AcceptedVersionsAreKnown(user: seq<string>, remote: set<string>)
    requires InvalidVersions(user, remote) == []
    ensures forall v :: v in user ==> v in remote
  {
  }

  /** The invalid versions are reported in configuration order. */
  lemma InvalidVersionsInUserOrder(user: seq<string>, remote: set<string>)
    ensures var invalid := InvalidVersions(user, remote);
      var ps := KeptPositions(user, NotIn(remote), 0);
      |ps| == |invalid| &&
      (forall k :: 0 <= k < |ps| ==> ps[k] < |user| && invalid[k] == user[ps[k]]) &&
      (forall k, l :: 0 <= k < l < |ps| ==> ps[k] < ps[l]) &&
      (forall i :: 0 <= i < |user| ==> (i in ps <==> user[i] !in remote))
  {
    FilterKeepsOrder(user, NotIn(remote));
  }

  /** `releaseType.lowercase() in VALID_RELEASE_TYPES`. */
  predicate ReleaseTypeAccepted(releaseType: string)
  {
    Lowercase(releaseType) in ValidReleaseTypes
  }

  /** The check ignores case: a release type passes exactly when its lowercase form names a `ReleaseType`. */
  lemma ReleaseTypeAcceptedIff(releaseType: string)
    ensures ReleaseTypeAccepted(releaseType) <==> ParseReleaseType(Lowercase(releaseType)).Some?
  {
    ValidReleaseTypesAreReleaseTypeNames(Lowercase(releaseType));
  }

  /** The dependency record of one declaration: its project id and its type. */
  function DependencyOf(dep: ModrinthDependency): (m: DependencyMetadata)
    ensures ModrinthDependency(m.projectId, m.dependencyType) == dep
  {
    DependencyMetadata(dep.projectId, dep.dependencyType)
  }

  /** `dependencies.asMap.values.map { ... }`: the records of the declarations, in container order. */
  function DependencyList(order: seq<string>, deps: map<string, ModrinthDependency>): (list: seq<DependencyMetadata>)
    requires forall k :: k in order ==> k in deps
    ensures |list| == |order|
    ensures forall i :: 0 <= i < |order| ==>
      list[i].projectId == deps[order[i]].projectId && list[i].dependencyType == deps[order[i]].dependencyType
  {
    seq(|order|, i requires 0 <= i < |order| => DependencyOf(deps[order[i]]))
  }

  /**
   * The metadata of the upload. The version number is the extension's
   * version when set, else the Gradle project's version.
   */
  function MetadataFor(projectId: string, ext: Extension, projectVersion: string, featured: bool, status: string,
                       versions: seq<string>, releaseChannel: string, deps: seq<DependencyMetadata>, fileParts: seq<string>)
    : (m: ModrinthMetadata)
    ensures m.projectId == projectId && m.name == ext.displayName
    ensures ext.version.Some? ==> m.versionNumber == ext.version.value
    ensures ext.version.None? ==> m.versionNumber == projectVersion
    ensures m.changelog == ext.changelog && m.loaders == ext.loaders
    ensures m.featured == featured && m.status == status
    ensures m.gameVersions == versions && m.releaseChannel == releaseChannel
    ensures m.dependencies == deps && m.fileParts == fileParts
  {
    var versionNumber := match ext.version case Some(v) => v case None => projectVersion;
    ModrinthMetadata(projectId, ext.displayName, versionNumber, ext.changelog, versions, ext.loaders,
                     releaseChannel, deps, featured, status, fileParts)
  }

  /** `files.forEachIndexed { index, file -> ... }`: file k under `names[k]`. */
  method AttachFiles(builder: MultipartBuilder, files: seq<File>, names: seq<string>)
    requires |names| == |files|
    modifies builder
    ensures builder.parts == old(builder.parts) + IndexedFileParts(files, names)
  {
    var index := 0;
    while index < |files|
      invariant 0 <= index <= |files|
      invariant builder.parts == old(builder.parts) + IndexedFileParts(files, names)[..index]
    {
      var partName := names[index];
      builder.AddFormDataPart(FilePart(partName, files[index]));
      assert IndexedFileParts(files, names)[..index + 1] == IndexedFileParts(files, names)[..index] + [FilePart(partName, files[index])];
      index := index + 1;
    }
    assert IndexedFileParts(files, names)[..index] == IndexedFileParts(files, names);
  }

  /** The metadata part's field name in this revision. */
  const MetadataPartName: string := "data"

  /** A failed upload, whether a non-2xx answer or a transport error, is logged and `publish` returns. */
  function UploadOutcome(upload: Exchange): (o: Outcome)
    ensures o == Uploaded <==> Succeeded(upload)
    ensures o != Uploaded ==> o == UploadFailureLogged
  {
    if Succeeded(upload) then Uploaded else UploadFailureLogged
  }

  /**
   * `publishingToModrinth`: the metadata part, then each file under the part
   * name at its position, posted with the token.
   */
  method PublishingToModrinth(files: seq<File>, filePartNames: seq<string>, token: string, upload: Exchange)
    returns (request: Request, outcome: Outcome)
    requires |filePartNames| == |files|
    ensures request == Request(token, None, [MetadataPart(MetadataPartName)] + IndexedFileParts(files, filePartNames))
    ensures outcome == UploadOutcome(upload)
  {
    var builder := new MultipartBuilder();
    builder.AddFormDataPart(MetadataPart(MetadataPartName));
    assert builder.parts == [MetadataPart(MetadataPartName)];
    AttachFiles(builder, files, filePartNames);
    request := Request(token, None, builder.parts);
    outcome := UploadOutcome(upload);
  }

  /**
   * `publish()`, given the Gradle project's version. Every stop is a logged
   * abort; the metadata carries the trimmed configured versions, each of
   * which Modrinth knows, and the lowercased release type.
   */
  method Publish(ext: Extension, config: ModrinthConfig, projectVersion: string, order: seq<string>,
                 fetch: Exchange, decoded: Option<seq<GameVersionTag>>, upload: Exchange)
    returns (run: Run<ModrinthMetadata>)
    requires Enumerates(order, config.dependencies)
    ensures run.AbortsCleanly()
    ensures !run.outcome.Raised?
    ensures run.request.Some? ==> run.metadata.Some? && run.fetched
    ensures
      var token := TrimOrNull(config.token);
      var projectId := TrimOrNull(config.projectId);
      var missing := MissingItems(token, projectId, ext.files != []);
      (missing != [] ==> run == Run(false, None, None, Aborted(MissingConfiguration(Labels.LabelsOf(missing))))) &&
      (missing == [] ==>
        var remote := FetchValidGameVersions(fetch, decoded);
        var user := TrimAll(ext.gameVersions);
        var invalid := InvalidVersions(user, remote);
        var releaseType := Lowercase(ext.releaseType);
        (remote == {} ==> run == Run(true, None, None, Aborted(NoRemoteGameVersions))) &&
        (remote != {} && invalid != [] ==> run == Run(true, None, None, Aborted(InvalidGameVersions(invalid)))) &&
        (remote != {} && invalid == [] && releaseType !in ValidReleaseTypes ==>
          run == Run(true, None, None, Aborted(InvalidReleaseType(releaseType)))) &&
        (remote != {} && invalid == [] && releaseType in ValidReleaseTypes ==>
          var names := FilePartNames(|ext.files|);
          (forall v :: v in user ==> v in remote) &&
          run.metadata == Some(MetadataFor(projectId.value, ext, projectVersion, config.featured, config.status,
                                           user, releaseType, DependencyList(order, config.dependencies), names)) &&
          run.request == Some(Request(token.value, None, [MetadataPart(MetadataPartName)] + IndexedFileParts(ext.files, names))) &&
          run.outcome == UploadOutcome(upload)))
  {
    var token := TrimOrNull(config.token);
    var projectId := TrimOrNull(config.projectId);
    var files := ext.files;

    var missing := MissingItems(token, projectId, files != []);
    if missing != [] {
      return Run(false, None, None, Aborted(MissingConfiguration(Labels.LabelsOf(missing))));
    }

    var validGameVersions := FetchValidGameVersions(fetch, decoded);
    if validGameVersions == {} {
      return Run(true, None, None, Aborted(NoRemoteGameVersions));
    }

    var userGameVersions := TrimAll(ext.gameVersions);
    var invalidVersions := InvalidVersions(userGameVersions, validGameVersions);
    if invalidVersions != [] {
      return Run(true, None, None, Aborted(InvalidGameVersions(invalidVersions)));
    }
    AcceptedVersionsAreKnown(userGameVersions, validGameVersions);

    var releaseType := Lowercase(ext.releaseType);
    if releaseType !in ValidReleaseTypes {
      return Run(true, None, None, Aborted(InvalidReleaseType(releaseType)));
    }

    var dependencyList := DependencyList(order, config.dependencies);
    var filePartNames := FilePartNames(|files|);
    var metadata := MetadataFor(projectId.value, ext, projectVersion, config.featured, config.status,
                                userGameVersions, releaseType, dependencyList, filePartNames);
    var request, outcome := PublishingToModrinth(files, filePartNames, token.value, upload);
    run := Run(true, Some(metadata), Some(request), outcome);
  }
}
