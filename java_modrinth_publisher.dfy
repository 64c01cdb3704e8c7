/**
 * `ModrinthPublisher` (Java). `publish()` trims the credentials, fetches
 * Modrinth's game-version tags, keeps the remote versions that are among
 * the configured ones, aborts when none is left or when the release type
 * is not exactly one of release/beta/alpha, and otherwise posts the
 * metadata together with every file. Failed calls escape as exceptions.
 */
module JavaModrinthPublisher {
  import opened Wrappers
  import opened Text
  import opened Sequences
  import opened Http
  import opened Publishing
  import opened JavaTypes
  import opened JavaModrinthTypes
  import opened JavaModrinthConfig

  /** One entry of Modrinth's game-version list. */
  datatype GameVersionTag = GameVersionTag(version: string, versionType: string, date: string, major: bool)

  /** One dependency of the version: project id and dependency type. */
  datatype DependencyMetadata = DependencyMetadata(projectId: Option<string>, dependencyType: Option<DependencyType>)

  /** `ModrinthMetadata` (Java). */
  datatype ModrinthMetadata = ModrinthMetadata(
    projectId: string,
    name: Option<string>,
    versionNumber: Option<string>,
    changelog: string,
    gameVersions: seq<string>,
    loaders: seq<LoaderType>,
    releaseChannel: string,
    dependencies: seq<DependencyMetadata>,
    featured: bool,
    status: string,
    fileParts: seq<string>)

  /** `map(GameVersionTag::version)`. */
  function Versions(tags: seq<GameVersionTag>): (vs: seq<string>)
    ensures |vs| == |tags|
    ensures forall i :: 0 <= i < |tags| ==> vs[i] == tags[i].version
  {
    seq(|tags|, i requires 0 <= i < |tags| => tags[i].version)
  }

  /** `filter(extension.getGameVersions()::contains)`. */
  function ConfiguredIn(configured: seq<string>): string -> bool
  {
    v => v in configured
  }

  /** The resolved game versions. */
  function ResolveGameVersions(tags: seq<GameVersionTag>, configured: seq<string>): (vs: seq<string>)
    ensures |vs| <= |tags|
    ensures forall v :: v in vs <==> v in configured && v in Versions(tags)
  {
    Filter(Versions(tags), ConfiguredIn(configured))
  }

  /**
   * The resolved versions are the remote versions that are configured, in
   * remote-list order: the k-th one is the version of the tag at a strictly
   * increasing position, and every remote tag whose version is configured
   * contributes its version.
   */
  lemma ResolvedVersionsInRemoteOrder(tags: seq<GameVersionTag>, configured: seq<string>)
    ensures var vs := ResolveGameVersions(tags, configured);
      var ps := KeptPositions(Versions(tags), ConfiguredIn(configured), 0);
      |ps| == |vs| &&
      (forall k :: 0 <= k < |ps| ==> ps[k] < |tags| && vs[k] == tags[ps[k]].version) &&
      (forall k, l :: 0 <= k < l < |ps| ==> ps[k] < ps[l]) &&
      (forall i :: 0 <= i < |tags| ==> (i in ps <==> tags[i].version in configured))
  {
    FilterKeepsOrder(Versions(tags), ConfiguredIn(configured));
  }

  /** The resolution is empty exactly when no remote version is configured. */
  lemma ResolutionEmptyIff(tags: seq<GameVersionTag>, configured: seq<string>)
    ensures ResolveGameVersions(tags, configured) == [] <==>
      forall i :: 0 <= i < |tags| ==> tags[i].version !in configured
  {
    FilterEmptyIff(Versions(tags), ConfiguredIn(configured));
  }

  /** The dependency record of one declaration: its project id and its type. */
  function DependencyOf(dep: ModrinthDependency): (m: DependencyMetadata)
    ensures ModrinthDependency(m.projectId, m.dependencyType) == dep
  {
    DependencyMetadata(dep.projectId, dep.dependencyType)
  }

  /** The dependency records of the declarations, in container order. */
  function DependencyList(order: seq<string>, deps: map<string, ModrinthDependency>): (list: seq<DependencyMetadata>)
    requires forall k :: k in order ==> k in deps
    ensures |list| == |order|
    ensures forall i :: 0 <= i < |order| ==>
      list[i].projectId == deps[order[i]].projectId && list[i].dependencyType == deps[order[i]].dependencyType
  {
    seq(|order|, i requires 0 <= i < |order| => DependencyOf(deps[order[i]]))
  }

  /**
   * The metadata of the upload: the project id, the extension's display
   * name, version, changelog and loaders, the config's featured flag and
   * status, and the resolved versions, release channel, dependencies and
   * part names computed by `publish`.
   */
  function MetadataFor(projectId: string, ext: Extension, featured: bool, status: string,
                       versions: seq<string>, releaseChannel: string, deps: seq<DependencyMetadata>, fileParts: seq<string>)
    : (m: ModrinthMetadata)
    ensures m.projectId == projectId && m.name == ext.displayName && m.versionNumber == ext.version
    ensures m.changelog == ext.changelog && m.loaders == ext.loaders
    ensures m.featured == featured && m.status == status
    ensures m.gameVersions == versions && m.releaseChannel == releaseChannel
    ensures m.dependencies == deps && m.fileParts == fileParts
  {
    ModrinthMetadata(projectId, ext.displayName, ext.version, ext.changelog, versions, ext.loaders,
                     releaseChannel, deps, featured, status, fileParts)
  }

  const FetchFailurePrefix: string := "Failed to fetch game versions"
  const UploadFailurePrefix: string := "Failed to upload mod to Modrinth: "

  /**
   * `fetchGameVersions`: the decoded tag list of a 2xx answer; otherwise a
   * fetch failure naming the code and the status message, or carrying the
   * transport error's message.
   */
  function FetchGameVersions(fetch: Exchange, decoded: Option<seq<GameVersionTag>>)
    : (r: Result<seq<GameVersionTag>, PublishError>)
    ensures r.Success? <==> Succeeded(fetch) && decoded.Some?
    ensures r.Success? ==> r.value == decoded.value
    ensures !Succeeded(fetch) ==> r.Failure? && r.error.FailedFetchGameVersions?
    ensures fetch.Answered? && !IsSuccessful(fetch.response.code) ==>
      Contains(r.error.message, DecimalString(fetch.response.code)) &&
      Contains(r.error.message, fetch.response.message)
    ensures fetch.IoError? ==> r.error.message == FetchFailurePrefix + fetch.message
  {
    match fetch
    case IoError(message) => Failure(FailedFetchGameVersions(FetchFailurePrefix + message))
    case Answered(response) =>
      if !IsSuccessful(response.code) then
        StatusFailureMentions(FetchFailurePrefix + ": ", response);
        Failure(FailedFetchGameVersions(StatusFailure(FetchFailurePrefix + ": ", response)))
      else if decoded.None? then Failure(MalformedTagList)
      else Success(decoded.value)
  }

  /**
   * How the upload call ends: a 2xx answer is a success; anything else
   * raises an upload failure naming the code and the status message, or
   * carrying the transport error's message.
   */
  function UploadOutcome(upload: Exchange): (o: Outcome)
    ensures o == Uploaded <==> Succeeded(upload)
    ensures o != Uploaded ==> o.Raised? && o.error.FailedFileUpload?
    ensures upload.Answered? && !IsSuccessful(upload.response.code) ==>
      Contains(o.error.message, DecimalString(upload.response.code)) &&
      Contains(o.error.message, upload.response.message)
    ensures upload.IoError? ==> o.error.message == UploadFailurePrefix + upload.message
  {
    match upload
    case IoError(message) => Raised(FailedFileUpload(UploadFailurePrefix + message))
    case Answered(response) =>
      if IsSuccessful(response.code) then Uploaded
      else
        StatusFailureMentions(UploadFailurePrefix, response);
        Raised(FailedFileUpload(StatusFailure(UploadFailurePrefix, response)))
  }

  /**
   * The file parts as the `forEach` adds them: each file under the part
   * name at the position `indexOf` finds it.
   */
  function FilePartsByIndexOf(files: seq<File>, names: seq<string>): (parts: seq<FormPart>)
    requires |names| == |files|
    ensures |parts| == |files|
  {
    seq(|files|, k requires 0 <= k < |files| => FilePart(names[IndexOf(files, files[k])], files[k]))
  }

  /** The files come from a set, so `indexOf` finds each at its own position: file k goes under name k. */
  lemma FilePartsOfDistinctFiles(files: seq<File>, names: seq<string>)
    requires |names| == |files| && NoDuplicates(files)
    ensures FilePartsByIndexOf(files, names) == IndexedFileParts(files, names)
  {
    forall k | 0 <= k < |files|
      ensures FilePartsByIndexOf(files, names)[k] == IndexedFileParts(files, names)[k]
    {
      IndexOfOwnPosition(files, k);
    }
  }

  /** `files.getFiles().forEach(...)`: add one part per file, in iteration order. */
  method AttachFiles(builder: MultipartBuilder, files: seq<File>, names: seq<string>)
    requires |names| == |files|
    modifies builder
    ensures builder.parts == old(builder.parts) + FilePartsByIndexOf(files, names)
  {
    var k := 0;
    while k < |files|
      invariant 0 <= k <= |files|
      invariant builder.parts == old(builder.parts) + FilePartsByIndexOf(files, names)[..k]
    {
      var file := files[k];
      builder.AddFormDataPart(FilePart(names[IndexOf(files, file)], file));
      assert FilePartsByIndexOf(files, names)[..k + 1] == FilePartsByIndexOf(files, names)[..k] + [FilePart(names[IndexOf(files, file)], file)];
      k := k + 1;
    }
    assert FilePartsByIndexOf(files, names)[..k] == FilePartsByIndexOf(files, names);
  }

  /** The metadata part's field name, `Constants.METADATA`. */
  const MetadataPartName: string := "metadata"

  /**
   * `publish()`. An unset token or project id throws before anything else;
   * a failed fetch throws; an empty resolution aborts, and so does a release
   * type that is not exactly in the valid set; otherwise the metadata part
   * and every file part are posted with the trimmed token.
   */
  method Publish(ext: Extension, config: ModrinthConfig, order: seq<string>,
                 fetch: Exchange, decoded: Option<seq<GameVersionTag>>, upload: Exchange)
    returns (run: Run<ModrinthMetadata>)
    requires Enumerates(order, config.dependencies)
    ensures run.AbortsCleanly()
    ensures run.request.Some? ==> run.metadata.Some? && run.fetched
    ensures config.token.None? || config.projectId.None? ==> run == Run(false, None, None, Raised(NullValue))
    ensures config.token.Some? && config.projectId.Some? ==>
      var fetched := FetchGameVersions(fetch, decoded);
      run.fetched &&
      (fetched.Failure? ==> run == Run(true, None, None, Raised(fetched.error))) &&
      (fetched.Success? ==>
        var versions := ResolveGameVersions(fetched.value, ext.gameVersions);
        (versions == [] ==> run == Run(true, None, None, Aborted(NoValidGameVersions))) &&
        (versions != [] && ext.releaseType !in ValidReleaseTypes ==>
          run == Run(true, None, None, Aborted(InvalidReleaseType(ext.releaseType)))) &&
        (versions != [] && ext.releaseType in ValidReleaseTypes ==>
          var names := FilePartNames(|ext.files|);
          run.metadata == Some(MetadataFor(Trim(JavaTrim, config.projectId.value), ext, config.featured, config.status,
                                           versions, ext.releaseType, DependencyList(order, config.dependencies), names)) &&
          run.request == Some(Request(Trim(JavaTrim, config.token.value), None,
                                      [MetadataPart(MetadataPartName)] + FilePartsByIndexOf(ext.files, names))) &&
          run.outcome == UploadOutcome(upload)))
  {
    if config.token.None? || config.projectId.None? {
      return Run(false, None, None, Raised(NullValue));
    }
    var token := Trim(JavaTrim, config.token.value);
    var projectId := Trim(JavaTrim, config.projectId.value);
    var files := ext.files;
    var dependencyList := DependencyList(order, config.dependencies);

    var fetched := FetchGameVersions(fetch, decoded);
    if fetched.Failure? {
      return Run(true, None, None, Raised(fetched.error));
    }
    var versions := ResolveGameVersions(fetched.value, ext.gameVersions);
    if versions == [] {
      return Run(true, None, None, Aborted(NoValidGameVersions));
    }
    var releaseType := ext.releaseType;
    if releaseType !in ValidReleaseTypes {
      return Run(true, None, None, Aborted(InvalidReleaseType(releaseType)));
    }

    var names := FilePartNames(|files|);
    var metadata := MetadataFor(projectId, ext, config.featured, config.status, versions, releaseType, dependencyList, names);

    var builder := new MultipartBuilder();
    builder.AddFormDataPart(MetadataPart(MetadataPartName));
    assert builder.parts == [MetadataPart(MetadataPartName)];
    AttachFiles(builder, files, names);
    var request := Request(token, None, builder.parts);
    run := Run(true, Some(metadata), Some(request), UploadOutcome(upload));
  }
}
