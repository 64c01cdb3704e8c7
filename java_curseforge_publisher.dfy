/**
 * `CurseforgePublisher` (Java). `publish()` trims the credentials, fetches
 * CurseForge's game-version tags, keeps the ids of the tags that are of an
 * accepted classification and whose name is a configured game version or
 * the label of a configured loader or environment, aborts when none is
 * left, builds the upload metadata and posts it with the first file.
 * Failed calls escape as exceptions.
 */
module JavaCurseforgePublisher {
  import opened Wrappers
  import opened Text
  import opened Sequences
  import opened Http
  import opened Publishing
  import opened JavaTypes
  import opened JavaCurseforgeTypes
  import opened JavaCurseforgeConfig

  /** One entry of CurseForge's game-version list. */
  datatype GameVersionTag = GameVersionTag(id: int, gameVersionTypeId: int, name: string, slug: string)

  /** One relation of the upload: a slug and a relation type (written under the key "type"). */
  datatype ProjectsMetadata = ProjectsMetadata(slug: Option<string>, relationType: Option<RelationType>)

  datatype Projects = Projects(projects: seq<ProjectsMetadata>)

  /** `new Projects()`: the no-argument constructor holds no relations. */
  function NoProjects(): (p: Projects)
    ensures |p.projects| == 0
  {
    Projects([])
  }

  /** The fields of `ProjectsMetadata` and the JSON keys Gson writes for them. */
  datatype RelationField = SlugField | RelationTypeField

  function RelationFieldKey(f: RelationField): string
  {
    match f
    case SlugField => "slug"
    case RelationTypeField => "type"
  }

  function ParseRelationFieldKey(key: string): (r: Option<RelationField>)
    ensures r.Some? ==> RelationFieldKey(r.value) == key
    ensures forall f :: RelationFieldKey(f) == key ==> r == Some(f)
  {
    if key == "slug" then Some(SlugField)
    else if key == "type" then Some(RelationTypeField)
    else None
  }

  /** `CurseforgeMetadata` (Java); `relations` is absent (null) unless set. */
  datatype CurseforgeMetadata = CurseforgeMetadata(
    changelog: string,
    changelogType: ChangelogType,
    displayName: Option<string>,
    gameVersions: seq<int>,
    releaseType: string,
    isMarkedForManualRelease: bool,
    relations: Option<Projects>)

  /** `mapLoaderToCF`: CurseForge's label for a loader. */
  function LoaderLabel(l: LoaderType): string
  {
    match l
    case Fabric => "Fabric"
    case Quilt => "Quilt"
    case Forge => "Forge"
    case NeoForge => "NeoForge"
  }

  /** The loader a CurseForge label stands for; the labels are pairwise distinct. */
  function ParseLoaderLabel(name: string): (r: Option<LoaderType>)
    ensures r.Some? ==> LoaderLabel(r.value) == name
    ensures forall l :: LoaderLabel(l) == name ==> r == Some(l)
  {
    if name == "Fabric" then Some(Fabric)
    else if name == "Quilt" then Some(Quilt)
    else if name == "Forge" then Some(Forge)
    else if name == "NeoForge" then Some(NeoForge)
    else None
  }

  /** `mapEnvironmentToCF`: CurseForge's label for an environment. */
  function EnvironmentLabel(e: EnvironmentType): string
  {
    match e
    case Client => "Client"
    case Server => "Server"
  }

  function ParseEnvironmentLabel(name: string): (r: Option<EnvironmentType>)
    ensures r.Some? ==> EnvironmentLabel(r.value) == name
    ensures forall e :: EnvironmentLabel(e) == name ==> r == Some(e)
  {
    if name == "Client" then Some(Client)
    else if name == "Server" then Some(Server)
    else None
  }

  /** No loader label is also an environment label. */
  lemma LabelTablesDisjoint(l: LoaderType, e: EnvironmentType)
    ensures LoaderLabel(l) != EnvironmentLabel(e)
  {
    assert ParseLoaderLabel(EnvironmentLabel(e)).None?;
  }

  /** The desired loader labels: each configured loader's label, in order. */
  function LoaderLabels(loaders: seq<LoaderType>): (labels: seq<string>)
    ensures |labels| == |loaders|
    ensures forall i :: 0 <= i < |loaders| ==> ParseLoaderLabel(labels[i]) == Some(loaders[i])
  {
    seq(|loaders|, i requires 0 <= i < |loaders| => LoaderLabel(loaders[i]))
  }

  /** The desired environment labels: each configured environment's label, in order. */
  function EnvironmentLabels(envs: seq<EnvironmentType>): (labels: seq<string>)
    ensures |labels| == |envs|
    ensures forall i :: 0 <= i < |envs| ==> ParseEnvironmentLabel(labels[i]) == Some(envs[i])
  {
    seq(|envs|, i requires 0 <= i < |envs| => EnvironmentLabel(envs[i]))
  }

  /** The classification codes a usable tag carries. */
  const AcceptedVersionTypes: set<int> := {77784, 68441, 75208}

  /**
   * The two filters of the resolution: an accepted classification, and a
   * name that is exactly (case-sensitively) a desired version, loader label
   * or environment label.
   */
  predicate Wanted(tag: GameVersionTag, versions: seq<string>, loaderLabels: seq<string>, envLabels: seq<string>)
  {
    tag.gameVersionTypeId in AcceptedVersionTypes &&
    (tag.name in versions || tag.name in loaderLabels || tag.name in envLabels)
  }

  function WantedBy(versions: seq<string>, loaders: seq<LoaderType>, envs: seq<EnvironmentType>): GameVersionTag -> bool
  {
    var loaderLabels := LoaderLabels(loaders);
    var envLabels := EnvironmentLabels(envs);
    t => Wanted(t, versions, loaderLabels, envLabels)
  }

  /** `map(GameVersionTag::id)`. */
  function Ids(tags: seq<GameVersionTag>): (ids: seq<int>)
    ensures |ids| == |tags|
    ensures forall i :: 0 <= i < |tags| ==> ids[i] == tags[i].id
  {
    seq(|tags|, i requires 0 <= i < |tags| => tags[i].id)
  }

  /** The resolved CurseForge game-version ids. */
  function ResolveGameVersionIds(tags: seq<GameVersionTag>, versions: seq<string>, loaders: seq<LoaderType>, envs: seq<EnvironmentType>)
    : (ids: seq<int>)
    ensures |ids| <= |tags|
  {
    Ids(Filter(tags, WantedBy(versions, loaders, envs)))
  }

  /** The positions in the remote list of the tags the resolution keeps. */
  ghost function ResolvedPositions(tags: seq<GameVersionTag>, versions: seq<string>, loaders: seq<LoaderType>, envs: seq<EnvironmentType>)
    : seq<nat>
  {
    KeptPositions(tags, WantedBy(versions, loaders, envs), 0)
  }

  /**
   * The resolved ids are the ids of exactly the wanted tags, in remote-list
   * order: the k-th id comes from a wanted tag (so one of an accepted
   * classification) at a strictly increasing position, and every wanted tag
   * contributes its id.
   */
  lemma ResolvedIdsAreWantedTagsInOrder(tags: seq<GameVersionTag>, versions: seq<string>, loaders: seq<LoaderType>, envs: seq<EnvironmentType>)
    ensures var ids := ResolveGameVersionIds(tags, versions, loaders, envs);
      var ps := ResolvedPositions(tags, versions, loaders, envs);
      var loaderLabels := LoaderLabels(loaders);
      var envLabels := EnvironmentLabels(envs);
      |ps| == |ids| &&
      (forall k :: 0 <= k < |ps| ==>
        ps[k] < |tags| && ids[k] == tags[ps[k]].id && Wanted(tags[ps[k]], versions, loaderLabels, envLabels)) &&
      (forall k, l :: 0 <= k < l < |ps| ==> ps[k] < ps[l]) &&
      (forall i :: 0 <= i < |tags| ==> (i in ps <==> Wanted(tags[i], versions, loaderLabels, envLabels)))
  {
    var p := WantedBy(versions, loaders, envs);
    FilterKeepsOrder(tags, p);
  }

  /** Every resolved id is the id of a remote tag of an accepted classification. */
  lemma ResolvedIdsHaveAcceptedClassification(tags: seq<GameVersionTag>, versions: seq<string>, loaders: seq<LoaderType>, envs: seq<EnvironmentType>, id: int)
    requires id in ResolveGameVersionIds(tags, versions, loaders, envs)
    ensures exists i :: 0 <= i < |tags| && tags[i].id == id && tags[i].gameVersionTypeId in AcceptedVersionTypes
  {
    ResolvedIdsAreWantedTagsInOrder(tags, versions, loaders, envs);
    var ids := ResolveGameVersionIds(tags, versions, loaders, envs);
    var ps := ResolvedPositions(tags, versions, loaders, envs);
    var k :| 0 <= k < |ids| && ids[k] == id;
    assert tags[ps[k]].id == id;
  }

  /** The resolution is empty exactly when no remote tag is wanted. */
  lemma ResolutionEmptyIff(tags: seq<GameVersionTag>, versions: seq<string>, loaders: seq<LoaderType>, envs: seq<EnvironmentType>)
    ensures ResolveGameVersionIds(tags, versions, loaders, envs) == [] <==>
      forall t :: t in tags ==> !Wanted(t, versions, LoaderLabels(loaders), EnvironmentLabels(envs))
  {
    FilterEmptyIff(tags, WantedBy(versions, loaders, envs));
  }

  /** A tag named like a wanted version but of another classification contributes nothing. */
  lemma ClassificationFilterExample()
    ensures ResolveGameVersionIds(
      [GameVersionTag(1, 1, "1.20.1", "1-20-1"), GameVersionTag(9990, 77784, "1.20.1", "1-20-1")],
      ["1.20.1"], [], []) == [9990]
  {
    var tags := [GameVersionTag(1, 1, "1.20.1", "1-20-1"), GameVersionTag(9990, 77784, "1.20.1", "1-20-1")];
    var p := WantedBy(["1.20.1"], [], []);
    assert !p(tags[0]) && p(tags[1]);
    assert tags[1..][1..] == [];
    assert Filter(tags, p) == [tags[1]];
  }

  /** The relation record of one declaration: its slug and its relation type. */
  function RelationOf(dep: CurseforgeDependency): (m: ProjectsMetadata)
    ensures CurseforgeDependency(m.slug, m.relationType) == dep
  {
    ProjectsMetadata(dep.slug, dep.relationType)
  }

  /** The relation records of the declarations, in container order. */
  function DependencyList(order: seq<string>, deps: map<string, CurseforgeDependency>): (list: seq<ProjectsMetadata>)
    requires forall k :: k in order ==> k in deps
    ensures |list| == |order|
    ensures forall i :: 0 <= i < |order| ==>
      list[i].slug == deps[order[i]].slug && list[i].relationType == deps[order[i]].relationType
  {
    seq(|order|, i requires 0 <= i < |order| => RelationOf(deps[order[i]]))
  }

  /**
   * `curseforgeMetadata`: changelog, display name and release type from the
   * extension, changelog type and manual-release flag from the config, the
   * resolved ids, and the relations only when there are any.
   */
  function MetadataFor(ext: Extension, changelogType: ChangelogType, manualRelease: bool, ids: seq<int>, deps: seq<ProjectsMetadata>)
    : (m: CurseforgeMetadata)
    ensures m.changelog == ext.changelog && m.changelogType == changelogType
    ensures m.displayName == ext.displayName && m.releaseType == ext.releaseType
    ensures m.isMarkedForManualRelease == manualRelease && m.gameVersions == ids
    ensures m.relations.Some? <==> |deps| > 0
    ensures m.relations.Some? ==> m.relations.value.projects == deps
  {
    var built := CurseforgeMetadata(ext.changelog, changelogType, ext.displayName, ids, ext.releaseType, manualRelease, None);
    if |deps| > 0 then built.(relations := Some(Projects(deps))) else built
  }

  const FetchFailurePrefix: string := "Failed to fetch game versions"
  const UploadFailurePrefix: string := "Failed to upload mod to Curseforge: "

  /**
   * `fetchGameVersions`: the decoded tag list of a 2xx answer; otherwise a
   * fetch failure naming the code, the status message and the body, or
   * carrying the transport error's message.
   */
  function FetchGameVersions(fetch: Exchange, decoded: Option<seq<GameVersionTag>>)
    : (r: Result<seq<GameVersionTag>, PublishError>)
    ensures r.Success? <==> Succeeded(fetch) && decoded.Some?
    ensures r.Success? ==> r.value == decoded.value
    ensures !Succeeded(fetch) ==> r.Failure? && r.error.FailedFetchGameVersions?
    ensures fetch.Answered? && !IsSuccessful(fetch.response.code) ==>
      Contains(r.error.message, DecimalString(fetch.response.code)) &&
      Contains(r.error.message, fetch.response.message) &&
      Contains(r.error.message, fetch.response.body)
    ensures fetch.IoError? ==> r.error.message == FetchFailurePrefix + fetch.message
  {
    match fetch
    case IoError(message) => Failure(FailedFetchGameVersions(FetchFailurePrefix + message))
    case Answered(response) =>
      if !IsSuccessful(response.code) then
        StatusFailureWithBodyMentions(FetchFailurePrefix + ": ", response);
        Failure(FailedFetchGameVersions(StatusFailureWithBody(FetchFailurePrefix + ": ", response)))
      else if decoded.None? then Failure(MalformedTagList)
      else Success(decoded.value)
  }

  /**
   * How the upload call ends: a 2xx answer is a success; anything else
   * raises an upload failure naming the code, the status message and the
   * body, or carrying the transport error's message.
   */
  function UploadOutcome(upload: Exchange): (o: Outcome)
    ensures o == Uploaded <==> Succeeded(upload)
    ensures o != Uploaded ==> o.Raised? && o.error.FailedFileUpload?
    ensures upload.Answered? && !IsSuccessful(upload.response.code) ==>
      Contains(o.error.message, DecimalString(upload.response.code)) &&
      Contains(o.error.message, upload.response.message) &&
      Contains(o.error.message, upload.response.body)
    ensures upload.IoError? ==> o.error.message == UploadFailurePrefix + upload.message
  {
    match upload
    case IoError(message) => Raised(FailedFileUpload(UploadFailurePrefix + message))
    case Answered(response) =>
      if IsSuccessful(response.code) then Uploaded
      else
        StatusFailureWithBodyMentions(UploadFailurePrefix, response);
        Raised(FailedFileUpload(StatusFailureWithBody(UploadFailurePrefix, response)))
  }

  /** The metadata part's field name, `Constants.METADATA`. */
  const MetadataPartName: string := "metadata"

  /**
   * `publishingToCurseforge`: the metadata part, then the first file under
   * "file"; with no file the iterator throws before anything is sent.
   */
  method PublishingToCurseforge(files: seq<File>, projectId: string, token: string, upload: Exchange)
    returns (request: Option<Request>, outcome: Outcome)
    ensures files == [] ==> request.None? && outcome == Raised(NoSuchElement)
    ensures files != [] ==>
      request == Some(Request(token, Some(projectId), [MetadataPart(MetadataPartName), FilePart("file", files[0])])) &&
      outcome == UploadOutcome(upload)
  {
    var builder := new MultipartBuilder();
    builder.AddFormDataPart(MetadataPart(MetadataPartName));
    if files == [] {
      return None, Raised(NoSuchElement);
    }
    var file := files[0];
    builder.AddFormDataPart(FilePart("file", file));
    assert builder.parts == [MetadataPart(MetadataPartName), FilePart("file", file)];
    request := Some(Request(token, Some(projectId), builder.parts));
    outcome := UploadOutcome(upload);
  }

  /**
   * `publish()`. An unset token or project id throws before anything else;
   * a failed fetch throws; an empty resolution aborts before the metadata
   * is built; otherwise the metadata is built from the trimmed credentials,
   * the resolved ids and the declarations in container order, and the
   * first file is uploaded with it.
   */
  method Publish(ext: Extension, config: CurseforgeConfig, order: seq<string>,
                 fetch: Exchange, decoded: Option<seq<GameVersionTag>>, upload: Exchange)
    returns (run: Run<CurseforgeMetadata>)
    requires Enumerates(order, config.dependencies)
    ensures run.AbortsCleanly()
    ensures run.request.Some? ==> run.metadata.Some? && run.fetched
    ensures config.token.None? || config.projectId.None? ==> run == Run(false, None, None, Raised(NullValue))
    ensures config.token.Some? && config.projectId.Some? ==>
      var fetched := FetchGameVersions(fetch, decoded);
      run.fetched &&
      (fetched.Failure? ==> run == Run(true, None, None, Raised(fetched.error))) &&
      (fetched.Success? ==>
        var ids := ResolveGameVersionIds(fetched.value, ext.gameVersions, ext.loaders, config.environmentType);
        (ids == [] ==> run == Run(true, None, None, Aborted(NoValidGameVersions))) &&
        (ids != [] ==>
          run.metadata == Some(MetadataFor(ext, config.changelogType, config.manualRelease, ids,
                                           DependencyList(order, config.dependencies))) &&
          (ext.files == [] ==> run.request.None? && run.outcome == Raised(NoSuchElement)) &&
          (ext.files != [] ==>
            run.request == Some(Request(Trim(JavaTrim, config.token.value), Some(Trim(JavaTrim, config.projectId.value)),
                                        [MetadataPart(MetadataPartName), FilePart("file", ext.files[0])])) &&
            run.outcome == UploadOutcome(upload))))
  {
    if config.token.None? || config.projectId.None? {
      return Run(false, None, None, Raised(NullValue));
    }
    var token := Trim(JavaTrim, config.token.value);
    var projectId := Trim(JavaTrim, config.projectId.value);
    var files := ext.files;

    var fetched := FetchGameVersions(fetch, decoded);
    if fetched.Failure? {
      return Run(true, None, None, Raised(fetched.error));
    }
    var ids := ResolveGameVersionIds(fetched.value, ext.gameVersions, ext.loaders, config.environmentType);
    if ids == [] {
      return Run(true, None, None, Aborted(NoValidGameVersions));
    }

    var dependencyList := DependencyList(order, config.dependencies);
    var metadata := MetadataFor(ext, config.changelogType, config.manualRelease, ids, dependencyList);
    var request, outcome := PublishingToCurseforge(files, projectId, token, upload);
    run := Run(true, Some(metadata), request, outcome);
  }
}
