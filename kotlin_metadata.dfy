/**
 * `CurseforgeMetadata.kt`: the CurseForge upload records of the Kotlin
 * revision with their constructor defaults. The file also redeclares
 * `RelationType` and `ChangelogType` with the same constants and names as
 * their own files; they are the tables of `KotlinCurseforgeTypes`.
 */
module KotlinCurseforgeMetadata {
  import opened Wrappers
  import opened KotlinTypes
  import opened KotlinCurseforgeTypes

  datatype ProjectsMetadata = ProjectsMetadata(slug: Option<string>, projectID: Option<string>, relationType: RelationType)

  datatype Projects = Projects(projects: seq<ProjectsMetadata>)

  datatype CurseforgeMetadata = CurseforgeMetadata(
    projectId: string,
    changelog: Option<string>,
    changelogType: Option<ChangelogType>,
    displayName: Option<string>,
    parentFileID: Option<string>,
    gameVersions: seq<string>,
    releaseType: ReleaseType,
    isMarkedForManualRelease: bool,
    relations: Projects)

  /** `Projects()`: no related projects. */
  function NoProjects(): (p: Projects)
    ensures |p.projects| == 0
  {
    Projects([])
  }

  /** `ProjectsMetadata(relationType = t)`: neither slug nor project id. */
  function RelationOnly(relationType: RelationType): (m: ProjectsMetadata)
    ensures m.slug.None? && m.projectID.None?
    ensures m.relationType == relationType
  {
    ProjectsMetadata(None, None, relationType)
  }

  /**
   * `CurseforgeMetadata` given only its required arguments: no changelog,
   * changelog type, display name or parent file, and marked for manual
   * release.
   */
  function WithDefaults(projectId: string, gameVersions: seq<string>, releaseType: ReleaseType, relations: Projects)
    : (m: CurseforgeMetadata)
    ensures m.projectId == projectId && m.gameVersions == gameVersions
    ensures m.releaseType == releaseType && m.relations == relations
    ensures m.changelog.None? && m.changelogType.None? && m.displayName.None? && m.parentFileID.None?
    ensures m.isMarkedForManualRelease
  {
    CurseforgeMetadata(projectId, None, None, None, None, gameVersions, releaseType, true, relations)
  }
}

/**
 * `ModrinthMetadata.kt`: the Modrinth version record of the Kotlin
 * revision, its defaults, and the JSON keys of its fields.
 */
module KotlinModrinthMetadata {
  import opened Wrappers
  import opened KotlinTypes
  import opened KotlinModrinthTypes

  datatype DependencyMetadata = DependencyMetadata(projectId: Option<string>, dependencyType: DependencyType)

  datatype ModrinthMetadata = ModrinthMetadata(
    projectId: string,
    name: Option<string>,
    versionNumber: string,
    changelog: string,
    gameVersions: seq<string>,
    loaders: seq<LoaderType>,
    releaseChannel: string,
    dependencies: seq<DependencyMetadata>,
    featured: bool,
    status: string,
    fileParts: seq<string>)

  /**
   * `ModrinthMetadata` given only its required arguments: no name, no
   * dependencies, status "listed".
   */
  function WithDefaults(
    projectId: string, versionNumber: string, changelog: string, gameVersions: seq<string>,
    loaders: seq<LoaderType>, releaseChannel: string, featured: bool, fileParts: seq<string>)
    : (m: ModrinthMetadata)
    ensures m.projectId == projectId && m.versionNumber == versionNumber && m.changelog == changelog
    ensures m.gameVersions == gameVersions && m.loaders == loaders && m.releaseChannel == releaseChannel
    ensures m.featured == featured && m.fileParts == fileParts
    ensures m.name.None? && |m.dependencies| == 0 && m.status == "listed"
  {
    ModrinthMetadata(projectId, None, versionNumber, changelog, gameVersions, loaders, releaseChannel, [], featured, "listed", fileParts)
  }

  /** The fields of `ModrinthMetadata`, in declaration order. */
  datatype Field =
    ProjectId | Name | VersionNumber | Changelog | GameVersions | Loaders
    | ReleaseChannel | Dependencies | Featured | Status | FileParts

  /** Each field's `@SerialName`. */
  function FieldKey(f: Field): string
  {
    match f
    case ProjectId => "project_id"
    case Name => "name"
    case VersionNumber => "version_number"
    case Changelog => "changelog"
    case GameVersions => "game_versions"
    case Loaders => "loaders"
    case ReleaseChannel => "release_channel"
    case Dependencies => "dependencies"
    case Featured => "featured"
    case Status => "status"
    case FileParts => "file_parts"
  }

  /** The field a JSON key names; the keys are pairwise distinct. */
  function ParseFieldKey(key: string): (r: Option<Field>)
    ensures r.Some? ==> FieldKey(r.value) == key
    ensures forall f :: FieldKey(f) == key ==> r == Some(f)
  {
    if key == "project_id" then Some(ProjectId)
    else if key == "name" then Some(Name)
    else if key == "version_number" then Some(VersionNumber)
    else if key == "changelog" then Some(Changelog)
    else if key == "game_versions" then Some(GameVersions)
    else if key == "loaders" then Some(Loaders)
    else if key == "release_channel" then Some(ReleaseChannel)
    else if key == "dependencies" then Some(Dependencies)
    else if key == "featured" then Some(Featured)
    else if key == "status" then Some(Status)
    else if key == "file_parts" then Some(FileParts)
    else None
  }

  /** The fields of `DependencyMetadata`. */
  datatype DependencyField = DependencyProjectId | DependencyKind

  function DependencyFieldKey(f: DependencyField): string
  {
    match f
    case DependencyProjectId => "project_id"
    case DependencyKind => "dependency_type"
  }

  function ParseDependencyFieldKey(key: string): (r: Option<DependencyField>)
    ensures r.Some? ==> DependencyFieldKey(r.value) == key
    ensures forall f :: DependencyFieldKey(f) == key ==> r == Some(f)
  {
    if key == "project_id" then Some(DependencyProjectId)
    else if key == "dependency_type" then Some(DependencyKind)
    else None
  }
}
