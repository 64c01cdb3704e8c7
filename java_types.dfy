/**
 * The closed enumerations of the Java revision and the names Gson writes
 * for them (their `@SerializedName` values). Each table comes with its
 * decoder: the decoder accepts exactly the names the table produces, so
 * the names are pairwise distinct and decoding an encoded value gives the
 * value back.
 */
module JavaTypes {
  import opened Wrappers
  import opened Http

  /** `io.github.smootheez.LoaderType`, in declaration order. */
  datatype LoaderType = Fabric | Quilt | Forge | NeoForge

  /** The constants in declaration (ordinal) order. */
  const LoaderTypes: seq<LoaderType> := [Fabric, Quilt, Forge, NeoForge]

  function LoaderOrdinal(l: LoaderType): (n: nat)
    ensures n < |LoaderTypes| && LoaderTypes[n] == l
  {
    match l
    case Fabric => 0
    case Quilt => 1
    case Forge => 2
    case NeoForge => 3
  }

  function LoaderWireName(l: LoaderType): string
  {
    match l
    case Fabric => "fabric"
    case Quilt => "quilt"
    case Forge => "forge"
    case NeoForge => "neoforge"
  }

  function ParseLoaderType(name: string): (r: Option<LoaderType>)
    ensures r.Some? ==> LoaderWireName(r.value) == name
    ensures forall l :: LoaderWireName(l) == name ==> r == Some(l)
  {
    if name == "fabric" then Some(Fabric)
    else if name == "quilt" then Some(Quilt)
    else if name == "forge" then Some(Forge)
    else if name == "neoforge" then Some(NeoForge)
    else None
  }

  /** `Constants.VALID_RELEASE_TYPE`: the accepted release channels. */
  const ValidReleaseTypes: set<string> := {"release", "beta", "alpha"}

  /**
   * The plugin extension's shared settings as a publisher reads them:
   * display name (nullable), version, release type, changelog, configured
   * game versions and loaders, and the artifact files in iteration order.
   */
  datatype Extension = Extension(
    displayName: Option<string>,
    version: Option<string>,
    releaseType: string,
    changelog: string,
    gameVersions: seq<string>,
    loaders: seq<LoaderType>,
    files: seq<File>)
}

/** The enumerations of the Java `curseforge` package. */
module JavaCurseforgeTypes {
  import opened Wrappers

  /** `RelationType`: how a CurseForge upload relates to another project. */
  datatype RelationType = EmbeddedLibrary | Incompatible | OptionalDependency | RequiredDependency | Tool

  function RelationWireName(t: RelationType): string
  {
    match t
    case EmbeddedLibrary => "embeddedLibrary"
    case Incompatible => "incompatible"
    case OptionalDependency => "optionalDependency"
    case RequiredDependency => "requiredDependency"
    case Tool => "tool"
  }

  function ParseRelationType(name: string): (r: Option<RelationType>)
    ensures r.Some? ==> RelationWireName(r.value) == name
    ensures forall t :: RelationWireName(t) == name ==> r == Some(t)
  {
    if name == "embeddedLibrary" then Some(EmbeddedLibrary)
    else if name == "incompatible" then Some(Incompatible)
    else if name == "optionalDependency" then Some(OptionalDependency)
    else if name == "requiredDependency" then Some(RequiredDependency)
    else if name == "tool" then Some(Tool)
    else None
  }

  /** `ChangelogType`: how CurseForge renders the changelog text. */
  datatype ChangelogType = PlainText | Markdown | Html  // TEXT, MARKDOWN, HTML

  function ChangelogWireName(t: ChangelogType): string
  {
    match t
    case PlainText => "text"
    case Markdown => "markdown"
    case Html => "html"
  }

  function ParseChangelogType(name: string): (r: Option<ChangelogType>)
    ensures r.Some? ==> ChangelogWireName(r.value) == name
    ensures forall t :: ChangelogWireName(t) == name ==> r == Some(t)
  {
    if name == "text" then Some(PlainText)
    else if name == "markdown" then Some(Markdown)
    else if name == "html" then Some(Html)
    else None
  }

  /** `EnvironmentType`: the side a mod runs on. */
  datatype EnvironmentType = Client | Server

  function EnvironmentWireName(e: EnvironmentType): string
  {
    match e
    case Client => "client"
    case Server => "server"
  }

  function ParseEnvironmentType(name: string): (r: Option<EnvironmentType>)
    ensures r.Some? ==> EnvironmentWireName(r.value) == name
    ensures forall e :: EnvironmentWireName(e) == name ==> r == Some(e)
  {
    if name == "client" then Some(Client)
    else if name == "server" then Some(Server)
    else None
  }
}

/** The enumeration of the Java `modrinth` package. */
module JavaModrinthTypes {
  import opened Wrappers

  /** `DependencyType`: how a Modrinth version relates to another project. */
  datatype DependencyType = Required | Optional | Incompatible | Embedded

  function DependencyWireName(t: DependencyType): string
  {
    match t
    case Required => "required"
    case Optional => "optional"
    case Incompatible => "incompatible"
    case Embedded => "embedded"
  }

  function ParseDependencyType(name: string): (r: Option<DependencyType>)
    ensures r.Some? ==> DependencyWireName(r.value) == name
    ensures forall t :: DependencyWireName(t) == name ==> r == Some(t)
  {
    if name == "required" then Some(Required)
    else if name == "optional" then Some(Optional)
    else if name == "incompatible" then Some(Incompatible)
    else if name == "embedded" then Some(Embedded)
    else None
  }
}
