/**
 * The closed enumerations of the Kotlin revision and the names
 * kotlinx.serialization writes for them (their `@SerialName` values). The
 * Kotlin `LoaderType` declares its constants in a different order from the
 * Java one; the names are the same.
 */
module KotlinTypes {
  import opened Wrappers
  import opened Http

  /** `io.github.smootheez.LoaderType` (Kotlin), in declaration order. */
  datatype LoaderType = Forge | NeoForge | Fabric | Quilt

  /** The constants in declaration (ordinal) order. */
  const LoaderTypes: seq<LoaderType> := [Forge, NeoForge, Fabric, Quilt]

  function LoaderOrdinal(l: LoaderType): (n: nat)
    ensures n < |LoaderTypes| && LoaderTypes[n] == l
  {
    match l
    case Forge => 0
    case NeoForge => 1
    case Fabric => 2
    case Quilt => 3
  }

  function LoaderWireName(l: LoaderType): string
  {
    match l
    case Forge => "forge"
    case NeoForge => "neoforge"
    case Fabric => "fabric"
    case Quilt => "quilt"
  }

  function ParseLoaderType(name: string): (r: Option<LoaderType>)
    ensures r.Some? ==> LoaderWireName(r.value) == name
    ensures forall l :: LoaderWireName(l) == name ==> r == Some(l)
  {
    if name == "forge" then Some(Forge)
    else if name == "neoforge" then Some(NeoForge)
    else if name == "fabric" then Some(Fabric)
    else if name == "quilt" then Some(Quilt)
    else None
  }

  /** `io.github.smootheez.core.ReleaseType`. */
  datatype ReleaseType = Release | Beta | Alpha

  function ReleaseWireName(t: ReleaseType): string
  {
    match t
    case Release => "release"
    case Beta => "beta"
    case Alpha => "alpha"
  }

  function ParseReleaseType(name: string): (r: Option<ReleaseType>)
    ensures r.Some? ==> ReleaseWireName(r.value) == name
    ensures forall t :: ReleaseWireName(t) == name ==> r == Some(t)
  {
    if name == "release" then Some(Release)
    else if name == "beta" then Some(Beta)
    else if name == "alpha" then Some(Alpha)
    else None
  }

  /** `PublisherConfig.VALID_RELEASE_TYPES`. */
  const ValidReleaseTypes: set<string> := {"release", "beta", "alpha"}

  /** The valid release types are exactly the names of the `ReleaseType` constants. */
  lemma ValidReleaseTypesAreReleaseTypeNames(name: string)
    ensures name in ValidReleaseTypes <==> exists t :: ReleaseWireName(t) == name
  {
    if name in ValidReleaseTypes {
      var t := ParseReleaseType(name).value;
      assert ReleaseWireName(t) == name;
    }
  }

  /**
   * The extension's shared settings as a Kotlin publisher reads them. The
   * version may be unset; the publisher then falls back on the Gradle
   * project's version.
   */
  datatype Extension = Extension(
    displayName: Option<string>,
    version: Option<string>,
    releaseType: string,
    changelog: string,
    gameVersions: seq<string>,
    loaders: seq<LoaderType>,
    files: seq<File>)
}

/** The enumerations of the Kotlin `curseforge` package. */
module KotlinCurseforgeTypes {
  import opened Wrappers

  /** `RelationType` (Kotlin). */
  datatype RelationType = EmbeddedLibrary | Incompatible | OptionalDependency | RequiredDependency | Tool

  function RelationWireName(t: RelationType): string
  {
    match t
    case EmbeddedLibrary => "embeddedLibrary"
    case Incompatible => "incompatible"
    case OptionalDependency => "optionalDependency"
    case RequiredDependency => "requiredDependency"
    case Tool => "tool"
  }

  function ParseRelationType(name: string): (r: Option<RelationType>)
    ensures r.Some? ==> RelationWireName(r.value) == name
    ensures forall t :: RelationWireName(t) == name ==> r == Some(t)
  {
    if name == "embeddedLibrary" then Some(EmbeddedLibrary)
    else if name == "incompatible" then Some(Incompatible)
    else if name == "optionalDependency" then Some(OptionalDependency)
    else if name == "requiredDependency" then Some(RequiredDependency)
    else if name == "tool" then Some(Tool)
    else None
  }

  /** `ChangelogType` (Kotlin): TEXT, MARKDOWN, HTML. */
  datatype ChangelogType = PlainText | Markdown | Html

  function ChangelogWireName(t: ChangelogType): string
  {
    match t
    case PlainText => "text"
    case Markdown => "markdown"
    case Html => "html"
  }

  function ParseChangelogType(name: string): (r: Option<ChangelogType>)
    ensures r.Some? ==> ChangelogWireName(r.value) == name
    ensures forall t :: ChangelogWireName(t) == name ==> r == Some(t)
  {
    if name == "text" then Some(PlainText)
    else if name == "markdown" then Some(Markdown)
    else if name == "html" then Some(Html)
    else None
  }

  /** `EnvironmentType` (Kotlin). */
  datatype EnvironmentType = Client | Server

  function EnvironmentWireName(e: EnvironmentType): string
  {
    match e
    case Client => "client"
    case Server => "server"
  }

  function ParseEnvironmentType(name: string): (r: Option<EnvironmentType>)
    ensures r.Some? ==> EnvironmentWireName(r.value) == name
    ensures forall e :: EnvironmentWireName(e) == name ==> r == Some(e)
  {
    if name == "client" then Some(Client)
    else if name == "server" then Some(Server)
    else None
  }
}

/** The enumeration of the Kotlin `modrinth` package. */
module KotlinModrinthTypes {
  import opened Wrappers

  /** `DependencyType` (Kotlin). */
  datatype DependencyType = Required | Optional | Incompatible | Embedded

  function DependencyWireName(t: DependencyType): string
  {
    match t
    case Required => "required"
    case Optional => "optional"
    case Incompatible => "incompatible"
    case Embedded => "embedded"
  }

  function ParseDependencyType(name: string): (r: Option<DependencyType>)
    ensures r.Some? ==> DependencyWireName(r.value) == name
    ensures forall t :: DependencyWireName(t) == name ==> r == Some(t)
  {
    if name == "required" then Some(Required)
    else if name == "optional" then Some(Optional)
    else if name == "incompatible" then Some(Incompatible)
    else if name == "embedded" then Some(Embedded)
    else None
  }
}
