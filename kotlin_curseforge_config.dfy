/**
 * `CurseforgeConfig` (Kotlin): the `curseforge { }` block. Dependencies
 * are declared by numeric CurseForge project id and registered under the
 * Gradle name "curseforge-" followed by the id in decimal.
 */
module KotlinCurseforgeConfig {
  import opened Wrappers
  import Text
  import opened KotlinCurseforgeTypes

  /**
   * A `CurseForgeDependency`: its project id (unset until assigned) and its
   * relation type, which starts as REQUIRED_DEPENDENCY.
   */
  datatype CurseForgeDependency = CurseForgeDependency(projectId: Option<int>, relationType: RelationType)

  /** A freshly created entry, before the configuring block runs. */
  const NewDependency: CurseForgeDependency := CurseForgeDependency(None, RequiredDependency)

  const NamePrefix: string := "curseforge-"

  /** "curseforge-$id": the Gradle name of the declaration for `id`. */
  function DependencyName(id: int): (name: string)
    ensures |name| > |NamePrefix| && name[..|NamePrefix|] == NamePrefix
    ensures name[|NamePrefix|..] == Text.DecimalString(id)
  {
    NamePrefix + Text.DecimalString(id)
  }

  /** Different ids never share a registry key. */
  lemma DependencyNameInjective(a: int, b: int)
    ensures DependencyName(a) == DependencyName(b) ==> a == b
  {
    if DependencyName(a) == DependencyName(b) {
      Text.PrefixedInjective(NamePrefix, Text.DecimalString(a), Text.DecimalString(b));
      Text.DecimalStringInjective(a, b);
    }
  }

  /**
   * The registry after `dependencies.create("curseforge-$id") { ... }`: one
   * new entry with the id and relation set, every other key untouched.
   */
  function Register(deps: map<string, CurseForgeDependency>, id: int, relation: RelationType)
    : (r: map<string, CurseForgeDependency>)
    requires DependencyName(id) !in deps
    ensures DependencyName(id) in r
    ensures r[DependencyName(id)] == CurseForgeDependency(Some(id), relation)
    ensures forall k :: k != DependencyName(id) ==> (k in r <==> k in deps)
    ensures forall k :: k in deps ==> r[k] == deps[k]
    ensures |r| == |deps| + 1
  {
    deps[DependencyName(id) := CurseForgeDependency(Some(id), relation)]
  }

  class CurseforgeConfig {
    var token: Option<string>
    var projectId: Option<string>
    var changelogType: ChangelogType
    var environmentType: seq<EnvironmentType>
    var manualRelease: bool
    var dependencies: map<string, CurseForgeDependency>

    /** Unset credentials, Markdown changelog, both environments, no manual release, no dependencies. */
    constructor ()
      ensures token == None && projectId == None
      ensures changelogType == Markdown
      ensures environmentType == [Client, Server]
      ensures !manualRelease
      ensures dependencies == map[]
    {
      token := None;
      projectId := None;
      changelogType := Markdown;
      environmentType := [Client, Server];
      manualRelease := false;
      dependencies := map[];
    }

    /** `dependencies { }`: the block runs against the registry itself. */
    method Dependencies(action: map<string, CurseForgeDependency> -> map<string, CurseForgeDependency>)
      modifies this`dependencies
      ensures dependencies == action(old(dependencies))
    {
      dependencies := action(dependencies);
    }

    /**
     * `dependencies.create(name) { projectId = id; relationType = relation }`:
     * the container makes a default entry, the block assigns its fields.
     */
    method Create(id: int, relation: RelationType) returns (dep: CurseForgeDependency)
      requires DependencyName(id) !in dependencies
      modifies this`dependencies
      ensures dependencies == Register(old(dependencies), id, relation)
      ensures dependencies[DependencyName(id)] == dep
    {
      var name := DependencyName(id);
      dep := NewDependency;
      dep := dep.(projectId := Some(id));
      dep := dep.(relationType := relation);
      dependencies := dependencies[name := dep];
    }

    method Required(id: int) returns (dep: CurseForgeDependency)
      requires DependencyName(id) !in dependencies
      modifies this`dependencies
      ensures dependencies == Register(old(dependencies), id, RequiredDependency)
      ensures dep == CurseForgeDependency(Some(id), RequiredDependency)
    {
      dep := Create(id, RequiredDependency);
    }

    method Optional(id: int) returns (dep: CurseForgeDependency)
      requires DependencyName(id) !in dependencies
      modifies this`dependencies
      ensures dependencies == Register(old(dependencies), id, OptionalDependency)
      ensures dep == CurseForgeDependency(Some(id), OptionalDependency)
    {
      dep := Create(id, OptionalDependency);
    }

    method Embedded(id: int) returns (dep: CurseForgeDependency)
      requires DependencyName(id) !in dependencies
      modifies this`dependencies
      ensures dependencies == Register(old(dependencies), id, EmbeddedLibrary)
      ensures dep == CurseForgeDependency(Some(id), EmbeddedLibrary)
    {
      dep := Create(id, EmbeddedLibrary);
    }

    method Incompatible(id: int) returns (dep: CurseForgeDependency)
      requires DependencyName(id) !in dependencies
      modifies this`dependencies
      ensures dependencies == Register(old(dependencies), id, RelationType.Incompatible)
      ensures dep == CurseForgeDependency(Some(id), RelationType.Incompatible)
    {
      dep := Create(id, RelationType.Incompatible);
    }

    method Tool(id: int) returns (dep: CurseForgeDependency)
      requires DependencyName(id) !in dependencies
      modifies this`dependencies
      ensures dependencies == Register(old(dependencies), id, RelationType.Tool)
      ensures dep == CurseForgeDependency(Some(id), RelationType.Tool)
    {
      dep := Create(id, RelationType.Tool);
    }
  }
}
