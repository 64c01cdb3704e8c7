/**
 * `ModrinthConfig` (Kotlin): the `modrinth { }` block. Dependencies are
 * declared by Modrinth project id and registered under the Gradle name
 * "modrinth-" followed by the id.
 */
module KotlinModrinthConfig {
  import opened Wrappers
  import Text
  import opened KotlinModrinthTypes

  /**
   * A `ModrinthDependency`: its project id (unset until assigned) and its
   * dependency type, which starts as REQUIRED.
   */
  datatype ModrinthDependency = ModrinthDependency(projectId: Option<string>, dependencyType: DependencyType)

  /** A freshly created entry, before the configuring block runs. */
  const NewDependency: ModrinthDependency := ModrinthDependency(None, DependencyType.Required)

  const NamePrefix: string := "modrinth-"

  /** "modrinth-$id": the Gradle name of the declaration for `id`. */
  function DependencyName(id: string): (name: string)
    ensures |name| == |NamePrefix| + |id|
    ensures name[..|NamePrefix|] == NamePrefix && name[|NamePrefix|..] == id
  {
    NamePrefix + id
  }

  /** Different ids never share a registry key. */
  lemma DependencyNameInjective(a: string, b: string)
    ensures DependencyName(a) == DependencyName(b) ==> a == b
  {
    if DependencyName(a) == DependencyName(b) {
      Text.PrefixedInjective(NamePrefix, a, b);
    }
  }

  /**
   * The registry after `dependencies.create("modrinth-$id") { ... }`: one
   * new entry with the id and type set, every other key untouched.
   */
  function Register(deps: map<string, ModrinthDependency>, id: string, kind: DependencyType)
    : (r: map<string, ModrinthDependency>)
    requires DependencyName(id) !in deps
    ensures DependencyName(id) in r
    ensures r[DependencyName(id)] == ModrinthDependency(Some(id), kind)
    ensures forall k :: k != DependencyName(id) ==> (k in r <==> k in deps)
    ensures forall k :: k in deps ==> r[k] == deps[k]
    ensures |r| == |deps| + 1
  {
    deps[DependencyName(id) := ModrinthDependency(Some(id), kind)]
  }

  class ModrinthConfig {
    var token: Option<string>
    var projectId: Option<string>
    var featured: bool
    var status: string
    var dependencies: map<string, ModrinthDependency>

    /** Unset credentials, featured, status "listed", no dependencies. */
    constructor ()
      ensures token == None && projectId == None
      ensures featured
      ensures status == "listed"
      ensures dependencies == map[]
    {
      token := None;
      projectId := None;
      featured := true;
      status := "listed";
      dependencies := map[];
    }

    /** `dependencies { }`: the block runs against the registry itself. */
    method Dependencies(action: map<string, ModrinthDependency> -> map<string, ModrinthDependency>)
      modifies this`dependencies
      ensures dependencies == action(old(dependencies))
    {
      dependencies := action(dependencies);
    }

    /**
     * `dependencies.create(name) { projectId = id; dependencyType = kind }`:
     * the container makes a default entry, the block assigns its fields.
     */
    method Create(id: string, kind: DependencyType) returns (dep: ModrinthDependency)
      requires DependencyName(id) !in dependencies
      modifies this`dependencies
      ensures dependencies == Register(old(dependencies), id, kind)
      ensures dependencies[DependencyName(id)] == dep
    {
      var name := DependencyName(id);
      dep := NewDependency;
      dep := dep.(projectId := Some(id));
      dep := dep.(dependencyType := kind);
      dependencies := dependencies[name := dep];
    }

    method Required(id: string) returns (dep: ModrinthDependency)
      requires DependencyName(id) !in dependencies
      modifies this`dependencies
      ensures dependencies == Register(old(dependencies), id, DependencyType.Required)
      ensures dep == ModrinthDependency(Some(id), DependencyType.Required)
    {
      dep := Create(id, DependencyType.Required);
    }

    method Optional(id: string) returns (dep: ModrinthDependency)
      requires DependencyName(id) !in dependencies
      modifies this`dependencies
      ensures dependencies == Register(old(dependencies), id, DependencyType.Optional)
      ensures dep == ModrinthDependency(Some(id), DependencyType.Optional)
    {
      dep := Create(id, DependencyType.Optional);
    }

    method Incompatible(id: string) returns (dep: ModrinthDependency)
      requires DependencyName(id) !in dependencies
      modifies this`dependencies
      ensures dependencies == Register(old(dependencies), id, DependencyType.Incompatible)
      ensures dep == ModrinthDependency(Some(id), DependencyType.Incompatible)
    {
      dep := Create(id, DependencyType.Incompatible);
    }

    method Embedded(id: string) returns (dep: ModrinthDependency)
      requires DependencyName(id) !in dependencies
      modifies this`dependencies
      ensures dependencies == Register(old(dependencies), id, DependencyType.Embedded)
      ensures dep == ModrinthDependency(Some(id), DependencyType.Embedded)
    {
      dep := Create(id, DependencyType.Embedded);
    }
  }
}
