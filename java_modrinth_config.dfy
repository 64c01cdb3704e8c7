/**
 * `ModrinthConfig` (Java): the `modrinth { }` block. Besides the
 * credentials it holds the featured flag, the version status and a
 * registry of dependency declarations keyed by their Gradle name,
 * "modrinth-" followed by the project id.
 */
module JavaModrinthConfig {
  import opened Wrappers
  import Text
  import opened JavaModrinthTypes

  /**
   * A `ModrinthDependency` as registered: its project id and dependency
   * type, each unset (null) until a setter assigns it.
   */
  datatype ModrinthDependency = ModrinthDependency(projectId: Option<string>, dependencyType: Option<DependencyType>)

  /** The prefix of every dependency name this config creates. */
  const NamePrefix: string := "modrinth-"

  /** The Gradle name of the declaration for `projectId`. */
  function DependencyName(projectId: string): (name: string)
    ensures |name| == |NamePrefix| + |projectId|
    ensures name[..|NamePrefix|] == NamePrefix && name[|NamePrefix|..] == projectId
  {
    NamePrefix + projectId
  }

  /** Different project ids never share a registry key. */
  lemma DependencyNameInjective(a: string, b: string)
    ensures DependencyName(a) == DependencyName(b) ==> a == b
  {
    if DependencyName(a) == DependencyName(b) {
      Text.PrefixedInjective(NamePrefix, a, b);
    }
  }

  /**
   * The registry after `createDependency(projectId, type)`: one new entry
   * under the id's name with both fields set, every other key untouched.
   */
  function Register(deps: map<string, ModrinthDependency>, projectId: string, kind: DependencyType)
    : (r: map<string, ModrinthDependency>)
    requires DependencyName(projectId) !in deps
    ensures DependencyName(projectId) in r
    ensures r[DependencyName(projectId)] == ModrinthDependency(Some(projectId), Some(kind))
    ensures forall k :: k != DependencyName(projectId) ==> (k in r <==> k in deps)
    ensures forall k :: k in deps ==> r[k] == deps[k]
    ensures |r| == |deps| + 1
  {
    deps[DependencyName(projectId) := ModrinthDependency(Some(projectId), Some(kind))]
  }

  class ModrinthConfig {
    var token: Option<string>
    var projectId: Option<string>
    var featured: bool
    var status: string
    var dependencies: map<string, ModrinthDependency>

    /** Unset credentials, featured, status "listed", no dependencies. */
    constructor ()
      ensures token == None && projectId == None
      ensures featured
      ensures status == "listed"
      ensures dependencies == map[]
    {
      token := None;
      projectId := None;
      featured := true;
      status := "listed";
      dependencies := map[];
    }

    /** `dependencies(action)`: the action runs against the registry itself. */
    method Dependencies(action: map<string, ModrinthDependency> -> map<string, ModrinthDependency>)
      modifies this`dependencies
      ensures dependencies == action(old(dependencies))
    {
      dependencies := action(dependencies);
    }

    /**
     * `createDependency`: create the entry under the id's name, then set its
     * project id and its dependency type; answer the entry registered.
     */
    method CreateDependency(id: string, kind: DependencyType) returns (dep: ModrinthDependency)
      requires DependencyName(id) !in dependencies
      modifies this`dependencies
      ensures dependencies == Register(old(dependencies), id, kind)
      ensures dependencies[DependencyName(id)] == dep
    {
      var name := DependencyName(id);
      dependencies := dependencies[name := ModrinthDependency(None, None)];
      dep := dependencies[name].(projectId := Some(id));
      dependencies := dependencies[name := dep];
      dep := dependencies[name].(dependencyType := Some(kind));
      dependencies := dependencies[name := dep];
    }

    method Required(id: string) returns (dep: ModrinthDependency)
      requires DependencyName(id) !in dependencies
      modifies this`dependencies
      ensures dependencies == Register(old(dependencies), id, DependencyType.Required)
      ensures dep == ModrinthDependency(Some(id), Some(DependencyType.Required))
    {
      dep := CreateDependency(id, DependencyType.Required);
    }

    method Optional(id: string) returns (dep: ModrinthDependency)
      requires DependencyName(id) !in dependencies
      modifies this`dependencies
      ensures dependencies == Register(old(dependencies), id, DependencyType.Optional)
      ensures dep == ModrinthDependency(Some(id), Some(DependencyType.Optional))
    {
      dep := CreateDependency(id, DependencyType.Optional);
    }

    method Incompatible(id: string) returns (dep: ModrinthDependency)
      requires DependencyName(id) !in dependencies
      modifies this`dependencies
      ensures dependencies == Register(old(dependencies), id, DependencyType.Incompatible)
      ensures dep == ModrinthDependency(Some(id), Some(DependencyType.Incompatible))
    {
      dep := CreateDependency(id, DependencyType.Incompatible);
    }

    method Embedded(id: string) returns (dep: ModrinthDependency)
      requires DependencyName(id) !in dependencies
      modifies this`dependencies
      ensures dependencies == Register(old(dependencies), id, DependencyType.Embedded)
      ensures dep == ModrinthDependency(Some(id), Some(DependencyType.Embedded))
    {
      dep := CreateDependency(id, DependencyType.Embedded);
    }
  }
}
