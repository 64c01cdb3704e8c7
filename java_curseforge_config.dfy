/**
 * `CurseforgeConfig` (Java): the `curseforge { }` block. Besides the
 * credentials it holds the changelog format, the environments, the
 * manual-release flag and a registry of dependency declarations keyed by
 * their Gradle name, "curseforge-" followed by the slug.
 */
module JavaCurseforgeConfig {
  import opened Wrappers
  import Text
  import opened JavaCurseforgeTypes

  /**
   * A `CurseforgeDependency` as registered: its slug and relation type,
   * each unset (null) until a setter assigns it. Its Gradle name is the
   * registry key.
   */
  datatype CurseforgeDependency = CurseforgeDependency(slug: Option<string>, relationType: Option<RelationType>)

  /** The prefix of every dependency name this config creates. */
  const NamePrefix: string := "curseforge-"

  /** The Gradle name of the declaration for `slug`. */
  function DependencyName(slug: string): (name: string)
    ensures |name| == |NamePrefix| + |slug|
    ensures name[..|NamePrefix|] == NamePrefix && name[|NamePrefix|..] == slug
  {
    NamePrefix + slug
  }

  /** Different slugs never share a registry key. */
  lemma DependencyNameInjective(a: string, b: string)
    ensures DependencyName(a) == DependencyName(b) ==> a == b
  {
    if DependencyName(a) == DependencyName(b) {
      Text.PrefixedInjective(NamePrefix, a, b);
    }
  }

  /**
   * The registry after `createDependency(slug, type)`: one new entry under
   * the slug's name with both fields set, every other key untouched.
   */
  function Register(deps: map<string, CurseforgeDependency>, slug: string, relation: RelationType)
    : (r: map<string, CurseforgeDependency>)
    requires DependencyName(slug) !in deps
    ensures DependencyName(slug) in r
    ensures r[DependencyName(slug)] == CurseforgeDependency(Some(slug), Some(relation))
    ensures forall k :: k != DependencyName(slug) ==> (k in r <==> k in deps)
    ensures forall k :: k in deps ==> r[k] == deps[k]
    ensures |r| == |deps| + 1
  {
    deps[DependencyName(slug) := CurseforgeDependency(Some(slug), Some(relation))]
  }

  /** Registering two different slugs one after the other keeps both entries. */
  lemma RegisterTwice(deps: map<string, CurseforgeDependency>, a: string, ta: RelationType, b: string, tb: RelationType)
    requires DependencyName(a) !in deps && DependencyName(b) !in deps && a != b
    ensures DependencyName(b) !in Register(deps, a, ta)
    ensures var r := Register(Register(deps, a, ta), b, tb);
      r[DependencyName(a)] == CurseforgeDependency(Some(a), Some(ta)) &&
      r[DependencyName(b)] == CurseforgeDependency(Some(b), Some(tb)) &&
      |r| == |deps| + 2
  {
    DependencyNameInjective(a, b);
  }

  class CurseforgeConfig {
    var token: Option<string>
    var projectId: Option<string>
    var changelogType: ChangelogType
    var environmentType: seq<EnvironmentType>
    var manualRelease: bool
    var dependencies: map<string, CurseforgeDependency>

    /** Unset credentials, Markdown changelog, both environments, no manual release, no dependencies. */
    constructor ()
      ensures token == None && projectId == None
      ensures changelogType == Markdown
      ensures environmentType == [Client, Server]
      ensures !manualRelease
      ensures dependencies == map[]
    {
      token := None;
      projectId := None;
      changelogType := Markdown;
      environmentType := [Client, Server];
      manualRelease := false;
      dependencies := map[];
    }

    /** `dependencies(action)`: the action runs against the registry itself. */
    method Dependencies(action: map<string, CurseforgeDependency> -> map<string, CurseforgeDependency>)
      modifies this`dependencies
      ensures dependencies == action(old(dependencies))
    {
      dependencies := action(dependencies);
    }

    /**
     * `createDependency`: create the entry under the slug's name, then set
     * its slug and its relation type; answer the entry registered.
     */
    method CreateDependency(slug: string, relation: RelationType) returns (dep: CurseforgeDependency)
      requires DependencyName(slug) !in dependencies
      modifies this`dependencies
      ensures dependencies == Register(old(dependencies), slug, relation)
      ensures dependencies[DependencyName(slug)] == dep
    {
      var name := DependencyName(slug);
      dependencies := dependencies[name := CurseforgeDependency(None, None)];
      dep := dependencies[name].(slug := Some(slug));
      dependencies := dependencies[name := dep];
      dep := dependencies[name].(relationType := Some(relation));
      dependencies := dependencies[name := dep];
    }

    method Required(slug: string) returns (dep: CurseforgeDependency)
      requires DependencyName(slug) !in dependencies
      modifies this`dependencies
      ensures dependencies == Register(old(dependencies), slug, RequiredDependency)
      ensures dep == CurseforgeDependency(Some(slug), Some(RequiredDependency))
    {
      dep := CreateDependency(slug, RequiredDependency);
    }

    method Optional(slug: string) returns (dep: CurseforgeDependency)
      requires DependencyName(slug) !in dependencies
      modifies this`dependencies
      ensures dependencies == Register(old(dependencies), slug, OptionalDependency)
      ensures dep == CurseforgeDependency(Some(slug), Some(OptionalDependency))
    {
      dep := CreateDependency(slug, OptionalDependency);
    }

    method Incompatible(slug: string) returns (dep: CurseforgeDependency)
      requires DependencyName(slug) !in dependencies
      modifies this`dependencies
      ensures dependencies == Register(old(dependencies), slug, RelationType.Incompatible)
      ensures dep == CurseforgeDependency(Some(slug), Some(RelationType.Incompatible))
    {
      dep := CreateDependency(slug, RelationType.Incompatible);
    }

    method Embedded(slug: string) returns (dep: CurseforgeDependency)
      requires DependencyName(slug) !in dependencies
      modifies this`dependencies
      ensures dependencies == Register(old(dependencies), slug, EmbeddedLibrary)
      ensures dep == CurseforgeDependency(Some(slug), Some(EmbeddedLibrary))
    {
      dep := CreateDependency(slug, EmbeddedLibrary);
    }

    method Tool(slug: string) returns (dep: CurseforgeDependency)
      requires DependencyName(slug) !in dependencies
      modifies this`dependencies
      ensures dependencies == Register(old(dependencies), slug, RelationType.Tool)
      ensures dep == CurseforgeDependency(Some(slug), Some(RelationType.Tool))
    {
      dep := CreateDependency(slug, RelationType.Tool);
    }
  }
}
