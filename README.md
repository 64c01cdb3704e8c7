# Mc-Mod-Publisher publishing core, modelled in Dafny

Mc-Mod-Publisher is a Gradle plugin. It uploads a Minecraft mod's build
artifacts to two hosting platforms, CurseForge and Modrinth. The repository
holds two revisions of the plugin side by side: a Java one and a Kotlin one.
This project models both revisions as separate modules and never merges
them. For each platform and each revision it models the following:

- **The `publish()` workflow.**
  - Validation of the configuration: credentials, files, game versions and release type.
  - Fetching the platform's game-version tags and resolving the configured versions against them.
  - Mapping the declared dependencies and building the upload metadata.
  - Building the multipart upload request, and the way the run ends: uploaded, upload failure logged, aborted with a logged reason, or an exception raised.
- **The configuration blocks** (`curseforge { }`, `modrinth { }`):
  - their defaults;
  - the dependency registry keyed by the Gradle name `curseforge-<id>` or `modrinth-<id>`;
  - the `required`/`optional`/`incompatible`/`embedded`/`tool` helpers that fill it.
- **The wire-name tables** of the closed enumerations:
  - loader, relation, dependency, changelog, environment and release types;
  - the CurseForge display labels of loaders and environments;
  - the JSON keys of the Kotlin metadata records.

File by file:

- **Shared modules:**
  - `wrappers.dfy` holds `Option`/`Result`.
  - `text.dfy` covers Java and Kotlin trim, blank, ASCII case folding and decimal rendering.
  - `sequences.dfy` covers the order-preserving filter with its kept positions, and `indexOf`.
  - `http.dfy` covers the HTTP exchange, OkHttp's `isSuccessful`, form parts, the `MultipartBody.Builder` class, file part names and failure messages.
  - `publishing.dfy` covers what a run did, the abort and error reasons, the Kotlin missing-configuration list, and the container enumeration.
- **Java revision:** `java_types.dfy`, `java_curseforge_config.dfy`, `java_modrinth_config.dfy`, `java_curseforge_publisher.dfy` and `java_modrinth_publisher.dfy`.
- **Kotlin revision:** `kotlin_types.dfy`, `kotlin_metadata.dfy`, `kotlin_curseforge_config.dfy`, `kotlin_modrinth_config.dfy`, `kotlin_curseforge_publisher.dfy` and `kotlin_modrinth_publisher.dfy`.
- **Comparison:** `revisions.dfy` states where the two revisions agree and where they part.

Each `publish()` is a method returning a `Run`:

- whether the version list was fetched;
- the metadata built, if any;
- the request sent, if any;
- the outcome.

The network replies are parameters. Each call is an `Exchange`: an answer `(code, message, body)` or a transport error. The JSON decoder's result is a parameter too (`None` when decoding throws). Each publisher's contract gives the run for every combination of inputs. It also states that an aborted run built no metadata and sent nothing.

Behaviour of the code that the model keeps as it is:

- **Upload failures in the Kotlin publishers:** they are logged and `publish` returns; nothing is raised.
- **Failed version fetch in the Kotlin publishers:** it becomes an empty list or set, which then aborts or resolves nothing. It is not raised.
- **Status field:** the Kotlin Modrinth publisher passes the configured status through without checking it against a fixed set.
- **Java Modrinth failure messages:** they name the code and the status message, but not the body.
- **Kotlin Modrinth version check:** it checks the configured versions against the remote set. It does not filter the remote list.
- **Kotlin CurseForge relations:** they are always present, even when empty.
- **Duplicate dependency names:** registering the same Gradle name twice is left to Gradle's container. It is a precondition here.

Two things in the Kotlin CurseForge revision do not line up as written:

- **The metadata call does not match its record:** `CurseforgeMetadata.kt` declares `projectId: String`, `gameVersions: List<String>`, `releaseType: ReleaseType` and `projectID: String?`, but the call at `CurseforgePublisher.kt:90-98` passes integer game-version ids and the extension's release-type string, and passes no `projectId` field at all; the relations it builds at `CurseforgePublisher.kt:82-87` carry an integer `projectID`. `KotlinCurseforgePublisher.Metadata` follows the values the publisher computes. `KotlinCurseforgeMetadata` models the declared records and their defaults.
- **The enumerations are declared twice:** `CurseforgeMetadata.kt:30-58` redeclares `RelationType` and `ChangelogType` with the same constants and names as `RelationType.kt` and `ChangelogType.kt`. They are modelled once, in `KotlinCurseforgeTypes`.

## Model

| member | source | states |
|---|---|---|
| Text.Trim | src/main/java/io/github/smootheez/curseforge/CurseforgePublisher.java:57-58 | the input splits into a blank prefix (as long as the leading run of spaces), the result and a blank suffix (Java: every char up to U+0020; Kotlin: whitespace); the result starts and ends with a non-space, and it is empty exactly when the input is blank |
| Text.TrimIdempotent | src/main/kotlin/io/github/smootheez/modrinth/ModrinthPublisher.kt:72 | trimming a trimmed string changes nothing |
| Text.TrimmedBlankIffBlank | src/main/kotlin/io/github/smootheez/curseforge/CurseforgePublisher.kt:40-50 | a trimmed credential is blank exactly when the configured one is |
| Text.LowerChar | src/main/kotlin/io/github/smootheez/modrinth/ModrinthPublisher.kt:83 | an upper-case ASCII letter becomes the lower-case letter at the same place in the alphabet; any other character is unchanged |
| Text.Digits | src/main/kotlin/io/github/smootheez/curseforge/CurseforgeConfig.kt:26 | the digit string of a natural is non-empty, all digits, and denotes that natural (most significant digit first), with no leading zero (only `0` itself starts with `0`); from 10 on it has at least two digits |
| Text.Lowercase | src/main/kotlin/io/github/smootheez/modrinth/ModrinthPublisher.kt:83 | same length, each character lower-cased |
| Text.EqualsIgnoreCaseIffLowercaseEqual | src/main/kotlin/io/github/smootheez/curseforge/CurseforgePublisher.kt:69 | two names are equal ignoring case exactly when their lower-cased forms are equal |
| Text.EqualsIgnoreCaseIsEquivalence | src/main/kotlin/io/github/smootheez/curseforge/CurseforgePublisher.kt:69 | equality ignoring case is reflexive, symmetric and transitive |
| Text.DecimalString | src/main/kotlin/io/github/smootheez/curseforge/CurseforgeConfig.kt:26 | the rendering of an integer starts with a minus sign exactly when it is negative; the characters after the sign (if any) are digits denoting its absolute value, with no leading zero |
| Text.DigitsInjective | src/main/kotlin/io/github/smootheez/curseforge/CurseforgeConfig.kt:26 | different naturals have different digit strings |
| Text.DecimalStringInjective | src/main/kotlin/io/github/smootheez/curseforge/CurseforgeConfig.kt:26 | different integers have different decimal renderings, so different ids get different names |
| Text.PrefixedInjective | src/main/java/io/github/smootheez/curseforge/CurseforgeConfig.java:125 | prefixing both sides with the same string preserves inequality |
| Sequences.Filter | src/main/java/io/github/smootheez/modrinth/ModrinthPublisher.java:39-40 | the filter keeps exactly the elements that satisfy the predicate and never grows the input |
| Sequences.FilterKeepsOrder | src/main/java/io/github/smootheez/curseforge/CurseforgePublisher.java:70-81 | the filtered list is the input at strictly ascending positions, and those are exactly the positions whose element satisfies the predicate |
| Sequences.FilterEmptyIff | src/main/java/io/github/smootheez/curseforge/CurseforgePublisher.java:83 | nothing survives the filter exactly when no element satisfies the predicate |
| Sequences.IndexOf | src/main/java/io/github/smootheez/modrinth/ModrinthPublisher.java:79 | the index is a position holding the element and no earlier position does |
| Sequences.IndexOfOwnPosition | src/main/java/io/github/smootheez/modrinth/ModrinthPublisher.java:77-83 | in a list without repetitions every element is found at its own position |
| Http.FilePartNames | src/main/java/io/github/smootheez/modrinth/ModrinthPublisher.java:53-55 | n files get n part names: "file" first, then "file_" followed by the index |
| Http.PartNamesDistinct | src/main/kotlin/io/github/smootheez/modrinth/ModrinthPublisher.kt:102-104 | two different positions never get the same part name |
| Http.MultipartBuilder.constructor | src/main/java/io/github/smootheez/curseforge/CurseforgePublisher.java:139 | a new form body has no parts |
| Http.MultipartBuilder.AddFormDataPart | src/main/java/io/github/smootheez/curseforge/CurseforgePublisher.java:141-145 | adding a part appends it after the parts already added |
| Http.StatusFailureMentions | src/main/java/io/github/smootheez/modrinth/ModrinthPublisher.java:95 | a status failure message names the HTTP code and the status message |
| Http.StatusFailureWithBodyMentions | src/main/java/io/github/smootheez/curseforge/CurseforgePublisher.java:169-172 | the message with the body appended names the code, the status message and the body |
| Publishing.TrimOrNull | src/main/kotlin/io/github/smootheez/modrinth/ModrinthPublisher.kt:41-42 | a null credential stays null; a set one is trimmed with Kotlin's whitespace rule |
| Publishing.TrimAll | src/main/kotlin/io/github/smootheez/modrinth/ModrinthPublisher.kt:72 | every configured game version is trimmed, in order, none dropped |
| Publishing.MissingItems | src/main/kotlin/io/github/smootheez/modrinth/ModrinthPublisher.kt:48-52 | the token, the project id and the files are each reported exactly when null or blank (the files: when there are none), in that order, each at most once; nothing is reported exactly when all three are present |
| Publishing.TrimmedNullOrBlank | src/main/kotlin/io/github/smootheez/curseforge/CurseforgePublisher.kt:40-50 | trimming first does not change which credentials count as missing |
| Publishing.EnumerationSize | src/main/kotlin/io/github/smootheez/curseforge/CurseforgePublisher.kt:82-87 | iterating a container yields as many entries as it holds |
| JavaTypes.LoaderOrdinal | src/main/java/io/github/smootheez/LoaderType.java:12-40 | each loader sits at its ordinal in declaration order: FABRIC, QUILT, FORGE, NEOFORGE |
| JavaTypes.ParseLoaderType | src/main/java/io/github/smootheez/LoaderType.java:18-40 | decoding accepts exactly the serialized names fabric, quilt, forge, neoforge, each back to its constant, so the names are distinct |
| JavaCurseforgeTypes.ParseRelationType | src/main/java/io/github/smootheez/curseforge/RelationType.java:13-48 | decoding accepts exactly embeddedLibrary, incompatible, optionalDependency, requiredDependency and tool, each back to its constant |
| JavaCurseforgeTypes.ParseChangelogType | src/main/java/io/github/smootheez/curseforge/ChangelogType.java:8-20 | decoding accepts exactly text, markdown and html, each back to its constant |
| JavaCurseforgeTypes.ParseEnvironmentType | src/main/java/io/github/smootheez/curseforge/EnvironmentType.java:12-30 | decoding accepts exactly client and server, each back to its constant |
| JavaModrinthTypes.ParseDependencyType | src/main/java/io/github/smootheez/modrinth/DependencyType.java:14-46 | decoding accepts exactly required, optional, incompatible and embedded, each back to its constant |
| KotlinTypes.LoaderOrdinal | src/main/kotlin/io/github/smootheez/LoaderType.kt:7-19 | each loader sits at its ordinal in declaration order: FORGE, NEOFORGE, FABRIC, QUILT |
| KotlinTypes.ParseLoaderType | src/main/kotlin/io/github/smootheez/LoaderType.kt:7-19 | decoding accepts exactly forge, neoforge, fabric and quilt, each back to its constant |
| KotlinTypes.ParseReleaseType | src/main/kotlin/io/github/smootheez/core/ReleaseType.kt:7-16 | decoding accepts exactly release, beta and alpha, each back to its constant |
| KotlinTypes.ValidReleaseTypesAreReleaseTypeNames | src/main/kotlin/io/github/smootheez/PublisherConfig.kt:7 | the valid release types are exactly the serialized names of the ReleaseType constants |
| KotlinCurseforgeTypes.ParseRelationType | src/main/kotlin/io/github/smootheez/curseforge/RelationType.kt:7-21 | decoding accepts exactly the five relation names, each back to its constant |
| KotlinCurseforgeTypes.ParseChangelogType | src/main/kotlin/io/github/smootheez/curseforge/ChangelogType.kt:7-15 | decoding accepts exactly text, markdown and html, each back to its constant |
| KotlinCurseforgeTypes.ParseEnvironmentType | src/main/kotlin/io/github/smootheez/curseforge/EnvironmentType.kt:7-12 | decoding accepts exactly client and server, each back to its constant |
| KotlinModrinthTypes.ParseDependencyType | src/main/kotlin/io/github/smootheez/modrinth/DependencyType.kt:7-18 | decoding accepts exactly the four dependency names, each back to its constant |
| JavaCurseforgeConfig.DependencyName | src/main/java/io/github/smootheez/curseforge/CurseforgeConfig.java:125 | the Gradle name is "curseforge-" followed by the slug |
| JavaCurseforgeConfig.DependencyNameInjective | src/main/java/io/github/smootheez/curseforge/CurseforgeConfig.java:124-126 | different slugs never share a registry key |
| JavaCurseforgeConfig.Register | src/main/java/io/github/smootheez/curseforge/CurseforgeConfig.java:124-130 | registering adds exactly one entry, under the slug's name, with slug and relation set; every other entry is unchanged |
| JavaCurseforgeConfig.RegisterTwice | src/main/java/io/github/smootheez/curseforge/CurseforgeConfig.java:124-130 | two declarations of different slugs both survive, each with its own relation |
| JavaCurseforgeConfig.CurseforgeConfig.constructor | src/main/java/io/github/smootheez/curseforge/CurseforgeConfig.java:25-38 | defaults: no credentials, MARKDOWN changelog, [CLIENT, SERVER], no manual release, no dependencies |
| JavaCurseforgeConfig.CurseforgeConfig.Dependencies | src/main/java/io/github/smootheez/curseforge/CurseforgeConfig.java:58-61 | the action runs against the registry itself |
| JavaCurseforgeConfig.CurseforgeConfig.CreateDependency | src/main/java/io/github/smootheez/curseforge/CurseforgeConfig.java:124-130 | the registry gains the one entry and the returned entry is the one registered |
| JavaCurseforgeConfig.CurseforgeConfig.Required | src/main/java/io/github/smootheez/curseforge/CurseforgeConfig.java:69-72 | registers the slug as REQUIRED_DEPENDENCY |
| JavaCurseforgeConfig.CurseforgeConfig.Optional | src/main/java/io/github/smootheez/curseforge/CurseforgeConfig.java:80-83 | registers the slug as OPTIONAL_DEPENDENCY |
| JavaCurseforgeConfig.CurseforgeConfig.Incompatible | src/main/java/io/github/smootheez/curseforge/CurseforgeConfig.java:91-94 | registers the slug as INCOMPATIBLE |
| JavaCurseforgeConfig.CurseforgeConfig.Embedded | src/main/java/io/github/smootheez/curseforge/CurseforgeConfig.java:102-105 | registers the slug as EMBEDDED_LIBRARY |
| JavaCurseforgeConfig.CurseforgeConfig.Tool | src/main/java/io/github/smootheez/curseforge/CurseforgeConfig.java:113-115 | registers the slug as TOOL |
| JavaModrinthConfig.DependencyName | src/main/java/io/github/smootheez/modrinth/ModrinthConfig.java:110 | the Gradle name is "modrinth-" followed by the project id |
| JavaModrinthConfig.DependencyNameInjective | src/main/java/io/github/smootheez/modrinth/ModrinthConfig.java:109-111 | different project ids never share a registry key |
| JavaModrinthConfig.Register | src/main/java/io/github/smootheez/modrinth/ModrinthConfig.java:109-115 | registering adds exactly one entry with id and type set; every other entry is unchanged |
| JavaModrinthConfig.ModrinthConfig.constructor | src/main/java/io/github/smootheez/modrinth/ModrinthConfig.java:25-32 | defaults: no credentials, featured, status "listed", no dependencies |
| JavaModrinthConfig.ModrinthConfig.Dependencies | src/main/java/io/github/smootheez/modrinth/ModrinthConfig.java:53-56 | the action runs against the registry itself |
| JavaModrinthConfig.ModrinthConfig.CreateDependency | src/main/java/io/github/smootheez/modrinth/ModrinthConfig.java:109-115 | the registry gains the one entry and the returned entry is the one registered |
| JavaModrinthConfig.ModrinthConfig.Required | src/main/java/io/github/smootheez/modrinth/ModrinthConfig.java:64-67 | registers the id as REQUIRED |
| JavaModrinthConfig.ModrinthConfig.Optional | src/main/java/io/github/smootheez/modrinth/ModrinthConfig.java:75-78 | registers the id as OPTIONAL |
| JavaModrinthConfig.ModrinthConfig.Incompatible | src/main/java/io/github/smootheez/modrinth/ModrinthConfig.java:86-89 | registers the id as INCOMPATIBLE |
| JavaModrinthConfig.ModrinthConfig.Embedded | src/main/java/io/github/smootheez/modrinth/ModrinthConfig.java:97-100 | registers the id as EMBEDDED |
| KotlinCurseforgeConfig.DependencyName | src/main/kotlin/io/github/smootheez/curseforge/CurseforgeConfig.kt:26 | the Gradle name is "curseforge-" followed by the decimal id |
| KotlinCurseforgeConfig.DependencyNameInjective | src/main/kotlin/io/github/smootheez/curseforge/CurseforgeConfig.kt:25-29 | different integer ids never share a registry key |
| KotlinCurseforgeConfig.Register | src/main/kotlin/io/github/smootheez/curseforge/CurseforgeConfig.kt:25-29 | registering adds exactly one entry with the id and relation set; every other entry is unchanged |
| KotlinCurseforgeConfig.CurseforgeConfig.constructor | src/main/kotlin/io/github/smootheez/curseforge/CurseforgeConfig.kt:11-15 | defaults: token and project id null, MARKDOWN, [CLIENT, SERVER], no manual release, no dependencies |
| KotlinCurseforgeConfig.CurseforgeConfig.Dependencies | src/main/kotlin/io/github/smootheez/curseforge/CurseforgeConfig.kt:20-22 | the block runs against the registry itself |
| KotlinCurseforgeConfig.CurseforgeConfig.Create | src/main/kotlin/io/github/smootheez/curseforge/CurseforgeConfig.kt:25-29 | a fresh entry (no id, REQUIRED_DEPENDENCY) is configured by the block and registered; the registry gains exactly that entry |
| KotlinCurseforgeConfig.CurseforgeConfig.Required | src/main/kotlin/io/github/smootheez/curseforge/CurseforgeConfig.kt:25-29 | registers the id as REQUIRED_DEPENDENCY |
| KotlinCurseforgeConfig.CurseforgeConfig.Optional | src/main/kotlin/io/github/smootheez/curseforge/CurseforgeConfig.kt:31-35 | registers the id as OPTIONAL_DEPENDENCY |
| KotlinCurseforgeConfig.CurseforgeConfig.Embedded | src/main/kotlin/io/github/smootheez/curseforge/CurseforgeConfig.kt:37-41 | registers the id as EMBEDDED_LIBRARY |
| KotlinCurseforgeConfig.CurseforgeConfig.Incompatible | src/main/kotlin/io/github/smootheez/curseforge/CurseforgeConfig.kt:43-47 | registers the id as INCOMPATIBLE |
| KotlinCurseforgeConfig.CurseforgeConfig.Tool | src/main/kotlin/io/github/smootheez/curseforge/CurseforgeConfig.kt:49-53 | registers the id as TOOL |
| KotlinModrinthConfig.DependencyName | src/main/kotlin/io/github/smootheez/modrinth/ModrinthConfig.kt:24 | the Gradle name is "modrinth-" followed by the id |
| KotlinModrinthConfig.DependencyNameInjective | src/main/kotlin/io/github/smootheez/modrinth/ModrinthConfig.kt:23-27 | different ids never share a registry key |
| KotlinModrinthConfig.Register | src/main/kotlin/io/github/smootheez/modrinth/ModrinthConfig.kt:23-27 | registering adds exactly one entry with the id and type set; every other entry is unchanged |
| KotlinModrinthConfig.ModrinthConfig.constructor | src/main/kotlin/io/github/smootheez/modrinth/ModrinthConfig.kt:11-14 | defaults: token and project id null, featured, status "listed", no dependencies |
| KotlinModrinthConfig.ModrinthConfig.Dependencies | src/main/kotlin/io/github/smootheez/modrinth/ModrinthConfig.kt:19-21 | the block runs against the registry itself |
| KotlinModrinthConfig.ModrinthConfig.Create | src/main/kotlin/io/github/smootheez/modrinth/ModrinthConfig.kt:23-27 | a fresh entry (no id, REQUIRED) is configured by the block and registered; the registry gains exactly that entry |
| KotlinModrinthConfig.ModrinthConfig.Required | src/main/kotlin/io/github/smootheez/modrinth/ModrinthConfig.kt:23-27 | registers the id as REQUIRED |
| KotlinModrinthConfig.ModrinthConfig.Optional | src/main/kotlin/io/github/smootheez/modrinth/ModrinthConfig.kt:29-33 | registers the id as OPTIONAL |
| KotlinModrinthConfig.ModrinthConfig.Incompatible | src/main/kotlin/io/github/smootheez/modrinth/ModrinthConfig.kt:35-39 | registers the id as INCOMPATIBLE |
| KotlinModrinthConfig.ModrinthConfig.Embedded | src/main/kotlin/io/github/smootheez/modrinth/ModrinthConfig.kt:41-45 | registers the id as EMBEDDED |
| KotlinCurseforgeMetadata.NoProjects | src/main/kotlin/io/github/smootheez/curseforge/CurseforgeMetadata.kt:20-22 | `Projects()` holds no project |
| KotlinCurseforgeMetadata.RelationOnly | src/main/kotlin/io/github/smootheez/curseforge/CurseforgeMetadata.kt:24-28 | slug and project id default to null; the relation type is the one given |
| KotlinCurseforgeMetadata.WithDefaults | src/main/kotlin/io/github/smootheez/curseforge/CurseforgeMetadata.kt:8-18 | changelog, changelog type, display name and parent file default to null and manual release to true; the required fields are the ones given |
| KotlinModrinthMetadata.WithDefaults | src/main/kotlin/io/github/smootheez/modrinth/ModrinthMetadata.kt:8-42 | name defaults to null, dependencies to empty and status to "listed"; the required fields are the ones given |
| KotlinModrinthMetadata.ParseFieldKey | src/main/kotlin/io/github/smootheez/modrinth/ModrinthMetadata.kt:9-41 | the eleven JSON keys are distinct and each names its field |
| KotlinModrinthMetadata.ParseDependencyFieldKey | src/main/kotlin/io/github/smootheez/modrinth/ModrinthMetadata.kt:45-51 | the keys project_id and dependency_type are distinct and each names its field |
| JavaCurseforgePublisher.NoProjects | src/main/java/io/github/smootheez/curseforge/Projects.java:17-19 | the no-argument `Projects` holds no relation |
| JavaCurseforgePublisher.ParseRelationFieldKey | src/main/java/io/github/smootheez/curseforge/ProjectsMetadata.java:13-16 | the keys "slug" and "type" are distinct and each names its field |
| JavaCurseforgePublisher.ParseLoaderLabel | src/main/java/io/github/smootheez/curseforge/CurseforgePublisher.java:108-115 | the loader labels Fabric, Quilt, Forge, NeoForge are distinct and each maps back to its loader |
| JavaCurseforgePublisher.ParseEnvironmentLabel | src/main/java/io/github/smootheez/curseforge/CurseforgePublisher.java:123-128 | the labels Client and Server are distinct and each maps back to its environment |
| JavaCurseforgePublisher.LabelTablesDisjoint | src/main/java/io/github/smootheez/curseforge/CurseforgePublisher.java:108-128 | no loader label is an environment label |
| JavaCurseforgePublisher.LoaderLabels | src/main/java/io/github/smootheez/curseforge/CurseforgePublisher.java:62-64 | one label per configured loader, in order, each decoding back to it |
| JavaCurseforgePublisher.EnvironmentLabels | src/main/java/io/github/smootheez/curseforge/CurseforgePublisher.java:66-68 | one label per configured environment, in order, each decoding back to it |
| JavaCurseforgePublisher.Ids | src/main/java/io/github/smootheez/curseforge/CurseforgePublisher.java:80 | the id of every tag, in order |
| JavaCurseforgePublisher.ResolveGameVersionIds | src/main/java/io/github/smootheez/curseforge/CurseforgePublisher.java:70-81 | never more ids than remote tags |
| JavaCurseforgePublisher.ResolvedIdsAreWantedTagsInOrder | src/main/java/io/github/smootheez/curseforge/CurseforgePublisher.java:70-81 | the resolved ids are the ids of exactly the tags of an accepted classification whose name is exactly a configured version, loader label or environment label, in remote-list order |
| JavaCurseforgePublisher.ResolvedIdsHaveAcceptedClassification | src/main/java/io/github/smootheez/curseforge/CurseforgePublisher.java:71-74 | every resolved id belongs to a remote tag classified 77784, 68441 or 75208 |
| JavaCurseforgePublisher.ResolutionEmptyIff | src/main/java/io/github/smootheez/curseforge/CurseforgePublisher.java:83-86 | the resolution is empty, and the run aborts, exactly when no remote tag is wanted |
| JavaCurseforgePublisher.ClassificationFilterExample | src/main/java/io/github/smootheez/curseforge/CurseforgePublisher.java:70-81 | a tag named like a configured version but of another classification contributes nothing |
| JavaCurseforgePublisher.RelationOf | src/main/java/io/github/smootheez/curseforge/CurseforgePublisher.java:88-93 | the relation record carries exactly the declaration's slug and relation type |
| JavaCurseforgePublisher.DependencyList | src/main/java/io/github/smootheez/curseforge/CurseforgePublisher.java:88-93 | one record per declaration, in container order, slug and relation preserved |
| JavaCurseforgePublisher.MetadataFor | src/main/java/io/github/smootheez/curseforge/CurseforgePublisher.java:189-207 | the metadata copies changelog, display name and release type from the extension, and changelog type and manual release from the config; the relations are present exactly when there is a dependency, and then they are all the dependencies |
| JavaCurseforgePublisher.FetchGameVersions | src/main/java/io/github/smootheez/curseforge/CurseforgePublisher.java:216-238 | a 2xx answer that decodes gives the tag list; a non-2xx answer raises a fetch failure naming the code, the status message and the body; a transport error raises one carrying its message |
| JavaCurseforgePublisher.UploadOutcome | src/main/java/io/github/smootheez/curseforge/CurseforgePublisher.java:162-178 | 2xx uploads; otherwise an upload failure is raised, naming code, status message and body, or carrying the transport message |
| JavaCurseforgePublisher.PublishingToCurseforge | src/main/java/io/github/smootheez/curseforge/CurseforgePublisher.java:138-160 | the request has the metadata part then only the first file under "file", for the project and token given; with no file nothing is sent and NoSuchElement is raised |
| JavaCurseforgePublisher.Publish | src/main/java/io/github/smootheez/curseforge/CurseforgePublisher.java:55-100 | an unset credential raises before fetching; a failed fetch raises; an empty resolution aborts before the metadata; otherwise the metadata is built from the resolved ids and the declarations, and the first file is uploaded with trimmed credentials |
| JavaModrinthPublisher.Versions | src/main/java/io/github/smootheez/modrinth/ModrinthPublisher.java:40 | the version of every tag, in order |
| JavaModrinthPublisher.ResolveGameVersions | src/main/java/io/github/smootheez/modrinth/ModrinthPublisher.java:39-40 | a version is resolved exactly when it is both remote and configured |
| JavaModrinthPublisher.ResolvedVersionsInRemoteOrder | src/main/java/io/github/smootheez/modrinth/ModrinthPublisher.java:39-40 | the resolved versions follow the remote list's order, and every remote tag whose version is configured contributes |
| JavaModrinthPublisher.ResolutionEmptyIff | src/main/java/io/github/smootheez/modrinth/ModrinthPublisher.java:42-45 | the resolution is empty, and the run aborts, exactly when no remote version is configured |
| JavaModrinthPublisher.DependencyOf | src/main/java/io/github/smootheez/modrinth/ModrinthPublisher.java:32-37 | the record carries exactly the declaration's project id and type |
| JavaModrinthPublisher.DependencyList | src/main/java/io/github/smootheez/modrinth/ModrinthPublisher.java:32-37 | one record per declaration, in container order |
| JavaModrinthPublisher.MetadataFor | src/main/java/io/github/smootheez/modrinth/ModrinthPublisher.java:57-69 | every metadata field comes from its documented source: extension, config, resolved versions, release type, dependencies, part names |
| JavaModrinthPublisher.FetchGameVersions | src/main/java/io/github/smootheez/modrinth/ModrinthPublisher.java:103-119 | a 2xx answer that decodes gives the tag list; a non-2xx answer raises a fetch failure naming the code and status message; a transport error raises one carrying its message |
| JavaModrinthPublisher.UploadOutcome | src/main/java/io/github/smootheez/modrinth/ModrinthPublisher.java:93-100 | 2xx uploads; otherwise an upload failure naming the code and status message, or carrying the transport message, is raised |
| JavaModrinthPublisher.FilePartsByIndexOf | src/main/java/io/github/smootheez/modrinth/ModrinthPublisher.java:77-83 | each file is attached under the part name at the position where the file list first holds it |
| JavaModrinthPublisher.FilePartsOfDistinctFiles | src/main/java/io/github/smootheez/modrinth/ModrinthPublisher.java:77-83 | for a set of files, the k-th file goes under the k-th part name |
| JavaModrinthPublisher.AttachFiles | src/main/java/io/github/smootheez/modrinth/ModrinthPublisher.java:77-83 | the builder gains exactly those file parts, after the parts it had |
| JavaModrinthPublisher.Publish | src/main/java/io/github/smootheez/modrinth/ModrinthPublisher.java:26-101 | an unset credential raises; a failed fetch raises; an empty resolution or a release type that is not exactly release, beta or alpha aborts before the metadata; otherwise the metadata part and every file under its part name are uploaded with the trimmed token |
| KotlinModrinthPublisher.LabelsIdentifyItems | src/main/kotlin/io/github/smootheez/modrinth/ModrinthPublisher.kt:48-52 | the three logged labels are different, so the log names each missing entry unambiguously |
| KotlinModrinthPublisher.FetchValidGameVersions | src/main/kotlin/io/github/smootheez/modrinth/ModrinthPublisher.kt:184-207 | a 2xx, non-blank, decodable answer gives the set of its tags' versions; every failure gives the empty set |
| KotlinModrinthPublisher.InvalidVersions | src/main/kotlin/io/github/smootheez/modrinth/ModrinthPublisher.kt:73 | a version is reported invalid exactly when it is configured and Modrinth does not know it |
| KotlinModrinthPublisher.InvalidVersionsEmptyIff | src/main/kotlin/io/github/smootheez/modrinth/ModrinthPublisher.kt:73-79 | nothing is invalid exactly when every configured version is known |
| KotlinModrinthPublisher.AcceptedVersionsAreKnown | src/main/kotlin/io/github/smootheez/modrinth/ModrinthPublisher.kt:73-80 | once validation passes, every configured version is a Modrinth version |
| KotlinModrinthPublisher.InvalidVersionsInUserOrder | src/main/kotlin/io/github/smootheez/modrinth/ModrinthPublisher.kt:73-76 | the invalid versions are reported in configuration order, each occurrence once |
| KotlinModrinthPublisher.ReleaseTypeAcceptedIff | src/main/kotlin/io/github/smootheez/modrinth/ModrinthPublisher.kt:83-84 | a release type passes exactly when its lower-cased form names a ReleaseType constant |
| KotlinModrinthPublisher.DependencyOf | src/main/kotlin/io/github/smootheez/modrinth/ModrinthPublisher.kt:94-99 | the record carries exactly the declaration's project id and type |
| KotlinModrinthPublisher.DependencyList | src/main/kotlin/io/github/smootheez/modrinth/ModrinthPublisher.kt:94-99 | one record per declaration, in container order |
| KotlinModrinthPublisher.MetadataFor | src/main/kotlin/io/github/smootheez/modrinth/ModrinthPublisher.kt:107-119 | the version number is the extension's version when set and the Gradle project's version otherwise; the other fields come from their documented sources |
| KotlinModrinthPublisher.AttachFiles | src/main/kotlin/io/github/smootheez/modrinth/ModrinthPublisher.kt:143-151 | the builder gains the k-th file under the k-th part name, in order, after the parts it had |
| KotlinModrinthPublisher.UploadOutcome | src/main/kotlin/io/github/smootheez/modrinth/ModrinthPublisher.kt:163-181 | 2xx uploads; any other answer or a transport error is only logged |
| KotlinModrinthPublisher.PublishingToModrinth | src/main/kotlin/io/github/smootheez/modrinth/ModrinthPublisher.kt:129-182 | the request has the metadata under "data", then every file under its part name, posted with the token |
| KotlinModrinthPublisher.Publish | src/main/kotlin/io/github/smootheez/modrinth/ModrinthPublisher.kt:39-127 | missing credentials or files, no remote versions, an unknown configured version, or a release type whose lower-cased form is not release, beta or alpha each abort with that reason before the metadata; otherwise every configured version is known to Modrinth, and the metadata with them and the lower-cased release type is uploaded; nothing is raised |
| KotlinCurseforgePublisher.LabelsIdentifyItems | src/main/kotlin/io/github/smootheez/curseforge/CurseforgePublisher.kt:47-51 | the three logged labels are different, so the log names each missing entry unambiguously |
| KotlinCurseforgePublisher.FetchValidGameVersions | src/main/kotlin/io/github/smootheez/curseforge/CurseforgePublisher.kt:111-131 | a 2xx, non-blank, decodable answer gives exactly the decoded tags; a non-2xx answer, a blank body, a decoding failure or a transport error gives the empty list |
| KotlinCurseforgePublisher.FirstMatch | src/main/kotlin/io/github/smootheez/curseforge/CurseforgePublisher.kt:69 | the position of the first tag whose name equals the version ignoring case; none exactly when no tag matches |
| KotlinCurseforgePublisher.ResolveVersionIds | src/main/kotlin/io/github/smootheez/curseforge/CurseforgePublisher.kt:68-70 | at most one id per configured version, each the id of a remote tag |
| KotlinCurseforgePublisher.ResolveIsFilterThenMap | src/main/kotlin/io/github/smootheez/curseforge/CurseforgePublisher.kt:68-70 | the resolution equals keeping the configured versions that have a match and replacing each by its first match's id |
| KotlinCurseforgePublisher.ResolvedIdsFollowUserOrder | src/main/kotlin/io/github/smootheez/curseforge/CurseforgePublisher.kt:65-70 | the k-th id is the first match's id of the k-th configured version that has a match, in configuration order, and every such version contributes |
| KotlinCurseforgePublisher.ResolutionEmptyIff | src/main/kotlin/io/github/smootheez/curseforge/CurseforgePublisher.kt:68-75 | the resolution is empty, and the run aborts, exactly when no tag name matches any configured version ignoring case |
| KotlinCurseforgePublisher.FirstMatchIgnoresClassification | src/main/kotlin/io/github/smootheez/curseforge/CurseforgePublisher.kt:69 | tags that agree on their names give the same first match, whatever their classification or slug |
| KotlinCurseforgePublisher.ResolutionIgnoresClassification | src/main/kotlin/io/github/smootheez/curseforge/CurseforgePublisher.kt:68-70 | there is no classification filter: relabelling classifications or slugs never changes the resolution |
| KotlinCurseforgePublisher.FirstMatchWinsExample | src/main/kotlin/io/github/smootheez/curseforge/CurseforgePublisher.kt:68-70 | of two tags named alike the first wins whatever its classification, an unmatched version is dropped, and matching ignores case |
| KotlinCurseforgePublisher.RelationOf | src/main/kotlin/io/github/smootheez/curseforge/CurseforgePublisher.kt:82-87 | the relation carries exactly the declaration's id and relation type, and no slug |
| KotlinCurseforgePublisher.RelationList | src/main/kotlin/io/github/smootheez/curseforge/CurseforgePublisher.kt:82-87 | one relation per declaration, in container order |
| KotlinCurseforgePublisher.RelationsCoverDeclarations | src/main/kotlin/io/github/smootheez/curseforge/CurseforgePublisher.kt:82-87 | there are as many relations as declarations and every declaration's relation is among them |
| KotlinCurseforgePublisher.MetadataFor | src/main/kotlin/io/github/smootheez/curseforge/CurseforgePublisher.kt:90-98 | the metadata copies changelog, changelog type, display name, release type and manual release, carries the resolved ids, and always carries the relations, possibly none |
| KotlinCurseforgePublisher.UploadOutcome | src/main/kotlin/io/github/smootheez/curseforge/CurseforgePublisher.kt:171-187 | 2xx uploads; any other answer or a transport error is only logged |
| KotlinCurseforgePublisher.PublishingToCurseforge | src/main/kotlin/io/github/smootheez/curseforge/CurseforgePublisher.kt:136-168 | the request has the metadata part then only the first file under "file", for the project and token given; with no file nothing is sent |
| KotlinCurseforgePublisher.Publish | src/main/kotlin/io/github/smootheez/curseforge/CurseforgePublisher.kt:38-106 | missing credentials or files abort before fetching; an empty resolution aborts before the metadata; otherwise the metadata with the resolved ids and all declarations is uploaded with the first file to the trimmed project id; nothing is raised |
| Revisions.KotlinLoader | src/main/kotlin/io/github/smootheez/LoaderType.kt:7-19 | each Java loader has a Kotlin constant with the same serialized name |
| Revisions.LoaderNamesAgree | src/main/java/io/github/smootheez/LoaderType.java:12-40 | both revisions decode the same loader names, to constants of the same name |
| Revisions.LoaderOrdinalsDiffer | src/main/kotlin/io/github/smootheez/LoaderType.kt:7-19 | the same loader sits at another ordinal in the two revisions |
| Revisions.ValidNamesAreLowercase | src/main/java/io/github/smootheez/Constants.java:28 | the valid release types are already lower case |
| Revisions.KotlinReleaseCheckIsLaxer | src/main/kotlin/io/github/smootheez/modrinth/ModrinthPublisher.kt:83-84 | every release type the Java check accepts passes the Kotlin check, but "Beta" passes only the Kotlin one |

## Left out

- **JSON encoding and decoding:** kotlinx.serialization and Gson are not modelled. The decoded tag list is a parameter, `None` when decoding throws. The metadata is kept as a record, and the JSON text is not produced.
- **Endpoints:**
  - URLs, request headers and the User-Agent strings are not modelled.
  - The HTTP timeout is not modelled.
  - The Kotlin CurseForge game-versions URL repeats `api/` (`.../api/api/game/versions`). A wrong URL only changes the reply the fetch gets, and that reply is a parameter here.
- **Logging:** only what a log line decides is modelled, namely the abort reason and whether an upload failure was logged.
- **Gradle wiring:** the plugin classes, task registration, the extension DSL and `project.version` are not modelled. The project version is a parameter of the Kotlin Modrinth publisher.
- **Container iteration order:** `asMap.values` and `stream()` iterate a Gradle container in an order Gradle defines. Each publisher takes that order as a parameter that lists every key once.
- **Duplicate names:** `dependencies.create` on a name already taken is Gradle's behaviour and is not visible here. The `Create`/`CreateDependency` methods and the helpers require the name to be free.
- **Java file collection:** `Extension.files` is a sequence, while the Java revision's files come from a `Set` and never repeat. `JavaModrinthPublisher.Publish` also describes repeated files, which cannot occur; `JavaModrinthPublisher.FilePartsOfDistinctFiles` states the part names for the duplicate-free case the source produces.
- **Dependency entries:** they are values. The returned entry is a copy, so changing it after registration (aliasing through the container) is not modelled.
- **Text handling:** Kotlin `lowercase()` and `equals(ignoreCase = true)` are modelled as ASCII case folding. Unicode case folding is not modelled. Kotlin `trim` uses a fixed whitespace list.
- **Integer width:** Kotlin `Int` ids and HTTP codes are unbounded integers. Overflow does not arise in these computations.
- **Java null fields:** a null `releaseType`, `changelogType` or changelog in the Java revision is not modelled; those fields are plain values. A null token or project id is modelled, and it raises `NullValue`.
- **Malformed tag list:** in the Java revision, Gson returning `null` for the tag list and a decoding exception are folded into one error, `MalformedTagList`.
- **Kotlin `CurseforgeMetadata.kt`:** its records are modelled with their defaults. The Kotlin CurseForge publisher builds its own `Metadata`, which follows the values it passes.
- **Java revision's base classes:** the `McModPublisher` base class named by `ModrinthPublisher.java` and the two-argument `PublisherConfig` constructor are not part of this model. Only their effects as used by the core are modelled.
