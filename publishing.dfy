/**
 * What one `publish()` call did, shared by both platforms and both
 * revisions: whether it fetched the remote version list, whether it built
 * the metadata, which upload request it sent, and how it ended.
 */
module Publishing {
  import opened Wrappers
  import opened Http
  import Text

  /** A configuration problem: logged as an error, and `publish` returns. */
  datatype AbortReason =
    | MissingConfiguration(items: seq<string>)
    | NoRemoteGameVersions
    | NoValidGameVersions
    | InvalidGameVersions(versions: seq<string>)
    | InvalidReleaseType(releaseType: string)

  /** What escapes `publish` as an exception. */
  datatype PublishError =
    | FailedFetchGameVersions(message: string)  // FailedFetchGameVersionsException
    | FailedFileUpload(message: string)         // FailedFileUploadException
    | NullValue                                 // null dereference of an unset token or project id
    | NoSuchElement                             // Iterator.next() over no files
    | MalformedTagList                          // the version list could not be decoded

  datatype Outcome =
    | Uploaded                    // the upload answered 2xx
    | UploadFailureLogged         // the upload failed, was logged, and publish returned
    | Aborted(reason: AbortReason)
    | Raised(error: PublishError)

  /** The upload call: credential header, project in the URL (if any), body parts. */
  datatype Request = Request(token: string, urlProject: Option<string>, parts: seq<FormPart>)

  datatype Run<M> = Run(fetched: bool, metadata: Option<M>, request: Option<Request>, outcome: Outcome)
  {
    /** An aborted run built no metadata and sent nothing. */
    predicate AbortsCleanly()
    {
      outcome.Aborted? ==> metadata.None? && request.None?
    }
  }

  /**
   * `order` lists every key of `m` exactly once: the iteration order of a
   * Gradle container keyed by name.
   */
  ghost predicate Enumerates<V>(order: seq<string>, m: map<string, V>)
  {
    (forall i, j :: 0 <= i < j < |order| ==> order[i] != order[j]) &&
    (forall k :: k in m <==> k in order)
  }

  /** A sequence without repetitions has as many distinct elements as positions. */
  lemma {:induction false} DistinctElementsCount(order: seq<string>)
    requires forall i, j :: 0 <= i < j < |order| ==> order[i] != order[j]
    ensures |set k | k in order| == |order|
  {
    if order != [] {
      DistinctElementsCount(order[1..]);
      var rest := set k | k in order[1..];
      assert order[0] !in rest by {
        forall i | 0 <= i < |order[1..]| ensures order[1..][i] != order[0] {
          assert order[1..][i] == order[i + 1];
        }
      }
      assert (set k | k in order) == rest + {order[0]};
    }
  }

  /** A container lists each of its entries once: the listing is as long as the container. */
  lemma EnumerationSize<V>(order: seq<string>, m: map<string, V>)
    requires Enumerates(order, m)
    ensures |order| == |m|
  {
    DistinctElementsCount(order);
    assert m.Keys == set k | k in order;
  }

  /** Kotlin's `s?.trim()`. */
  function TrimOrNull(s: Option<string>): (r: Option<string>)
    ensures r.Some? <==> s.Some?
    ensures r.Some? ==> r.value == Text.Trim(Text.KotlinSpace, s.value)
  {
    match s
    case None => None
    case Some(v) => Some(Text.Trim(Text.KotlinSpace, v))
  }

  /** `gameVersions.map { it.trim() }`. */
  function TrimAll(versions: seq<string>): (r: seq<string>)
    ensures |r| == |versions|
    ensures forall i :: 0 <= i < |versions| ==> r[i] == Text.Trim(Text.KotlinSpace, versions[i])
  {
    seq(|versions|, i requires 0 <= i < |versions| => Text.Trim(Text.KotlinSpace, versions[i]))
  }

  /** Kotlin's `isNullOrBlank()`. */
  predicate NullOrBlank(s: Option<string>)
  {
    s.None? || Text.IsBlank(Text.KotlinSpace, s.value)
  }

  /** The three entries a Kotlin publisher checks first, in report order. */
  datatype ConfigItem = TokenItem | ProjectIdItem | FilesItem

  /** An item's place in the report order. */
  function ItemRank(item: ConfigItem): nat
  {
    match item
    case TokenItem => 0
    case ProjectIdItem => 1
    case FilesItem => 2
  }

  /** The wording a publisher logs for each of the three items. */
  datatype MissingLabels = MissingLabels(token: string, projectId: string, files: string)
  {
    function LabelOf(item: ConfigItem): string
    {
      match item
      case TokenItem => token
      case ProjectIdItem => projectId
      case FilesItem => files
    }

    /** The labels of the items, in order. */
    function LabelsOf(items: seq<ConfigItem>): (labels: seq<string>)
      ensures |labels| == |items|
    {
      seq(|items|, i requires 0 <= i < |items| => LabelOf(items[i]))
    }
  }

  /**
   * The `buildList` of missing configuration: the token when the (trimmed)
   * token is null or blank, the project id likewise, and the files when
   * there is no file, in that order.
   */
  function MissingItems(token: Option<string>, projectId: Option<string>, hasFiles: bool)
    : (missing: seq<ConfigItem>)
    ensures |missing| <= 3
    ensures TokenItem in missing <==> NullOrBlank(token)
    ensures ProjectIdItem in missing <==> NullOrBlank(projectId)
    ensures FilesItem in missing <==> !hasFiles
    ensures forall i, j :: 0 <= i < j < |missing| ==> ItemRank(missing[i]) < ItemRank(missing[j])
    ensures missing == [] <==> !NullOrBlank(token) && !NullOrBlank(projectId) && hasFiles
  {
    (if NullOrBlank(token) then [TokenItem] else []) +
    (if NullOrBlank(projectId) then [ProjectIdItem] else []) +
    (if hasFiles then [] else [FilesItem])
  }

  /** A trimmed credential is null or blank exactly when the configured one is. */
  lemma TrimmedNullOrBlank(s: Option<string>)
    ensures NullOrBlank(TrimOrNull(s)) <==> NullOrBlank(s)
  {
    if s.Some? {
      Text.TrimmedBlankIffBlank(Text.KotlinSpace, s.value);
    }
  }
}
