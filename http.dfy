/**
 * The HTTP boundary as the publishers see it: a call either answers with a
 * (code, message, body) triple or fails in transport; success is OkHttp's
 * `isSuccessful`. A request body is a list of named form parts, built by a
 * `MultipartBody.Builder` one part at a time.
 */
module Http {
  import opened Wrappers
  import Text

  datatype Response = Response(code: int, message: string, body: string)

  /** What one blocking call gave back. */
  datatype Exchange =
    | Answered(response: Response)
    | IoError(message: string)  // IOException or other transport fault, with its message

  /** OkHttp's `Response.isSuccessful`: the code is in [200, 300). */
  predicate IsSuccessful(code: int)
  {
    200 <= code < 300
  }

  predicate Succeeded(x: Exchange)
  {
    x.Answered? && IsSuccessful(x.response.code)
  }

  /** An artifact on disk: its path and its file name. */
  datatype File = File(path: string, name: string)

  datatype PartBody = MetadataJson | FileContents(path: string)

  /** One `addFormDataPart(name, filename, body)` call. */
  datatype FormPart = FormPart(name: string, fileName: Option<string>, body: PartBody)

  /** The JSON metadata part: no file name. */
  function MetadataPart(name: string): FormPart
  {
    FormPart(name, None, MetadataJson)
  }

  /** A file part: the file's own name as the part's file name. */
  function FilePart(name: string, file: File): FormPart
  {
    FormPart(name, Some(file.name), FileContents(file.path))
  }

  /** OkHttp's `MultipartBody.Builder`, reduced to the parts added so far. */
  class MultipartBuilder {
    var parts: seq<FormPart>

    constructor ()
      ensures parts == []
    {
      parts := [];
    }

    method AddFormDataPart(part: FormPart)
      modifies this
      ensures parts == old(parts) + [part]
    {
      parts := parts + [part];
    }
  }

  /** The multipart field name of the file at position `i`. */
  function PartName(i: nat): string
  {
    if i == 0 then "file" else "file_" + Text.DecimalString(i)
  }

  /** The part names of `n` files: "file", "file_1", ..., "file_(n-1)". */
  function FilePartNames(n: nat): (names: seq<string>)
    ensures |names| == n
    ensures n > 0 ==> names[0] == "file"
    ensures forall i :: 1 <= i < n ==> names[i] == "file_" + Text.DecimalString(i)
  {
    seq(n, i requires 0 <= i < n => PartName(i))
  }

  /** No two files share a part name. */
  lemma PartNamesDistinct(i: nat, j: nat)
    ensures i != j ==> PartName(i) != PartName(j)
  {
    if i != j && i != 0 && j != 0 {
      Text.PrefixedInjective("file_", Text.DecimalString(i), Text.DecimalString(j));
      Text.DecimalStringInjective(i, j);
    } else if i != j {
      var k := if i == 0 then j else i;
      assert |PartName(k)| > |"file"|;
    }
  }

  /** File `k` under part name `names[k]`. */
  function IndexedFileParts(files: seq<File>, names: seq<string>): seq<FormPart>
    requires |names| == |files|
  {
    seq(|files|, k requires 0 <= k < |files| => FilePart(names[k], files[k]))
  }

  /** "<prefix><code> - <message>", the status line of a failed call. */
  function StatusFailure(prefix: string, r: Response): string
  {
    prefix + Text.DecimalString(r.code) + " - " + r.message
  }

  /** "<prefix><code> - <message> - BODY: <body>". */
  function StatusFailureWithBody(prefix: string, r: Response): string
  {
    StatusFailure(prefix, r) + " - BODY: " + r.body
  }

  /** A status line names the code and the status message. */
  lemma StatusFailureMentions(prefix: string, r: Response)
    ensures Text.Contains(StatusFailure(prefix, r), Text.DecimalString(r.code))
    ensures Text.Contains(StatusFailure(prefix, r), r.message)
  {
    var code := Text.DecimalString(r.code);
    Text.ContainsSuffix(prefix, code);
    Text.ContainsExtended(prefix + code, code, " - ");
    Text.ContainsExtended(prefix + code + " - ", code, r.message);
    Text.ContainsSuffix(prefix + code + " - ", r.message);
  }

  /** With the body appended, the line also names the body. */
  lemma StatusFailureWithBodyMentions(prefix: string, r: Response)
    ensures Text.Contains(StatusFailureWithBody(prefix, r), Text.DecimalString(r.code))
    ensures Text.Contains(StatusFailureWithBody(prefix, r), r.message)
    ensures Text.Contains(StatusFailureWithBody(prefix, r), r.body)
  {
    var line := StatusFailure(prefix, r);
    StatusFailureMentions(prefix, r);
    Text.ContainsExtended(line, Text.DecimalString(r.code), " - BODY: ");
    Text.ContainsExtended(line + " - BODY: ", Text.DecimalString(r.code), r.body);
    Text.ContainsExtended(line, r.message, " - BODY: ");
    Text.ContainsExtended(line + " - BODY: ", r.message, r.body);
    Text.ContainsSuffix(line + " - BODY: ", r.body);
  }
}
