/**
 * The API client: the multipart payload `unlockExcelFiles` builds, and the
 * message of the error it throws. The HTTP exchange is a parameter: the reply
 * to the one request the client sends.
 */
module ApiService {
  import opened Wrappers
  import opened FileUtils

  /** The opaque body of a successful reply (the zip archive). */
  datatype Blob = Blob(bytes: seq<bv8>)

  datatype FormValue = FileValue(file: File) | TextValue(text: string)

  /** One part of the multipart form: its field name and its value. */
  datatype FormEntry = FormEntry(field: string, value: FormValue)

  datatype Request = Request(url: string, httpMethod: string, body: seq<FormEntry>)

  const UnlockEndpoint := "http://localhost:8000/unlock/"

  /**
   * The `detail` property of a parsed error body, as far as the client can tell
   * it apart: absent or falsy (undefined, null, false, 0, ""), a non-empty
   * string, or any other truthy value together with what `String(value)` gives.
   */
  datatype Detail = Falsy | Text(text: string) | OtherTruthy(rendered: string)

  /** What `response.json()` makes of an error body. */
  datatype ErrorBody =
    | Unparsable          // the promise rejects
    | JsonNull            // parses to null, so reading `.detail` throws
    | Parsed(detail: Detail)

  datatype Response = Response(ok: bool, statusText: string, errorBody: ErrorBody, body: Blob)

  /** What `fetch` yields: a rejection (no response) or a response. */
  datatype FetchReply = NetworkError(message: string) | Received(response: Response)

  const GenericServerError := "Failed to unlock files"
  const GenericClientError := "Failed to unlock Excel files"

  /** The form the server reads: every file under "files", in order, then the password. */
  function Payload(files: seq<File>, password: string): seq<FormEntry> {
    seq(|files|, i requires 0 <= i < |files| => FormEntry("files", FileValue(files[i])))
      + [FormEntry("password", TextValue(password))]
  }

  /** Builds the form data part by part, as the `forEach` over the files and the final append do. */
  method BuildFormData(files: seq<File>, password: string) returns (formData: seq<FormEntry>)
    ensures formData == Payload(files, password)
  {
    formData := [];
    for i := 0 to |files|
      invariant |formData| == i
      invariant forall j :: 0 <= j < i ==> formData[j] == FormEntry("files", FileValue(files[j]))
    {
      formData := formData + [FormEntry("files", FileValue(files[i]))];
    }
    formData := formData + [FormEntry("password", TextValue(password))];
  }

  /** The files a server reads back from a form: the values of its "files" parts, in order. */
  function FilesOf(form: seq<FormEntry>): seq<File> {
    if form == [] then []
    else
      var last := form[|form| - 1];
      FilesOf(form[..|form| - 1])
        + (if last.field == "files" && last.value.FileValue? then [last.value.file] else [])
  }

  /** The texts a server reads back from a form under "password", in order. */
  function PasswordsOf(form: seq<FormEntry>): seq<string> {
    if form == [] then []
    else
      var last := form[|form| - 1];
      PasswordsOf(form[..|form| - 1])
        + (if last.field == "password" && last.value.TextValue? then [last.value.text] else [])
  }

  lemma {:induction false} FileEntriesReadBack(files: seq<File>)
    ensures var parts := seq(|files|, i requires 0 <= i < |files| => FormEntry("files", FileValue(files[i])));
      FilesOf(parts) == files && PasswordsOf(parts) == []
    decreases |files|
  {
    if files != [] {
      var init := files[..|files| - 1];
      var parts := seq(|files|, i requires 0 <= i < |files| => FormEntry("files", FileValue(files[i])));
      FileEntriesReadBack(init);
      assert parts[..|parts| - 1]
        == seq(|init|, i requires 0 <= i < |init| => FormEntry("files", FileValue(init[i])));
    }
  }

  /**
   * The server gets back exactly what was sent: the files in input order and a
   * single password, unchanged.
   */
  lemma PayloadReadsBack(files: seq<File>, password: string)
    ensures FilesOf(Payload(files, password)) == files
    ensures PasswordsOf(Payload(files, password)) == [password]
    ensures |Payload(files, password)| == |files| + 1
  {
    var p := Payload(files, password);
    FileEntriesReadBack(files);
    assert p[..|p| - 1]
      == seq(|files|, i requires 0 <= i < |files| => FormEntry("files", FileValue(files[i])));
  }

  /** The message the `!response.ok` branch throws. */
  function ServerErrorMessage(response: Response): (message: string)
    ensures message != "" || response.errorBody == Parsed(OtherTruthy(""))
    ensures response.errorBody.Parsed? && response.errorBody.detail.OtherTruthy?
      ==> message == response.errorBody.detail.rendered
  {
    match response.errorBody
    case Parsed(Falsy) => GenericServerError
    case Parsed(Text(text)) => if text != "" then text else GenericServerError
    case Parsed(OtherTruthy(rendered)) => rendered
    case _ => if response.statusText != "" then response.statusText else GenericServerError
  }

  /** The outer catch: `error.message || 'Failed to unlock Excel files'`. */
  function Rethrown(message: string): (r: string)
    ensures r != ""
    ensures message != "" ==> r == message
  {
    if message != "" then message else GenericClientError
  }

  /** What a call yields for a reply: the body untouched on success, else a non-empty message. */
  function UnlockOutcome(reply: FetchReply): Result<Blob, string> {
    match reply
    case NetworkError(message) => Failure(Rethrown(message))
    case Received(response) =>
      if response.ok then Success(response.body)
      else Failure(Rethrown(ServerErrorMessage(response)))
  }

  /**
   * `unlockExcelFiles`: builds the form, sends one POST to the unlock endpoint,
   * and returns the body of an ok reply or throws an error whose message is
   * chosen by the fallback chain.
   */
  method UnlockExcelFiles(files: seq<File>, password: string, reply: FetchReply)
    returns (request: Request, result: Result<Blob, string>)
    ensures request == Request(UnlockEndpoint, "POST", Payload(files, password))
    ensures result == UnlockOutcome(reply)
    ensures result.Failure? ==> result.error != ""
  {
    var formData := BuildFormData(files, password);
    request := Request(UnlockEndpoint, "POST", formData);
    var thrown: string;
    match reply {
      case NetworkError(message) =>
        thrown := message;
      case Received(response) =>
        if response.ok {
          return request, Success(response.body);
        }
        var errorMessage := GenericServerError;
        match response.errorBody {
          case Unparsable =>
            errorMessage := if response.statusText != "" then response.statusText else errorMessage;
          case JsonNull =>
            errorMessage := if response.statusText != "" then response.statusText else errorMessage;
          case Parsed(detail) =>
            match detail {
              case Falsy =>
              case Text(text) =>
                errorMessage := if text != "" then text else errorMessage;
              case OtherTruthy(rendered) =>
                errorMessage := rendered;
            }
        }
        thrown := errorMessage;
    }
    result := Failure(if thrown != "" then thrown else GenericClientError);
  }

  /** A non-empty string `detail` becomes the message verbatim. */
  lemma DetailIsTheMessage(response: Response, text: string)
    requires !response.ok && response.errorBody == Parsed(Text(text)) && text != ""
    ensures UnlockOutcome(Received(response)) == Failure(text)
  {
  }

  /** A truthy `detail` that is not a string (FastAPI's array of errors) becomes its `String(detail)` rendering. */
  lemma RenderedDetailIsTheMessage(response: Response, rendered: string)
    requires !response.ok && response.errorBody == Parsed(OtherTruthy(rendered)) && rendered != ""
    ensures UnlockOutcome(Received(response)) == Failure(rendered)
  {
  }

  /** A body that parses but has no truthy `detail` gives 'Failed to unlock files', whatever the status text. */
  lemma MissingDetailIsGeneric(response: Response)
    requires !response.ok && response.errorBody.Parsed?
    requires response.errorBody.detail.Falsy? || response.errorBody.detail == Text("")
    ensures UnlockOutcome(Received(response)) == Failure("Failed to unlock files")
  {
  }

  /** A body that does not parse (or is `null`) gives the status text, or 'Failed to unlock files' without one. */
  lemma UnreadableBodyUsesStatusText(response: Response)
    requires !response.ok && !response.errorBody.Parsed?
    ensures UnlockOutcome(Received(response))
      == Failure(if response.statusText != "" then response.statusText else "Failed to unlock files")
  {
  }

  /**
   * The last fallback is reached only by a rejected fetch without a message, or
   * by a truthy `detail` that renders as the empty string (an empty array).
   */
  lemma ClientFallbackReachable(response: Response)
    requires !response.ok && response.errorBody == Parsed(OtherTruthy(""))
    ensures UnlockOutcome(Received(response)) == Failure("Failed to unlock Excel files")
    ensures UnlockOutcome(NetworkError("")) == Failure("Failed to unlock Excel files")
  {
  }

  /** Every failure carries a non-empty message; every ok reply yields its body as it came. */
  lemma OutcomeShape(reply: FetchReply)
    ensures UnlockOutcome(reply).Failure? ==> UnlockOutcome(reply).error != ""
    ensures reply.Received? && reply.response.ok ==> UnlockOutcome(reply) == Success(reply.response.body)
    ensures UnlockOutcome(reply).Success? <==> reply.Received? && reply.response.ok
  {
  }
}
