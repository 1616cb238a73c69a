/**
 * Requests and responses of the embedded HTTP server, as the handlers see
 * them: a path, a verb, lower-cased header names, query parameters with all
 * their values, and the raw body; a status, a MIME type, extra headers in the
 * order they are added, and a body.
 */
module Http {
  import opened Wrappers
  import opened Media

  datatype Method = GET | PUT | POST | DELETE | HEAD | OPTIONS | TRACE | CONNECT | PATCH

  datatype Status = OK | REDIRECT | BAD_REQUEST | UNAUTHORIZED | NOT_FOUND | METHOD_NOT_ALLOWED | INTERNAL_ERROR {
    function Code(): int {
      match this
      case OK => 200
      case REDIRECT => 301
      case BAD_REQUEST => 400
      case UNAUTHORIZED => 401
      case NOT_FOUND => 404
      case METHOD_NOT_ALLOWED => 405
      case INTERNAL_ERROR => 500
    }
  }

  /**
   * What a response carries. The HTML page, the service-worker script, a
   * streamed file and a streamed archive are named by what they are built from.
   * An archive lists its entries (name and the item whose bytes it holds) and
   * whether its producer got to the end rather than failing part way.
   */
  datatype Body =
    | Text(text: string)
    | Bytes(bytes: seq<bv8>)
    | IndexPage(items: seq<SelectedItem>)
    | ServiceWorkerScript
    | FileStream(uri: Uri)
    | ZipStream(entries: seq<(string, Uri)>, completed: bool)

  datatype Request = Request(
    uri: string,
    verb: Method,
    headers: map<string, string>,
    parameters: map<string, seq<string>>,
    body: seq<bv8>)
  {
    /** `session.headers[name]`. */
    function Header(name: string): Option<string> {
      if name in headers then Some(headers[name]) else None
    }

    /** `session.parameters[name]?.firstOrNull()`. */
    function FirstParam(name: string): Option<string> {
      if name in parameters && |parameters[name]| > 0 then Some(parameters[name][0]) else None
    }
  }

  datatype Response = Response(status: Status, mimeType: string, headers: seq<(string, string)>, body: Body)

  const PLAIN: string := "text/plain"
  const PLAIN_UTF8: string := "text/plain; charset=utf-8"

  /** A `text/plain` response without extra headers. */
  function Plain(status: Status, text: string): Response {
    Response(status, PLAIN, [], Text(text))
  }

  function NotFound(msg: string): Response {
    Response(NOT_FOUND, PLAIN_UTF8, [], Text(msg))
  }

  function BadRequest(msg: string): Response {
    Response(BAD_REQUEST, PLAIN_UTF8, [], Text(msg))
  }

  function MethodNotAllowed(): Response {
    Response(METHOD_NOT_ALLOWED, PLAIN_UTF8, [], Text("Metodo non consentito"))
  }

  function Forbidden(): Response {
    Response(UNAUTHORIZED, PLAIN_UTF8, [], Text("PIN richiesto o non valido"))
  }

  /** The catch-all answer of `serve` to an exception with the given message. */
  function InternalError(msg: string): Response {
    Plain(INTERNAL_ERROR, "Errore: " + msg)
  }
}
