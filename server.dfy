/**
 * The API request log and the error handler of the server entry point.
 *
 * The log middleware wraps `res.json` so the last body sent is captured, and
 * when the response finishes writes one line for paths under "/api":
 * `METHOD path status in Nms`, then ` :: ` and the JSON body when one was
 * captured, cut to 80 characters. The error handler answers with the error's
 * status and message, falling back to 500 and "Internal Server Error".
 */
module Server {
  import opened Common
  import opened Text
  import opened Numbers

  const MaxLogLength: nat := 80

  /** `line.slice(0, 79) + "…"` for lines longer than 80 characters. */
  function Truncate(line: string): (r: string)
    ensures |r| <= MaxLogLength
    ensures |line| <= MaxLogLength ==> r == line
    ensures |line| > MaxLogLength ==>
      |r| == MaxLogLength && r[..MaxLogLength - 1] == line[..MaxLogLength - 1] && r[MaxLogLength - 1] == '…'
  {
    if |line| > MaxLogLength then line[..MaxLogLength - 1] + "…" else line
  }

  /** The untruncated line: `${method} ${path} ${status} in ${duration}ms`, then ` :: ${json}`. */
  function FullLogLine(verb: string, path: string, status: int, durationMs: int, captured: Option<string>): (r: string)
    ensures StartsWith(r, verb + " " + path + " " + IntToString(status) + " in ")
    ensures captured.None? ==> r[|r| - 2..] == "ms"
    ensures captured.Some? ==> |r| >= |captured.value| + 4 && r[|r| - |captured.value| - 4..] == " :: " + captured.value
  {
    verb + " " + path + " " + IntToString(status) + " in " + IntToString(durationMs) + "ms"
      + (if captured.Some? then " :: " + captured.value else "")
  }

  /** The line logged when a response finishes, if any: only paths starting with "/api" are logged. */
  function LogLine(verb: string, path: string, status: int, durationMs: int, captured: Option<string>): (r: Option<string>)
    ensures r.Some? <==> StartsWith(path, "/api")
    ensures r.Some? ==> |r.value| <= MaxLogLength
    ensures r.Some? ==> StartsWith(r.value, verb + " " + path) || |r.value| == MaxLogLength
    ensures r.Some? && |FullLogLine(verb, path, status, durationMs, captured)| <= MaxLogLength ==>
      r.value == FullLogLine(verb, path, status, durationMs, captured)
    ensures r.Some? && |FullLogLine(verb, path, status, durationMs, captured)| > MaxLogLength ==>
      |r.value| == MaxLogLength
      && r.value[..MaxLogLength - 1] == FullLogLine(verb, path, status, durationMs, captured)[..MaxLogLength - 1]
      && r.value[MaxLogLength - 1..] == "…"
  {
    if StartsWith(path, "/api") then
      var full := FullLogLine(verb, path, status, durationMs, captured);
      assert full == (verb + " " + path) + full[|verb + " " + path|..];
      Some(Truncate(full))
    else None
  }

  /** Truncating keeps the start of the line: at most 79 characters of it and the ellipsis. */
  lemma TruncateKeepsPrefix(line: string, n: nat)
    requires n <= |line| && n < MaxLogLength
    ensures Truncate(line)[..n] == line[..n]
  {
  }

  /**
   * The middleware state of one request: the body most recently passed to
   * `res.json`, as JSON text.
   */
  class LogCapture {
    var captured: Option<string>

    constructor ()
      ensures captured == None
    {
      captured := None;
    }

    /** The wrapped `res.json`: remember this body, replacing any earlier one. */
    method Json(bodyJson: string)
      modifies this
      ensures captured == Some(bodyJson)
    {
      captured := Some(bodyJson);
    }

    /** The "finish" listener: the line to log, if any, from the last captured body. */
    method Finish(verb: string, path: string, status: int, durationMs: int) returns (line: Option<string>)
      ensures line == LogLine(verb, path, status, durationMs, captured)
    {
      line := LogLine(verb, path, status, durationMs, captured);
    }
  }

  /** The fields of a thrown error the handler reads. */
  datatype ThrownError = ThrownError(status: Option<int>, statusCode: Option<int>, message: Option<string>)

  /** `err.status || err.statusCode || 500`. */
  function ErrorStatus(err: ThrownError): (r: int)
    ensures r != 0
    ensures TruthyNumber(err.status) ==> r == err.status.value
    ensures !TruthyNumber(err.status) && TruthyNumber(err.statusCode) ==> r == err.statusCode.value
    ensures !TruthyNumber(err.status) && !TruthyNumber(err.statusCode) ==> r == 500
  {
    if TruthyNumber(err.status) then err.status.value
    else if TruthyNumber(err.statusCode) then err.statusCode.value
    else 500
  }

  /** `err.message || "Internal Server Error"`. */
  function ErrorMessage(err: ThrownError): (r: string)
    ensures r != ""
    ensures TruthyText(err.message) ==> r == err.message.value
    ensures !TruthyText(err.message) ==> r == "Internal Server Error"
  {
    if TruthyText(err.message) then err.message.value else "Internal Server Error"
  }
}
