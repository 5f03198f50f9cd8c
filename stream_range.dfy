/**
 * The byte range the streaming route serves and the status line and headers it
 * writes before piping the file.
 *
 * This is a partial reading of the byte-range-spec of section 2.1 of RFC 7233
 * with the Content-Range header of section 4.2: no suffix ranges, no clamping
 * of the last byte to the file, no 416 (section 4.4), and 206 even when no
 * Range header was sent, although section 4.1 reserves 206 for range responses.
 */
module StreamRange {
  import opened Common
  import opened Text
  import opened Numbers

  /** `Number.MAX_SAFE_INTEGER`, the largest position a read stream accepts. */
  const MaxSafeInteger: int := 0x1F_FFFF_FFFF_FFFF

  /**
   * The start and end options `fs.createReadStream` accepts: whole numbers from
   * 0 to MaxSafeInteger with start not after end. Anything else (NaN included)
   * makes it throw before the response head is written.
   */
  predicate ReadStreamAccepts(start: int, end: int) {
    0 <= start <= end <= MaxSafeInteger
  }

  /** `parts[0]` and `parts[1]` of `range.replace(/bytes=/, "").split("-")`. */
  function RangeParts(range: string): (string, Option<string>) {
    var rest := ReplaceFirst(range, "bytes=", "");
    (BeforeFirst(rest, '-'), SecondPart(rest, '-'))
  }

  datatype ByteRange = ByteRange(start: int, end: int)

  /**
   * `start = parseInt(parts[0], 10)` and `end = parts[1] ? parseInt(parts[1], 10)
   * : fileSize - 1`; None when either is NaN.
   */
  function RequestedRange(startText: string, endText: Option<string>, fileSize: nat): (r: Option<ByteRange>)
    ensures r.Some? <==> ParseInt(startText, false).Some? && (TruthyText(endText) ==> ParseInt(endText.value, false).Some?)
    ensures r.Some? ==> r.value.start == ParseInt(startText, false).value
    ensures r.Some? && !TruthyText(endText) ==> r.value.end == fileSize - 1
    ensures r.Some? && TruthyText(endText) ==> r.value.end == ParseInt(endText.value, false).value
  {
    var start := ParseInt(startText, false);
    var end := if TruthyText(endText) then ParseInt(endText.value, false) else Some(fileSize - 1);
    if start.Some? && end.Some? then Some(ByteRange(start.value, end.value)) else None
  }

  /** The Content-Range value `bytes ${start}-${end}/${fileSize}`. */
  function ContentRange(start: int, end: int, fileSize: nat): string {
    "bytes " + IntToString(start) + "-" + IntToString(end) + "/" + NatToString(fileSize)
  }

  /** `video.mimeType || 'video/mp4'`. */
  function ContentType(mimeType: string): string {
    if mimeType != "" then mimeType else "video/mp4"
  }

  datatype StreamHead = StreamHead(status: int, contentType: string, contentRange: string, contentLength: int)

  /**
   * What the route does once the file is known to exist: a head and the byte
   * positions handed to the read stream (readEnd None reads to the end of the
   * file), or a failure thrown by the read stream's option check.
   */
  datatype StreamSetup =
    | Streaming(head: StreamHead, readStart: int, readEnd: Option<int>)
    | SetupFailed

  function SetupStream(range: Option<string>, mimeType: string, fileSize: nat): (r: StreamSetup)
    ensures r.Streaming? ==> r.head.status == 206 && r.head.contentType == ContentType(mimeType)
    ensures !TruthyText(range) ==>
      r == Streaming(StreamHead(206, ContentType(mimeType), ContentRange(0, fileSize - 1, fileSize), fileSize), 0, None)
    ensures TruthyText(range) && r.Streaming? ==>
      && r.readEnd.Some?
      && ReadStreamAccepts(r.readStart, r.readEnd.value)
      && r.head.contentLength == r.readEnd.value - r.readStart + 1 >= 1
      && r.head.contentRange == ContentRange(r.readStart, r.readEnd.value, fileSize)
    ensures TruthyText(range) ==>
      (r.Streaming? <==>
        var parts := RangeParts(range.value);
        var req := RequestedRange(parts.0, parts.1, fileSize);
        req.Some? && ReadStreamAccepts(req.value.start, req.value.end))
  {
    var head := StreamHead(206, ContentType(mimeType), "", 0);
    if TruthyText(range) then
      var parts := RangeParts(range.value);
      match RequestedRange(parts.0, parts.1, fileSize)
      case None => SetupFailed
      case Some(br) =>
        if ReadStreamAccepts(br.start, br.end) then
          Streaming(head.(contentRange := ContentRange(br.start, br.end, fileSize),
                          contentLength := br.end - br.start + 1),
                    br.start, Some(br.end))
        else SetupFailed
    else
      Streaming(head.(contentRange := ContentRange(0, fileSize - 1, fileSize), contentLength := fileSize), 0, None)
  }

  // ---------------------------------------------------------------- what clients send

  /** The Range header `bytes=first-last`, or `bytes=first-` when last is absent. */
  function RangeHeader(first: nat, last: Option<nat>): string {
    "bytes=" + NatToString(first) + "-" + (if last.Some? then NatToString(last.value) else "")
  }

  lemma NoDashInDigits(s: string)
    requires AllDigits(s)
    ensures '-' !in s
  {
  }

  lemma SplitAroundDash(a: string, b: string)
    requires '-' !in a && '-' !in b
    ensures BeforeFirst(a + "-" + b, '-') == a
    ensures SecondPart(a + "-" + b, '-') == Some(b)
  {
    var s := a + "-" + b;
    var idx := IndexOf(s, '-');
    assert s[|a|] == '-';
    assert s[..|a|] == a;
    assert idx == Some(|a|);
    assert s[|a| + 1..] == b;
  }

  lemma HeaderParts(first: nat, last: Option<nat>)
    ensures RangeParts(RangeHeader(first, last)) == (NatToString(first), Some(if last.Some? then NatToString(last.value) else ""))
  {
    var a := NatToString(first);
    var b := if last.Some? then NatToString(last.value) else "";
    var body := a + "-" + b;
    assert RangeHeader(first, last) == "bytes=" + body;
    ReplaceFirstPrefix("bytes=", body, "");
    assert "" + body == body;
    NoDashInDigits(a);
    if last.Some? {
      NoDashInDigits(b);
    }
    SplitAroundDash(a, b);
  }

  lemma ParseNat(n: nat)
    ensures ParseInt(NatToString(n), false) == Some(n)
  {
    ParseIntOfIntToString(n, false);
  }

  /** A Range header whose parts parse to positions the read stream accepts is served as asked. */
  lemma ParsedRangeServed(range: string, mimeType: string, fileSize: nat, first: int, last: int)
    requires range != ""
    requires var parts := RangeParts(range);
      RequestedRange(parts.0, parts.1, fileSize) == Some(ByteRange(first, last))
    requires ReadStreamAccepts(first, last)
    ensures SetupStream(Some(range), mimeType, fileSize)
      == Streaming(StreamHead(206, ContentType(mimeType), ContentRange(first, last, fileSize), last - first + 1),
                   first, Some(last))
  {
  }

  lemma RequestedDigits(first: nat, last: Option<nat>, fileSize: nat)
    ensures RequestedRange(NatToString(first), Some(if last.Some? then NatToString(last.value) else ""), fileSize)
      == Some(ByteRange(first, if last.Some? then last.value else fileSize - 1))
  {
    ParseNat(first);
    if last.Some? {
      ParseNat(last.value);
    }
  }

  /** The header a client builds is served from first to end, the last byte asked for or the file's last byte. */
  lemma HeaderServed(first: nat, last: Option<nat>, end: nat, mimeType: string, fileSize: nat)
    requires end == if last.Some? then last.value else fileSize - 1
    requires first <= end <= MaxSafeInteger
    ensures SetupStream(Some(RangeHeader(first, last)), mimeType, fileSize)
      == Streaming(StreamHead(206, ContentType(mimeType), ContentRange(first, end, fileSize), end - first + 1),
                   first, Some(end))
  {
    HeaderParts(first, last);
    RequestedDigits(first, last, fileSize);
    ParsedRangeServed(RangeHeader(first, last), mimeType, fileSize, first, end);
  }

  /**
   * `bytes=first-last` with first <= last is served exactly: 206, the read
   * stream from first to last, Content-Length last - first + 1 and Content-Range
   * `bytes first-last/fileSize`, whatever the size of the file.
   */
  lemma ClosedRangeServed(first: nat, last: nat, mimeType: string, fileSize: nat)
    requires first <= last <= MaxSafeInteger
    ensures SetupStream(Some(RangeHeader(first, Some(last))), mimeType, fileSize)
      == Streaming(StreamHead(206, ContentType(mimeType), ContentRange(first, last, fileSize), last - first + 1),
                   first, Some(last))
  {
    HeaderServed(first, Some(last), last, mimeType, fileSize);
  }

  /** `bytes=first-` runs to the last byte of the file, fileSize - 1. */
  lemma OpenRangeServedToEnd(first: nat, mimeType: string, fileSize: nat)
    requires first < fileSize <= MaxSafeInteger
    ensures SetupStream(Some(RangeHeader(first, None)), mimeType, fileSize)
      == Streaming(StreamHead(206, ContentType(mimeType), ContentRange(first, fileSize - 1, fileSize), fileSize - first),
                   first, Some(fileSize - 1))
  {
    HeaderServed(first, None, fileSize - 1, mimeType, fileSize);
  }

  /** An open range that starts at or after the end of the file fails instead of answering 416. */
  lemma OpenRangePastEndFails(first: nat, mimeType: string, fileSize: nat)
    requires fileSize <= first
    ensures SetupStream(Some(RangeHeader(first, None)), mimeType, fileSize) == SetupFailed
  {
    HeaderParts(first, None);
    RequestedDigits(first, None, fileSize);
  }

  /** A suffix range `bytes=-n` has no start to parse (NaN), so the route fails. */
  lemma SuffixRangeFails(n: nat, mimeType: string, fileSize: nat)
    ensures SetupStream(Some("bytes=-" + NatToString(n)), mimeType, fileSize) == SetupFailed
  {
    var b := NatToString(n);
    var h := "bytes=-" + b;
    assert h == "bytes=" + ("" + "-" + b);
    assert StartsWith(h, "bytes=");
    assert h[|"bytes="|..] == "" + "-" + b;
    assert ReplaceFirst(h, "bytes=", "") == "" + "-" + b;
    NoDashInDigits(b);
    SplitAroundDash("", b);
    assert TrimStart("") == "";
  }
}
