/**
 * A video's card: its duration label and badge, the format label taken from
 * the MIME type, and the streaming link it shows and copies.
 */
module VideoCard {
  import opened Common
  import opened Text
  import opened Clock
  import UploadModal

  /** formatDuration: "N/A" for a missing or zero duration, else "m:ss". */
  function FormatDuration(seconds: Option<int>): (r: string)
    ensures r == "N/A" <==> !TruthyNumber(seconds)
    ensures TruthyNumber(seconds) && seconds.value > 0 ==> ClockValue(r) == seconds
  {
    if !TruthyNumber(seconds) then "N/A"
    else
      var r := MinutesSeconds(seconds.value);
      assert |r| >= 4;
      r
  }

  /** What a card renders in the badge position. */
  datatype Rendered = Nothing | StrayText(text: string) | Badge(caption: string)

  /**
   * `{video.duration && <badge/>}` as written: a null duration renders
   * nothing, but a duration of 0 is itself rendered, as the text "0".
   */
  function BadgeAsWritten(duration: Option<int>): (r: Rendered)
    ensures duration.None? ==> r == Nothing
    ensures duration == Some(0) ==> r == StrayText("0")
    ensures TruthyNumber(duration) ==> r == Badge(FormatDuration(duration))
  {
    if duration.None? then Nothing
    else if duration.value == 0 then StrayText("0")
    else Badge(FormatDuration(duration))
  }

  /** A zero duration puts a stray "0" on the card. */
  lemma ZeroDurationShowsStrayText()
    ensures BadgeAsWritten(Some(0)).StrayText?
  {
  }

  /** The badge as intended: shown iff the duration is set and non-zero, nothing otherwise. */
  function DurationBadge(duration: Option<int>): (r: Rendered)
    ensures !r.StrayText?
    ensures r.Badge? <==> TruthyNumber(duration)
    ensures r.Badge? ==> r.caption != "N/A"
    ensures r.Badge? && duration.value > 0 ==> ClockValue(r.caption) == duration
  {
    if TruthyNumber(duration) then Badge(FormatDuration(duration)) else Nothing
  }

  /** The two agree on every duration except 0. */
  lemma BadgeAgreesExceptZero(duration: Option<int>)
    requires duration != Some(0)
    ensures BadgeAsWritten(duration) == DurationBadge(duration)
  {
  }

  /** getFileExtension: the upper-cased text after the first '/', None where `split('/')[1]` is undefined and the call throws. */
  function FileExtension(mimeType: string): (r: Option<string>)
    ensures r.Some? <==> '/' in mimeType
    ensures r.Some? ==> '/' !in r.value && |r.value| <= |mimeType| - 1
  {
    match SecondPart(mimeType, '/')
    case None => None
    case Some(sub) => Some(ToUpper(sub))
  }

  /** A "type/subtype" MIME type gives its subtype in upper case. */
  lemma ExtensionOfMime(kind: string, sub: string)
    requires '/' !in kind && '/' !in sub
    ensures FileExtension(kind + "/" + sub) == Some(ToUpper(sub))
  {
    var m := kind + "/" + sub;
    assert m == kind + ['/'] + sub;
    Clock.SplitAfter(kind, sub, '/');
    Clock.SplitWhole(sub, '/');
    assert m[|kind|] == '/';
  }

  /** `/api/stream/${customId}`. */
  function StreamPath(customId: string): string {
    "/api/stream/" + customId
  }

  /** `${window.location.origin}/api/stream/${customId}`: the link the card copies. */
  function StreamUrl(origin: string, customId: string): string {
    origin + StreamPath(customId)
  }

  /** A customId without '/' is the last path segment of its link, after "api" and "stream". */
  lemma StreamPathSegments(customId: string)
    requires '/' !in customId
    ensures Split(StreamPath(customId), '/') == ["", "api", "stream", customId]
  {
    assert StreamPath(customId) == ['/'] + ("api" + ['/'] + ("stream" + ['/'] + customId));
    AbsolutePathSegments("api", "stream", customId);
  }

  lemma AbsolutePathSegments(a: string, b: string, c: string)
    requires '/' !in a && '/' !in b && '/' !in c
    ensures Split(['/'] + (a + ['/'] + (b + ['/'] + c)), '/') == ["", a, b, c]
  {
    var t1 := a + ['/'] + (b + ['/'] + c);
    ThreeSegments(a, b, c);
    Clock.SplitAfter("", t1, '/');
    assert "" + ['/'] + t1 == ['/'] + t1;
    ConsFour("", a, b, c);
  }

  lemma ThreeSegments(a: string, b: string, c: string)
    requires '/' !in a && '/' !in b && '/' !in c
    ensures Split(a + ['/'] + (b + ['/'] + c), '/') == [a, b, c]
  {
    var t2 := b + ['/'] + c;
    Clock.SplitWhole(c, '/');
    Clock.SplitAfter(b, c, '/');
    Clock.SplitAfter(a, t2, '/');
  }

  lemma ConsFour(x: string, a: string, b: string, c: string)
    ensures [x] + [a, b, c] == [x, a, b, c]
  {
  }

  /** Every customId the upload dialog derives fits in one path segment. */
  lemma DerivedIdStreamPath(name: string)
    ensures Split(StreamPath(UploadModal.DeriveCustomId(name)), '/') == ["", "api", "stream", UploadModal.DeriveCustomId(name)]
  {
    var id := UploadModal.DeriveCustomId(name);
    forall k | 0 <= k < |id|
      ensures id[k] != '/'
    {
      assert UploadModal.IsIdChar(id[k]) || id[k] == '-';
    }
    StreamPathSegments(id);
  }
}
