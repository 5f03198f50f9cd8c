/**
 * The video library page: the search over titles and customIds, the totals
 * and average over the whole library, its "h:mm:ss" duration format, and the
 * link and download it offers for each video.
 */
module VideosPage {
  import opened Common
  import opened Text
  import opened Numbers
  import opened Schema
  import opened Clock
  import Routes
  import VideoCard
  import UploadModal

  // ---------------------------------------------------------------- search

  /** The lower-cased title or customId contains the lower-cased term. */
  predicate Matches(term: string, v: Video) {
    Contains(ToLower(v.title), ToLower(term)) || Contains(ToLower(v.customId), ToLower(term))
  }

  /** filteredVideos. */
  function Search(videos: seq<Video>, term: string): (r: seq<Video>)
    ensures forall v :: v in r <==> v in videos && Matches(term, v)
    ensures multiset(r) <= multiset(videos)
  {
    Filter(videos, v => Matches(term, v))
  }

  /** The search keeps the library's order: searching two runs is searching each. */
  lemma SearchKeepsOrder(a: seq<Video>, b: seq<Video>, term: string)
    ensures Search(a + b, term) == Search(a, term) + Search(b, term)
  {
    FilterAppend(a, b, v => Matches(term, v));
  }

  /** An empty search term keeps every video, in order. */
  lemma {:induction false} EmptySearchKeepsAll(videos: seq<Video>)
    ensures Search(videos, "") == videos
  {
    if videos != [] {
      ContainsEmpty(ToLower(videos[0].title));
      assert [videos[0]] + videos[1..] == videos;
      FilterAppend([videos[0]], videos[1..], v => Matches("", v));
      EmptySearchKeepsAll(videos[1..]);
    }
  }

  // ---------------------------------------------------------------- totals

  function ViewsOrZero(v: Video): int { v.views.GetOr(0) }

  /** The library totals shown in the cards: size, duration and views, missing values counted as 0. */
  datatype Totals = Totals(size: int, duration: int, views: int, averageShown: int)

  /**
   * totalSize, totalDuration, totalViews, and the average card, which shows
   * `Math.round(totalDuration / videos.length)`, or 0 for no videos.
   */
  function TotalsOf(videos: seq<Video>): (r: Totals)
    ensures r.size == SumBy(videos, Routes.Size)
    ensures r.duration == SumBy(videos, Routes.DurationOrZero)
    ensures r.views == SumBy(videos, ViewsOrZero)
    ensures r.averageShown == Routes.AverageDuration(videos)
  {
    Totals(SumBy(videos, Routes.Size), SumBy(videos, Routes.DurationOrZero), SumBy(videos, ViewsOrZero),
           if |videos| > 0 then RoundedMean(SumBy(videos, Routes.DurationOrZero), |videos|) else 0)
  }

  /** The page's totals over the library it lists agree with the stats endpoint, whatever the listing order. */
  lemma TotalsMatchStats(listed: seq<Video>, stored: seq<Video>)
    requires multiset(listed) == multiset(stored)
    ensures TotalsOf(listed).size == SumBy(stored, Routes.Size)
    ensures TotalsOf(listed).averageShown == Routes.AverageDuration(stored)
  {
    SumByPermutation(listed, stored, Routes.Size);
    SumByPermutation(listed, stored, Routes.DurationOrZero);
    assert |listed| == |multiset(listed)| == |multiset(stored)| == |stored|;
  }

  // ---------------------------------------------------------------- durations

  /** formatDuration: "0:00" for 0, "h:mm:ss" from one hour on, "m:ss" below. */
  function FormatDuration(seconds: int): (r: string)
    ensures seconds >= 0 ==> ClockValue(r) == Some(seconds)
    ensures seconds >= 3600 ==> |ReadFields(r, ':')| == 3
    ensures 0 <= seconds < 3600 ==> |ReadFields(r, ':')| == 2
  {
    if seconds == 0 then
      ZeroClock();
      "0:00"
    else
      var hours := seconds / 3600;
      var minutes := JsRem(seconds, 3600) / 60;
      var secs := JsRem(seconds, 60);
      ClockParts(seconds);
      if hours > 0 then HourMinSec(hours, minutes, secs) else MinSec(minutes, secs)
  }

  lemma ClockParts(seconds: int)
    ensures seconds >= 3600 ==>
      var h, m, s := seconds / 3600, JsRem(seconds, 3600) / 60, JsRem(seconds, 60);
      ClockValue(HourMinSec(h, m, s)) == Some(seconds) && |ReadFields(HourMinSec(h, m, s), ':')| == 3
    ensures 0 <= seconds < 3600 ==>
      var m, s := JsRem(seconds, 3600) / 60, JsRem(seconds, 60);
      ClockValue(MinSec(m, s)) == Some(seconds) && |ReadFields(MinSec(m, s), ':')| == 2
  {
    if seconds >= 3600 {
      LongClock(seconds);
    } else if seconds >= 0 {
      ShortClock(seconds);
    }
  }

  lemma LongClock(x: nat)
    requires x >= 3600
    ensures ClockValue(HourMinSec(x / 3600, (x % 3600) / 60, x % 60)) == Some(x)
    ensures |ReadFields(HourMinSec(x / 3600, (x % 3600) / 60, x % 60), ':')| == 3
  {
    HoursMinutesSeconds(x);
    HourFieldsDenote(x / 3600, (x % 3600) / 60, x % 60, x);
  }

  lemma HourFieldsDenote(h: nat, m: nat, s: nat, x: nat)
    requires m < 60 && s < 60 && x == h * 3600 + m * 60 + s
    ensures ClockValue(HourMinSec(h, m, s)) == Some(x)
    ensures |ReadFields(HourMinSec(h, m, s), ':')| == 3
  {
    HourMinSecReads(h, m, s);
    TripleDenotes(ReadFields(HourMinSec(h, m, s), ':'), h, m, s, x);
  }

  lemma ShortClock(x: nat)
    requires x < 3600
    ensures ClockValue(MinSec((x % 3600) / 60, x % 60)) == Some(x)
    ensures |ReadFields(MinSec((x % 3600) / 60, x % 60), ':')| == 2
  {
    var m, s := (x % 3600) / 60, x % 60;
    HoursMinutesSeconds(x);
    MinSecReads(m, s);
    MinSecDenotes(x, m, s);
  }

  /** Hours, minutes of the hour and seconds of the minute make up the duration. */
  lemma HoursMinutesSeconds(x: nat)
    ensures x == (x / 3600) * 3600 + ((x % 3600) / 60) * 60 + x % 60
    ensures (x % 3600) / 60 < 60 && x % 60 < 60
    ensures x < 3600 ==> x / 3600 == 0
  {
    var q, r := x / 3600, x % 3600;
    assert x == q * 3600 + r;
    var m, s := r / 60, r % 60;
    assert r == m * 60 + s;
    Mod60(x, q * 60 + m, s);
  }

  /** A quotient and remainder by 60 are the only ones. */
  lemma Mod60(x: int, k: int, s: int)
    requires 0 <= s < 60 && x == k * 60 + s
    ensures x % 60 == s
  {
  }

  /** A video's row shows `formatDuration(video.duration || 0)`. */
  lemma RowDurationReads(v: Video)
    requires v.duration.Some? ==> v.duration.value >= 0
    ensures ClockValue(FormatDuration(Routes.DurationOrZero(v))) == Some(v.duration.GetOr(0))
  {
  }

  // ---------------------------------------------------------------- link and download

  /** copyToClipboard: the streaming link of a customId. */
  function CopiedLink(origin: string, customId: string): (r: string)
    ensures StartsWith(r, origin) && r[|origin|..] == VideoCard.StreamPath(customId)
  {
    VideoCard.StreamUrl(origin, customId)
  }

  /** downloadVideo: the file name offered, `${title}.mp4`. */
  function DownloadName(title: string): (r: string)
    ensures StartsWith(r, title) && |r| == |title| + 4
  {
    title + ".mp4"
  }

  /** Uploading a downloaded file again proposes the video's title. */
  lemma DownloadNameGivesTitleBack(title: string)
    ensures UploadModal.StripExtension(DownloadName(title)) == title
  {
    assert DownloadName(title) == title + "." + "mp4";
    UploadModal.StripExtensionOf(title, "mp4");
  }
}
