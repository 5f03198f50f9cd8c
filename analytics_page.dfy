/**
 * The analytics page: per-format counts and per-folder storage gathered into a
 * dictionary in a loop, the five largest and five newest videos, the recent
 * upload count, the videos-per-folder figure and its duration format.
 *
 * A JavaScript object used as a dictionary is modelled as its entries in
 * insertion order, which is the order `Object.entries` lists them in for keys
 * that are not array indices.
 */
module AnalyticsPage {
  import opened Common
  import opened Numbers
  import opened Sorting
  import opened Schema
  import opened Clock
  import Storage
  import Routes
  import VideoCard

  // ---------------------------------------------------------------- dictionaries

  /** One `[key, value]` pair of `Object.entries`. */
  datatype Entry = Entry(key: string, amount: int)

  function Amount(e: Entry): int { e.amount }

  function One(e: Entry): int { 1 }

  /** w of the entries under k, 0 for the others. */
  function Under(k: string, w: Entry -> int): Entry -> int {
    (e: Entry) => if e.key == k then w(e) else 0
  }

  /** What the dictionary holds under k: the amounts of the entries with that key. */
  function Share(d: seq<Entry>, k: string): int {
    SumBy(d, Under(k, Amount))
  }

  /** How many entries have key k. */
  function Occurrences(d: seq<Entry>, k: string): int {
    SumBy(d, Under(k, One))
  }

  /** Each key has at most one entry, as in an object. */
  predicate DistinctKeys(d: seq<Entry>) {
    forall i, j :: 0 <= i < j < |d| ==> d[i].key != d[j].key
  }

  /** The keys present. */
  function Keys(d: seq<Entry>): set<string> {
    set e | e in d :: e.key
  }

  /** The sum of all amounts. */
  function Total(d: seq<Entry>): int {
    SumBy(d, Amount)
  }

  lemma UnderApply(k: string, w: Entry -> int, e: Entry)
    ensures Under(k, w)(e) == if e.key == k then w(e) else 0
  {
  }

  lemma {:induction false} UnderAbsent(d: seq<Entry>, k: string, w: Entry -> int)
    requires forall i :: 0 <= i < |d| ==> d[i].key != k
    ensures SumBy(d, Under(k, w)) == 0
  {
    if d != [] {
      UnderAbsent(d[1..], k, w);
    }
  }

  lemma UnderOfEntry(d: seq<Entry>, j: nat, w: Entry -> int)
    requires DistinctKeys(d) && j < |d|
    ensures SumBy(d, Under(d[j].key, w)) == w(d[j])
  {
    var rest := d[..j] + d[j + 1..];
    SumByRemoveAt(d, j, Under(d[j].key, w));
    RemoveAtElements(d, j);
    forall i | 0 <= i < |rest|
      ensures rest[i].key != d[j].key
    {
      RemoveAtIndex(d, j, i);
    }
    UnderAbsent(rest, d[j].key, w);
  }

  /** In a dictionary each listed entry holds the key's whole share, and an unlisted key has none. */
  lemma ShareIsEntry(d: seq<Entry>, k: string)
    requires DistinctKeys(d)
    ensures forall e :: e in d && e.key == k ==> e.amount == Share(d, k)
    ensures k !in Keys(d) ==> Share(d, k) == 0
  {
    forall e | e in d && e.key == k
      ensures e.amount == Share(d, k)
    {
      var j :| 0 <= j < |d| && d[j] == e;
      UnderOfEntry(d, j, Amount);
    }
    if k !in Keys(d) {
      forall i | 0 <= i < |d|
        ensures d[i].key != k
      {
        assert d[i] in d;
      }
      UnderAbsent(d, k, Amount);
    }
  }

  lemma DistinctOccursOnce(d: seq<Entry>, k: string)
    requires DistinctKeys(d)
    ensures Occurrences(d, k) <= 1
  {
    if j :| 0 <= j < |d| && d[j].key == k {
      UnderOfEntry(d, j, One);
    } else {
      UnderAbsent(d, k, One);
    }
  }

  lemma OccurrencesTwo(d: seq<Entry>, i: nat, j: nat, k: string)
    requires i < j < |d|
    ensures Occurrences(d, k) >= Under(k, One)(d[i]) + Under(k, One)(d[j])
  {
    var f := Under(k, One);
    var rest := d[..j] + d[j + 1..];
    SumByRemoveAt(d, j, f);
    RemoveAtIndex(d, j, i);
    var rest2 := rest[..i] + rest[i + 1..];
    SumByRemoveAt(rest, i, f);
    forall m | 0 <= m < |rest2|
      ensures 0 <= f(rest2[m]) <= 1
    {
      UnderApply(k, One, rest2[m]);
    }
    SumByBounds(rest2, f, 0, 1);
  }

  /** A dictionary is a sequence of entries in which no key occurs twice. */
  lemma DistinctIffOnce(d: seq<Entry>)
    ensures DistinctKeys(d) <==> forall k :: Occurrences(d, k) <= 1
  {
    if DistinctKeys(d) {
      forall k
        ensures Occurrences(d, k) <= 1
      {
        DistinctOccursOnce(d, k);
      }
    }
    if forall k :: Occurrences(d, k) <= 1 {
      forall i, j | 0 <= i < j < |d|
        ensures d[i].key != d[j].key
      {
        OccurrencesTwo(d, i, j, d[i].key);
        UnderApply(d[i].key, One, d[i]);
        UnderApply(d[i].key, One, d[j]);
      }
    }
  }

  /** Reordering the entries keeps the keys distinct and every share. */
  lemma ReorderedDictionary(a: seq<Entry>, b: seq<Entry>)
    requires multiset(a) == multiset(b) && DistinctKeys(a)
    ensures DistinctKeys(b)
    ensures forall k :: Share(b, k) == Share(a, k)
    ensures Total(b) == Total(a)
  {
    DistinctIffOnce(a);
    forall k
      ensures Occurrences(b, k) <= 1 && Share(b, k) == Share(a, k)
    {
      DistinctOccursOnce(a, k);
      SumByPermutation(a, b, Under(k, One));
      SumByPermutation(a, b, Under(k, Amount));
    }
    DistinctIffOnce(b);
    SumByPermutation(a, b, Amount);
  }

  lemma KeysAppend(d: seq<Entry>, e: Entry)
    ensures Keys(d + [e]) == Keys(d) + {e.key}
  {
    assert forall x :: x in d + [e] <==> x in d || x == e;
  }

  lemma KeysUpdate(d: seq<Entry>, j: nat, e: Entry)
    requires j < |d| && e.key == d[j].key
    ensures Keys(d[j := e]) == Keys(d)
  {
    var r := d[j := e];
    forall k | k in Keys(d)
      ensures k in Keys(r)
    {
      var x :| x in d && x.key == k;
      var i :| 0 <= i < |d| && d[i] == x;
      assert r[i].key == k;
    }
    forall k | k in Keys(r)
      ensures k in Keys(d)
    {
      var x :| x in r && x.key == k;
      var i :| 0 <= i < |r| && r[i] == x;
      assert d[i].key == k;
    }
  }

  lemma SumByOne<T>(x: T, f: T -> int)
    ensures SumBy([x], f) == f(x)
  {
    assert [x][1..] == [];
  }

  /** `d[key] = (d[key] || 0) + w`: an existing entry grows in place, a new key is appended. */
  function AddTo(d: seq<Entry>, key: string, w: int): (r: seq<Entry>)
    requires DistinctKeys(d)
    ensures DistinctKeys(r)
    ensures forall k :: Share(r, k) == Share(d, k) + (if k == key then w else 0)
    ensures Total(r) == Total(d) + w
    ensures Keys(r) == Keys(d) + {key}
  {
    match IndexWhere(d, (e: Entry) => e.key == key)
    case None =>
      var e := Entry(key, w);
      forall k
        ensures Share(d + [e], k) == Share(d, k) + (if k == key then w else 0)
      {
        SumByAppend(d, [e], Under(k, Amount));
        SumByOne(e, Under(k, Amount));
        UnderApply(k, Amount, e);
      }
      SumByAppend(d, [e], Amount);
      SumByOne(e, Amount);
      KeysAppend(d, e);
      d + [e]
    case Some(j) =>
      var r := d[j := Entry(key, d[j].amount + w)];
      assert r[..j] + r[j + 1..] == d[..j] + d[j + 1..];
      forall k
        ensures Share(r, k) == Share(d, k) + (if k == key then w else 0)
      {
        SumByRemoveAt(d, j, Under(k, Amount));
        SumByRemoveAt(r, j, Under(k, Amount));
        UnderApply(k, Amount, d[j]);
        UnderApply(k, Amount, r[j]);
      }
      SumByRemoveAt(d, j, Amount);
      SumByRemoveAt(r, j, Amount);
      KeysUpdate(d, j, r[j]);
      r
  }

  // ---------------------------------------------------------------- videos by format

  /** `mimeType.split('/')[1].toUpperCase()`; None where the call throws. */
  function FormatOf(v: Video): Option<string> {
    VideoCard.FileExtension(v.mimeType)
  }

  function HasFormat(k: string): Video -> bool {
    (v: Video) => FormatOf(v) == Some(k)
  }

  /** The number of videos whose format is k. */
  function FormatCount(videos: seq<Video>, k: string): nat {
    |Filter(videos, HasFormat(k))|
  }

  lemma FormatCountStep(videos: seq<Video>, i: nat, format: string)
    requires i < |videos| && FormatOf(videos[i]) == Some(format)
    ensures forall k :: FormatCount(videos[..i + 1], k) == FormatCount(videos[..i], k) + (if k == format then 1 else 0)
  {
    assert videos[..i + 1] == videos[..i] + [videos[i]];
    forall k
      ensures FormatCount(videos[..i + 1], k) == FormatCount(videos[..i], k) + (if k == format then 1 else 0)
    {
      FilterAppend(videos[..i], [videos[i]], HasFormat(k));
      FilterOne(videos[i], HasFormat(k));
    }
  }

  /** formats holds, for every format, the number of videos of that format. */
  ghost predicate CountsFormats(formats: seq<Entry>, videos: seq<Video>) {
    forall k :: Share(formats, k) == FormatCount(videos, k)
  }

  /** Counting one more video adds one under its format. */
  lemma CountsFormatsStep(formats: seq<Entry>, videos: seq<Video>, i: nat, format: string)
    requires i < |videos| && FormatOf(videos[i]) == Some(format)
    requires DistinctKeys(formats) && CountsFormats(formats, videos[..i])
    ensures CountsFormats(AddTo(formats, format, 1), videos[..i + 1])
  {
    FormatCountStep(videos, i, format);
  }

  /** Every video has a format exactly when every MIME type has a '/'. */
  lemma FormatsKnown(videos: seq<Video>)
    requires forall j :: 0 <= j < |videos| ==> FormatOf(videos[j]).Some?
    ensures !exists i :: 0 <= i < |videos| && '/' !in videos[i].mimeType
  {
  }

  /**
   * getVideosByFormat: count the videos per format in a dictionary. The loop
   * throws at the first MIME type without a '/', which is None here.
   */
  method VideosByFormat(videos: seq<Video>) returns (r: Option<seq<Entry>>)
    ensures r.None? <==> exists i :: 0 <= i < |videos| && '/' !in videos[i].mimeType
    ensures r.Some? ==> DistinctKeys(r.value)
    ensures r.Some? ==> forall k :: Share(r.value, k) == FormatCount(videos, k)
    ensures r.Some? ==> Total(r.value) == |videos|
  {
    var formats: seq<Entry> := [];
    var i := 0;
    while i < |videos|
      invariant 0 <= i <= |videos|
      invariant forall j :: 0 <= j < i ==> FormatOf(videos[j]).Some?
      invariant DistinctKeys(formats) && Total(formats) == i
      invariant CountsFormats(formats, videos[..i])
    {
      var format := FormatOf(videos[i]);
      if format.None? {
        assert '/' !in videos[i].mimeType;
        return None;
      }
      CountsFormatsStep(formats, videos, i, format.value);
      formats := AddTo(formats, format.value, 1);
      i := i + 1;
    }
    assert videos[..i] == videos;
    FormatsKnown(videos);
    return Some(formats);
  }

  // ---------------------------------------------------------------- storage by folder

  /** `folders.find(f => f.id === video.folderId)?.name || 'Root'`. */
  function FolderName(folders: seq<Folder>, v: Video): (r: string)
    ensures r != ""
    ensures (forall f :: f in folders ==> v.folderId != Some(f.id)) ==> r == "Root"
  {
    match IndexWhere(folders, (f: Folder) => v.folderId == Some(f.id))
    case None => "Root"
    case Some(j) => if folders[j].name == "" then "Root" else folders[j].name
  }

  /** With distinct folder ids, a video is filed under its folder's name, or 'Root' when that name is empty. */
  lemma FolderNameOfFolder(folders: seq<Folder>, next: int, v: Video, j: nat)
    requires FolderTable(folders, next) && j < |folders| && v.folderId == Some(folders[j].id)
    ensures FolderName(folders, v) == if folders[j].name == "" then "Root" else folders[j].name
  {
    var found := IndexWhere(folders, (f: Folder) => v.folderId == Some(f.id));
    assert found.Some? && folders[found.value].id == folders[j].id;
  }

  function InFolderNamed(folders: seq<Folder>, name: string): Video -> bool {
    (v: Video) => FolderName(folders, v) == name
  }

  /** The bytes of the videos filed under name. */
  function FolderBytes(videos: seq<Video>, folders: seq<Folder>, name: string): int {
    SumBy(Filter(videos, InFolderNamed(folders, name)), Routes.Size)
  }

  lemma FolderBytesStep(videos: seq<Video>, folders: seq<Folder>, i: nat)
    requires i < |videos|
    ensures forall k ::
      FolderBytes(videos[..i + 1], folders, k) == FolderBytes(videos[..i], folders, k) + (if k == FolderName(folders, videos[i]) then videos[i].size else 0)
    ensures SumBy(videos[..i + 1], Routes.Size) == SumBy(videos[..i], Routes.Size) + videos[i].size
  {
    var v := videos[i];
    assert videos[..i + 1] == videos[..i] + [v];
    forall k
      ensures FolderBytes(videos[..i + 1], folders, k) ==
        FolderBytes(videos[..i], folders, k) + (if k == FolderName(folders, v) then v.size else 0)
    {
      var p := InFolderNamed(folders, k);
      FilterAppend(videos[..i], [v], p);
      FilterOne(v, p);
      SumByAppend(Filter(videos[..i], p), Filter([v], p), Routes.Size);
      SumByOne(v, Routes.Size);
    }
    SumByAppend(videos[..i], [v], Routes.Size);
    SumByOne(v, Routes.Size);
  }

  /**
   * getStorageByFolder: sum the sizes per folder name in a dictionary, then
   * list the entries largest first.
   */
  method StorageByFolder(videos: seq<Video>, folders: seq<Folder>) returns (r: seq<Entry>)
    ensures DistinctKeys(r) && SortedDesc(r, Amount)
    ensures forall k :: Share(r, k) == FolderBytes(videos, folders, k)
    ensures Total(r) == SumBy(videos, Routes.Size)
  {
    var folderStorage: seq<Entry> := [];
    var i := 0;
    while i < |videos|
      invariant 0 <= i <= |videos|
      invariant DistinctKeys(folderStorage)
      invariant Total(folderStorage) == SumBy(videos[..i], Routes.Size)
      invariant forall k :: Share(folderStorage, k) == FolderBytes(videos[..i], folders, k)
    {
      var folderName := FolderName(folders, videos[i]);
      FolderBytesStep(videos, folders, i);
      folderStorage := AddTo(folderStorage, folderName, videos[i].size);
      i := i + 1;
    }
    assert videos[..i] == videos;
    r := SortDesc(folderStorage, Amount);
    SortDescSorted(folderStorage, Amount);
    ReorderedDictionary(folderStorage, r);
  }

  // ---------------------------------------------------------------- rankings and counts

  /** getLargestVideos: the five largest, largest first, taken from a copy of the list. */
  function LargestVideos(videos: seq<Video>): (r: seq<Video>)
    ensures |r| == Min(5, |videos|) && SortedDesc(r, Routes.Size)
    ensures multiset(r) <= multiset(videos)
  {
    TopKIsTop(videos, Routes.Size, 5);
    TopK(videos, Routes.Size, 5)
  }

  /** No video left out of the five is larger than one of them. */
  lemma LargestAreLargest(videos: seq<Video>, x: Video, y: Video)
    requires x in LargestVideos(videos) && y in multiset(videos) - multiset(LargestVideos(videos))
    ensures y.size <= x.size
  {
    TopKIsTop(videos, Routes.Size, 5);
    var r := TopK(videos, Routes.Size, 5);
    assert Routes.Size(y) <= Routes.Size(x);
  }

  /** Recent activity: the five newest, newest first. */
  function RecentActivity(videos: seq<Video>): (r: seq<Video>)
    ensures |r| == Min(5, |videos|) && SortedDesc(r, Storage.CreatedAt)
    ensures multiset(r) <= multiset(videos)
  {
    TopKIsTop(videos, Storage.CreatedAt, 5);
    TopK(videos, Storage.CreatedAt, 5)
  }

  /** No video left out of the five is newer than one of them. */
  lemma NewestAreNewest(videos: seq<Video>, x: Video, y: Video)
    requires x in RecentActivity(videos) && y in multiset(videos) - multiset(RecentActivity(videos))
    ensures y.createdAt <= x.createdAt
  {
    TopKIsTop(videos, Storage.CreatedAt, 5);
    var r := TopK(videos, Storage.CreatedAt, 5);
    assert Storage.CreatedAt(y) <= Storage.CreatedAt(x);
  }

  function NewerThan(cutoff: int): Video -> bool {
    (v: Video) => v.createdAt > cutoff
  }

  /** getRecentUploads: the videos created strictly after the cutoff, 30 days before now. */
  function RecentUploads(videos: seq<Video>, cutoff: int): (r: nat)
    ensures r <= |videos|
    ensures r == 0 <==> forall k :: 0 <= k < |videos| ==> videos[k].createdAt <= cutoff
  {
    var recent := Filter(videos, NewerThan(cutoff));
    assert forall k :: 0 <= k < |videos| && videos[k].createdAt > cutoff ==> videos[k] in recent;
    assert recent != [] ==> recent[0] in videos && recent[0].createdAt > cutoff;
    |recent|
  }

  /** A later cutoff counts no more uploads. */
  lemma {:induction false} RecentUploadsMonotone(videos: seq<Video>, earlier: int, later: int)
    requires earlier <= later
    ensures RecentUploads(videos, later) <= RecentUploads(videos, earlier)
  {
    if videos != [] {
      RecentUploadsMonotone(videos[1..], earlier, later);
    }
  }

  /** Every video is recent exactly when each was created after the cutoff. */
  lemma {:induction false} AllRecent(videos: seq<Video>, cutoff: int)
    ensures RecentUploads(videos, cutoff) == |videos| <==> forall i :: 0 <= i < |videos| ==> videos[i].createdAt > cutoff
  {
    if videos != [] {
      AllRecent(videos[1..], cutoff);
      assert forall i :: 1 <= i < |videos| ==> videos[i] == videos[1..][i - 1];
    }
  }

  /**
   * `Math.round(videos.length / Math.max(folders.length || 1, 1))` when there
   * are videos, else 0: videos per folder, rounded half up, never dividing by 0.
   */
  function VideosPerFolder(videoCount: nat, folderCount: nat): (r: int)
    ensures videoCount == 0 ==> r == 0
    ensures folderCount == 0 ==> r == videoCount
    ensures folderCount > 0 ==> 2 * folderCount * r <= 2 * videoCount + folderCount < 2 * folderCount * (r + 1)
  {
    if videoCount > 0 then RoundedMean(videoCount, Max(folderCount, 1)) else 0
  }

  // ---------------------------------------------------------------- durations

  /** formatDuration: "Hh Mm" from an hour on, dropping the seconds; "m:ss" below. */
  function FormatDuration(seconds: int): (r: string)
    ensures seconds >= 3600 ==> ReadFields(r, ' ') == [Some(seconds / 3600), Some(seconds % 3600 / 60)]
    ensures 0 <= seconds < 3600 ==> ClockValue(r) == Some(seconds)
  {
    var hours := seconds / 3600;
    var mins := JsRem(seconds, 3600) / 60;
    var secs := JsRem(seconds, 60);
    HoursRead(seconds);
    MinutesRead(seconds);
    if hours > 0 then Unit(hours, 'h') + " " + Unit(mins, 'm') else MinSec(mins, secs)
  }

  lemma HoursRead(seconds: int)
    ensures seconds >= 3600 ==>
      ReadFields(Unit(seconds / 3600, 'h') + " " + Unit(JsRem(seconds, 3600) / 60, 'm'), ' ') == [Some(seconds / 3600), Some(seconds % 3600 / 60)]
  {
    if seconds >= 3600 {
      TwoUnitsRead(seconds / 3600, 'h', seconds % 3600 / 60, 'm');
    }
  }

  lemma MinutesRead(seconds: int)
    ensures 0 <= seconds < 3600 ==> ClockValue(MinSec(JsRem(seconds, 3600) / 60, JsRem(seconds, 60))) == Some(seconds)
  {
    if 0 <= seconds < 3600 {
      MinSecDenotes(seconds, JsRem(seconds, 3600) / 60, JsRem(seconds, 60));
    }
  }

  /** The hour form "Hh Mm" denotes the duration's whole minutes; only the seconds are dropped. */
  lemma HourFormIsWholeMinutes(seconds: int)
    requires seconds >= 3600
    ensures Base60(0, ReadFields(FormatDuration(seconds), ' ')) == Some(seconds / 60)
  {
    var h, m := seconds / 3600, seconds % 3600 / 60;
    var t := FormatDuration(seconds);
    var f := ReadFields(t, ' ');
    assert f == [Some(h), Some(m)];
    WholeMinutes(seconds);
    PairDenotes(f, h, m, seconds / 60);
  }


  lemma WholeMinutes(seconds: nat)
    ensures seconds / 3600 * 60 + seconds % 3600 / 60 == seconds / 60
  {
    var h, rest := seconds / 3600, seconds % 3600;
    var m, s := rest / 60, rest % 60;
    assert seconds == (h * 60 + m) * 60 + s;
  }
}
