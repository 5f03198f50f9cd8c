/**
 * The HTTP routes of the server: the authentication gate, login and logout,
 * the folder and video endpoints over the store, the upload pipeline with the
 * upload directory, streaming with the active-stream table, and the stats
 * reductions.
 *
 * Every route answers with a status and a JSON body. The upload directory is a
 * map from file name to size: the files multer writes and the handlers unlink.
 * The database receives the parsed numbers of the query and the route; a NaN
 * or a value outside a 32-bit `integer` column makes the query fail, which
 * each handler's catch turns into a 500.
 */
module Routes {
  import opened Common
  import opened Text
  import opened Numbers
  import opened Sorting
  import opened Schema
  import opened Storage
  import opened StreamRange
  import opened StreamTracker

  /** The uploads directory: file name to size in bytes. */
  type Disk = map<string, nat>

  datatype StatsReport = StatsReport(
    totalVideos: nat,
    totalFolders: nat,
    totalStorage: int,
    avgDuration: int,
    activeStreams: nat,
    totalBandwidth: nat)

  /** The JSON bodies the routes send; a streamed file is its response head. */
  datatype Body =
    | Message(text: string)
    | LoginReply(success: bool, message: string)
    | AuthStatus(authenticated: bool)
    | FolderList(folders: seq<Folder>)
    | FolderRow(folder: Folder)
    | VideoList(videos: seq<Video>)
    | VideoRow(video: Video)
    | Stats(stats: StatsReport)
    | Analytics(analytics: StreamAnalytics)
    | Streamed(head: StreamHead)

  datatype Response = Response(status: int, body: Body)

  // ---------------------------------------------------------------- authentication

  /** The fixed bearer token the gate compares against. */
  const BearerToken: string := "yourBearerTokenHere"

  /**
   * The gate lets a request through when its session is authenticated, or when
   * its Authorization header, with the first "Bearer " in it removed, is the
   * fixed token.
   */
  predicate Admitted(authenticated: bool, authorization: Option<string>) {
    authenticated || (TruthyText(authorization) && ReplaceFirst(authorization.value, "Bearer ", "") == BearerToken)
  }

  /** `requireAuth`: None calls the route, Some is the 401 sent instead. */
  function RequireAuth(authenticated: bool, authorization: Option<string>): (r: Option<Response>)
    ensures r.None? <==> Admitted(authenticated, authorization)
    ensures r.Some? ==> r.value == Response(401, Message("Authentication required"))
  {
    if Admitted(authenticated, authorization) then None
    else Some(Response(401, Message("Authentication required")))
  }

  /** A text that lacks a character of t cannot contain t. */
  lemma {:induction false} NotContainsMissingChar(s: string, t: string, c: char)
    requires c in t && c !in s
    ensures !Contains(s, t)
    decreases |s|
  {
    if |t| <= |s| {
      var i :| 0 <= i < |t| && t[i] == c;
      assert s[..|t|][i] != t[i];
    }
    if s != [] {
      NotContainsMissingChar(s[1..], t, c);
    }
  }

  /** Removing the first "Bearer " from "Bearer t", or from a t without a space, gives t. */
  lemma BearerRemoved(t: string)
    requires ' ' !in t
    ensures ReplaceFirst("Bearer " + t, "Bearer ", "") == t
    ensures ReplaceFirst(t, "Bearer ", "") == t
  {
    ReplaceFirstPrefix("Bearer ", t, "");
    NotContainsMissingChar(t, "Bearer ", ' ');
    ReplaceFirstAbsent(t, "Bearer ", "");
  }

  /** "Bearer <token>" and the bare token both pass the gate without a session. */
  lemma BearerHeadersAdmitted()
    ensures Admitted(false, Some("Bearer " + BearerToken))
    ensures Admitted(false, Some(BearerToken))
  {
    TokenHeadersAdmitted(BearerToken);
  }

  lemma TokenHeadersAdmitted(t: string)
    requires t == BearerToken
    ensures Admitted(false, Some("Bearer " + t)) && Admitted(false, Some(t))
  {
    assert ' ' !in t;
    BearerRemoved(t);
  }

  /**
   * Without a session, a header that has no "Bearer " in it passes only when it
   * is exactly the token, and a missing or empty header never does.
   */
  lemma PlainHeaderNeedsToken(h: string)
    requires !Contains(h, "Bearer ")
    ensures Admitted(false, Some(h)) <==> h == BearerToken
    ensures !Admitted(false, None) && !Admitted(false, Some(""))
  {
    ReplaceFirstAbsent(h, "Bearer ", "");
  }

  /**
   * The "Bearer " removed need not be a prefix: it may sit inside the token,
   * anywhere before the token's first 'B', as in "yourBearer BearerTokenHere".
   */
  lemma UnanchoredBearerAdmitted(front: string, tail: string)
    requires front + tail == BearerToken && 'B' !in front
    ensures Admitted(false, Some(front + "Bearer " + tail))
  {
    assert front + "Bearer " + tail == front + ("Bearer " + tail);
    ReplaceFirstAfter(front, "Bearer " + tail, "Bearer ", "");
    ReplaceFirstPrefix("Bearer ", tail, "");
  }

  /** The per-client session: whether it has logged in. */
  class Session {
    var authenticated: bool

    constructor ()
      ensures !authenticated
    {
      authenticated := false;
    }

    /**
     * `secretKey === process.env.KEY`, where either may be missing: equal
     * values log the session in, anything else is a 401 that leaves it as it
     * was.
     */
    method Login(secretKey: Option<string>, key: Option<string>) returns (resp: Response)
      modifies this
      ensures secretKey == key ==> authenticated && resp == Response(200, LoginReply(true, "Login successful"))
      ensures secretKey != key ==>
        authenticated == old(authenticated) && resp == Response(401, LoginReply(false, "Invalid secret key"))
    {
      if secretKey == key {
        authenticated := true;
        resp := Response(200, LoginReply(true, "Login successful"));
      } else {
        resp := Response(401, LoginReply(false, "Invalid secret key"));
      }
    }

    /**
     * `req.session.destroy`: destroyFails is the session store's error, which
     * leaves the stored session, and so its login, in place.
     */
    method Logout(destroyFails: bool) returns (resp: Response)
      modifies this
      ensures destroyFails ==> authenticated == old(authenticated) && resp == Response(500, Message("Could not log out"))
      ensures !destroyFails ==> !authenticated && resp == Response(200, Message("Logged out successfully"))
    {
      if destroyFails {
        resp := Response(500, Message("Could not log out"));
      } else {
        authenticated := false;
        resp := Response(200, Message("Logged out successfully"));
      }
    }

    function Status(): (r: Response)
      reads this
      ensures r.status == 200 && r.body == AuthStatus(authenticated)
    {
      Response(200, AuthStatus(authenticated))
    }
  }

  // ---------------------------------------------------------------- numbers from the request

  /**
   * `parseInt(text)` as a 32-bit `integer` column receives it: None when
   * parseInt gives NaN or a number the column cannot hold, which makes the
   * query fail.
   */
  function DbInt(text: string): (r: Option<int>)
    ensures r.Some? ==> FitsInt32(r.value) && ParseInt(text, true) == Some(r.value)
    ensures r.None? <==> ParseInt(text, true).None? || !FitsInt32(ParseInt(text, true).value)
  {
    match ParseInt(text, true)
    case None => None
    case Some(n) => if FitsInt32(n) then Some(n) else None
  }

  /** An id written out in decimal reaches the database unchanged. */
  lemma DbIntOfIntToString(n: int)
    requires FitsInt32(n)
    ensures DbInt(IntToString(n)) == Some(n)
  {
    ParseIntOfIntToString(n, true);
  }

  /** The filter of a listing: the top level (`IS NULL`), one parent, or a query that fails. */
  datatype Listing = TopLevel | Within(id: int) | BadQuery

  /** `q ? parseInt(q) : null` for the listing query parameter. */
  function ListingOf(query: Option<string>): (r: Listing)
    ensures r.TopLevel? <==> !TruthyText(query)
    ensures r.Within? ==> TruthyText(query) && DbInt(query.value) == Some(r.id)
    ensures r.BadQuery? <==> TruthyText(query) && DbInt(query.value).None?
  {
    if !TruthyText(query) then TopLevel
    else match DbInt(query.value)
      case None => BadQuery
      case Some(n) => Within(n)
  }

  /** An absent or empty parameter lists the top level; a decimal id lists that folder. */
  lemma ListingEncodings(n: int)
    requires FitsInt32(n)
    ensures ListingOf(None) == TopLevel && ListingOf(Some("")) == TopLevel
    ensures ListingOf(Some(IntToString(n))) == Within(n)
  {
    DbIntOfIntToString(n);
    assert IntToString(n) != "";
  }

  function ParentFilter(l: Listing): Option<int>
    requires !l.BadQuery?
  {
    if l.TopLevel? then None else Some(l.id)
  }

  // ---------------------------------------------------------------- folder routes

  /** GET /api/folders: the folders under the requested parent, by name. */
  function ListFolders(store: DatabaseStorage, parentId: Option<string>): (r: Response)
    reads store
    ensures ListingOf(parentId).BadQuery? ==> r == Response(500, Message("Failed to fetch folders"))
    ensures !ListingOf(parentId).BadQuery? ==>
      r.status == 200 && r.body.FolderList? && SortedAsc(r.body.folders, FolderName)
      && forall f :: f in r.body.folders <==> f in store.folders && f.parentId == ParentFilter(ListingOf(parentId))
  {
    var l := ListingOf(parentId);
    if l.BadQuery? then Response(500, Message("Failed to fetch folders"))
    else Response(200, FolderList(store.GetFoldersByParentId(ParentFilter(l))))
  }

  /** GET /api/folders/all. */
  function ListAllFolders(store: DatabaseStorage): (r: Response)
    reads store
    ensures r.status == 200 && r.body.FolderList?
    ensures multiset(r.body.folders) == multiset(store.folders) && SortedAsc(r.body.folders, FolderName)
  {
    Response(200, FolderList(store.GetAllFolders()))
  }

  /** GET /api/folders/:id. */
  function ShowFolder(store: DatabaseStorage, id: string): (r: Response)
    reads store
    ensures DbInt(id).None? ==> r == Response(500, Message("Failed to fetch folder"))
    ensures DbInt(id).Some? && store.GetFolderById(DbInt(id).value).None? ==> r == Response(404, Message("Folder not found"))
    ensures r.status == 200 ==> r.body.FolderRow? && r.body.folder in store.folders && Some(r.body.folder.id) == DbInt(id)
    ensures r.status in {200, 404, 500}
  {
    match DbInt(id)
    case None => Response(500, Message("Failed to fetch folder"))
    case Some(n) =>
      match store.GetFolderById(n)
      case None => Response(404, Message("Folder not found"))
      case Some(f) => Response(200, FolderRow(f))
  }

  /**
   * The body of POST /api/folders as the insert schema reads it: name is
   * required (None when missing or not a string); parentId may be left out
   * (None) or null.
   */
  datatype FolderForm = FolderForm(name: Option<string>, parentId: Option<Option<int>>)

  /** POST /api/folders: 201 with the new row, or 400 when the body or the insert is refused. */
  method PostFolder(store: DatabaseStorage, form: FolderForm, now: int) returns (resp: Response)
    requires store.Valid()
    modifies store
    ensures store.Valid()
    ensures store.videos == old(store.videos) && store.users == old(store.users)
    ensures form.name.None? ==> resp == Response(400, Message("Invalid folder data")) && store.folders == old(store.folders)
    ensures form.name.Some? ==>
      var f := NewFolder(old(store.nextFolderId), InsertFolder(form.name.value, form.parentId.GetOr(None)), now);
      if FolderFits(f) then resp == Response(201, FolderRow(f)) && store.folders == old(store.folders) + [f]
      else resp == Response(400, Message("Invalid folder data")) && store.folders == old(store.folders)
  {
    if form.name.None? {
      return Response(400, Message("Invalid folder data"));
    }
    var w := store.CreateFolder(InsertFolder(form.name.value, form.parentId.GetOr(None)), now);
    match w
    case Rejected =>
      resp := Response(400, Message("Invalid folder data"));
    case Written(f) =>
      resp := Response(201, FolderRow(f));
  }

  /** DELETE /api/folders/:id: only that row goes; its children and videos stay. */
  method RemoveFolder(store: DatabaseStorage, id: string) returns (resp: Response)
    requires store.Valid()
    modifies store
    ensures store.Valid()
    ensures store.videos == old(store.videos) && store.users == old(store.users)
    ensures DbInt(id).None? ==> resp == Response(500, Message("Failed to delete folder")) && store.folders == old(store.folders)
    ensures DbInt(id).Some? ==>
      var n := DbInt(id).value;
      && (forall f :: f in store.folders <==> f in old(store.folders) && f.id != n)
      && (if exists k :: 0 <= k < |old(store.folders)| && old(store.folders)[k].id == n
          then resp == Response(200, Message("Folder deleted successfully"))
          else resp == Response(404, Message("Folder not found")) && store.folders == old(store.folders))
  {
    match DbInt(id)
    case None =>
      resp := Response(500, Message("Failed to delete folder"));
    case Some(n) =>
      var existed := store.DeleteFolder(n);
      if !existed {
        return Response(404, Message("Folder not found"));
      }
      resp := Response(200, Message("Folder deleted successfully"));
  }

  // ---------------------------------------------------------------- video routes

  /** GET /api/videos: the videos in the requested folder, newest first. */
  function ListVideos(store: DatabaseStorage, folderId: Option<string>): (r: Response)
    reads store
    ensures ListingOf(folderId).BadQuery? ==> r == Response(500, Message("Failed to fetch videos"))
    ensures !ListingOf(folderId).BadQuery? ==>
      r.status == 200 && r.body.VideoList? && SortedDesc(r.body.videos, CreatedAt)
      && forall v :: v in r.body.videos <==> v in store.videos && v.folderId == ParentFilter(ListingOf(folderId))
  {
    var l := ListingOf(folderId);
    if l.BadQuery? then Response(500, Message("Failed to fetch videos"))
    else Response(200, VideoList(store.GetVideosByFolderId(ParentFilter(l))))
  }

  /** GET /api/videos/all. */
  function ListAllVideos(store: DatabaseStorage): (r: Response)
    reads store
    ensures r.status == 200 && r.body.VideoList?
    ensures multiset(r.body.videos) == multiset(store.videos) && SortedDesc(r.body.videos, CreatedAt)
  {
    Response(200, VideoList(store.GetAllVideos()))
  }

  /** GET /api/videos/:id. */
  function ShowVideo(store: DatabaseStorage, id: string): (r: Response)
    reads store
    ensures DbInt(id).None? ==> r == Response(500, Message("Failed to fetch video"))
    ensures DbInt(id).Some? && store.GetVideoById(DbInt(id).value).None? ==> r == Response(404, Message("Video not found"))
    ensures r.status == 200 ==> r.body.VideoRow? && r.body.video in store.videos && Some(r.body.video.id) == DbInt(id)
    ensures r.status in {200, 404, 500}
  {
    match DbInt(id)
    case None => Response(500, Message("Failed to fetch video"))
    case Some(n) =>
      match store.GetVideoById(n)
      case None => Response(404, Message("Video not found"))
      case Some(v) => Response(200, VideoRow(v))
  }

  /** The `video` part of an upload as multer saw it; filename is the name it chose on disk. */
  datatype UploadedFile = UploadedFile(filename: string, originalName: string, mimeType: string, size: nat)

  /** The text fields of an upload, each possibly missing. */
  datatype UploadForm = UploadForm(customId: Option<string>, title: Option<string>, folderId: Option<string>)

  /** multer's file filter. */
  predicate IsVideoMime(mimeType: string) {
    StartsWith(mimeType, "video/")
  }

  /** multer's `fileSize` limit, 10000 MiB. */
  const UploadLimit: nat := 10000 * 1024 * 1024

  /** What multer leaves for the handler. */
  datatype Intake = NoFile | Stored(file: UploadedFile) | Refused(message: string)

  /**
   * A non-video MIME type fails the filter; a file of more bytes than the limit
   * aborts the upload. Either error reaches the error handler without a
   * status, so it is a 500 with the error's message, and multer removes what it
   * wrote.
   */
  function IntakeOf(file: Option<UploadedFile>): (r: Intake)
    ensures file.None? <==> r.NoFile?
    ensures r.Stored? <==> file.Some? && IsVideoMime(file.value.mimeType) && file.value.size <= UploadLimit
    ensures r.Stored? ==> r.file == file.value
    ensures r.Refused? ==> r.message == (if IsVideoMime(file.value.mimeType) then "File too large" else "Only video files are allowed!")
  {
    match file
    case None => NoFile
    case Some(f) =>
      if !IsVideoMime(f.mimeType) then Refused("Only video files are allowed!")
      else if f.size > UploadLimit then Refused("File too large")
      else Stored(f)
  }

  /** `folderId ? parseInt(folderId) : null`; None when parseInt gives NaN. */
  function UploadFolderId(folderId: Option<string>): (r: Option<Option<int>>)
    ensures !TruthyText(folderId) ==> r == Some(None)
    ensures TruthyText(folderId) ==> (r.None? <==> ParseInt(folderId.value, true).None?)
    ensures TruthyText(folderId) && r.Some? ==> r.value == ParseInt(folderId.value, true)
  {
    if !TruthyText(folderId) then Some(None)
    else match ParseInt(folderId.value, true)
      case None => None
      case Some(n) => Some(Some(n))
  }

  /** The row an upload inserts: no duration and no metadata yet. */
  function UploadRow(f: UploadedFile, customId: string, title: string, folderId: Option<int>): (ins: InsertVideo)
    ensures ins.duration.None? && ins.metadata.None?
    ensures ins.customId == customId && ins.title == title && ins.folderId == folderId
    ensures ins.filename == f.filename && ins.originalName == f.originalName
    ensures ins.mimeType == f.mimeType && ins.size == f.size
  {
    InsertVideo(customId, title, f.filename, f.originalName, f.mimeType, f.size, None, folderId, None)
  }

  /**
   * POST /api/videos/upload after the gate. The file is on disk once multer
   * has stored it: it stays there when a field is missing, and is unlinked on a
   * duplicate customId or a failed insert.
   */
  method UploadVideo(store: DatabaseStorage, disk: Disk, file: Option<UploadedFile>, form: UploadForm, now: int)
    returns (resp: Response, disk': Disk)
    requires store.Valid()
    modifies store
    ensures store.Valid()
    ensures store.folders == old(store.folders) && store.users == old(store.users)
    ensures resp.status != 201 ==> store.videos == old(store.videos)
    ensures IntakeOf(file).NoFile? ==> resp == Response(400, Message("No video file provided")) && disk' == disk
    ensures IntakeOf(file).Refused? ==> resp == Response(500, Message(IntakeOf(file).message)) && disk' == disk
    ensures IntakeOf(file).Stored? && (!TruthyText(form.customId) || !TruthyText(form.title)) ==>
      resp == Response(400, Message("Custom ID and title are required")) && disk' == disk[file.value.filename := file.value.size]
    ensures IntakeOf(file).Stored? && TruthyText(form.customId) && TruthyText(form.title) ==>
      var f := file.value;
      if CustomIdIndex(old(store.videos), form.customId.value).Some? then
        resp == Response(400, Message("Custom ID already exists")) && disk' == disk - {f.filename}
      else if UploadFolderId(form.folderId).None?
        || !VideoFits(NewVideo(old(store.nextVideoId), UploadRow(f, form.customId.value, form.title.value, UploadFolderId(form.folderId).value), now)) then
        resp == Response(500, Message("Failed to upload video")) && disk' == disk - {f.filename}
      else
        var v := NewVideo(old(store.nextVideoId), UploadRow(f, form.customId.value, form.title.value, UploadFolderId(form.folderId).value), now);
        resp == Response(201, VideoRow(v)) && disk' == disk[f.filename := f.size] && store.videos == old(store.videos) + [v]
  {
    match IntakeOf(file)
    case NoFile =>
      return Response(400, Message("No video file provided")), disk;
    case Refused(message) =>
      return Response(500, Message(message)), disk;
    case Stored(f) =>
      disk' := disk[f.filename := f.size];
      if !TruthyText(form.customId) || !TruthyText(form.title) {
        return Response(400, Message("Custom ID and title are required")), disk';
      }
      var customId, title := form.customId.value, form.title.value;
      if store.GetVideoByCustomId(customId).Some? {
        return Response(400, Message("Custom ID already exists")), disk' - {f.filename};
      }
      var folderId := UploadFolderId(form.folderId);
      if folderId.None? {
        return Response(500, Message("Failed to upload video")), disk' - {f.filename};
      }
      var w := store.CreateVideo(UploadRow(f, customId, title, folderId.value), now);
      match w
      case Rejected =>
        resp, disk' := Response(500, Message("Failed to upload video")), disk' - {f.filename};
      case Written(v) =>
        resp := Response(201, VideoRow(v));
  }

  /**
   * A video file larger than the 32-bit size column passes multer's limit and
   * is written, but the insert cannot hold its size, so the upload fails.
   */
  lemma ColumnSmallerThanLimit(f: UploadedFile, customId: string, title: string, folderId: Option<int>, id: int, now: int)
    requires IsVideoMime(f.mimeType) && Int32Max < f.size <= UploadLimit
    ensures IntakeOf(Some(f)) == Stored(f)
    ensures !VideoFits(NewVideo(id, UploadRow(f, customId, title, folderId), now))
  {
  }

  /** DELETE /api/videos/:id: the file goes from the disk if present, then the row. */
  method RemoveVideo(store: DatabaseStorage, disk: Disk, id: string) returns (resp: Response, disk': Disk)
    requires store.Valid()
    modifies store
    ensures store.Valid()
    ensures store.folders == old(store.folders) && store.users == old(store.users)
    ensures DbInt(id).None? ==>
      resp == Response(500, Message("Failed to delete video")) && disk' == disk && store.videos == old(store.videos)
    ensures DbInt(id).Some? ==>
      match old(store.GetVideoById(DbInt(id).value))
      case None => resp == Response(404, Message("Video not found")) && disk' == disk && store.videos == old(store.videos)
      case Some(v) =>
        && resp == Response(200, Message("Video deleted successfully"))
        && disk' == disk - {v.filename}
        && |store.videos| == |old(store.videos)| - 1
        && forall u :: u in store.videos <==> u in old(store.videos) && u.id != v.id
  {
    match DbInt(id)
    case None =>
      return Response(500, Message("Failed to delete video")), disk;
    case Some(n) =>
      match store.GetVideoById(n)
      case None =>
        return Response(404, Message("Video not found")), disk;
      case Some(v) =>
        disk' := disk - {v.filename};
        var existed := store.DeleteVideo(n);
        if !existed {
          return Response(404, Message("Video not found")), disk';
        }
        resp := Response(200, Message("Video deleted successfully"));
  }

  // ---------------------------------------------------------------- streaming

  /** Register the stream with no bytes yet and count the view. */
  method Admit(store: DatabaseStorage, tracker: ActiveStreams, v: Video, streamId: string, now: int, ip: Option<string>)
    requires store.Valid() && tracker.Valid()
    modifies store, tracker
    ensures store.Valid() && tracker.Valid()
    ensures store.folders == old(store.folders) && store.users == old(store.users)
    ensures tracker.totalBandwidthUsed == old(tracker.totalBandwidthUsed)
    ensures |store.videos| == |old(store.videos)|
    ensures forall k :: 0 <= k < |store.videos| ==> store.videos[k] == Bumped(old(store.videos)[k], v.id)
    ensures tracker.streams == old(tracker.streams)[streamId := StreamInfo(now, ClientId(ip), 0, v.customId)]
  {
    tracker.Register(streamId, now, ip, v.customId);
    store.IncrementVideoViews(v.id);
  }

  /**
   * The part of the streaming route after both not-found checks: register the
   * stream with no bytes yet, count the view, then either answer with the head
   * or, when the read stream refuses the range, remove the record at once and
   * answer 500.
   */
  method ServeFound(store: DatabaseStorage, tracker: ActiveStreams, v: Video, setup: StreamSetup,
                    streamId: string, now: int, ip: Option<string>)
    returns (resp: Response)
    requires store.Valid() && tracker.Valid()
    modifies store, tracker
    ensures store.Valid() && tracker.Valid()
    ensures store.folders == old(store.folders) && store.users == old(store.users)
    ensures tracker.totalBandwidthUsed == old(tracker.totalBandwidthUsed)
    ensures |store.videos| == |old(store.videos)|
    ensures forall k :: 0 <= k < |store.videos| ==> store.videos[k] == Bumped(old(store.videos)[k], v.id)
    ensures match setup
      case Streaming(head, _, _) =>
        && resp == Response(206, Streamed(head))
        && tracker.streams == old(tracker.streams)[streamId := StreamInfo(now, ClientId(ip), 0, v.customId)]
      case SetupFailed =>
        && resp == Response(500, Message("Streaming error"))
        && tracker.streams == old(tracker.streams) - {streamId}
  {
    Admit(store, tracker, v, streamId, now, ip);
    if setup.Streaming? {
      resp := Response(206, Streamed(setup.head));
    } else {
      UpdateThenRemove(old(tracker.streams), streamId, StreamInfo(now, ClientId(ip), 0, v.customId));
      tracker.Remove(streamId);
      resp := Response(500, Message("Streaming error"));
    }
  }

  /**
   * GET /api/stream/:customId after the gate. streamId is the id built from the
   * customId, the clock and a random suffix; now is the clock; ip the client's
   * address; range the Range header. Nothing is registered or counted unless
   * the video and its file are both found.
   */
  method StreamVideo(store: DatabaseStorage, tracker: ActiveStreams, disk: Disk, customId: string,
                     streamId: string, now: int, ip: Option<string>, range: Option<string>)
    returns (resp: Response)
    requires store.Valid() && tracker.Valid()
    modifies store, tracker
    ensures store.Valid() && tracker.Valid()
    ensures store.folders == old(store.folders) && store.users == old(store.users)
    ensures tracker.totalBandwidthUsed == old(tracker.totalBandwidthUsed)
    ensures CustomIdIndex(old(store.videos), customId).None? ==>
      && resp == Response(404, Message("Video not found"))
      && store.videos == old(store.videos) && tracker.streams == old(tracker.streams)
    ensures CustomIdIndex(old(store.videos), customId).Some? ==>
      var v := old(store.videos)[CustomIdIndex(old(store.videos), customId).value];
      if v.filename !in disk then
        && resp == Response(404, Message("Video file not found"))
        && store.videos == old(store.videos) && tracker.streams == old(tracker.streams)
      else
        && |store.videos| == |old(store.videos)|
        && (forall k :: 0 <= k < |store.videos| ==> store.videos[k] == Bumped(old(store.videos)[k], v.id))
        && match SetupStream(range, v.mimeType, disk[v.filename])
           case Streaming(head, _, _) =>
             && resp == Response(206, Streamed(head))
             && tracker.streams == old(tracker.streams)[streamId := StreamInfo(now, ClientId(ip), 0, v.customId)]
           case SetupFailed =>
             && resp == Response(500, Message("Streaming error"))
             && tracker.streams == old(tracker.streams) - {streamId}
  {
    var found := store.GetVideoByCustomId(customId);
    if found.None? {
      return Response(404, Message("Video not found"));
    }
    var v := found.value;
    if v.filename !in disk {
      return Response(404, Message("Video file not found"));
    }
    var setup := SetupStream(range, v.mimeType, disk[v.filename]);
    resp := ServeFound(store, tracker, v, setup, streamId, now, ip);
  }

  /** GET /api/stream-analytics at time now. */
  function StreamAnalyticsReply(tracker: ActiveStreams, now: int): (r: Response)
    requires tracker.Valid()
    reads tracker
    ensures r.status == 200 && r.body.Analytics?
    ensures r.body.analytics.activeStreams == |tracker.streams|
    ensures r.body.analytics.totalConcurrentLimit == 250
    ensures |r.body.analytics.streamDetails| == |tracker.order|
    ensures forall i :: 0 <= i < |tracker.order| ==>
      r.body.analytics.streamDetails[i] == StreamDetail(BeforeFirst(tracker.order[i], '-'),
        now - tracker.streams[tracker.order[i]].startTime, tracker.streams[tracker.order[i]].clientId)
  {
    Response(200, Analytics(tracker.Snapshot(now)))
  }

  // ---------------------------------------------------------------- stats

  function Size(v: Video): int { v.size }

  /** `video.duration || 0`. */
  function DurationOrZero(v: Video): int { v.duration.GetOr(0) }

  /** `Math.round(total / n)` over durations, missing ones counted as 0; 0 for no videos. */
  function AverageDuration(vs: seq<Video>): (r: int)
    ensures |vs| == 0 ==> r == 0
    ensures |vs| > 0 ==> 2 * |vs| * r <= 2 * SumBy(vs, DurationOrZero) + |vs| < 2 * |vs| * (r + 1)
  {
    if |vs| > 0 then RoundedMean(SumBy(vs, DurationOrZero), |vs|) else 0
  }

  lemma MulLessCancel(n: int, a: int, b: int)
    requires n > 0 && n * a < n * b
    ensures a < b
  {
    assert n * b - n * a == n * (b - a);
  }

  /** When every duration lies between lo and hi, so does the average. */
  lemma AverageDurationWithin(vs: seq<Video>, lo: int, hi: int)
    requires |vs| > 0
    requires forall k :: 0 <= k < |vs| ==> lo <= DurationOrZero(vs[k]) <= hi
    ensures lo <= AverageDuration(vs) <= hi
  {
    SumByBounds(vs, DurationOrZero, lo, hi);
    RoundedWithin(|vs|, SumBy(vs, DurationOrZero), AverageDuration(vs), lo, hi);
  }

  /** A mean rounded half up of a total between n lo and n hi lies between lo and hi. */
  lemma RoundedWithin(n: int, total: int, r: int, lo: int, hi: int)
    requires n > 0 && 2 * n * r <= 2 * total + n < 2 * n * (r + 1)
    requires n * lo <= total <= n * hi
    ensures lo <= r <= hi
  {
    var m := 2 * n;
    assert 2 * total + n < m * (hi + 1) by {
      assert m * (hi + 1) == 2 * (n * hi) + 2 * n;
    }
    MulLessCancel(m, r, hi + 1);
    assert m * lo < m * (r + 1) by {
      assert m * lo == 2 * (n * lo);
    }
    MulLessCancel(m, lo, r + 1);
  }

  /**
   * GET /api/stats without the OS probes: counts, the total size, the rounded
   * average duration, the live stream count and the bandwidth counter. The
   * sums do not depend on the order the listing returns.
   */
  function StatsOf(store: DatabaseStorage, tracker: ActiveStreams): (r: StatsReport)
    reads store, tracker
    ensures r.totalVideos == |store.videos| && r.totalFolders == |store.folders|
    ensures r.totalStorage == SumBy(store.videos, Size)
    ensures r.avgDuration == AverageDuration(store.videos)
    ensures r.activeStreams == |tracker.streams| && r.totalBandwidth == tracker.totalBandwidthUsed
  {
    var videos := store.GetAllVideos();
    var folders := store.GetAllFolders();
    assert |videos| == |multiset(videos)| == |multiset(store.videos)|;
    assert |folders| == |multiset(folders)| == |multiset(store.folders)|;
    SumByPermutation(videos, store.videos, Size);
    SumByPermutation(videos, store.videos, DurationOrZero);
    StatsReport(|videos|, |folders|, SumBy(videos, Size),
                if |videos| > 0 then RoundedMean(SumBy(videos, DurationOrZero), |videos|) else 0,
                |tracker.streams|, tracker.totalBandwidthUsed)
  }
}
