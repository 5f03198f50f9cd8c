/**
 * `DatabaseStorage`: the folders, videos and users tables held in memory, with
 * the listing, lookup, insert, partial update, delete and view-count operations
 * the server calls.
 *
 * Names are ordered by code point and ties in createdAt keep insertion order;
 * the database's collation and tie order are not part of this model.
 */
module Storage {
  import opened Common
  import opened Sorting
  import opened Schema

  function FolderName(f: Folder): string { f.name }

  function CreatedAt(v: Video): int { v.createdAt }

  /** A write the database may refuse: a unique key taken or an integer outside 32 bits. */
  datatype Write<T> = Written(value: T) | Rejected

  function FolderIndex(fs: seq<Folder>, id: int): (r: Option<nat>)
    ensures r.None? <==> forall k :: 0 <= k < |fs| ==> fs[k].id != id
    ensures r.Some? ==> r.value < |fs| && fs[r.value].id == id
  {
    IndexWhere(fs, (f: Folder) => f.id == id)
  }

  function VideoIndex(vs: seq<Video>, id: int): (r: Option<nat>)
    ensures r.None? <==> forall k :: 0 <= k < |vs| ==> vs[k].id != id
    ensures r.Some? ==> r.value < |vs| && vs[r.value].id == id
  {
    IndexWhere(vs, (v: Video) => v.id == id)
  }

  function CustomIdIndex(vs: seq<Video>, customId: string): (r: Option<nat>)
    ensures r.None? <==> forall k :: 0 <= k < |vs| ==> vs[k].customId != customId
    ensures r.Some? ==> r.value < |vs| && vs[r.value].customId == customId
  {
    IndexWhere(vs, (v: Video) => v.customId == customId)
  }

  function UserIndex(us: seq<User>, id: int): (r: Option<nat>)
    ensures r.None? <==> forall k :: 0 <= k < |us| ==> us[k].id != id
    ensures r.Some? ==> r.value < |us| && us[r.value].id == id
  {
    IndexWhere(us, (u: User) => u.id == id)
  }

  function UsernameIndex(us: seq<User>, username: string): (r: Option<nat>)
    ensures r.None? <==> forall k :: 0 <= k < |us| ==> us[k].username != username
    ensures r.Some? ==> r.value < |us| && us[r.value].username == username
  {
    IndexWhere(us, (u: User) => u.username == username)
  }

  /** `COALESCE(views, 0) + 1` on the row with that id; other rows are returned as they are. */
  function Bumped(v: Video, id: int): (r: Video)
    ensures v.id != id ==> r == v
    ensures v.id == id ==> r == v.(views := Some(v.views.GetOr(0) + 1))
  {
    if v.id == id then v.(views := Some(v.views.GetOr(0) + 1)) else v
  }

  /** Another row than the i-th has the customId iff the table without row i has a row with it. */
  lemma OtherRowsWithCustomId(vs: seq<Video>, i: nat, customId: string)
    requires i < |vs|
    ensures CustomIdIndex(vs[..i] + vs[i + 1..], customId).Some? <==>
      exists k :: 0 <= k < |vs| && k != i && vs[k].customId == customId
  {
    var others := vs[..i] + vs[i + 1..];
    if CustomIdIndex(others, customId).Some? {
      var j := CustomIdIndex(others, customId).value;
      RemoveAtIndex(vs, i, j);
    }
    forall k | 0 <= k < |vs| && k != i && vs[k].customId == customId
      ensures CustomIdIndex(others, customId).Some?
    {
      RemoveAtIndex(vs, i, if k < i then k else k - 1);
    }
  }

  class DatabaseStorage {
    var folders: seq<Folder>
    var videos: seq<Video>
    var users: seq<User>
    // The next values of the serial id columns. A row refused for a unique key
    // has already drawn its id, so the counter moves on; a value the integer
    // columns cannot hold is refused before the id is drawn.
    var nextFolderId: int
    var nextVideoId: int
    var nextUserId: int

    ghost predicate Valid()
      reads this
    {
      && nextFolderId >= 1 && nextVideoId >= 1 && nextUserId >= 1
      && FolderTable(folders, nextFolderId) && VideoTable(videos, nextVideoId) && UserTable(users, nextUserId)
    }

    constructor ()
      ensures Valid()
      ensures folders == [] && videos == [] && users == []
    {
      folders, videos, users := [], [], [];
      nextFolderId, nextVideoId, nextUserId := 1, 1, 1;
    }

    // ------------------------------------------------------------ users

    function GetUser(id: int): (r: Option<User>)
      reads this
      ensures r.None? <==> forall k :: 0 <= k < |users| ==> users[k].id != id
      ensures r.Some? ==> r.value in users && r.value.id == id
    {
      match UserIndex(users, id)
      case None => None
      case Some(i) => Some(users[i])
    }

    function GetUserByUsername(username: string): (r: Option<User>)
      reads this
      ensures r.None? <==> forall k :: 0 <= k < |users| ==> users[k].username != username
      ensures r.Some? ==> r.value in users && r.value.username == username
    {
      match UsernameIndex(users, username)
      case None => None
      case Some(i) => Some(users[i])
    }

    /** Insert a user; a taken username violates the unique constraint after the id is drawn. */
    method CreateUser(ins: InsertUser) returns (r: Write<User>)
      requires Valid()
      modifies this
      ensures Valid()
      ensures r.Rejected? <==> UsernameIndex(old(users), ins.username).Some?
      ensures r.Written? ==>
        r.value == User(old(nextUserId), ins.username, ins.password)
        && users == old(users) + [r.value] && nextUserId == old(nextUserId) + 1
      ensures r.Rejected? ==> users == old(users) && nextUserId == old(nextUserId) + 1
      ensures folders == old(folders) && videos == old(videos)
      ensures nextFolderId == old(nextFolderId) && nextVideoId == old(nextVideoId)
    {
      if UsernameIndex(users, ins.username).Some? {
        nextUserId := nextUserId + 1;
        return Rejected;
      }
      var u := User(nextUserId, ins.username, ins.password);
      UserTableAppend(users, nextUserId, u);
      users := users + [u];
      nextUserId := nextUserId + 1;
      r := Written(u);
    }

    // ------------------------------------------------------------ folders

    /** Every folder, ordered by name. */
    function GetAllFolders(): (r: seq<Folder>)
      reads this
      ensures multiset(r) == multiset(folders)
      ensures SortedAsc(r, FolderName)
    {
      SortAscSorted(folders, FolderName);
      SortAsc(folders, FolderName)
    }

    function GetFolderById(id: int): (r: Option<Folder>)
      reads this
      ensures r.None? <==> forall k :: 0 <= k < |folders| ==> folders[k].id != id
      ensures r.Some? ==> r.value in folders && r.value.id == id
    {
      match FolderIndex(folders, id)
      case None => None
      case Some(i) => Some(folders[i])
    }

    /**
     * The folders whose parent is parentId, ordered by name; None asks for
     * `parent_id IS NULL`, the top level.
     */
    function GetFoldersByParentId(parentId: Option<int>): (r: seq<Folder>)
      reads this
      ensures forall f :: f in r <==> f in folders && f.parentId == parentId
      ensures multiset(r) <= multiset(folders)
      ensures SortedAsc(r, FolderName)
    {
      var matching := Filter(folders, (f: Folder) => f.parentId == parentId);
      SortAscSorted(matching, FolderName);
      SameElements(SortAsc(matching, FolderName), matching);
      SortAsc(matching, FolderName)
    }

    /** Insert a folder with the next serial id and the current time. */
    method CreateFolder(ins: InsertFolder, now: int) returns (r: Write<Folder>)
      requires Valid()
      modifies this
      ensures Valid()
      ensures r.Rejected? <==> !FolderFits(NewFolder(old(nextFolderId), ins, now))
      ensures r.Written? ==>
        r.value == NewFolder(old(nextFolderId), ins, now)
        && folders == old(folders) + [r.value] && nextFolderId == old(nextFolderId) + 1
      ensures r.Rejected? ==> folders == old(folders) && nextFolderId == old(nextFolderId)
      ensures videos == old(videos) && users == old(users)
      ensures nextVideoId == old(nextVideoId) && nextUserId == old(nextUserId)
    {
      var f := NewFolder(nextFolderId, ins, now);
      if !FolderFits(f) {
        return Rejected;
      }
      FolderTableAppend(folders, nextFolderId, f);
      folders := folders + [f];
      nextFolderId := nextFolderId + 1;
      r := Written(f);
    }

    /**
     * Overwrite the supplied columns of the folder with that id. No such folder
     * gives Written(None); a patched row outside the column types is refused.
     */
    method UpdateFolder(id: int, patch: FolderPatch) returns (r: Write<Option<Folder>>)
      requires Valid()
      modifies this
      ensures Valid()
      ensures FolderIndex(old(folders), id).None? ==> r == Written(None) && folders == old(folders)
      ensures FolderIndex(old(folders), id).Some? ==>
        var i := FolderIndex(old(folders), id).value;
        var updated := PatchFolder(old(folders)[i], patch);
        if FolderFits(updated) then r == Written(Some(updated)) && folders == old(folders)[i := updated]
        else r == Rejected && folders == old(folders)
      ensures videos == old(videos) && users == old(users)
      ensures nextFolderId == old(nextFolderId) && nextVideoId == old(nextVideoId) && nextUserId == old(nextUserId)
    {
      match FolderIndex(folders, id)
      case None =>
        r := Written(None);
      case Some(i) =>
        var updated := PatchFolder(folders[i], patch);
        if !FolderFits(updated) {
          return Rejected;
        }
        FolderTableReplace(folders, nextFolderId, i, updated);
        folders := folders[i := updated];
        r := Written(Some(updated));
    }

    /**
     * Delete the folder with that id and report whether one existed. Its child
     * folders and the videos in it stay as they are.
     */
    method DeleteFolder(id: int) returns (existed: bool)
      requires Valid()
      modifies this
      ensures Valid()
      ensures existed <==> exists k :: 0 <= k < |old(folders)| && old(folders)[k].id == id
      ensures forall f :: f in folders <==> f in old(folders) && f.id != id
      ensures existed ==> |folders| == |old(folders)| - 1
      ensures !existed ==> folders == old(folders)
      ensures videos == old(videos) && users == old(users)
      ensures nextFolderId == old(nextFolderId) && nextVideoId == old(nextVideoId) && nextUserId == old(nextUserId)
    {
      match FolderIndex(folders, id)
      case None =>
        existed := false;
      case Some(i) =>
        FolderTableRemove(folders, nextFolderId, i);
        folders := folders[..i] + folders[i + 1..];
        existed := true;
    }

    // ------------------------------------------------------------ videos

    /** Every video, newest first. */
    function GetAllVideos(): (r: seq<Video>)
      reads this
      ensures multiset(r) == multiset(videos)
      ensures SortedDesc(r, CreatedAt)
    {
      SortDescSorted(videos, CreatedAt);
      SortDesc(videos, CreatedAt)
    }

    function GetVideoById(id: int): (r: Option<Video>)
      reads this
      ensures r.None? <==> forall k :: 0 <= k < |videos| ==> videos[k].id != id
      ensures r.Some? ==> r.value in videos && r.value.id == id
    {
      match VideoIndex(videos, id)
      case None => None
      case Some(i) => Some(videos[i])
    }

    /** The video with that customId; the unique constraint makes it the only one. */
    function GetVideoByCustomId(customId: string): (r: Option<Video>)
      reads this
      ensures r.None? <==> forall k :: 0 <= k < |videos| ==> videos[k].customId != customId
      ensures r.Some? ==> r.value in videos && r.value.customId == customId
      ensures r.Some? && Valid() ==> forall k :: 0 <= k < |videos| && videos[k].customId == customId ==> videos[k] == r.value
    {
      match CustomIdIndex(videos, customId)
      case None => None
      case Some(i) => Some(videos[i])
    }

    /** The videos in folder folderId (None: `folder_id IS NULL`, the top level), newest first. */
    function GetVideosByFolderId(folderId: Option<int>): (r: seq<Video>)
      reads this
      ensures forall v :: v in r <==> v in videos && v.folderId == folderId
      ensures multiset(r) <= multiset(videos)
      ensures SortedDesc(r, CreatedAt)
    {
      var matching := Filter(videos, (v: Video) => v.folderId == folderId);
      SortDescSorted(matching, CreatedAt);
      SameElements(SortDesc(matching, CreatedAt), matching);
      SortDesc(matching, CreatedAt)
    }

    /**
     * Insert a video with the next serial id and the current time. A customId
     * already present, or a size, duration or folderId outside the 32-bit
     * `integer` columns, makes the database refuse the row.
     */
    method CreateVideo(ins: InsertVideo, now: int) returns (r: Write<Video>)
      requires Valid()
      modifies this
      ensures Valid()
      ensures r.Rejected? <==>
        CustomIdIndex(old(videos), ins.customId).Some? || !VideoFits(NewVideo(old(nextVideoId), ins, now))
      ensures r.Written? ==>
        r.value == NewVideo(old(nextVideoId), ins, now)
        && videos == old(videos) + [r.value] && nextVideoId == old(nextVideoId) + 1
      ensures r.Rejected? ==> videos == old(videos)
      ensures r.Rejected? ==>
        nextVideoId == old(nextVideoId) + (if VideoFits(NewVideo(old(nextVideoId), ins, now)) then 1 else 0)
      ensures folders == old(folders) && users == old(users)
      ensures nextFolderId == old(nextFolderId) && nextUserId == old(nextUserId)
    {
      var v := NewVideo(nextVideoId, ins, now);
      if !VideoFits(v) {
        return Rejected;
      }
      if CustomIdIndex(videos, ins.customId).Some? {
        nextVideoId := nextVideoId + 1;
        return Rejected;
      }
      VideoTableAppend(videos, nextVideoId, v);
      videos := videos + [v];
      nextVideoId := nextVideoId + 1;
      r := Written(v);
    }

    /**
     * Overwrite the supplied columns of the video with that id. No such video
     * gives Written(None); a patched row that takes another row's customId or
     * leaves the column types is refused.
     */
    method UpdateVideo(id: int, patch: VideoPatch) returns (r: Write<Option<Video>>)
      requires Valid()
      modifies this
      ensures Valid()
      ensures VideoIndex(old(videos), id).None? ==> r == Written(None) && videos == old(videos)
      ensures VideoIndex(old(videos), id).Some? ==>
        var i := VideoIndex(old(videos), id).value;
        var updated := PatchVideo(old(videos)[i], patch);
        var clash := exists k :: 0 <= k < |old(videos)| && k != i && old(videos)[k].customId == updated.customId;
        if VideoFits(updated) && !clash then r == Written(Some(updated)) && videos == old(videos)[i := updated]
        else r == Rejected && videos == old(videos)
      ensures folders == old(folders) && users == old(users)
      ensures nextFolderId == old(nextFolderId) && nextVideoId == old(nextVideoId) && nextUserId == old(nextUserId)
    {
      match VideoIndex(videos, id)
      case None =>
        r := Written(None);
      case Some(i) =>
        var updated := PatchVideo(videos[i], patch);
        var others := videos[..i] + videos[i + 1..];
        var clash := CustomIdIndex(others, updated.customId).Some?;
        OtherRowsWithCustomId(videos, i, updated.customId);
        if !VideoFits(updated) || clash {
          return Rejected;
        }
        VideoTableReplace(videos, nextVideoId, i, updated);
        videos := videos[i := updated];
        r := Written(Some(updated));
    }

    /**
     * Delete the video with that id and report whether one existed; only that
     * row goes.
     */
    method DeleteVideo(id: int) returns (existed: bool)
      requires Valid()
      modifies this
      ensures Valid()
      ensures existed <==> exists k :: 0 <= k < |old(videos)| && old(videos)[k].id == id
      ensures forall v :: v in videos <==> v in old(videos) && v.id != id
      ensures existed ==> |videos| == |old(videos)| - 1
      ensures !existed ==> videos == old(videos)
      ensures folders == old(folders) && users == old(users)
      ensures nextFolderId == old(nextFolderId) && nextVideoId == old(nextVideoId) && nextUserId == old(nextUserId)
    {
      match VideoIndex(videos, id)
      case None =>
        existed := false;
      case Some(i) =>
        VideoTableRemove(videos, nextVideoId, i);
        videos := videos[..i] + videos[i + 1..];
        existed := true;
    }

    /**
     * Set the views of the video with that id to its views (0 when null) plus
     * one. No other column or row changes, and an unknown id changes nothing.
     */
    method IncrementVideoViews(id: int)
      requires Valid()
      modifies this
      ensures Valid()
      ensures |videos| == |old(videos)|
      ensures forall k :: 0 <= k < |videos| ==> videos[k] == Bumped(old(videos)[k], id)
      ensures VideoIndex(old(videos), id).None? ==> videos == old(videos)
      ensures folders == old(folders) && users == old(users)
      ensures nextFolderId == old(nextFolderId) && nextVideoId == old(nextVideoId) && nextUserId == old(nextUserId)
    {
      match VideoIndex(videos, id)
      case None =>
      case Some(i) =>
        VideoTableReplace(videos, nextVideoId, i, Bumped(videos[i], id));
        videos := videos[i := Bumped(videos[i], id)];
    }
  }
}
