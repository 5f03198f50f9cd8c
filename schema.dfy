/**
 * The database tables: folders, videos and users, their insert shapes (which
 * leave out the store-assigned id and creation time), partial updates, and the
 * constraints the tables declare (serial ids, not-null columns by typing,
 * `custom_id` and `username` unique, 32-bit `integer` columns).
 */
module Schema {
  import opened Common

  const Int32Min: int := -0x8000_0000
  const Int32Max: int := 0x7FFF_FFFF

  predicate FitsInt32(n: int) { Int32Min <= n <= Int32Max }

  predicate OptFitsInt32(n: Option<int>) { n.None? || FitsInt32(n.value) }

  /** A row of `folders`. parentId refers to another folder's id by convention only. */
  datatype Folder = Folder(id: int, name: string, parentId: Option<int>, createdAt: int)

  /**
   * A row of `videos`. duration is in seconds; metadata is JSON text. The table
   * declares no views column, yet the store and the pages read and write one:
   * it is modelled as an optional count.
   */
  datatype Video = Video(
    id: int,
    customId: string,
    title: string,
    filename: string,
    originalName: string,
    mimeType: string,
    size: int,
    duration: Option<int>,
    folderId: Option<int>,
    metadata: Option<string>,
    views: Option<nat>,
    createdAt: int)

  datatype User = User(id: int, username: string, password: string)

  /** The folder insert shape: the row without id and createdAt. */
  datatype InsertFolder = InsertFolder(name: string, parentId: Option<int>)

  /** The video insert shape: the row without id and createdAt. */
  datatype InsertVideo = InsertVideo(
    customId: string,
    title: string,
    filename: string,
    originalName: string,
    mimeType: string,
    size: int,
    duration: Option<int>,
    folderId: Option<int>,
    metadata: Option<string>)

  datatype InsertUser = InsertUser(username: string, password: string)

  /**
   * `Partial<InsertFolder>`: None leaves a column alone; for a nullable column
   * Some(None) sets it to null.
   */
  datatype FolderPatch = FolderPatch(name: Option<string>, parentId: Option<Option<int>>)

  datatype VideoPatch = VideoPatch(
    customId: Option<string>,
    title: Option<string>,
    filename: Option<string>,
    originalName: Option<string>,
    mimeType: Option<string>,
    size: Option<int>,
    duration: Option<Option<int>>,
    folderId: Option<Option<int>>,
    metadata: Option<Option<string>>)

  /** The row the store creates for an insert: the given columns, a new id and the insertion time. */
  function NewFolder(id: int, ins: InsertFolder, now: int): (f: Folder)
    ensures f.id == id && f.createdAt == now
    ensures f.name == ins.name && f.parentId == ins.parentId
  {
    Folder(id, ins.name, ins.parentId, now)
  }

  function NewVideo(id: int, ins: InsertVideo, now: int): (v: Video)
    ensures v.id == id && v.createdAt == now && v.views.None?
    ensures ToInsert(v) == ins
  {
    Video(id, ins.customId, ins.title, ins.filename, ins.originalName, ins.mimeType,
          ins.size, ins.duration, ins.folderId, ins.metadata, None, now)
  }

  /** The insert-shape columns of a row. */
  function ToInsert(v: Video): InsertVideo {
    InsertVideo(v.customId, v.title, v.filename, v.originalName, v.mimeType,
                v.size, v.duration, v.folderId, v.metadata)
  }

  /** `UPDATE ... SET patch`: the supplied columns are overwritten, every other column is kept. */
  function PatchFolder(f: Folder, p: FolderPatch): (r: Folder)
    ensures r.id == f.id && r.createdAt == f.createdAt
    ensures r.name == p.name.GetOr(f.name)
    ensures r.parentId == p.parentId.GetOr(f.parentId)
  {
    f.(name := p.name.GetOr(f.name), parentId := p.parentId.GetOr(f.parentId))
  }

  function PatchVideo(v: Video, p: VideoPatch): (r: Video)
    ensures r.id == v.id && r.createdAt == v.createdAt && r.views == v.views
    ensures r.customId == p.customId.GetOr(v.customId)
    ensures r.title == p.title.GetOr(v.title)
    ensures r.filename == p.filename.GetOr(v.filename)
    ensures r.originalName == p.originalName.GetOr(v.originalName)
    ensures r.mimeType == p.mimeType.GetOr(v.mimeType)
    ensures r.size == p.size.GetOr(v.size)
    ensures r.duration == p.duration.GetOr(v.duration)
    ensures r.folderId == p.folderId.GetOr(v.folderId)
    ensures r.metadata == p.metadata.GetOr(v.metadata)
  {
    v.(customId := p.customId.GetOr(v.customId),
       title := p.title.GetOr(v.title),
       filename := p.filename.GetOr(v.filename),
       originalName := p.originalName.GetOr(v.originalName),
       mimeType := p.mimeType.GetOr(v.mimeType),
       size := p.size.GetOr(v.size),
       duration := p.duration.GetOr(v.duration),
       folderId := p.folderId.GetOr(v.folderId),
       metadata := p.metadata.GetOr(v.metadata))
  }

  const EmptyVideoPatch := VideoPatch(None, None, None, None, None, None, None, None, None)

  /** An empty patch changes nothing, and applying a patch twice is applying it once. */
  lemma PatchVideoLaws(v: Video, p: VideoPatch)
    ensures PatchVideo(v, EmptyVideoPatch) == v
    ensures PatchVideo(PatchVideo(v, p), p) == PatchVideo(v, p)
  {
  }

  lemma PatchFolderLaws(f: Folder, p: FolderPatch)
    ensures PatchFolder(f, FolderPatch(None, None)) == f
    ensures PatchFolder(PatchFolder(f, p), p) == PatchFolder(f, p)
  {
  }

  // ---------------------------------------------------------------- table constraints

  predicate FolderFits(f: Folder) { FitsInt32(f.id) && OptFitsInt32(f.parentId) }

  predicate VideoFits(v: Video) {
    FitsInt32(v.id) && FitsInt32(v.size) && OptFitsInt32(v.duration) && OptFitsInt32(v.folderId)
  }

  /** Serial ids: positive, below the next value to hand out, pairwise distinct. */
  predicate FolderTable(fs: seq<Folder>, next: int) {
    && (forall i :: 0 <= i < |fs| ==> 1 <= fs[i].id < next && FolderFits(fs[i]))
    && (forall i, j :: 0 <= i < j < |fs| ==> fs[i].id != fs[j].id)
  }

  predicate UniqueCustomIds(vs: seq<Video>) {
    forall i, j :: 0 <= i < j < |vs| ==> vs[i].customId != vs[j].customId
  }

  predicate VideoTable(vs: seq<Video>, next: int) {
    && (forall i :: 0 <= i < |vs| ==> 1 <= vs[i].id < next && VideoFits(vs[i]))
    && (forall i, j :: 0 <= i < j < |vs| ==> vs[i].id != vs[j].id)
    && UniqueCustomIds(vs)
  }

  predicate UserTable(us: seq<User>, next: int) {
    && (forall i :: 0 <= i < |us| ==> 1 <= us[i].id < next)
    && (forall i, j :: 0 <= i < j < |us| ==> us[i].id != us[j].id && us[i].username != us[j].username)
  }

  /**
   * The parent and folder relations are declared for queries only: no foreign key
   * and no acyclicity, so a folder may name itself or a missing folder as parent.
   */
  lemma FolderTableAllowsCycles()
    ensures FolderTable([Folder(1, "a", Some(2), 0), Folder(2, "b", Some(1), 0), Folder(3, "c", Some(3), 0)], 4)
    ensures FolderTable([Folder(1, "a", Some(7), 0)], 2)
  {
  }

  // ---------------------------------------------------------------- constraint preservation

  lemma FolderTableAppend(fs: seq<Folder>, next: int, f: Folder)
    requires FolderTable(fs, next) && next >= 1 && f.id == next && FolderFits(f)
    ensures FolderTable(fs + [f], next + 1)
  {
  }

  lemma FolderTableReplace(fs: seq<Folder>, next: int, i: nat, f: Folder)
    requires FolderTable(fs, next) && i < |fs| && f.id == fs[i].id && FolderFits(f)
    ensures FolderTable(fs[i := f], next)
  {
    var r := fs[i := f];
    forall a, b | 0 <= a < b < |r|
      ensures r[a].id != r[b].id
    {
      assert r[a].id == fs[a].id && r[b].id == fs[b].id;
    }
  }

  /** Removing the row at i keeps the constraints, and leaves exactly the rows with other ids. */
  lemma FolderTableRemove(fs: seq<Folder>, next: int, i: nat)
    requires FolderTable(fs, next) && i < |fs|
    ensures FolderTable(fs[..i] + fs[i + 1..], next)
    ensures forall f :: f in fs[..i] + fs[i + 1..] <==> f in fs && f.id != fs[i].id
  {
    var r := fs[..i] + fs[i + 1..];
    RemoveAtElements(fs, i);
    forall f | f in fs && f.id != fs[i].id
      ensures f in r
    {
      var k :| 0 <= k < |fs| && fs[k] == f;
      if k < i {
        assert r[k] == f;
      } else {
        assert r[k - 1] == f;
      }
    }
  }

  lemma VideoTableAppend(vs: seq<Video>, next: int, v: Video)
    requires VideoTable(vs, next) && next >= 1 && v.id == next && VideoFits(v)
    requires forall k :: 0 <= k < |vs| ==> vs[k].customId != v.customId
    ensures VideoTable(vs + [v], next + 1)
  {
  }

  lemma VideoTableReplace(vs: seq<Video>, next: int, i: nat, v: Video)
    requires VideoTable(vs, next) && i < |vs| && v.id == vs[i].id && VideoFits(v)
    requires forall k :: 0 <= k < |vs| && k != i ==> vs[k].customId != v.customId
    ensures VideoTable(vs[i := v], next)
  {
    var r := vs[i := v];
    forall a, b | 0 <= a < b < |r|
      ensures r[a].id != r[b].id && r[a].customId != r[b].customId
    {
      if a != i && b != i {
        assert r[a] == vs[a] && r[b] == vs[b];
      }
    }
  }

  lemma VideoTableRemove(vs: seq<Video>, next: int, i: nat)
    requires VideoTable(vs, next) && i < |vs|
    ensures VideoTable(vs[..i] + vs[i + 1..], next)
    ensures forall v :: v in vs[..i] + vs[i + 1..] <==> v in vs && v.id != vs[i].id
  {
    var r := vs[..i] + vs[i + 1..];
    RemoveAtElements(vs, i);
    forall v | v in vs && v.id != vs[i].id
      ensures v in r
    {
      var k :| 0 <= k < |vs| && vs[k] == v;
      if k < i {
        assert r[k] == v;
      } else {
        assert r[k - 1] == v;
      }
    }
    forall a, b | 0 <= a < b < |r|
      ensures r[a].id != r[b].id && r[a].customId != r[b].customId
    {
      RemoveAtIndex(vs, i, a);
      RemoveAtIndex(vs, i, b);
    }
  }

  lemma UserTableAppend(us: seq<User>, next: int, u: User)
    requires UserTable(us, next) && next >= 1 && u.id == next
    requires forall k :: 0 <= k < |us| ==> us[k].username != u.username
    ensures UserTable(us + [u], next + 1)
  {
  }
}
