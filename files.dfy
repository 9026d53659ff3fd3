/** The file subsystem's pure part: the access rule of a file ACL, the assembly
    of a file record after the upload consumers have settled, the blob-store keys,
    and the read accessors of a file's metadata (fileMetaImpl). */
module Files {
  import opened Uuids
  import opened Model

  /** A file ACL: subject (or the wildcard Nil) to allow/deny. */
  type Acl = map<Uuid, bool>

  /** An entry keyed by the wildcard or by the requester applies to the requester. */
  predicate Applies(subject: Uuid, user: Uuid) {
    subject == Nil || subject == user
  }

  /** Deny overrides allow: no applicable entry denies, and some applicable entry allows. */
  predicate Accessible(acl: Acl, user: Uuid) {
    && (forall s :: s in acl && Applies(s, user) ==> acl[s])
    && (exists s :: s in acl && Applies(s, user) && acl[s])
  }

  /** Only two entries can apply to a requester, so the decision reads just those. */
  lemma AccessibleFromTwoEntries(acl: Acl, user: Uuid)
    ensures Accessible(acl, user) <==>
      && (Nil in acl || user in acl)
      && (Nil in acl ==> acl[Nil])
      && (user in acl ==> acl[user])
  {
    if Nil in acl && acl[Nil] {
      assert Applies(Nil, user);
    }
    if user in acl && acl[user] {
      assert Applies(user, user);
    }
  }

  lemma DenyOverridesAllow(acl: Acl, user: Uuid, denying: Uuid)
    requires denying in acl && Applies(denying, user) && !acl[denying]
    ensures !Accessible(acl, user)
  {
  }

  lemma EmptyAclDenies(user: Uuid)
    ensures !Accessible(map[], user)
  {
  }

  /** image.Rectangle: Min is inclusive, Max exclusive. */
  datatype Rect = Rect(minX: int, minY: int, maxX: int, maxY: int) {
    predicate Empty() {
      minX >= maxX || minY >= maxY
    }
    function Width(): int {
      maxX - minX
    }
    function Height(): int {
      maxY - minY
    }
  }

  /** image.Rectangle{}, what generateThumbnail returns on every error. */
  const ZeroRect: Rect := Rect(0, 0, 0, 0)

  /** What the thumbnail producer achieved. Decoding, fitting and PNG encoding are
      done by an image library outside the model: only the encoded bytes and the
      bounds of the fitted image remain, and whether the thumbnail blob was saved. */
  datatype ThumbnailOutcome =
    | NotDecoded
    | Encoded(png: seq<Byte>, bounds: Rect, saved: bool)

  /** The rectangle generateThumbnail returns: the fitted image's bounds once the
      thumbnail blob is saved, the zero rectangle otherwise. */
  function ThumbnailBounds(t: ThumbnailOutcome): (r: Rect)
    ensures t.NotDecoded? || !t.saved ==> r.Empty()
  {
    if t.Encoded? && t.saved then t.bounds else ZeroRect
  }

  /** The arguments of SaveFile. */
  datatype SaveFileArgs = SaveFileArgs(
    fileName: string,
    fileSize: int,
    mimeType: string,
    fileType: string,
    creatorID: Option<Uuid>,
    channelID: Option<Uuid>,
    acl: Acl,
    src: seq<Byte>)

  /** The blob store addresses an object by key and file type. */
  datatype StoreKey = StoreKey(key: string, fileType: string)

  /** A stored object: its bytes and the name and MIME type it was saved with. */
  datatype StoredObject = StoredObject(data: seq<Byte>, name: string, mime: string)

  /** The blob store, as a map from keys to objects. */
  type Store = map<StoreKey, StoredObject>

  /** Key of a file's primary content. */
  function PrimaryKey(id: Uuid, fileType: string): StoreKey {
    StoreKey(UuidString(id), fileType)
  }

  /** Key of a file's thumbnail: the id's string with "-thumb", under the thumbnail type. */
  function ThumbnailKey(id: Uuid): (k: StoreKey)
    ensures |k.key| == 42 && k.key[36..] == "-thumb" && k.fileType == FileTypeThumbnail
  {
    StoreKey(UuidString(id) + "-thumb", FileTypeThumbnail)
  }

  /** The primary key and the thumbnail key of files never coincide, so the store
      writer and the thumbnail producer of one upload never write the same object. */
  lemma PrimaryAndThumbnailKeysDiffer(a: Uuid, b: Uuid, fileType: string)
    ensures PrimaryKey(a, fileType) != ThumbnailKey(b)
  {
    assert |PrimaryKey(a, fileType).key| == 36;
  }

  /** Distinct files have distinct thumbnail keys. */
  lemma ThumbnailKeyInjective(a: Uuid, b: Uuid)
    requires ThumbnailKey(a) == ThumbnailKey(b)
    ensures a == b
  {
    assert UuidString(a) == ThumbnailKey(a).key[..36];
    assert UuidString(b) == ThumbnailKey(b).key[..36];
    UuidStringInjective(a, b);
  }

  /** The write of generateThumbnail: the PNG bytes under the thumbnail key. */
  function StoreThumbnail(fs: Store, id: Uuid, t: ThumbnailOutcome): (r: Store)
    ensures t.Encoded? && t.saved ==> ThumbnailKey(id) in r && r[ThumbnailKey(id)].data == t.png
    ensures forall k :: k != ThumbnailKey(id) ==> (k in r <==> k in fs) && (k in fs ==> r[k] == fs[k])
  {
    if t.Encoded? && t.saved then
      var key := ThumbnailKey(id).key;
      fs[ThumbnailKey(id) := StoredObject(t.png, key + ".png", PngMime)]
    else fs
  }

  /** The write of the store writer: the uploaded bytes under the primary key. */
  function StorePrimary(fs: Store, id: Uuid, name: string, mime: string, fileType: string, src: seq<Byte>): (r: Store)
    ensures PrimaryKey(id, fileType) in r && r[PrimaryKey(id, fileType)].data == src
    ensures forall k :: k != PrimaryKey(id, fileType) ==> (k in r <==> k in fs) && (k in fs ==> r[k] == fs[k])
  {
    fs[PrimaryKey(id, fileType) := StoredObject(src, name, mime)]
  }

  /** The record SaveFile builds before the consumers run: no hash and no thumbnail yet. */
  function NewFileRecord(args: SaveFileArgs, id: Uuid, now: Time): File {
    File(id, args.fileName, args.fileSize, args.mimeType, args.fileType, args.creatorID,
         args.channelID, "", false, None, 0, 0, now)
  }

  /** The thumbnail fields are set together or not at all. */
  predicate ThumbnailConsistent(f: File) {
    if f.hasThumbnail then
      f.thumbnailMime == Some(PngMime) && f.thumbnailWidth > 0 && f.thumbnailHeight > 0
    else
      f.thumbnailMime == None && f.thumbnailWidth == 0 && f.thumbnailHeight == 0
  }

  /** Sets the thumbnail fields from the producer's rectangle when it is non-empty. */
  function WithThumbnail(f: File, r: Rect): (g: File)
    requires ThumbnailConsistent(f) && !f.hasThumbnail
    ensures ThumbnailConsistent(g)
    ensures g.hasThumbnail <==> !r.Empty()
    ensures g.hasThumbnail ==> g.thumbnailWidth == r.Width() && g.thumbnailHeight == r.Height()
    ensures g.(hasThumbnail := false, thumbnailMime := None, thumbnailWidth := 0, thumbnailHeight := 0) == f
  {
    if r.Empty() then f
    else f.(hasThumbnail := true, thumbnailMime := Some(PngMime),
            thumbnailWidth := r.Width(), thumbnailHeight := r.Height())
  }

  /** OpenFileByKey of the blob store. */
  function OpenFileByKey(fs: Store, k: StoreKey): (r: Result<seq<Byte>, RepoError>)
    ensures r.Success? <==> k in fs
    ensures r.Failure? ==> r.error == ErrFileNotFound
    ensures r.Success? ==> r.value == fs[k].data
  {
    if k in fs then Success(fs[k].data) else Failure(ErrFileNotFound)
  }

  /** fileMetaImpl.Open: the primary content. */
  function Open(f: File, fs: Store): Result<seq<Byte>, RepoError> {
    OpenFileByKey(fs, PrimaryKey(f.id, f.fileType))
  }

  /** fileMetaImpl.OpenThumbnail: NotFound without a thumbnail, else the thumbnail object. */
  function OpenThumbnail(f: File, fs: Store): (r: Result<seq<Byte>, RepoError>)
    ensures !f.hasThumbnail ==> r == Failure(ErrNotFound)
    ensures f.hasThumbnail ==> r == OpenFileByKey(fs, ThumbnailKey(f.id))
  {
    if !f.hasThumbnail then Failure(ErrNotFound)
    else OpenFileByKey(fs, ThumbnailKey(f.id))
  }

  /** OpenThumbnail reads the very object the thumbnail producer wrote, and that
      write leaves every file's primary content as it was. */
  lemma ThumbnailReadsBack(f: File, fs: Store, t: ThumbnailOutcome, g: File)
    requires t.Encoded? && t.saved && f.hasThumbnail
    ensures OpenThumbnail(f, StoreThumbnail(fs, f.id, t)) == Success(t.png)
    ensures Open(g, StoreThumbnail(fs, f.id, t)) == Open(g, fs)
  {
    PrimaryAndThumbnailKeysDiffer(g.id, f.id, g.fileType);
  }

  /** A file whose thumbnail was skipped reports NotFound for the thumbnail whatever the store holds. */
  lemma SkippedThumbnailNotFound(args: SaveFileArgs, id: Uuid, now: Time, t: ThumbnailOutcome, fs: Store)
    requires t.NotDecoded? || !t.saved
    ensures OpenThumbnail(WithThumbnail(NewFileRecord(args, id, now), ThumbnailBounds(t)), fs) == Failure(ErrNotFound)
  {
  }
}
