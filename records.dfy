/**
 * The relational data the ingestion code reads and writes: cameras, lenses,
 * photos, photo files, tags, photo-tag links and tasks, each a table keyed
 * by a primary key; the abstract inputs the code consults (filesystem
 * metadata, embedded metadata, and the parsers of the metadata module); and
 * the shared rules of the object store (Django's `get`, the observed date
 * range of a camera or lens).
 */
module Records {
  import opened Wrappers

  /** A primary key. Keys are never reused: `Store.nextId` is always fresh. */
  type Id = nat
  /** A capture or modification instant; instants are totally ordered. */
  type Time = int
  /** The key of a library, the tenant that scopes photos, cameras, lenses and tags. */
  type LibraryId = string
  /** The tag view `PhotoMetadata(path)` gives of one file. */
  type Metadata = map<string, string>
  type Coordinates = (real, real)

  /** The earliest and latest capture instants seen for a camera or lens. */
  datatype Bounds = Bounds(earliest: Option<Time>, latest: Option<Time>)

  datatype Camera = Camera(library: Option<LibraryId>, make: Option<string>, model: Option<string>, bounds: Bounds)

  datatype Lens = Lens(library: Option<LibraryId>, name: Option<string>, bounds: Bounds)

  /** A value of Python's `Decimal`: finite, an infinity, or not a number. */
  datatype Decimal = Finite(value: real) | Infinity(negative: bool) | NotANumber

  datatype Photo = Photo(
    library: Option<LibraryId>,
    takenAt: Option<Time>,
    takenBy: Option<string>,
    aperture: Option<Decimal>,
    exposure: Option<string>,
    isoSpeed: Option<int>,
    focalLength: Option<string>,
    flash: bool,
    meteringMode: Option<string>,
    driveMode: Option<string>,
    shootingMode: Option<string>,
    camera: Option<Id>,
    lens: Option<Id>,
    location: Option<Coordinates>,
    altitude: Option<string>,
    starRating: Option<string>)

  /** One file on disk, bound to the photo it renders. */
  datatype PhotoFile = PhotoFile(
    photo: Id,
    path: string,
    width: Option<string>,
    height: Option<string>,
    mimetype: Option<string>,
    modifiedAt: Option<Time>,
    bytes: nat,
    preferred: bool)

  datatype Tag = Tag(library: Option<LibraryId>, name: string, kind: string)

  datatype PhotoTag = PhotoTag(photo: Id, tag: Id, confidence: real)

  /** Deferred work for an external worker; enqueued, never run here. */
  datatype Task = Task(kind: string, subject: Id, completeWithChildren: bool, library: Option<LibraryId>)

  /** The whole database as a value. */
  datatype Store = Store(
    cameras: map<Id, Camera>,
    lenses: map<Id, Lens>,
    photos: map<Id, Photo>,
    files: map<Id, PhotoFile>,
    tags: map<Id, Tag>,
    photoTags: map<Id, PhotoTag>,
    tasks: seq<Task>,
    nextId: Id)

  /** The exceptions the ingestion code can raise. */
  datatype Error =
    | FileNotFound             // os.stat on a path that does not exist
    | NoneComparison           // `<` or `>` between a datetime and None
    | MultipleObjectsReturned  // Django `get` matched several rows
    | NotUnpackable            // `latitude, longitude = None`
    | DuplicatePath            // the unique constraint on PhotoFile.path
    | ReplaceWithNone          // `str.replace(None, '')`
    | InvalidDecimal           // `Decimal(None)` or `Decimal` of malformed text
    | InvalidInt               // `int(None)` or `int` of malformed text
    | NoneAttribute            // `.split` or `.lower` called on None

  /** The database after an operation, and what the operation returned or raised. */
  datatype Outcome<T> = Outcome(st: Store, result: Result<T, Error>)

  /** `os.stat(path)`: modification time and size in bytes. */
  datatype FileStat = FileStat(mtime: Time, size: nat)

  /** Maximum lengths of the character fields the code truncates to. */
  datatype Limits = Limits(make: nat, model: nat, takenBy: nat, exposure: nat,
                           meteringMode: nat, driveMode: nat, shootingMode: nat)

  /**
   * Everything outside the database: the filesystem (a path is present iff it
   * exists), the metadata of the file being recorded, and the metadata
   * module's parsers, the MIME guesser and the `Decimal` constructor as
   * uninterpreted functions.
   */
  datatype Env = Env(
    fs: map<string, FileStat>,
    metadata: Metadata,
    parseDatetime: Option<string> -> Option<Time>,
    datetimeOf: string -> Option<Time>,
    parseGps: string -> Option<Coordinates>,
    parseDecimal: string -> Option<Decimal>,
    guessType: string -> Option<string>,
    limits: Limits)

  /** `metadata.get(key)`. */
  function Get(md: Metadata, key: string): Option<string> {
    if key in md then Some(md[key]) else None
  }

  /** `metadata.get(key, default)`. */
  function GetOr(md: Metadata, key: string, default: string): string {
    if key in md then md[key] else default
  }

  /** Python truthiness of an optional string: present and non-empty. */
  predicate Truthy(o: Option<string>) {
    o.Some? && o.value != ""
  }

  // ---------------------------------------------------------------------
  // Integrity of the store

  predicate KeysBelow<V>(m: map<Id, V>, bound: Id) {
    forall id :: id in m ==> id < bound
  }

  predicate UniquePaths(files: map<Id, PhotoFile>) {
    forall a, b :: a in files && b in files && files[a].path == files[b].path ==> a == b
  }

  predicate PhotoRefsOk(st: Store, p: Photo) {
    && (p.camera.Some? ==> p.camera.value in st.cameras)
    && (p.lens.Some? ==> p.lens.value in st.lenses)
  }

  /**
   * What the database's constraints guarantee: primary keys below the next
   * fresh key, every foreign key resolves, and no two files share a path.
   */
  predicate WellFormed(st: Store) {
    && KeysBelow(st.cameras, st.nextId) && KeysBelow(st.lenses, st.nextId)
    && KeysBelow(st.photos, st.nextId) && KeysBelow(st.files, st.nextId)
    && KeysBelow(st.tags, st.nextId) && KeysBelow(st.photoTags, st.nextId)
    && (forall f :: f in st.files ==> st.files[f].photo in st.photos)
    && (forall k :: k in st.photoTags ==> st.photoTags[k].photo in st.photos && st.photoTags[k].tag in st.tags)
    && (forall p :: p in st.photos ==> PhotoRefsOk(st, st.photos[p]))
    && UniquePaths(st.files)
  }

  /** The files bound to photo `p`. */
  function FilesOf(files: map<Id, PhotoFile>, p: Id): set<Id> {
    set f | f in files && files[f].photo == p
  }

  /** The file records whose path is `path`. */
  function FilesAt(files: map<Id, PhotoFile>, path: string): set<Id> {
    set f | f in files && files[f].path == path
  }

  predicate TagUsed(st: Store, t: Id) {
    exists k :: k in st.photoTags && st.photoTags[k].tag == t
  }

  predicate CameraUsed(st: Store, c: Id) {
    exists p :: p in st.photos && st.photos[p].camera == Some(c)
  }

  predicate LensUsed(st: Store, l: Id) {
    exists p :: p in st.photos && st.photos[p].lens == Some(l)
  }

  /** No tag without a photo-tag link, no camera or lens without a photo. */
  predicate OrphanFree(st: Store) {
    && (forall t :: t in st.tags ==> TagUsed(st, t))
    && (forall c :: c in st.cameras ==> CameraUsed(st, c))
    && (forall l :: l in st.lenses ==> LensUsed(st, l))
  }

  // ---------------------------------------------------------------------
  // Django's `Model.objects.get(...)`

  /** What `get` finds among the matching rows. */
  datatype Found = Absent | Unique(id: Id) | Several

  /**
   * `get` over the set of matching keys: DoesNotExist when there is none,
   * the row when there is exactly one, MultipleObjectsReturned otherwise.
   */
  ghost function GetOne(ids: set<Id>): (r: Found)
    ensures r.Absent? <==> ids == {}
    ensures r.Unique? <==> |ids| == 1
    ensures r.Unique? ==> ids == {r.id}
    ensures r.Several? <==> |ids| >= 2
  {
    if ids == {} then Absent
    else
      var id :| id in ids;
      if ids == {id} then Unique(id)
      else
        assert |ids| >= 2 by { TwoMembers(ids, id); }
        Several
  }

  lemma TwoMembers(ids: set<Id>, id: Id)
    requires id in ids && ids != {id}
    ensures |ids| >= 2
  {
    assert exists y :: y in ids && y != id;
    var y :| y in ids && y != id;
    var rest := ids - {id};
    assert y in rest;
    assert |rest| >= 1;
    assert ids == rest + {id};
  }

  /** The executable `get`: chooses the one row when there is exactly one. */
  method GetRow(ids: set<Id>) returns (r: Found)
    ensures r == GetOne(ids)
  {
    if ids == {} {
      r := Absent;
    } else {
      var id :| id in ids;
      if ids == {id} {
        r := Unique(id);
      } else {
        r := Several;
      }
    }
  }

  /** On a well-formed store, a lookup of a file by path never finds several. */
  lemma PathLookupNotSeveral(st: Store, path: string)
    requires UniquePaths(st.files)
    ensures !GetOne(FilesAt(st.files, path)).Several?
  {
    var ids := FilesAt(st.files, path);
    if ids != {} {
      var id :| id in ids;
      assert ids == {id};
    }
  }

  /** `PhotoFile.objects.get(path=path)`: the record at the path, if any. */
  ghost function Tracked(st: Store, path: string): (r: Option<Id>)
    requires UniquePaths(st.files)
    ensures r.None? <==> FilesAt(st.files, path) == {}
    ensures r.Some? ==> r.value in st.files && st.files[r.value].path == path
  {
    PathLookupNotSeveral(st, path);
    match GetOne(FilesAt(st.files, path))
    case Unique(f) => Some(f)
    case _ => None
  }

  /** On unique paths, the lookup finds exactly the file that has the path. */
  lemma TrackedIs(st: Store, path: string, f: Id)
    requires UniquePaths(st.files) && f in st.files && st.files[f].path == path
    ensures Tracked(st, path) == Some(f)
  {
    assert f in FilesAt(st.files, path);
  }

  /** The lenses with this name in any library; a missing name matches only a missing one (SQL `IS NULL`). */
  function LensesNamed(lenses: map<Id, Lens>, name: Option<string>): set<Id> {
    set l | l in lenses && lenses[l].name == name
  }

  /** The photos taken at this instant in any library; a missing instant matches only a missing one. */
  function PhotosTakenAt(photos: map<Id, Photo>, date: Option<Time>): set<Id> {
    set p | p in photos && photos[p].takenAt == date
  }

  // ---------------------------------------------------------------------
  // The observed date range of a camera or lens

  function Min(a: Time, b: Time): Time { if a <= b then a else b }
  function Max(a: Time, b: Time): Time { if a >= b then a else b }

  /**
   * `if date_taken < x.earliest_photo: ...; if date_taken > x.latest_photo: ...`,
   * each comparison raising when either side is None. Returns the new bounds
   * and, when a comparison raised, the error; bounds already updated by the
   * first comparison stay updated.
   */
  function ExtendBounds(b: Bounds, date: Option<Time>): (r: (Bounds, Option<Error>))
    ensures r.1.Some? <==> date.None? || b.earliest.None? || b.latest.None?
    ensures r.1.Some? ==> r.1 == Some(NoneComparison)
    ensures r.1.None? ==> r.0 == Bounds(Some(Min(b.earliest.value, date.value)), Some(Max(b.latest.value, date.value)))
  {
    if date.None? || b.earliest.None? then (b, Some(NoneComparison))
    else
      var b1 := if date.value < b.earliest.value then b.(earliest := date) else b;
      if b1.latest.None? then (b1, Some(NoneComparison))
      else if date.value > b1.latest.value then (b1.(latest := date), None)
      else (b1, None)
  }

  /** A well-ordered range, once extended by an instant, is well-ordered and covers it. */
  lemma ExtendBoundsCovers(b: Bounds, date: Time)
    requires b.earliest.Some? && b.latest.Some? && b.earliest.value <= b.latest.value
    ensures var (b', e) := ExtendBounds(b, Some(date));
            && e.None?
            && b'.earliest.value <= date <= b'.latest.value
            && b'.earliest.value <= b.earliest.value && b.latest.value <= b'.latest.value
  {
  }

  /**
   * Only cameras, lenses and the key counter changed, no camera or lens was
   * removed, and every key stays below the counter.
   */
  predicate CatalogGrown(st: Store, r: Store) {
    && r.photos == st.photos && r.files == st.files && r.tags == st.tags
    && r.photoTags == st.photoTags && r.tasks == st.tasks
    && st.nextId <= r.nextId
    && st.cameras.Keys <= r.cameras.Keys && st.lenses.Keys <= r.lenses.Keys
    && KeysBelow(r.cameras, r.nextId) && KeysBelow(r.lenses, r.nextId)
  }

  lemma CatalogGrownWellFormed(st: Store, r: Store)
    requires WellFormed(st) && CatalogGrown(st, r)
    ensures WellFormed(r)
  {
    forall p | p in r.photos ensures PhotoRefsOk(r, r.photos[p]) {
      assert PhotoRefsOk(st, st.photos[p]);
    }
  }

  /** Camera `c` with its range extended by the instant; a raised comparison keeps what it updated. */
  function CameraExtended(st: Store, c: Id, date: Option<Time>): (r: Outcome<Option<Id>>)
    requires c in st.cameras && KeysBelow(st.cameras, st.nextId) && KeysBelow(st.lenses, st.nextId)
    ensures CatalogGrown(st, r.st) && r.st.lenses == st.lenses && r.st.cameras.Keys == st.cameras.Keys
    ensures r.result.Ok? ==> r.result == Ok(Some(c))
    ensures r.st.cameras == st.cameras[c := st.cameras[c].(bounds := ExtendBounds(st.cameras[c].bounds, date).0)]
    ensures r.result.Err? <==> ExtendBounds(st.cameras[c].bounds, date).1.Some?
  {
    var (b, e) := ExtendBounds(st.cameras[c].bounds, date);
    var st' := st.(cameras := st.cameras[c := st.cameras[c].(bounds := b)]);
    if e.Some? then Outcome(st', Err(e.value)) else Outcome(st', Ok(Some(c)))
  }

  /** Lens `l` with its range extended by the instant; a raised comparison keeps what it updated. */
  function LensExtended(st: Store, l: Id, date: Option<Time>): (r: Outcome<Option<Id>>)
    requires l in st.lenses && KeysBelow(st.cameras, st.nextId) && KeysBelow(st.lenses, st.nextId)
    ensures CatalogGrown(st, r.st) && r.st.cameras == st.cameras && r.st.lenses.Keys == st.lenses.Keys
    ensures r.result.Ok? ==> r.result == Ok(Some(l))
    ensures r.st.lenses == st.lenses[l := st.lenses[l].(bounds := ExtendBounds(st.lenses[l].bounds, date).0)]
    ensures r.result.Err? <==> ExtendBounds(st.lenses[l].bounds, date).1.Some?
  {
    var (b, e) := ExtendBounds(st.lenses[l].bounds, date);
    var st' := st.(lenses := st.lenses[l := st.lenses[l].(bounds := b)]);
    if e.Some? then Outcome(st', Err(e.value)) else Outcome(st', Ok(Some(l)))
  }

  /** `photo.save()` of a new photo: it is stored under the fresh key. */
  function PhotoInserted(st: Store, photo: Photo): (r: Store)
    ensures st.nextId in r.photos && r.photos[st.nextId] == photo
    ensures forall p :: p != st.nextId ==> (p in r.photos <==> p in st.photos)
    ensures forall p :: p in st.photos && p != st.nextId ==> r.photos[p] == st.photos[p]
    ensures r.nextId == st.nextId + 1 && r.tags == st.tags && r.photoTags == st.photoTags
    ensures r.cameras == st.cameras && r.lenses == st.lenses && r.files == st.files && r.tasks == st.tasks
  {
    st.(photos := st.photos[st.nextId := photo], nextId := st.nextId + 1)
  }

  /** The database as a mutable object: one field per table. */
  class Catalog {
    var cameras: map<Id, Camera>
    var lenses: map<Id, Lens>
    var photos: map<Id, Photo>
    var files: map<Id, PhotoFile>
    var tags: map<Id, Tag>
    var photoTags: map<Id, PhotoTag>
    var tasks: seq<Task>
    var nextId: Id

    /** The tables as a value. */
    function Snapshot(): Store
      reads this
    {
      Store(cameras, lenses, photos, files, tags, photoTags, tasks, nextId)
    }

    ghost predicate Valid()
      reads this
    {
      WellFormed(Snapshot())
    }

    /** An empty database. */
    constructor ()
      ensures Valid()
      ensures Snapshot() == Store(map[], map[], map[], map[], map[], map[], [], 0)
    {
      cameras, lenses, photos, files := map[], map[], map[], map[];
      tags, photoTags, tasks, nextId := map[], map[], [], 0;
    }
  }

  /** `PhotoFile.objects.get(path=path)`. */
  method FindFile(db: Catalog, path: string) returns (tracked: Option<Id>)
    requires db.Valid()
    ensures tracked == Tracked(db.Snapshot(), path)
  {
    PathLookupNotSeveral(db.Snapshot(), path);
    var found := GetRow(set f | f in db.files && db.files[f].path == path);
    tracked := if found.Unique? then Some(found.id) else None;
  }

  /**
   * `if date_taken < camera.earliest_photo: ...; save()` then the same for
   * the latest instant: each comparison raises on a None on either side,
   * and an update saved before a raise stays saved.
   */
  method ExtendCamera(db: Catalog, c: Id, date: Option<Time>) returns (r: Result<Option<Id>, Error>)
    requires c in db.cameras && KeysBelow(db.cameras, db.nextId) && KeysBelow(db.lenses, db.nextId)
    modifies db`cameras
    ensures Outcome(db.Snapshot(), r) == CameraExtended(old(db.Snapshot()), c, date)
  {
    var camera := db.cameras[c];
    if date.None? || camera.bounds.earliest.None? {
      db.cameras := db.cameras[c := camera];
      return Err(NoneComparison);
    }
    if date.value < camera.bounds.earliest.value {
      camera := camera.(bounds := camera.bounds.(earliest := date));
      db.cameras := db.cameras[c := camera];
    }
    if camera.bounds.latest.None? {
      db.cameras := db.cameras[c := camera];
      return Err(NoneComparison);
    }
    if date.value > camera.bounds.latest.value {
      camera := camera.(bounds := camera.bounds.(latest := date));
    }
    db.cameras := db.cameras[c := camera];
    return Ok(Some(c));
  }

  /**
   * `if date_taken < lens.earliest_photo: ...; save()` then the same for
   * the latest instant: each comparison raises on a None on either side,
   * and an update saved before a raise stays saved.
   */
  method ExtendLens(db: Catalog, l: Id, date: Option<Time>) returns (r: Result<Option<Id>, Error>)
    requires l in db.lenses && KeysBelow(db.cameras, db.nextId) && KeysBelow(db.lenses, db.nextId)
    modifies db`lenses
    ensures Outcome(db.Snapshot(), r) == LensExtended(old(db.Snapshot()), l, date)
  {
    var lens := db.lenses[l];
    if date.None? || lens.bounds.earliest.None? {
      db.lenses := db.lenses[l := lens];
      return Err(NoneComparison);
    }
    if date.value < lens.bounds.earliest.value {
      lens := lens.(bounds := lens.bounds.(earliest := date));
      db.lenses := db.lenses[l := lens];
    }
    if lens.bounds.latest.None? {
      db.lenses := db.lenses[l := lens];
      return Err(NoneComparison);
    }
    if date.value > lens.bounds.latest.value {
      lens := lens.(bounds := lens.bounds.(latest := date));
    }
    db.lenses := db.lenses[l := lens];
    return Ok(Some(l));
  }
}
