/**
 * `record_photo(path)` of frontend-web/photos/utils/db.py, the earlier
 * version of the ingestion step, over the same tables. It knows no delete
 * event, library, tag, sweep or task. An unchanged file is left alone.
 * Otherwise a camera and a lens are found or created whatever the metadata
 * holds, the photo taken at `get_datetime(path)` is matched or created with
 * unguarded parses, and the file record is written.
 *
 * As for the newer version, each step is a ghost function on `Store` values
 * and a method on the `Catalog` proved equal to it.
 */
module LegacyDb {
  import opened Wrappers
  import opened Text
  import opened Records
  import PhotonixRules

  // ---------------------------------------------------------------------
  // Value rules (lines 25-29 and 61-76)

  /**
   * Lines 26-28: the "Camera Model Name" value; when it is non-empty, every
   * occurrence of the make is removed and whitespace stripped. With no make
   * at all, `replace(None, '')` raises.
   */
  function CameraModel(md: Metadata): (r: Result<Option<string>, Error>)
    ensures r.Err? <==> Truthy(Get(md, "Camera Model Name")) && "Make" !in md
    ensures r.Err? ==> r.error == ReplaceWithNone
    ensures !Truthy(Get(md, "Camera Model Name")) ==> r == Ok(Get(md, "Camera Model Name"))
    ensures r.Ok? && Truthy(Get(md, "Camera Model Name")) ==>
              var raw := md["Camera Model Name"];
              && r.value.Some?
              && (r.value.value == [] <==> AllSpace(RemoveAll(raw, md["Make"])))
              && (r.value.value != [] ==> !IsSpace(r.value.value[0]) && !IsSpace(r.value.value[|r.value.value| - 1]))
              && (!Contains(raw, md["Make"]) ==> r.value.value == Strip(raw))
    ensures Truthy(Get(md, "Camera Model Name")) && "Make" in md ==>
              r == Ok(Some(Strip(RemoveAll(md["Camera Model Name"], md["Make"]))))
  {
    var model := Get(md, "Camera Model Name");
    if !Truthy(model) then Ok(model)
    else if "Make" !in md then Err(ReplaceWithNone)
    else
      var raw := model.value;
      var make := md["Make"];
      assert !Contains(raw, make) ==> RemoveAll(raw, make) == raw by {
        if !Contains(raw, make) {
          RemoveAllAbsent(raw, make);
        }
      }
      Ok(Some(Strip(RemoveAll(raw, make))))
  }
  /**
   * A model name that begins with the make and does not repeat it
   * ("Canon EOS 5D" with make "Canon"): the model is what follows the
   * make, stripped.
   */
  lemma CameraModelDropsMake(md: Metadata, rest: string)
    requires "Make" in md && md["Make"] != [] && "Camera Model Name" in md
    requires md["Camera Model Name"] == md["Make"] + rest && !Contains(rest, md["Make"])
    ensures CameraModel(md) == Ok(Some(Strip(rest)))
  {
    RemoveAllLeading(md["Make"], rest);
    RemoveAllAbsent(rest, md["Make"]);
  }


  /**
   * Line 64: `Decimal(metadata.get('Aperture'))`, raising on a missing or
   * malformed value; an infinity or NaN is kept.
   */
  function ApertureValue(md: Metadata, parseDecimal: string -> Option<Decimal>): (r: Result<Decimal, Error>)
    ensures r.Ok? <==> "Aperture" in md && parseDecimal(md["Aperture"]).Some?
    ensures r.Ok? ==> Some(r.value) == parseDecimal(md["Aperture"])
    ensures r.Err? ==> r.error == InvalidDecimal
  {
    if "Aperture" !in md then Err(InvalidDecimal)
    else
      match parseDecimal(md["Aperture"])
      case None => Err(InvalidDecimal)
      case Some(d) => Ok(d)
  }

  /** Line 66: `int(metadata.get('ISO'))`; a missing value, like a malformed one, raises. */
  function IsoValue(md: Metadata): (r: Result<int, Error>)
    ensures r.Err? ==> r.error == InvalidInt
    ensures "ISO" !in md ==> r.Err?
  {
    if "ISO" !in md then Err(InvalidInt)
    else
      match ParseInt(md["ISO"])
      case None => Err(InvalidInt)
      case Some(v) => Ok(v)
  }

  /** A plain run of decimal digits reads as its value; a value without a digit raises. */
  lemma IsoValueDigits(md: Metadata)
    requires "ISO" in md
    ensures md["ISO"] != [] && AllDigits(md["ISO"]) ==> IsoValue(md) == Ok(DigitsValue(md["ISO"]))
    ensures (forall k :: 0 <= k < |md["ISO"]| ==> !IsDigit(md["ISO"][k])) ==> IsoValue(md).Err?
  {
    var iso := md["ISO"];
    if iso != [] && AllDigits(iso) {
      ParseIntDigits(iso);
    }
    if forall k :: 0 <= k < |iso| ==> !IsDigit(iso[k]) {
      ParseIntNeedsDigit(iso);
    }
  }

  /**
   * Line 67: the "Focal Length" value up to its first space; a missing value
   * raises on `.split`.
   */
  function FocalLengthValue(md: Metadata): (r: Result<string, Error>)
    ensures r.Err? <==> "Focal Length" !in md
    ensures r.Err? ==> r.error == NoneAttribute
    ensures r.Ok? ==> var fl := md["Focal Length"];
              && ' ' !in r.value && StartsWith(fl, r.value)
              && (|r.value| < |fl| ==> fl[|r.value|] == ' ')
  {
    if "Focal Length" !in md then Err(NoneAttribute) else Ok(BeforeFirst(md["Focal Length"], ' '))
  }

  /**
   * Line 68: whether the lower-cased "Flash" value holds "on"; a missing
   * value raises on `.lower`.
   */
  function FlashValue(md: Metadata): (r: Result<bool, Error>)
    ensures r.Err? <==> "Flash" !in md
    ensures r.Err? ==> r.error == NoneAttribute
  {
    if "Flash" !in md then Err(NoneAttribute) else Ok(Contains(Lower(md["Flash"]), "on"))
  }

  /** The flash is on exactly when its description holds "on" in any letter case. */
  lemma FlashValueOn(md: Metadata)
    requires "Flash" in md
    ensures FlashValue(md).Ok?
    ensures FlashValue(md).value <==> exists k :: 0 <= k < |md["Flash"]| - 1 &&
                                        LowerChar(md["Flash"][k]) == 'o' && LowerChar(md["Flash"][k + 1]) == 'n'
  {
    ContainsOnLower(md["Flash"]);
  }

  /** Line 74: `gps and parse_gps_location(gps) or None`. */
  function Location(md: Metadata, parseGps: string -> Option<Coordinates>): Option<Coordinates> {
    if Truthy(Get(md, "GPS Position")) then parseGps(md["GPS Position"]) else None
  }

  /**
   * Lines 61-76: the new photo, but for its camera and lens, which are the
   * rows found before. The keyword arguments are evaluated in order, so of
   * a missing or malformed aperture, a missing or non-numeric ISO, a
   * missing focal length and a missing flash, the first one raises.
   */
  function NewPhoto(path: string, env: Env): (r: Result<Photo, Error>)
    ensures var md := env.metadata;
            r.Err? <==> ApertureValue(md, env.parseDecimal).Err? || IsoValue(md).Err? ||
                        FocalLengthValue(md).Err? || FlashValue(md).Err?
    ensures var md := env.metadata;
            r.Err? ==> r.error == if ApertureValue(md, env.parseDecimal).Err? then InvalidDecimal
                                  else if IsoValue(md).Err? then InvalidInt
                                  else NoneAttribute
    ensures var md := env.metadata;
            r.Ok? ==> && r.value.library.None? && r.value.takenAt == env.datetimeOf(path)
                      && r.value.takenBy == Some(GetOr(md, "Artist", ""))
                      && r.value.aperture == Some(ApertureValue(md, env.parseDecimal).value)
                      && r.value.isoSpeed == Some(IsoValue(md).value)
                      && r.value.focalLength == Some(FocalLengthValue(md).value)
                      && r.value.flash == FlashValue(md).value
  {
    var md := env.metadata;
    var aperture := ApertureValue(md, env.parseDecimal);
    var iso := IsoValue(md);
    var focal := FocalLengthValue(md);
    var flash := FlashValue(md);
    if aperture.Err? then Err(aperture.error)
    else if iso.Err? then Err(iso.error)
    else if focal.Err? then Err(focal.error)
    else if flash.Err? then Err(flash.error)
    else
      Ok(Photo(
        library := None,
        takenAt := env.datetimeOf(path),
        takenBy := Some(GetOr(md, "Artist", "")),
        aperture := Some(aperture.value),
        exposure := Get(md, "Exposure Time"),
        isoSpeed := Some(iso.value),
        focalLength := Some(focal.value),
        flash := flash.value,
        meteringMode := Get(md, "Metering Mode"),
        driveMode := Get(md, "Drive Mode"),
        shootingMode := Get(md, "Shooting Mode"),
        camera := None,
        lens := None,
        location := Location(md, env.parseGps),
        altitude := PhotonixRules.Altitude(md),
        starRating := None))
  }

  // ---------------------------------------------------------------------
  // Cameras, lenses and photos (lines 31-77)

  /** The cameras of any library with this make and model; a missing value matches only a missing one. */
  function CamerasWith(cameras: map<Id, Camera>, make: Option<string>, model: Option<string>): set<Id> {
    set c | c in cameras && cameras[c].make == make && cameras[c].model == model
  }

  /**
   * Lines 31-41: the camera with this make and model has its range
   * extended by the instant, or a camera without a library is created
   * whose range is the instant alone.
   */
  ghost function CameraResolved(st: Store, make: Option<string>, model: Option<string>, date: Option<Time>): (r: Outcome<Option<Id>>)
    requires KeysBelow(st.cameras, st.nextId) && KeysBelow(st.lenses, st.nextId)
    ensures CatalogGrown(st, r.st) && r.st.lenses == st.lenses
    ensures r.result.Ok? ==> r.result.value.Some? && r.result.value.value in r.st.cameras
  {
    match GetOne(CamerasWith(st.cameras, make, model))
    case Several => Outcome(st, Err(MultipleObjectsReturned))
    case Unique(c) => CameraExtended(st, c, date)
    case Absent =>
      var c := st.nextId;
      Outcome(st.(cameras := st.cameras[c := Camera(None, make, model, Bounds(date, date))], nextId := c + 1), Ok(Some(c)))
  }

  /**
   * The camera rule of the older version: a camera is always linked, even
   * with no make or model; a new camera's range is the instant alone; an
   * existing camera's range becomes (min, max) of the old range and the
   * instant, and nothing but its range changes.
   */
  lemma CameraResolvedSpec(st: Store, make: Option<string>, model: Option<string>, date: Option<Time>)
    requires KeysBelow(st.cameras, st.nextId) && KeysBelow(st.lenses, st.nextId)
    ensures var r := CameraResolved(st, make, model, date);
            && (CamerasWith(st.cameras, make, model) == {} ==>
                  && r.result == Ok(Some(st.nextId)) && st.nextId !in st.cameras
                  && r.st.cameras == st.cameras[st.nextId := Camera(None, make, model, Bounds(date, date))])
            && (|CamerasWith(st.cameras, make, model)| >= 2 ==> r == Outcome(st, Err(MultipleObjectsReturned)))
            && (forall c :: CamerasWith(st.cameras, make, model) == {c} ==>
                  var prior := st.cameras[c].bounds;
                  && r.st.cameras == st.cameras[c := st.cameras[c].(bounds := ExtendBounds(prior, date).0)]
                  && (r.result.Ok? <==> date.Some? && prior.earliest.Some? && prior.latest.Some?)
                  && (r.result.Ok? ==>
                        && r.result == Ok(Some(c))
                        && r.st.cameras[c].bounds == Bounds(Some(Min(prior.earliest.value, date.value)), Some(Max(prior.latest.value, date.value)))))
  {
    var ids := CamerasWith(st.cameras, make, model);
    forall c | ids == {c}
      ensures CameraResolved(st, make, model, date) == CameraExtended(st, c, date)
    {
      assert GetOne(ids) == Unique(c);
    }
  }

  /**
   * Lines 43-55: the lens named by "Lens ID", in any library, has its range
   * extended by the instant, or a lens without a library is created whose
   * range is the instant alone.
   */
  ghost function LensResolved(st: Store, name: Option<string>, date: Option<Time>): (r: Outcome<Option<Id>>)
    requires KeysBelow(st.cameras, st.nextId) && KeysBelow(st.lenses, st.nextId)
    ensures CatalogGrown(st, r.st) && r.st.cameras == st.cameras
    ensures r.result.Ok? ==> r.result.value.Some? && r.result.value.value in r.st.lenses
  {
    match GetOne(LensesNamed(st.lenses, name))
    case Several => Outcome(st, Err(MultipleObjectsReturned))
    case Unique(l) => LensExtended(st, l, date)
    case Absent =>
      var l := st.nextId;
      Outcome(st.(lenses := st.lenses[l := Lens(None, name, Bounds(date, date))], nextId := l + 1), Ok(Some(l)))
  }

  /**
   * The lens rule of the older version: a lens is always linked, even with
   * no name; the lens of that name has its range extended to (min, max)
   * with the instant, otherwise a lens is created with the instant as its
   * range.
   */
  lemma LensResolvedSpec(st: Store, name: Option<string>, date: Option<Time>)
    requires KeysBelow(st.cameras, st.nextId) && KeysBelow(st.lenses, st.nextId)
    ensures var r := LensResolved(st, name, date);
            && (LensesNamed(st.lenses, name) == {} ==>
                  && r.result == Ok(Some(st.nextId)) && st.nextId !in st.lenses
                  && r.st.lenses == st.lenses[st.nextId := Lens(None, name, Bounds(date, date))])
            && (|LensesNamed(st.lenses, name)| >= 2 ==> r == Outcome(st, Err(MultipleObjectsReturned)))
            && (forall l :: LensesNamed(st.lenses, name) == {l} ==>
                  var prior := st.lenses[l].bounds;
                  && r.st.lenses == st.lenses[l := st.lenses[l].(bounds := ExtendBounds(prior, date).0)]
                  && (r.result.Ok? <==> date.Some? && prior.earliest.Some? && prior.latest.Some?)
                  && (r.result.Ok? ==>
                        && r.result == Ok(Some(l))
                        && r.st.lenses[l].bounds == Bounds(Some(Min(prior.earliest.value, date.value)), Some(Max(prior.latest.value, date.value)))))
  {
    var ids := LensesNamed(st.lenses, name);
    forall l | ids == {l}
      ensures LensResolved(st, name, date) == LensExtended(st, l, date)
    {
      assert GetOne(ids) == Unique(l);
    }
  }

  /**
   * Lines 57-77: the photo taken at that instant, in any library, or else
   * the new photo `made`, linked to the camera and lens, saved under the
   * fresh key; `made` is the row `Photo(...)` builds or the error building
   * it raises, which only matters when no photo matched.
   */
  ghost function PhotoResolved(st: Store, takenAt: Option<Time>, made: Result<Photo, Error>, camera: Option<Id>, lens: Option<Id>): (r: Outcome<Id>)
    requires KeysBelow(st.photos, st.nextId)
    requires made.Ok? ==> made.value.takenAt == takenAt
    ensures r.st.cameras == st.cameras && r.st.lenses == st.lenses && r.st.files == st.files
    ensures r.st.tags == st.tags && r.st.photoTags == st.photoTags && r.st.tasks == st.tasks
    ensures st.nextId <= r.st.nextId
    ensures forall p :: p in st.photos ==> p in r.st.photos && r.st.photos[p] == st.photos[p]
    ensures r.st.photos == st.photos || (st.nextId in r.st.photos && r.st.photos == st.photos[st.nextId := r.st.photos[st.nextId]])
    ensures r.result.Ok? ==> r.result.value in r.st.photos && r.st.photos[r.result.value].takenAt == takenAt
  {
    match GetOne(PhotosTakenAt(st.photos, takenAt))
    case Several => Outcome(st, Err(MultipleObjectsReturned))
    case Unique(p) => Outcome(st, Ok(p))
    case Absent =>
      match made
      case Err(e) => Outcome(st, Err(e))
      case Ok(photo) => Outcome(PhotoInserted(st, photo.(camera := camera, lens := lens)), Ok(st.nextId))
  }

  /**
   * A photo already taken at the instant is reused and no photo is
   * created; otherwise exactly one photo, `made` with the camera and lens,
   * is added under the fresh key, or the error building it raised is
   * reported and nothing changes.
   */
  lemma PhotoResolvedSpec(st: Store, takenAt: Option<Time>, made: Result<Photo, Error>, camera: Option<Id>, lens: Option<Id>)
    requires KeysBelow(st.photos, st.nextId)
    requires made.Ok? ==> made.value.takenAt == takenAt
    ensures var r := PhotoResolved(st, takenAt, made, camera, lens);
            && (forall p :: PhotosTakenAt(st.photos, takenAt) == {p} ==> r == Outcome(st, Ok(p)))
            && (PhotosTakenAt(st.photos, takenAt) == {} ==>
                  && (made.Err? ==> r == Outcome(st, Err(made.error)))
                  && (made.Ok? ==>
                        && st.nextId !in st.photos
                        && r.result == Ok(st.nextId)
                        && r.st.photos == st.photos[st.nextId := made.value.(camera := camera, lens := lens)]))
  {
    var ids := PhotosTakenAt(st.photos, takenAt);
    forall p | ids == {p} ensures PhotoResolved(st, takenAt, made, camera, lens) == Outcome(st, Ok(p)) {
      assert GetOne(ids) == Unique(p);
    }
  }

  // ---------------------------------------------------------------------
  // The file record (lines 79-87)

  /** Lines 79-86: the fields the file record is given. */
  function FileRecord(pid: Id, path: string, env: Env): (r: PhotoFile)
    requires path in env.fs
    ensures r.photo == pid && r.path == path && r.modifiedAt == Some(env.fs[path].mtime)
    ensures r.width == Get(env.metadata, "Image Width") && r.height == Get(env.metadata, "Image Height")
    ensures r.mimetype == env.guessType(path) && r.bytes == env.fs[path].size && !r.preferred
  {
    PhotoFile(pid, path, Get(env.metadata, "Image Width"), Get(env.metadata, "Image Height"),
              env.guessType(path), Some(env.fs[path].mtime), env.fs[path].size, false)
  }

  /** Line 87: `photo_file.save()`, an update of the path's record or an insert under the fresh key. */
  function FileWritten(st: Store, tracked: Option<Id>, rec: PhotoFile): (r: Store)
    requires tracked.Some? ==> tracked.value in st.files
    ensures r.photos == st.photos && r.cameras == st.cameras && r.lenses == st.lenses
    ensures r.tags == st.tags && r.photoTags == st.photoTags && r.tasks == st.tasks
  {
    match tracked
    case Some(f) => st.(files := st.files[f := rec])
    case None => st.(files := st.files[st.nextId := rec], nextId := st.nextId + 1)
  }

  // ---------------------------------------------------------------------
  // The whole call

  /**
   * What `record_photo` computes from the file rather than the tables: the
   * make (line 25), the cleaned model or the error cleaning it raises
   * (lines 26-28), the instant for the camera and lens ranges (line 29),
   * the lens name (line 43), the instant photos are matched on (line 59),
   * and the new photo or the error building it raises (lines 61-76). Each
   * error is held as a value and raised only where the source evaluates it.
   */
  datatype Readings = Readings(
    make: Option<string>,
    model: Result<Option<string>, Error>,
    date: Option<Time>,
    lensName: Option<string>,
    takenAt: Option<Time>,
    made: Result<Photo, Error>)

  /** A new photo is taken at the instant photos are matched on. */
  predicate Coherent(rd: Readings) {
    rd.made.Ok? ==> rd.made.value.takenAt == rd.takenAt
  }

  /** The readings of one file. */
  function Read(path: string, env: Env): (rd: Readings)
    ensures Coherent(rd)
    ensures rd.takenAt == env.datetimeOf(path) && rd.made == NewPhoto(path, env)
  {
    var md := env.metadata;
    Readings(Get(md, "Make"), CameraModel(md), env.parseDatetime(Get(md, "Date/Time Original")),
             Get(md, "Lens ID"), env.datetimeOf(path), NewPhoto(path, env))
  }

  /** `record_photo(path)`. */
  ghost function Recorded(st: Store, path: string, env: Env): Outcome<bool>
    requires WellFormed(st)
  {
    if path !in env.fs then Outcome(st, Err(FileNotFound))
    else
      var tracked := Tracked(st, path);
      if tracked.Some? && st.files[tracked.value].modifiedAt == Some(env.fs[path].mtime) then Outcome(st, Ok(false))
      else Registered(st, path, env, tracked, Read(path, env))
  }

  /** Lines 23-89, once the file is known to have changed. */
  ghost function Registered(st: Store, path: string, env: Env, tracked: Option<Id>, rd: Readings): Outcome<bool>
    requires WellFormed(st) && path in env.fs && Coherent(rd)
    requires tracked.Some? ==> tracked.value in st.files
  {
    match rd.model
    case Err(e) => Outcome(st, Err(e))
    case Ok(model) =>
      var cam := CameraResolved(st, rd.make, model, rd.date);
      if cam.result.Err? then Outcome(cam.st, Err(cam.result.error))
      else
        var lens := LensResolved(cam.st, rd.lensName, rd.date);
        if lens.result.Err? then Outcome(lens.st, Err(lens.result.error))
        else
          var ph := PhotoResolved(lens.st, rd.takenAt, rd.made, cam.result.value, lens.result.value);
          if ph.result.Err? then Outcome(ph.st, Err(ph.result.error))
          else Outcome(FileWritten(ph.st, tracked, FileRecord(ph.result.value, path, env)), Ok(true))
  }

  // ---------------------------------------------------------------------
  // Properties of a registration

  lemma RegisteredWellFormed(st: Store, path: string, env: Env, tracked: Option<Id>, rd: Readings)
    requires WellFormed(st) && path in env.fs && Coherent(rd) && tracked == Tracked(st, path)
    ensures WellFormed(Registered(st, path, env, tracked, rd).st)
  {
    var r := Registered(st, path, env, tracked, rd);
    if rd.model.Ok? {
      var cam := CameraResolved(st, rd.make, rd.model.value, rd.date);
      CatalogGrownWellFormed(st, cam.st);
      if cam.result.Ok? {
        var lens := LensResolved(cam.st, rd.lensName, rd.date);
        CatalogGrownWellFormed(cam.st, lens.st);
        if lens.result.Ok? {
          var ph := PhotoResolved(lens.st, rd.takenAt, rd.made, cam.result.value, lens.result.value);
          PhotoResolvedWellFormed(lens.st, rd.takenAt, rd.made, cam.result.value, lens.result.value);
          if ph.result.Ok? {
            assert r.st == FileWritten(ph.st, tracked, FileRecord(ph.result.value, path, env));
            FileWrittenWellFormed(ph.st, tracked, FileRecord(ph.result.value, path, env));
          } else {
            assert r.st == ph.st;
          }
        } else {
          assert r.st == lens.st;
        }
      } else {
        assert r.st == cam.st;
      }
    }
  }

  lemma PhotoResolvedWellFormed(st: Store, takenAt: Option<Time>, made: Result<Photo, Error>, camera: Option<Id>, lens: Option<Id>)
    requires WellFormed(st)
    requires made.Ok? ==> made.value.takenAt == takenAt
    requires camera.Some? ==> camera.value in st.cameras
    requires lens.Some? ==> lens.value in st.lenses
    ensures WellFormed(PhotoResolved(st, takenAt, made, camera, lens).st)
  {
    var r := PhotoResolved(st, takenAt, made, camera, lens);
    forall p | p in r.st.photos ensures PhotoRefsOk(r.st, r.st.photos[p]) {
      if p in st.photos {
        assert PhotoRefsOk(st, st.photos[p]);
      }
    }
  }

  lemma FileWrittenWellFormed(st: Store, tracked: Option<Id>, rec: PhotoFile)
    requires WellFormed(st) && rec.photo in st.photos
    requires tracked.Some? ==> tracked.value in st.files && st.files[tracked.value].path == rec.path
    requires tracked.None? ==> FilesAt(st.files, rec.path) == {}
    ensures WellFormed(FileWritten(st, tracked, rec))
  {
    var r := FileWritten(st, tracked, rec);
    forall p | p in r.photos ensures PhotoRefsOk(r, r.photos[p]) {
      assert PhotoRefsOk(st, st.photos[p]);
    }
    forall a, b | a in r.files && b in r.files && r.files[a].path == r.files[b].path ensures a == b {
      if a in st.files && st.files[a].path == rec.path { assert a in FilesAt(st.files, rec.path); }
      if b in st.files && st.files[b].path == rec.path { assert b in FilesAt(st.files, rec.path); }
    }
  }

  /** What a successful registration leaves: the settled photo, then the written record. */
  lemma RegisteredStages(st: Store, path: string, env: Env, tracked: Option<Id>, rd: Readings)
    returns (mid: Store, pid: Id)
    requires WellFormed(st) && path in env.fs && Coherent(rd)
    requires tracked.Some? ==> tracked.value in st.files
    requires Registered(st, path, env, tracked, rd).result.Ok?
    ensures mid.files == st.files && mid.tags == st.tags && mid.photoTags == st.photoTags && mid.tasks == st.tasks
    ensures Registered(st, path, env, tracked, rd) == Outcome(FileWritten(mid, tracked, FileRecord(pid, path, env)), Ok(true))
    ensures st.nextId <= mid.nextId && KeysBelow(mid.files, mid.nextId)
    ensures forall p :: p in st.photos ==> p in mid.photos && mid.photos[p] == st.photos[p]
    ensures pid in mid.photos && mid.photos[pid].takenAt == rd.takenAt
    ensures var ids := PhotosTakenAt(st.photos, rd.takenAt);
            && (forall p :: ids == {p} ==> pid == p && mid.photos == st.photos)
            && (ids == {} ==>
                  && rd.made.Ok? && pid !in st.photos && mid.photos == st.photos[pid := mid.photos[pid]]
                  && mid.photos[pid].camera.Some? && mid.photos[pid].lens.Some?
                  && mid.photos[pid] == rd.made.value.(camera := mid.photos[pid].camera, lens := mid.photos[pid].lens))
  {
    var cam := CameraResolved(st, rd.make, rd.model.value, rd.date);
    var lens := LensResolved(cam.st, rd.lensName, rd.date);
    var ph := PhotoResolved(lens.st, rd.takenAt, rd.made, cam.result.value, lens.result.value);
    assert lens.st.photos == st.photos;
    PhotoResolvedSpec(lens.st, rd.takenAt, rd.made, cam.result.value, lens.result.value);
    mid, pid := ph.st, ph.result.value;
  }

  /** The key `FileWritten` writes to: the tracked record, or a key no record of `st` used. */
  lemma FileWrittenAt(st: Store, mid: Store, tracked: Option<Id>, rec: PhotoFile) returns (k: Id)
    requires UniquePaths(st.files) && KeysBelow(st.files, st.nextId) && st.nextId <= mid.nextId && mid.files == st.files
    requires tracked == Tracked(st, rec.path)
    ensures var files := FileWritten(mid, tracked, rec).files;
            && k in files && files == st.files[k := rec]
            && (forall f :: f in st.files && st.files[f].path == rec.path ==> f == k)
            && (FilesAt(st.files, rec.path) == {} ==> k !in st.files)
  {
    k := if tracked.Some? then tracked.value else mid.nextId;
    forall f | f in st.files && st.files[f].path == rec.path ensures f == k {
      TrackedIs(st, rec.path, f);
    }
  }

  /** After a write, the only record at the written path is the written one. */
  lemma FileWrittenBinds(st: Store, tracked: Option<Id>, rec: PhotoFile)
    requires KeysBelow(st.files, st.nextId) && UniquePaths(st.files)
    requires tracked.Some? ==> tracked.value in st.files && st.files[tracked.value].path == rec.path
    requires tracked.None? ==> FilesAt(st.files, rec.path) == {}
    ensures forall k :: k in FileWritten(st, tracked, rec).files && FileWritten(st, tracked, rec).files[k].path == rec.path ==>
              FileWritten(st, tracked, rec).files[k] == rec
  {
    var files := FileWritten(st, tracked, rec).files;
    forall k | k in files && files[k].path == rec.path ensures files[k] == rec {
      if tracked.Some? {
        assert k == tracked.value;
      } else {
        assert k !in FilesAt(st.files, rec.path);
      }
    }
  }

  /**
   * A registration that succeeds returns `True`; the path's record (the
   * existing one, or one under a key not used before) then holds the
   * file's attributes and is bound to a photo taken at the matching
   * instant, no other record and no existing photo changes, and tags and
   * tasks are untouched.
   */
  lemma RegisteredWritesFile(st: Store, path: string, env: Env, tracked: Option<Id>, rd: Readings)
    requires WellFormed(st) && path in env.fs && Coherent(rd) && tracked == Tracked(st, path)
    ensures var r := Registered(st, path, env, tracked, rd);
            r.result.Ok? ==>
              && r.result == Ok(true)
              && r.st.tags == st.tags && r.st.photoTags == st.photoTags && r.st.tasks == st.tasks
              && (forall p :: p in st.photos ==> p in r.st.photos && r.st.photos[p] == st.photos[p])
              && exists k ::
                   && k in r.st.files
                   && (forall f :: f in st.files && st.files[f].path == path ==> f == k)
                   && (FilesAt(st.files, path) == {} ==> k !in st.files)
                   && r.st.files == st.files[k := r.st.files[k]]
                   && r.st.files[k] == FileRecord(r.st.files[k].photo, path, env)
                   && r.st.files[k].photo in r.st.photos
                   && r.st.photos[r.st.files[k].photo].takenAt == rd.takenAt
  {
    var r := Registered(st, path, env, tracked, rd);
    if r.result.Ok? {
      var mid, pid := RegisteredStages(st, path, env, tracked, rd);
      var k := FileWrittenAt(st, mid, tracked, FileRecord(pid, path, env));
      assert r.st == FileWritten(mid, tracked, FileRecord(pid, path, env));
    }
  }

  /**
   * When a photo taken at the matching instant exists, a successful
   * registration creates no photo and binds the path's record to it.
   */
  lemma RegisteredMatchedPhoto(st: Store, path: string, env: Env, tracked: Option<Id>, rd: Readings, p: Id)
    requires WellFormed(st) && path in env.fs && Coherent(rd) && tracked == Tracked(st, path)
    requires PhotosTakenAt(st.photos, rd.takenAt) == {p}
    ensures var r := Registered(st, path, env, tracked, rd);
            r.result.Ok? ==>
              && r.st.photos == st.photos
              && forall k :: k in r.st.files && r.st.files[k].path == path ==> r.st.files[k].photo == p
  {
    if Registered(st, path, env, tracked, rd).result.Ok? {
      var mid, pid := RegisteredStages(st, path, env, tracked, rd);
      FileWrittenBinds(mid, tracked, FileRecord(pid, path, env));
    }
  }

  /**
   * When no photo was taken at the matching instant, a successful
   * registration built the new photo and added exactly it, linked to a
   * camera and a lens, and binds the path's record to it.
   */
  lemma RegisteredNewPhoto(st: Store, path: string, env: Env, tracked: Option<Id>, rd: Readings)
    requires WellFormed(st) && path in env.fs && Coherent(rd) && tracked == Tracked(st, path)
    requires PhotosTakenAt(st.photos, rd.takenAt) == {}
    ensures var r := Registered(st, path, env, tracked, rd);
            r.result.Ok? ==>
              && rd.made.Ok?
              && exists q ::
                   && q !in st.photos && q in r.st.photos
                   && r.st.photos == st.photos[q := r.st.photos[q]]
                   && r.st.photos[q].camera.Some? && r.st.photos[q].lens.Some?
                   && r.st.photos[q] == rd.made.value.(camera := r.st.photos[q].camera, lens := r.st.photos[q].lens)
                   && forall k :: k in r.st.files && r.st.files[k].path == path ==> r.st.files[k].photo == q
  {
    var r := Registered(st, path, env, tracked, rd);
    if r.result.Ok? {
      var mid, pid := RegisteredStages(st, path, env, tracked, rd);
      FileWrittenBinds(mid, tracked, FileRecord(pid, path, env));
      assert r.st.photos == mid.photos;
      assert pid in r.st.photos;
    }
  }

  // ---------------------------------------------------------------------
  // Properties of the whole call

  lemma RecordedWellFormed(st: Store, path: string, env: Env)
    requires WellFormed(st)
    ensures WellFormed(Recorded(st, path, env).st)
  {
    if path in env.fs {
      var tracked := Tracked(st, path);
      if !(tracked.Some? && st.files[tracked.value].modifiedAt == Some(env.fs[path].mtime)) {
        RegisteredWellFormed(st, path, env, tracked, Read(path, env));
      }
    }
  }

  /** A path that does not exist raises on `os.stat`, and nothing changes. */
  lemma RecordedMissingFile(st: Store, path: string, env: Env)
    requires WellFormed(st) && path !in env.fs
    ensures Recorded(st, path, env) == Outcome(st, Err(FileNotFound))
  {
  }

  /**
   * When the path's record already carries the file's current modification
   * time, `record_photo` returns `False` and changes nothing.
   */
  lemma RecordedUnchangedFile(st: Store, path: string, env: Env, f: Id)
    requires WellFormed(st) && path in env.fs
    requires f in st.files && st.files[f].path == path
    requires st.files[f].modifiedAt == Some(env.fs[path].mtime)
    ensures Recorded(st, path, env) == Outcome(st, Ok(false))
  {
    TrackedIs(st, path, f);
  }

  /**
   * A file whose record is missing or out of date is always written: the
   * call never returns `False` for it, and on success it returns `True`,
   * the path's record (the existing one, or one under a key not used
   * before) holds the file's attributes and is bound to a photo taken at
   * `get_datetime(path)`, no other record and no existing photo changes,
   * and tags and tasks are untouched.
   */
  lemma RecordedWritesFile(st: Store, path: string, env: Env)
    requires WellFormed(st) && path in env.fs
    requires forall f :: f in st.files && st.files[f].path == path ==> st.files[f].modifiedAt != Some(env.fs[path].mtime)
    ensures var r := Recorded(st, path, env);
            && r.result != Ok(false)
            && (r.result.Ok? ==>
                  && r.result == Ok(true)
                  && r.st.tags == st.tags && r.st.photoTags == st.photoTags && r.st.tasks == st.tasks
                  && (forall p :: p in st.photos ==> p in r.st.photos && r.st.photos[p] == st.photos[p])
                  && exists k ::
                       && k in r.st.files
                       && (forall f :: f in st.files && st.files[f].path == path ==> f == k)
                       && (FilesAt(st.files, path) == {} ==> k !in st.files)
                       && r.st.files == st.files[k := r.st.files[k]]
                       && r.st.files[k] == FileRecord(r.st.files[k].photo, path, env)
                       && r.st.files[k].photo in r.st.photos
                       && r.st.photos[r.st.files[k].photo].takenAt == env.datetimeOf(path))
  {
    var tracked := Tracked(st, path);
    var rd := Read(path, env);
    assert Recorded(st, path, env) == Registered(st, path, env, tracked, rd);
    RegisteredWritesFile(st, path, env, tracked, rd);
  }

  /**
   * When a photo taken at `get_datetime(path)` already exists, a successful
   * call creates no photo and binds the path's record to that photo.
   */
  lemma RecordedMatchedPhoto(st: Store, path: string, env: Env, p: Id)
    requires WellFormed(st) && path in env.fs
    requires forall f :: f in st.files && st.files[f].path == path ==> st.files[f].modifiedAt != Some(env.fs[path].mtime)
    requires PhotosTakenAt(st.photos, env.datetimeOf(path)) == {p}
    ensures var r := Recorded(st, path, env);
            r.result.Ok? ==>
              && r.st.photos == st.photos
              && forall k :: k in r.st.files && r.st.files[k].path == path ==> r.st.files[k].photo == p
  {
    var tracked := Tracked(st, path);
    var rd := Read(path, env);
    assert Recorded(st, path, env) == Registered(st, path, env, tracked, rd);
    RegisteredMatchedPhoto(st, path, env, tracked, rd, p);
  }

  /**
   * When no photo was taken at `get_datetime(path)`, a successful call
   * needed an aperture that parses, an ISO `int()` accepts, a focal length
   * and a flash value; it adds exactly one photo, the one `NewPhoto`
   * builds, linked to a camera and a lens, and binds the path's record to
   * it. So when any of those four is missing or malformed, the call raises.
   */
  lemma RecordedNewPhoto(st: Store, path: string, env: Env)
    requires WellFormed(st) && path in env.fs
    requires forall f :: f in st.files && st.files[f].path == path ==> st.files[f].modifiedAt != Some(env.fs[path].mtime)
    requires PhotosTakenAt(st.photos, env.datetimeOf(path)) == {}
    ensures var r := Recorded(st, path, env); var md := env.metadata;
            r.result.Ok? ==>
              && ApertureValue(md, env.parseDecimal).Ok? && IsoValue(md).Ok?
              && FocalLengthValue(md).Ok? && FlashValue(md).Ok?
              && NewPhoto(path, env).Ok?
              && exists q ::
                   && q !in st.photos && q in r.st.photos
                   && r.st.photos == st.photos[q := r.st.photos[q]]
                   && r.st.photos[q].camera.Some? && r.st.photos[q].lens.Some?
                   && r.st.photos[q] == NewPhoto(path, env).value.(camera := r.st.photos[q].camera, lens := r.st.photos[q].lens)
                   && forall k :: k in r.st.files && r.st.files[k].path == path ==> r.st.files[k].photo == q
  {
    var tracked := Tracked(st, path);
    var rd := Read(path, env);
    assert Recorded(st, path, env) == Registered(st, path, env, tracked, rd);
    RegisteredNewPhoto(st, path, env, tracked, rd);
  }

  /**
   * Recording the same unchanged file a second time is a no-op: once a call
   * returned `True`, the next one returns `False` and changes nothing.
   */
  lemma RecordedTwice(st: Store, path: string, env: Env)
    requires WellFormed(st) && Recorded(st, path, env).result == Ok(true)
    ensures WellFormed(Recorded(st, path, env).st)
    ensures var r1 := Recorded(st, path, env);
            Recorded(r1.st, path, env) == Outcome(r1.st, Ok(false))
  {
    var r1 := Recorded(st, path, env);
    RecordedWellFormed(st, path, env);
    assert path in env.fs;
    var tracked := Tracked(st, path);
    var rd := Read(path, env);
    assert r1 == Registered(st, path, env, tracked, rd);
    var mid, pid := RegisteredStages(st, path, env, tracked, rd);
    var k := FileWrittenAt(st, mid, tracked, FileRecord(pid, path, env));
    RecordedUnchangedFile(r1.st, path, env, k);
  }

  // ---------------------------------------------------------------------
  // The imperative steps

  /** Lines 31-41. */
  method ResolveCamera(db: Catalog, make: Option<string>, model: Option<string>, date: Option<Time>)
    returns (r: Result<Option<Id>, Error>)
    requires KeysBelow(db.cameras, db.nextId) && KeysBelow(db.lenses, db.nextId)
    modifies db
    ensures Outcome(db.Snapshot(), r) == CameraResolved(old(db.Snapshot()), make, model, date)
  {
    var found := GetRow(CamerasWith(db.cameras, make, model));
    match found
    case Several =>
      return Err(MultipleObjectsReturned);
    case Unique(c) =>
      assert c in CamerasWith(db.cameras, make, model);
      r := ExtendCamera(db, c, date);
    case Absent =>
      var c := db.nextId;
      db.cameras := db.cameras[c := Camera(None, make, model, Bounds(date, date))];
      db.nextId := c + 1;
      return Ok(Some(c));
  }

  /** Lines 43-55. */
  method ResolveLens(db: Catalog, name: Option<string>, date: Option<Time>) returns (r: Result<Option<Id>, Error>)
    requires KeysBelow(db.cameras, db.nextId) && KeysBelow(db.lenses, db.nextId)
    modifies db
    ensures Outcome(db.Snapshot(), r) == LensResolved(old(db.Snapshot()), name, date)
  {
    var found := GetRow(LensesNamed(db.lenses, name));
    match found
    case Several =>
      return Err(MultipleObjectsReturned);
    case Unique(l) =>
      assert l in LensesNamed(db.lenses, name);
      r := ExtendLens(db, l, date);
    case Absent =>
      var l := db.nextId;
      db.lenses := db.lenses[l := Lens(None, name, Bounds(date, date))];
      db.nextId := l + 1;
      return Ok(Some(l));
  }

  /** Lines 57-77. */
  method ResolvePhoto(db: Catalog, path: string, env: Env, camera: Option<Id>, lens: Option<Id>) returns (r: Result<Id, Error>)
    requires KeysBelow(db.photos, db.nextId)
    modifies db
    ensures Outcome(db.Snapshot(), r) == PhotoResolved(old(db.Snapshot()), env.datetimeOf(path), NewPhoto(path, env), camera, lens)
  {
    var found := GetRow(PhotosTakenAt(db.photos, env.datetimeOf(path)));
    match found
    case Several =>
      return Err(MultipleObjectsReturned);
    case Unique(p) =>
      return Ok(p);
    case Absent =>
      var photo := NewPhoto(path, env);
      if photo.Err? {
        return Err(photo.error);
      }
      ghost var st := db.Snapshot();
      var row := photo.value.(camera := camera, lens := lens);
      var p := db.nextId;
      db.photos := db.photos[p := row];
      db.nextId := p + 1;
      assert db.Snapshot() == PhotoInserted(st, row);
      return Ok(p);
  }

  /**
   * Lines 79-87: every field of the path's record, or of a blank one, is
   * assigned, then the record is saved.
   */
  method WriteFile(db: Catalog, tracked: Option<Id>, pid: Id, path: string, env: Env)
    requires path in env.fs
    requires tracked.Some? ==> tracked.value in db.files
    modifies db
    ensures db.Snapshot() == FileWritten(old(db.Snapshot()), tracked, FileRecord(pid, path, env))
  {
    var file := if tracked.Some? then db.files[tracked.value] else PhotoFile(0, "", None, None, None, None, 0, false);
    file := file.(photo := pid, path := path);
    file := file.(width := Get(env.metadata, "Image Width"), height := Get(env.metadata, "Image Height"));
    file := file.(mimetype := env.guessType(path), modifiedAt := Some(env.fs[path].mtime));
    file := file.(bytes := env.fs[path].size, preferred := false);
    if tracked.Some? {
      db.files := db.files[tracked.value := file];
    } else {
      var f := db.nextId;
      db.files := db.files[f := file];
      db.nextId := f + 1;
    }
  }

  /** Lines 23-89 for a file whose record is missing or out of date. */
  method Register(db: Catalog, path: string, env: Env, tracked: Option<Id>) returns (r: Result<bool, Error>)
    requires db.Valid() && path in env.fs
    requires tracked.Some? ==> tracked.value in db.files
    modifies db
    ensures Outcome(db.Snapshot(), r) == Registered(old(db.Snapshot()), path, env, tracked, Read(path, env))
  {
    var md := env.metadata;
    var make := Get(md, "Make");
    var model := CameraModel(md);
    if model.Err? {
      return Err(model.error);
    }
    var date := env.parseDatetime(Get(md, "Date/Time Original"));
    var camera := ResolveCamera(db, make, model.value, date);
    if camera.Err? {
      return Err(camera.error);
    }
    var lens := ResolveLens(db, Get(md, "Lens ID"), date);
    if lens.Err? {
      return Err(lens.error);
    }
    var photo := ResolvePhoto(db, path, env, camera.value, lens.value);
    if photo.Err? {
      return Err(photo.error);
    }
    WriteFile(db, tracked, photo.value, path, env);
    r := Ok(true);
  }

  /**
   * `record_photo(path)`: returns what the source returns or the exception
   * it raises, with the tables as they are left (rows saved before an
   * exception stay saved).
   */
  method RecordPhoto(db: Catalog, path: string, env: Env) returns (r: Result<bool, Error>)
    requires db.Valid()
    modifies db
    ensures Outcome(db.Snapshot(), r) == Recorded(old(db.Snapshot()), path, env)
    ensures db.Valid()
  {
    ghost var st := db.Snapshot();
    if path !in env.fs {
      return Err(FileNotFound);
    }
    var tracked := FindFile(db, path);
    if tracked.Some? && db.files[tracked.value].modifiedAt == Some(env.fs[path].mtime) {
      return Ok(false);
    }
    r := Register(db, path, env, tracked);
    RecordedWellFormed(st, path, env);
  }
}
