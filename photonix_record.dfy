/**
 * `record_photo` of photonix/photos/utils/db.py: registering one path of a
 * library. A delete event removes the file's record; an unchanged file is
 * left alone; otherwise the camera and lens are found or created, the photo
 * is matched by capture instant or created with its tags, the matched
 * photo's vanished files are dropped, the file record is written and a
 * processing task is enqueued.
 *
 * Each step is a ghost function on `Store` values and a method on the
 * `Catalog` proved equal to it; `RecordPhoto` composes the methods.
 */
module PhotonixRecord {
  import opened Wrappers
  import opened Text
  import opened Records
  import opened PhotonixRules
  import opened PhotonixDb

  /** One call `record_photo(path, library, inotify_event_type)`. */
  datatype Request = Request(path: string, library: LibraryId, event: Option<string>)

  /** What `record_photo` returns: `True`, or the photo the file was recorded under. */
  datatype RecordResult = Done | PhotoOf(photo: Id)

  predicate IsDeleteEvent(event: Option<string>) {
    event == Some("DELETE") || event == Some("MOVED_FROM")
  }

  // ---------------------------------------------------------------------
  // Lookups

  /** The cameras of the library with this make and model. */
  function CamerasMatching(cameras: map<Id, Camera>, lib: LibraryId, make: string, model: string): set<Id> {
    set c | c in cameras && cameras[c].library == Some(lib) && cameras[c].make == Some(make) && cameras[c].model == Some(model)
  }

  // ---------------------------------------------------------------------
  // Cameras and lenses

  /**
   * Lines 48-60: no camera when the make or the model is empty; otherwise
   * the library's camera with that make and model has its range extended
   * by the capture instant (raising on a None on either side), or a camera
   * is created whose range is that instant alone.
   */
  ghost function CameraResolved(st: Store, lib: LibraryId, make: string, model: string, date: Option<Time>): (r: Outcome<Option<Id>>)
    requires KeysBelow(st.cameras, st.nextId) && KeysBelow(st.lenses, st.nextId)
    ensures CatalogGrown(st, r.st) && r.st.lenses == st.lenses
    ensures r.result.Ok? && r.result.value.Some? ==> r.result.value.value in r.st.cameras
  {
    if make == "" || model == "" then Outcome(st, Ok(None))
    else
      match GetOne(CamerasMatching(st.cameras, lib, make, model))
      case Several => Outcome(st, Err(MultipleObjectsReturned))
      case Unique(c) => CameraExtended(st, c, date)
      case Absent =>
        var c := st.nextId;
        Outcome(st.(cameras := st.cameras[c := Camera(Some(lib), Some(make), Some(model), Bounds(date, date))], nextId := c + 1),
                Ok(Some(c)))
  }

  /**
   * The camera rule: no camera without both a make and a model; a new
   * camera's range is the capture instant alone; an existing camera's range
   * becomes (min, max) of the old range and the instant, and nothing but
   * its range changes.
   */
  lemma CameraResolvedSpec(st: Store, lib: LibraryId, make: string, model: string, date: Option<Time>)
    requires KeysBelow(st.cameras, st.nextId) && KeysBelow(st.lenses, st.nextId)
    ensures var r := CameraResolved(st, lib, make, model, date);
            && (make == "" || model == "" ==> r == Outcome(st, Ok(None)))
            && (make != "" && model != "" && CamerasMatching(st.cameras, lib, make, model) == {} ==>
                  && r.result == Ok(Some(st.nextId)) && st.nextId !in st.cameras
                  && r.st.cameras == st.cameras[st.nextId := Camera(Some(lib), Some(make), Some(model), Bounds(date, date))])
            && (make != "" && model != "" && |CamerasMatching(st.cameras, lib, make, model)| >= 2 ==>
                  r == Outcome(st, Err(MultipleObjectsReturned)))
            && (forall c :: make != "" && model != "" && CamerasMatching(st.cameras, lib, make, model) == {c} ==>
                  var prior := st.cameras[c].bounds;
                  && r.st.cameras == st.cameras[c := st.cameras[c].(bounds := ExtendBounds(prior, date).0)]
                  && (r.result.Ok? <==> date.Some? && prior.earliest.Some? && prior.latest.Some?)
                  && (r.result.Ok? ==>
                        && r.result == Ok(Some(c))
                        && r.st.cameras[c].bounds == Bounds(Some(Min(prior.earliest.value, date.value)), Some(Max(prior.latest.value, date.value)))))
  {
    if make != "" && model != "" {
      var ids := CamerasMatching(st.cameras, lib, make, model);
      if ids != {} {
        var c :| c in ids;
        assert ids == {c} ==> GetOne(ids) == Unique(c);
      }
    }
  }

  /**
   * Lines 62-76: no lens when the "Lens ID" value is missing or empty;
   * otherwise the lens of that name in any library has its range extended,
   * or a lens is created in this library whose range is the instant alone.
   */
  ghost function LensResolved(st: Store, lib: LibraryId, name: Option<string>, date: Option<Time>): (r: Outcome<Option<Id>>)
    requires KeysBelow(st.cameras, st.nextId) && KeysBelow(st.lenses, st.nextId)
    ensures CatalogGrown(st, r.st) && r.st.cameras == st.cameras
    ensures r.result.Ok? && r.result.value.Some? ==> r.result.value.value in r.st.lenses
  {
    if !Truthy(name) then Outcome(st, Ok(None))
    else
      match GetOne(LensesNamed(st.lenses, name))
      case Several => Outcome(st, Err(MultipleObjectsReturned))
      case Unique(l) => LensExtended(st, l, date)
      case Absent =>
        var l := st.nextId;
        Outcome(st.(lenses := st.lenses[l := Lens(Some(lib), name, Bounds(date, date))], nextId := l + 1), Ok(Some(l)))
  }

  /**
   * The lens rule: no lens without a non-empty name; the lookup ignores
   * the library, so a lens of another library with the name is reused and
   * its range extended, and no other lens changes; otherwise a lens of
   * this library is created with the instant as its range.
   */
  lemma LensResolvedSpec(st: Store, lib: LibraryId, name: Option<string>, date: Option<Time>)
    requires KeysBelow(st.cameras, st.nextId) && KeysBelow(st.lenses, st.nextId)
    ensures var r := LensResolved(st, lib, name, date);
            && (!Truthy(name) ==> r == Outcome(st, Ok(None)))
            && (Truthy(name) && LensesNamed(st.lenses, name) == {} ==>
                  && r.result == Ok(Some(st.nextId)) && st.nextId !in st.lenses
                  && r.st.lenses == st.lenses[st.nextId := Lens(Some(lib), name, Bounds(date, date))])
            && (Truthy(name) && |LensesNamed(st.lenses, name)| >= 2 ==> r == Outcome(st, Err(MultipleObjectsReturned)))
            && (forall l :: Truthy(name) && LensesNamed(st.lenses, name) == {l} ==>
                  var prior := st.lenses[l].bounds;
                  && r.st.lenses == st.lenses[l := st.lenses[l].(bounds := ExtendBounds(prior, date).0)]
                  && (r.result.Ok? <==> date.Some? && prior.earliest.Some? && prior.latest.Some?)
                  && (r.result.Ok? ==>
                        && r.result == Ok(Some(l))
                        && r.st.lenses[l].bounds == Bounds(Some(Min(prior.earliest.value, date.value)), Some(Max(prior.latest.value, date.value)))))
  {
    var ids := LensesNamed(st.lenses, name);
    forall l | Truthy(name) && ids == {l}
      ensures LensResolved(st, lib, name, date) == LensExtended(st, l, date)
    {
      assert GetOne(ids) == Unique(l);
    }
  }

  // ---------------------------------------------------------------------
  // Everything before the photo is saved (lines 34-96)

  /** What the lookups produced: the instant, camera, lens, matched photo and location. */
  datatype Plan = Plan(date: Option<Time>, camera: Option<Id>, lens: Option<Id>, matched: Option<Id>, location: Option<Coordinates>)

  predicate PlanOk(st: Store, plan: Plan) {
    && (plan.camera.Some? ==> plan.camera.value in st.cameras)
    && (plan.lens.Some? ==> plan.lens.value in st.lenses)
    && (plan.matched.Some? ==> plan.matched.value in st.photos && plan.date.Some? &&
                               st.photos[plan.matched.value].takenAt == plan.date)
  }

  /**
   * The capture instant, camera and lens resolution, the photo lookup by
   * instant (several matches raise) and the GPS unpacking (an unparseable
   * position raises).
   */
  ghost function Prepared(st: Store, req: Request, env: Env): (r: Outcome<Plan>)
    requires WellFormed(st)
    ensures CatalogGrown(st, r.st)
    ensures r.result.Ok? ==> PlanOk(r.st, r.result.value)
  {
    var md := env.metadata;
    var date := DateTaken(md, env.parseDatetime);
    var make := CameraMake(md, env.limits);
    var model := CameraModel(md, make, env.limits);
    var c := CameraResolved(st, req.library, make, model, date);
    if c.result.Err? then Outcome(c.st, Err(c.result.error))
    else
      var l := LensResolved(c.st, req.library, Get(md, "Lens ID"), date);
      if l.result.Err? then Outcome(l.st, Err(l.result.error))
      else
        var found := if date.Some? then GetOne(PhotosTakenAt(l.st.photos, date)) else Absent;
        if found.Several? then Outcome(l.st, Err(MultipleObjectsReturned))
        else
          var gps := Get(md, "GPS Position");
          if Truthy(gps) && env.parseGps(gps.value).None? then Outcome(l.st, Err(NotUnpackable))
          else
            var matched := if found.Unique? then Some(found.id) else None;
            var location := if Truthy(gps) then env.parseGps(gps.value) else None;
            assert matched.Some? ==> matched.value in PhotosTakenAt(l.st.photos, date);
            Outcome(l.st, Ok(Plan(date, c.result.value, l.result.value, matched, location)))
  }

  /**
   * Lines 34-84: a plan holds the first date key's instant and the camera
   * and lens the two resolutions return; a photo is matched exactly when
   * the instant is known and some photo, in any library, was taken then,
   * and the match is the only such photo.
   */
  lemma PreparedPlan(st: Store, req: Request, env: Env)
    requires WellFormed(st)
    ensures var r := Prepared(st, req, env); var md := env.metadata;
            var date := DateTaken(md, env.parseDatetime);
            var make := CameraMake(md, env.limits);
            var c := CameraResolved(st, req.library, make, CameraModel(md, make, env.limits), date);
            var at := PhotosTakenAt(st.photos, date);
            r.result.Ok? ==>
              var plan := r.result.value;
              && plan.date == date && c.result == Ok(plan.camera)
              && LensResolved(c.st, req.library, Get(md, "Lens ID"), date).result == Ok(plan.lens)
              && (plan.matched.Some? <==> date.Some? && at != {})
              && (plan.matched.Some? ==> at == {plan.matched.value})
  {
    var r := Prepared(st, req, env);
    var date := DateTaken(env.metadata, env.parseDatetime);
    if r.result.Ok? && date.Some? && PhotosTakenAt(st.photos, date) != {} {
      assert |PhotosTakenAt(st.photos, date)| == 1;
    }
  }

  /**
   * Lines 78-84: once the camera and lens are settled, two or more photos
   * taken at the instant raise MultipleObjectsReturned, keeping the camera
   * and lens rows already written.
   */
  lemma PreparedSeveral(st: Store, req: Request, env: Env)
    requires WellFormed(st)
    ensures var md := env.metadata;
            var date := DateTaken(md, env.parseDatetime);
            var make := CameraMake(md, env.limits);
            var c := CameraResolved(st, req.library, make, CameraModel(md, make, env.limits), date);
            var l := LensResolved(c.st, req.library, Get(md, "Lens ID"), date);
            c.result.Ok? && l.result.Ok? && date.Some? && |PhotosTakenAt(st.photos, date)| >= 2 ==>
              Prepared(st, req, env) == Outcome(l.st, Err(MultipleObjectsReturned))
  {
  }

  // ---------------------------------------------------------------------
  // Creating the photo and its tags (lines 97-138)

  /** Lines 109-127: the new photo's attributes. */
  function NewPhoto(lib: LibraryId, plan: Plan, env: Env): Photo {
    var md := env.metadata;
    var lim := env.limits;
    Photo(
      library := Some(lib),
      takenAt := plan.date,
      takenBy := Truncated(md, "Artist", lim.takenBy),
      aperture := Aperture(md, env.parseDecimal),
      exposure := Truncated(md, "Exposure Time", lim.exposure),
      isoSpeed := IsoSpeed(md),
      focalLength := FocalLength(md),
      flash := Flash(md),
      meteringMode := Truncated(md, "Metering Mode", lim.meteringMode),
      driveMode := Truncated(md, "Drive Mode", lim.driveMode),
      shootingMode := Truncated(md, "Shooting Mode", lim.shootingMode),
      camera := plan.camera,
      lens := plan.lens,
      location := plan.location,
      altitude := Altitude(md),
      starRating := Get(md, "Rating"))
  }

  /** The key the `i`-th new tag receives; its link receives the next one. */
  function TagKey(base: Id, i: nat): Id {
    base + 2 * i
  }

  /** One subject: a new tag of kind "G" in the library, linked to the photo with confidence 1.0. */
  function TagAdded(st: Store, pid: Id, lib: LibraryId, name: string): Store {
    var t := st.nextId;
    st.(tags := st.tags[t := Tag(Some(lib), name, "G")],
        photoTags := st.photoTags[t + 1 := PhotoTag(pid, t, 1.0)],
        nextId := t + 2)
  }

  /** The subjects' tags and links, created one after the other. */
  function TagsAdded(st: Store, pid: Id, lib: LibraryId, names: seq<string>): (r: Store)
    ensures r.photos == st.photos && r.files == st.files && r.cameras == st.cameras
    ensures r.lenses == st.lenses && r.tasks == st.tasks
    ensures r.nextId == st.nextId + 2 * |names|
    decreases |names|
  {
    if names == [] then st
    else TagAdded(TagsAdded(st, pid, lib, names[..|names| - 1]), pid, lib, names[|names| - 1])
  }

  /** Adding one more subject adds its tag after the others'. */
  lemma TagsAddedSnoc(st: Store, pid: Id, lib: LibraryId, names: seq<string>, name: string)
    ensures TagsAdded(st, pid, lib, names + [name]) == TagAdded(TagsAdded(st, pid, lib, names), pid, lib, name)
  {
    assert (names + [name])[..|names|] == names;
  }

  /** One more subject piece: its tag is added after the others' unless it is blank. */
  lemma TagsAddedStep(st: Store, pid: Id, lib: LibraryId, pieces: seq<string>, i: nat)
    requires i < |pieces|
    ensures var s := Strip(pieces[i]); var before := TagsAdded(st, pid, lib, CleanTokens(pieces[..i]));
            TagsAdded(st, pid, lib, CleanTokens(pieces[..i + 1])) == if s == "" then before else TagAdded(before, pid, lib, s)
  {
    CleanTokensStep(pieces, i);
    if Strip(pieces[i]) != "" {
      TagsAddedSnoc(st, pid, lib, CleanTokens(pieces[..i]), Strip(pieces[i]));
    }
  }

  /**
   * Adding tags keeps every existing tag and link, adds exactly one of each
   * per subject, and keeps every key below the counter.
   */
  lemma {:induction false} TagsAddedKeeps(st: Store, pid: Id, lib: LibraryId, names: seq<string>)
    requires KeysBelow(st.tags, st.nextId) && KeysBelow(st.photoTags, st.nextId)
    ensures var r := TagsAdded(st, pid, lib, names);
            && (forall t :: t in st.tags ==> t in r.tags && r.tags[t] == st.tags[t])
            && (forall k :: k in st.photoTags ==> k in r.photoTags && r.photoTags[k] == st.photoTags[k])
            && |r.tags| == |st.tags| + |names| && |r.photoTags| == |st.photoTags| + |names|
            && KeysBelow(r.tags, r.nextId) && KeysBelow(r.photoTags, r.nextId)
    decreases |names|
  {
    if names != [] {
      var s := TagsAdded(st, pid, lib, names[..|names| - 1]);
      TagsAddedKeeps(st, pid, lib, names[..|names| - 1]);
      assert s.nextId !in s.tags && s.nextId + 1 !in s.photoTags;
    }
  }

  /**
   * From key `base` on, the `i`-th subject's tag is of kind "G" in the
   * library and named after it, and it is linked to the photo with
   * confidence 1.0.
   */
  ghost predicate TagsNamed(r: Store, base: Id, pid: Id, lib: LibraryId, names: seq<string>) {
    forall i :: 0 <= i < |names| ==>
      && TagKey(base, i) in r.tags && r.tags[TagKey(base, i)] == Tag(Some(lib), names[i], "G")
      && TagKey(base, i) + 1 in r.photoTags
      && r.photoTags[TagKey(base, i) + 1] == PhotoTag(pid, TagKey(base, i), 1.0)
  }

  /** Adding tags gives each subject its own tag and link, as `TagsNamed` says. */
  lemma {:induction false} TagsAddedNamed(st: Store, pid: Id, lib: LibraryId, names: seq<string>)
    requires KeysBelow(st.tags, st.nextId) && KeysBelow(st.photoTags, st.nextId)
    ensures TagsNamed(TagsAdded(st, pid, lib, names), st.nextId, pid, lib, names)
    decreases |names|
  {
    if names != [] {
      var init := names[..|names| - 1];
      TagsAddedNamed(st, pid, lib, init);
      var s := TagsAdded(st, pid, lib, init);
      assert s.nextId == TagKey(st.nextId, |init|);
      forall i | 0 <= i < |init|
        ensures names[i] == init[i] && TagKey(st.nextId, i) != s.nextId && TagKey(st.nextId, i) + 1 != s.nextId + 1
      {
      }
    }
  }

  /** Adding tags for a stored photo keeps a well-formed store well-formed. */
  lemma {:induction false} TagsAddedWellFormed(st: Store, pid: Id, lib: LibraryId, names: seq<string>)
    requires WellFormed(st) && pid in st.photos
    ensures WellFormed(TagsAdded(st, pid, lib, names))
    decreases |names|
  {
    if names != [] {
      TagsAddedWellFormed(st, pid, lib, names[..|names| - 1]);
    }
  }

  // ---------------------------------------------------------------------
  // The matched photo's vanished files (lines 139-142)

  /** The files, less those among `among` whose path no longer exists. */
  function SweptAmong(files: map<Id, PhotoFile>, among: set<Id>, fs: map<string, FileStat>): map<Id, PhotoFile> {
    map f | f in files && (f !in among || files[f].path in fs) :: files[f]
  }

  /** Visiting one more record drops it exactly when its path vanished. */
  lemma SweptAmongStep(files: map<Id, PhotoFile>, among: set<Id>, f: Id, fs: map<string, FileStat>)
    requires f in files && f !in among
    ensures f in SweptAmong(files, among, fs) && SweptAmong(files, among, fs)[f] == files[f]
    ensures SweptAmong(files, among + {f}, fs) == SweptAmong(SweptAmong(files, among, fs), {f}, fs)
  {
  }

  /** The record the file is written to after the loop left `last` as the loop variable. */
  function SaveTarget(files: map<Id, PhotoFile>, last: Id, fs: map<string, FileStat>): Option<Id> {
    if last in files && files[last].path in fs then Some(last) else None
  }

  // ---------------------------------------------------------------------
  // Writing the file record (lines 144-169)

  /** Lines 144-168: the fields the file record is given. */
  function FileRecord(pid: Id, path: string, env: Env): (r: PhotoFile)
    requires path in env.fs
    ensures r.photo == pid && r.path == path
    ensures (r.width, r.height) == Dimensions(env.metadata)
    ensures r.mimetype == MimeType(path, env.guessType(path))
    ensures r.modifiedAt == Some(env.fs[path].mtime) && r.bytes == env.fs[path].size && !r.preferred
  {
    var dims := Dimensions(env.metadata);
    PhotoFile(
      photo := pid,
      path := path,
      width := dims.0,
      height := dims.1,
      mimetype := MimeType(path, env.guessType(path)),
      modifiedAt := Some(env.fs[path].mtime),
      bytes := env.fs[path].size,
      preferred := false)
  }

  /** Some record other than `target` already has the path. */
  predicate PathTaken(files: map<Id, PhotoFile>, path: string, target: Option<Id>) {
    exists f :: f in files && files[f].path == path && Some(f) != target
  }

  /**
   * `photo_file.save()`: updates the target record, or inserts a new one
   * when there is none; raises when another record holds the path.
   */
  function FileSaved(st: Store, target: Option<Id>, rec: PhotoFile): (r: Outcome<Id>)
    requires KeysBelow(st.files, st.nextId)
    requires target.Some? ==> target.value in st.files
    ensures r.st.photos == st.photos && r.st.tags == st.tags && r.st.photoTags == st.photoTags
    ensures r.st.cameras == st.cameras && r.st.lenses == st.lenses && r.st.tasks == st.tasks
    ensures r.result.Err? <==> PathTaken(st.files, rec.path, target)
    ensures forall f :: f in r.st.files ==> f in st.files || f == st.nextId
    ensures r.result.Ok? ==> r.result.value in r.st.files && r.st.files[r.result.value] == rec
    ensures r.result.Ok? ==> r.result.value == if target.Some? then target.value else st.nextId
    ensures r.result.Ok? ==> forall f :: f in st.files && Some(f) != target ==> f in r.st.files && r.st.files[f] == st.files[f]
  {
    if PathTaken(st.files, rec.path, target) then Outcome(st, Err(DuplicatePath))
    else
      match target
      case Some(f) => Outcome(st.(files := st.files[f := rec]), Ok(f))
      case None => Outcome(st.(files := st.files[st.nextId := rec], nextId := st.nextId + 1), Ok(st.nextId))
  }

  lemma FileSavedWellFormed(st: Store, target: Option<Id>, rec: PhotoFile)
    requires WellFormed(st) && rec.photo in st.photos
    requires target.Some? ==> target.value in st.files
    ensures WellFormed(FileSaved(st, target, rec).st)
  {
    if !PathTaken(st.files, rec.path, target) {
      var k := if target.Some? then target.value else st.nextId;
      var files := st.files[k := rec];
      forall a, b | a in files && b in files && files[a].path == files[b].path
        ensures a == b
      {
        if a != k && b != k {
          assert st.files[a].path == st.files[b].path;
        }
      }
      RecordSavedWellFormed(st, k, rec);
    }
  }

  /** Writing a record under a key below the next fresh one, or under the fresh key itself. */
  lemma RecordSavedWellFormed(st: Store, k: Id, rec: PhotoFile)
    requires WellFormed(st) && rec.photo in st.photos && k <= st.nextId
    requires UniquePaths(st.files[k := rec])
    ensures WellFormed(st.(files := st.files[k := rec], nextId := if k == st.nextId then st.nextId + 1 else st.nextId))
  {
  }

  // ---------------------------------------------------------------------
  // The whole call

  /**
   * Lines 97-179 once the lookups succeeded: a new photo with its subject
   * tags, or the matched photo with its vanished files dropped; then the
   * file record written to its target and a `Task` row enqueued.
   *
   * `last` is the last file record the loop over the matched photo's files
   * visited; the database fixes that order, so the caller supplies it.
   */
  ghost function Finished(st: Store, req: Request, env: Env, tracked: Option<Id>, plan: Plan, last: Option<Id>): Outcome<RecordResult>
    requires WellFormed(st) && PlanOk(st, plan) && req.path in env.fs
    requires tracked.Some? ==> tracked.value in st.files && st.files[tracked.value].path == req.path
  {
    var pid := if plan.matched.Some? then plan.matched.value else st.nextId;
    var st1 := if plan.matched.None? then Created(st, NewPhoto(req.library, plan, env), req.library, Subjects(env.metadata))
               else Swept(st, pid, env.fs);
    var target := if plan.matched.Some? && last.Some? then SaveTarget(st.files, last.value, env.fs) else tracked;
    Completed(st1, pid, target, FileRecord(pid, req.path, env))
  }

  /** Lines 160-179, once the photo is settled: the record is written, then a `Task` row is enqueued. */
  function Completed(st: Store, pid: Id, target: Option<Id>, rec: PhotoFile): (r: Outcome<RecordResult>)
    requires KeysBelow(st.files, st.nextId) && pid in st.photos
    requires target.Some? ==> target.value in st.files
    ensures r.st.photos == st.photos && r.st.tags == st.tags && r.st.photoTags == st.photoTags
    ensures forall f :: f in r.st.files ==> f in st.files || f == st.nextId
    ensures r.result.Ok? && target.Some? ==> target.value in r.st.files && r.st.files[target.value] == rec
    ensures r.result.Err? ==> r.st.tasks == st.tasks
  {
    var saved := FileSaved(st, target, rec);
    if saved.result.Err? then Outcome(saved.st, Err(saved.result.error))
    else
      var task := Task("ensure_raw_processed", pid, true, saved.st.photos[pid].library);
      Outcome(saved.st.(tasks := saved.st.tasks + [task]), Ok(PhotoOf(pid)))
  }

  /**
   * When the write succeeds the record is stored under some key and exactly
   * one task for the photo is enqueued, in the photo's own library.
   */
  lemma CompletedSpec(st: Store, pid: Id, target: Option<Id>, rec: PhotoFile)
    requires KeysBelow(st.files, st.nextId) && pid in st.photos
    requires target.Some? ==> target.value in st.files
    ensures var r := Completed(st, pid, target, rec);
            && (r.result.Ok? <==> !PathTaken(st.files, rec.path, target))
            && (r.result.Ok? ==>
                  && r.result == Ok(PhotoOf(pid))
                  && (exists f :: f in r.st.files && r.st.files[f] == rec)
                  && r.st.tasks == st.tasks + [Task("ensure_raw_processed", pid, true, st.photos[pid].library)])
  {
    var saved := FileSaved(st, target, rec);
    if saved.result.Ok? {
      assert saved.result.value in Completed(st, pid, target, rec).st.files;
    }
  }

  /**
   * Creating a photo with subjects: one tag per subject, of kind "G" in the
   * library and named after it, linked to the new photo with confidence 1.0.
   */
  lemma CreatedSpec(st: Store, photo: Photo, lib: LibraryId, names: seq<string>)
    requires KeysBelow(st.tags, st.nextId) && KeysBelow(st.photoTags, st.nextId)
    ensures TagsNamed(Created(st, photo, lib, names), st.nextId + 1, st.nextId, lib, names)
    ensures |Created(st, photo, lib, names).tags| == |st.tags| + |names|
    ensures |Created(st, photo, lib, names).photoTags| == |st.photoTags| + |names|
  {
    TagsAddedKeeps(PhotoInserted(st, photo), st.nextId, lib, names);
    TagsAddedNamed(PhotoInserted(st, photo), st.nextId, lib, names);
  }

  lemma CompletedWellFormed(st: Store, pid: Id, target: Option<Id>, rec: PhotoFile)
    requires WellFormed(st) && pid in st.photos && rec.photo in st.photos
    requires target.Some? ==> target.value in st.files
    ensures WellFormed(Completed(st, pid, target, rec).st)
  {
    var saved := FileSaved(st, target, rec);
    FileSavedWellFormed(st, target, rec);
    if saved.result.Ok? {
      var tasks := saved.st.tasks + [Task("ensure_raw_processed", pid, true, saved.st.photos[pid].library)];
      TasksIgnored(saved.st, tasks);
      assert Completed(st, pid, target, rec).st == saved.st.(tasks := tasks);
    }
  }

  /** The task queue plays no part in the integrity of the tables. */
  lemma TasksIgnored(st: Store, tasks: seq<Task>)
    requires WellFormed(st)
    ensures WellFormed(st.(tasks := tasks))
  {
    var r := st.(tasks := tasks);
    forall p | p in r.photos ensures PhotoRefsOk(r, r.photos[p]) {
      assert PhotoRefsOk(st, st.photos[p]);
    }
  }

  /** Lines 109-138: the new photo under the fresh key, then its subject tags. */
  function Created(st: Store, photo: Photo, lib: LibraryId, names: seq<string>): (r: Store)
    ensures r.files == st.files && r.cameras == st.cameras && r.lenses == st.lenses && r.tasks == st.tasks
    ensures r.photos == st.photos[st.nextId := photo]
    ensures r.nextId > st.nextId
  {
    TagsAdded(PhotoInserted(st, photo), st.nextId, lib, names)
  }

  /** Lines 139-142: the photo's files whose path vanished are deleted. */
  function Swept(st: Store, pid: Id, fs: map<string, FileStat>): (r: Store)
    ensures r.files.Keys <= st.files.Keys && r.nextId == st.nextId
    ensures r.photos == st.photos && r.tags == st.tags && r.photoTags == st.photoTags && r.tasks == st.tasks
  {
    st.(files := SweptAmong(st.files, FilesOf(st.files, pid), fs))
  }

  lemma SweptWellFormed(st: Store, pid: Id, fs: map<string, FileStat>)
    requires WellFormed(st)
    ensures WellFormed(Swept(st, pid, fs))
  {
    var r := Swept(st, pid, fs);
    assert r.files.Keys <= st.files.Keys;
    assert forall f :: f in r.files ==> r.files[f] == st.files[f];
  }

  lemma CreatedWellFormed(st: Store, photo: Photo, lib: LibraryId, names: seq<string>)
    requires WellFormed(st) && PhotoRefsOk(st, photo)
    ensures WellFormed(Created(st, photo, lib, names))
  {
    var pid := st.nextId;
    var st0 := PhotoInserted(st, photo);
    forall p | p in st0.photos ensures PhotoRefsOk(st0, st0.photos[p]) {
      if p != pid {
        assert PhotoRefsOk(st, st.photos[p]);
      }
    }
    assert WellFormed(st0);
    TagsAddedWellFormed(st0, pid, lib, names);
  }

  /** `record_photo(path, library, inotify_event_type)`. */
  ghost function Recorded(st: Store, req: Request, env: Env, last: Option<Id>): Outcome<RecordResult>
    requires WellFormed(st)
  {
    var tracked := Tracked(st, req.path);
    if IsDeleteEvent(req.event) then
      if tracked.Some? then Outcome(PhotoRecordDeleted(st, tracked.value), Ok(Done))
      else Outcome(st, Ok(Done))
    else if req.path !in env.fs then Outcome(st, Err(FileNotFound))
    else if tracked.Some? && st.files[tracked.value].modifiedAt == Some(env.fs[req.path].mtime) then Outcome(st, Ok(Done))
    else
      var p := Prepared(st, req, env);
      if p.result.Err? then Outcome(p.st, Err(p.result.error))
      else
        CatalogGrownWellFormed(st, p.st);
        Finished(p.st, req, env, tracked, p.result.value, last)
  }

  /** The file records the loop over the matched photo's files visits. */
  ghost function LoopFiles(st: Store, req: Request, env: Env): set<Id>
    requires WellFormed(st)
  {
    var tracked := Tracked(st, req.path);
    if IsDeleteEvent(req.event) || req.path !in env.fs then {}
    else if tracked.Some? && st.files[tracked.value].modifiedAt == Some(env.fs[req.path].mtime) then {}
    else
      var p := Prepared(st, req, env);
      if p.result.Err? || p.result.value.matched.None? then {}
      else FilesOf(p.st.files, p.result.value.matched.value)
  }

  /** `last` is one of the visited records, and there is one exactly when the loop ran. */
  ghost predicate LastVisited(st: Store, req: Request, env: Env, last: Option<Id>)
    requires WellFormed(st)
  {
    var visited := LoopFiles(st, req, env);
    if visited == {} then last.None? else last.Some? && last.value in visited
  }

  // ---------------------------------------------------------------------
  // Properties of the whole call

  lemma FinishedWellFormed(st: Store, req: Request, env: Env, tracked: Option<Id>, plan: Plan, last: Option<Id>)
    requires WellFormed(st) && PlanOk(st, plan) && req.path in env.fs
    requires tracked.Some? ==> tracked.value in st.files && st.files[tracked.value].path == req.path
    ensures WellFormed(Finished(st, req, env, tracked, plan, last).st)
  {
    var pid := if plan.matched.Some? then plan.matched.value else st.nextId;
    var target := if plan.matched.Some? && last.Some? then SaveTarget(st.files, last.value, env.fs) else tracked;
    var st1;
    if plan.matched.None? {
      var photo := NewPhoto(req.library, plan, env);
      st1 := Created(st, photo, req.library, Subjects(env.metadata));
      assert PhotoRefsOk(st, photo);
      CreatedWellFormed(st, photo, req.library, Subjects(env.metadata));
    } else {
      st1 := Swept(st, pid, env.fs);
      SweptWellFormed(st, pid, env.fs);
    }
    FinishedUnfold(st, req, env, tracked, plan, last, st1, target);
    CompletedWellFormed(st1, pid, target, FileRecord(pid, req.path, env));
  }

  /** `record_photo` keeps a well-formed store well-formed, whatever it returns. */
  lemma RecordedWellFormed(st: Store, req: Request, env: Env, last: Option<Id>)
    requires WellFormed(st)
    ensures WellFormed(Recorded(st, req, env, last).st)
  {
    var tracked := Tracked(st, req.path);
    var r := Recorded(st, req, env, last);
    if IsDeleteEvent(req.event) {
      if tracked.Some? {
        PhotoRecordDeletedSpec(st, tracked.value);
        assert r.st == PhotoRecordDeleted(st, tracked.value);
      } else {
        assert r.st == st;
      }
    } else if req.path !in env.fs || (tracked.Some? && st.files[tracked.value].modifiedAt == Some(env.fs[req.path].mtime)) {
      assert r.st == st;
    } else {
      var p := Prepared(st, req, env);
      CatalogGrownWellFormed(st, p.st);
      if p.result.Ok? {
        FinishedWellFormed(p.st, req, env, tracked, p.result.value, last);
        assert r == Finished(p.st, req, env, tracked, p.result.value, last);
      } else {
        assert r.st == p.st;
      }
    }
  }

  /**
   * A delete or moved-from event returns `True`; it changes nothing when
   * the path is untracked and runs `delete_photo_record` on its record
   * otherwise.
   */
  lemma RecordedDeleteEvent(st: Store, req: Request, env: Env, last: Option<Id>)
    requires WellFormed(st) && IsDeleteEvent(req.event)
    ensures var r := Recorded(st, req, env, last);
            && r.result == Ok(Done)
            && ((forall f :: f in st.files ==> st.files[f].path != req.path) ==> r.st == st)
            && (forall f :: f in st.files && st.files[f].path == req.path ==> r.st == PhotoRecordDeleted(st, f))
  {
    forall f | f in st.files && st.files[f].path == req.path
      ensures Tracked(st, req.path) == Some(f)
    {
      TrackedIs(st, req.path, f);
    }
    if forall f :: f in st.files ==> st.files[f].path != req.path {
      assert FilesAt(st.files, req.path) == {};
    }
  }

  /**
   * When the path's record already carries the file's current modification
   * time, `record_photo` returns `True` and changes nothing: no record is
   * created, changed or enqueued.
   */
  lemma RecordedUnchangedFile(st: Store, req: Request, env: Env, last: Option<Id>, f: Id)
    requires WellFormed(st) && !IsDeleteEvent(req.event) && req.path in env.fs
    requires f in st.files && st.files[f].path == req.path
    requires st.files[f].modifiedAt == Some(env.fs[req.path].mtime)
    ensures Recorded(st, req, env, last) == Outcome(st, Ok(Done))
  {
    TrackedIs(st, req.path, f);
  }

  /** A path that does not exist raises, and nothing changes. */
  lemma RecordedMissingFile(st: Store, req: Request, env: Env, last: Option<Id>)
    requires WellFormed(st) && !IsDeleteEvent(req.event) && req.path !in env.fs
    ensures Recorded(st, req, env, last) == Outcome(st, Err(FileNotFound))
  {
  }

  /**
   * A file that exists and whose record, if any, has another modification
   * time goes through the plan: a failed plan is returned with the rows it
   * already wrote, and a plan that succeeds is finished.
   */
  lemma RecordedChangedFile(st: Store, req: Request, env: Env, last: Option<Id>)
    requires WellFormed(st) && !IsDeleteEvent(req.event) && req.path in env.fs
    requires forall f :: f in st.files && st.files[f].path == req.path ==> st.files[f].modifiedAt != Some(env.fs[req.path].mtime)
    ensures var tracked := Tracked(st, req.path); var p := Prepared(st, req, env);
            && (tracked.Some? ==> tracked.value in p.st.files && p.st.files[tracked.value].path == req.path)
            && (p.result.Err? ==> Recorded(st, req, env, last) == Outcome(p.st, Err(p.result.error)))
            && (p.result.Ok? ==>
                  && WellFormed(p.st) && PlanOk(p.st, p.result.value)
                  && Recorded(st, req, env, last) == Finished(p.st, req, env, tracked, p.result.value, last))
  {
    var tracked := Tracked(st, req.path);
    if tracked.Some? {
      TrackedIs(st, req.path, tracked.value);
    }
    CatalogGrownWellFormed(st, Prepared(st, req, env).st);
  }

  /**
   * The photo-match rule over the whole call (lines 78-84 and 97-108):
   * when exactly one photo, in any library, was taken at the file's
   * instant, no photo is created or changed and a success returns that
   * photo.
   */
  lemma RecordedMatchedPhoto(st: Store, req: Request, env: Env, last: Option<Id>, p: Id)
    requires WellFormed(st) && !IsDeleteEvent(req.event) && req.path in env.fs
    requires forall f :: f in st.files && st.files[f].path == req.path ==> st.files[f].modifiedAt != Some(env.fs[req.path].mtime)
    requires var date := DateTaken(env.metadata, env.parseDatetime);
             date.Some? && PhotosTakenAt(st.photos, date) == {p}
    ensures var r := Recorded(st, req, env, last);
            && r.st.photos == st.photos
            && (r.result.Ok? ==> r.result == Ok(PhotoOf(p)))
  {
    var tracked := Tracked(st, req.path);
    var pr := Prepared(st, req, env);
    RecordedChangedFile(st, req, env, last);
    PreparedPlan(st, req, env);
    if pr.result.Ok? {
      FinishedMatchedPhoto(pr.st, req, env, tracked, pr.result.value, last);
    }
  }

  /**
   * The other side of the rule (lines 97-127): when the instant is unknown
   * or no photo was taken then, a success stores one new photo taken at
   * that instant in the request's library under a fresh key, and no other
   * photo is created or changed.
   */
  lemma RecordedNewPhoto(st: Store, req: Request, env: Env, last: Option<Id>)
    requires WellFormed(st) && !IsDeleteEvent(req.event) && req.path in env.fs
    requires forall f :: f in st.files && st.files[f].path == req.path ==> st.files[f].modifiedAt != Some(env.fs[req.path].mtime)
    requires var date := DateTaken(env.metadata, env.parseDatetime);
             date.None? || PhotosTakenAt(st.photos, date) == {}
    ensures var r := Recorded(st, req, env, last);
            r.result.Ok? ==>
              && r.result.value.PhotoOf?
              && var pid := r.result.value.photo;
              && pid !in st.photos && pid in r.st.photos
              && r.st.photos == st.photos[pid := r.st.photos[pid]]
              && r.st.photos[pid].takenAt == DateTaken(env.metadata, env.parseDatetime)
              && r.st.photos[pid].library == Some(req.library)
  {
    var tracked := Tracked(st, req.path);
    var pr := Prepared(st, req, env);
    RecordedChangedFile(st, req, env, last);
    PreparedPlan(st, req, env);
    if pr.result.Ok? {
      FinishedAddsPhoto(st, pr.st, req, env, tracked, pr.result.value, last);
    }
  }

  /** `FinishedNewPhoto` seen from the store before the camera and lens were resolved. */
  lemma FinishedAddsPhoto(st: Store, pst: Store, req: Request, env: Env, tracked: Option<Id>, plan: Plan, last: Option<Id>)
    requires WellFormed(st) && WellFormed(pst) && CatalogGrown(st, pst)
    requires PlanOk(pst, plan) && plan.matched.None? && req.path in env.fs
    requires tracked.Some? ==> tracked.value in pst.files && pst.files[tracked.value].path == req.path
    ensures var r := Finished(pst, req, env, tracked, plan, last);
            r.result.Ok? ==>
              && r.result.value.PhotoOf?
              && var pid := r.result.value.photo;
              && pid !in st.photos && pid in r.st.photos
              && r.st.photos == st.photos[pid := r.st.photos[pid]]
              && r.st.photos[pid].takenAt == plan.date
              && r.st.photos[pid].library == Some(req.library)
  {
    FinishedNewPhoto(pst, req, env, tracked, plan, last);
  }

  /**
   * Recording a file whose photo is new: the photo is stored under the
   * fresh key with the attributes of `NewPhoto`, the tags and links are
   * those `CreatedSpec` describes, and on success the file's record is
   * bound to the photo and exactly one task is enqueued.
   */
  lemma FinishedNewPhoto(st: Store, req: Request, env: Env, tracked: Option<Id>, plan: Plan, last: Option<Id>)
    requires WellFormed(st) && PlanOk(st, plan) && req.path in env.fs
    requires tracked.Some? ==> tracked.value in st.files && st.files[tracked.value].path == req.path
    requires plan.matched.None?
    ensures var r := Finished(st, req, env, tracked, plan, last); var pid := st.nextId;
            var created := Created(st, NewPhoto(req.library, plan, env), req.library, Subjects(env.metadata));
            && pid !in st.photos
            && r.st.photos == st.photos[pid := NewPhoto(req.library, plan, env)]
            && r.st.tags == created.tags && r.st.photoTags == created.photoTags
            && (r.result.Ok? ==>
                  && r.result == Ok(PhotoOf(pid))
                  && (exists f :: f in r.st.files && r.st.files[f] == FileRecord(pid, req.path, env))
                  && r.st.tasks == st.tasks + [Task("ensure_raw_processed", pid, true, Some(req.library))])
  {
    var pid := st.nextId;
    var photo := NewPhoto(req.library, plan, env);
    var st1 := Created(st, photo, req.library, Subjects(env.metadata));
    CreatedWellFormed(st, photo, req.library, Subjects(env.metadata));
    FinishedUnfold(st, req, env, tracked, plan, last, st1, tracked);
    CompletedSpec(st1, pid, tracked, FileRecord(pid, req.path, env));
  }

  /**
   * A successful recording under a matched photo: no photo, tag or link is
   * created, the matched photo's files whose paths vanished are dropped,
   * the file's record is bound to the matched photo, and a task is
   * enqueued for it as for a new photo.
   */
  lemma FinishedMatchedPhoto(st: Store, req: Request, env: Env, tracked: Option<Id>, plan: Plan, last: Option<Id>)
    requires WellFormed(st) && PlanOk(st, plan) && req.path in env.fs
    requires tracked.Some? ==> tracked.value in st.files && st.files[tracked.value].path == req.path
    requires plan.matched.Some?
    ensures var r := Finished(st, req, env, tracked, plan, last); var pid := plan.matched.value;
            && (r.st.photos == st.photos && r.st.tags == st.tags && r.st.photoTags == st.photoTags)
            && (forall f :: f in st.files && st.files[f].photo == pid && st.files[f].path !in env.fs ==> f !in r.st.files)
            && (r.result.Ok? ==>
                  && r.result == Ok(PhotoOf(pid))
                  && (exists f :: f in r.st.files && r.st.files[f] == FileRecord(pid, req.path, env))
                  && r.st.tasks == st.tasks + [Task("ensure_raw_processed", pid, true, st.photos[pid].library)])
  {
    var pid := plan.matched.value;
    var st1 := Swept(st, pid, env.fs);
    var target := if last.Some? then SaveTarget(st.files, last.value, env.fs) else tracked;
    FinishedUnfold(st, req, env, tracked, plan, last, st1, target);
    CompletedSpec(st1, pid, target, FileRecord(pid, req.path, env));
    var r := Completed(st1, pid, target, FileRecord(pid, req.path, env));
    forall f | f in st.files && st.files[f].photo == pid && st.files[f].path !in env.fs
      ensures f !in r.st.files
    {
      assert f !in st1.files;
      assert f != st.nextId;
    }
  }

  /**
   * The loop at line 140 rebinds `photo_file`: when the last file it visits
   * is another record whose path still exists, that record is the one
   * written. If the path was tracked, the write collides with the path's
   * own record and raises; if not, the other file's record is rewritten to
   * the new path and its own path is no longer tracked.
   */
  lemma FinishedWritesLastVisited(st: Store, req: Request, env: Env, tracked: Option<Id>, plan: Plan, last: Option<Id>)
    requires WellFormed(st) && PlanOk(st, plan) && req.path in env.fs
    requires tracked.Some? ==> tracked.value in st.files && st.files[tracked.value].path == req.path
    requires tracked.None? ==> FilesAt(st.files, req.path) == {}
    requires plan.matched.Some? && last.Some? && last.value in st.files && st.files[last.value].path in env.fs
    requires last != tracked
    ensures var r := Finished(st, req, env, tracked, plan, last);
            && (tracked.Some? ==> r.result == Err(DuplicatePath))
            && (tracked.None? ==>
                  && r.result.Ok?
                  && last.value in r.st.files
                  && r.st.files[last.value] == FileRecord(plan.matched.value, req.path, env)
                  && (forall f :: f in r.st.files ==> r.st.files[f].path != st.files[last.value].path))
  {
    if tracked.Some? {
      FinishedCollides(st, req, env, tracked, plan, last);
    } else {
      FinishedRenames(st, req, env, plan, last);
    }
  }

  /** The path is tracked: writing the last visited record to it breaks the unique path constraint. */
  lemma FinishedCollides(st: Store, req: Request, env: Env, tracked: Option<Id>, plan: Plan, last: Option<Id>)
    requires WellFormed(st) && PlanOk(st, plan) && req.path in env.fs
    requires tracked.Some? && tracked.value in st.files && st.files[tracked.value].path == req.path
    requires plan.matched.Some? && last.Some? && last.value in st.files && st.files[last.value].path in env.fs
    requires last != tracked
    ensures Finished(st, req, env, tracked, plan, last).result == Err(DuplicatePath)
  {
    var st1 := Swept(st, plan.matched.value, env.fs);
    FinishedUnfold(st, req, env, tracked, plan, last, st1, Some(last.value));
    assert tracked.value in st1.files;
  }

  /** The path is not tracked: the last visited record moves to it. */
  lemma FinishedRenames(st: Store, req: Request, env: Env, plan: Plan, last: Option<Id>)
    requires WellFormed(st) && PlanOk(st, plan) && req.path in env.fs
    requires FilesAt(st.files, req.path) == {}
    requires plan.matched.Some? && last.Some? && last.value in st.files && st.files[last.value].path in env.fs
    ensures var r := Finished(st, req, env, None, plan, last);
            && r.result.Ok?
            && last.value in r.st.files
            && r.st.files[last.value] == FileRecord(plan.matched.value, req.path, env)
            && (forall f :: f in r.st.files ==> r.st.files[f].path != st.files[last.value].path)
  {
    var st1 := Swept(st, plan.matched.value, env.fs);
    FinishedUnfold(st, req, env, None, plan, last, st1, Some(last.value));
    var oldPath := st.files[last.value].path;
    assert oldPath != req.path by {
      assert last.value !in FilesAt(st.files, req.path);
    }
    forall f | f in st1.files ensures st1.files[f].path != req.path {
      assert f !in FilesAt(st.files, req.path);
    }
    forall f | f in st1.files && f != last.value ensures st1.files[f].path != oldPath {
    }
    CompletedMoves(st1, plan.matched.value, last.value, FileRecord(plan.matched.value, req.path, env), oldPath);
  }

  /** Writing to record `k` a path no record holds leaves no record at `oldPath`, which only `k` held. */
  lemma CompletedMoves(st: Store, pid: Id, k: Id, rec: PhotoFile, oldPath: string)
    requires KeysBelow(st.files, st.nextId) && pid in st.photos && k in st.files
    requires forall f :: f in st.files ==> st.files[f].path != rec.path
    requires forall f :: f in st.files && f != k ==> st.files[f].path != oldPath
    requires rec.path != oldPath
    ensures var r := Completed(st, pid, Some(k), rec);
            && r.result.Ok? && k in r.st.files && r.st.files[k] == rec
            && forall f :: f in r.st.files ==> r.st.files[f].path != oldPath
  {
    assert !PathTaken(st.files, rec.path, Some(k));
  }

  // ---------------------------------------------------------------------
  // The methods

  /** Lines 48-60. */
  method ResolveCamera(db: Catalog, lib: LibraryId, make: string, model: string, date: Option<Time>)
    returns (r: Result<Option<Id>, Error>)
    requires KeysBelow(db.cameras, db.nextId) && KeysBelow(db.lenses, db.nextId)
    modifies db
    ensures Outcome(db.Snapshot(), r) == CameraResolved(old(db.Snapshot()), lib, make, model, date)
  {
    if make == "" || model == "" {
      return Ok(None);
    }
    var found := GetRow(CamerasMatching(db.cameras, lib, make, model));
    match found
    case Several =>
      return Err(MultipleObjectsReturned);
    case Unique(c) =>
      assert c in CamerasMatching(db.cameras, lib, make, model);
      r := ExtendCamera(db, c, date);
    case Absent =>
      var c := db.nextId;
      db.cameras := db.cameras[c := Camera(Some(lib), Some(make), Some(model), Bounds(date, date))];
      db.nextId := c + 1;
      return Ok(Some(c));
  }

  /** Lines 62-76. */
  method ResolveLens(db: Catalog, lib: LibraryId, name: Option<string>, date: Option<Time>)
    returns (r: Result<Option<Id>, Error>)
    requires KeysBelow(db.cameras, db.nextId) && KeysBelow(db.lenses, db.nextId)
    modifies db
    ensures Outcome(db.Snapshot(), r) == LensResolved(old(db.Snapshot()), lib, name, date)
  {
    if !Truthy(name) {
      return Ok(None);
    }
    var found := GetRow(LensesNamed(db.lenses, name));
    match found
    case Several =>
      return Err(MultipleObjectsReturned);
    case Unique(l) =>
      assert l in LensesNamed(db.lenses, name);
      r := ExtendLens(db, l, date);
    case Absent =>
      var l := db.nextId;
      db.lenses := db.lenses[l := Lens(Some(lib), name, Bounds(date, date))];
      db.nextId := l + 1;
      return Ok(Some(l));
  }

  /** Lines 34-96. */
  method Prepare(db: Catalog, req: Request, env: Env) returns (r: Result<Plan, Error>)
    requires db.Valid()
    modifies db
    ensures Outcome(db.Snapshot(), r) == Prepared(old(db.Snapshot()), req, env)
  {
    var md := env.metadata;
    var date := ScanDateTaken(md, env.parseDatetime);
    var make := CameraMake(md, env.limits);
    var model := CameraModel(md, make, env.limits);
    var camera := ResolveCamera(db, req.library, make, model, date);
    if camera.Err? {
      return Err(camera.error);
    }
    var lens := ResolveLens(db, req.library, Get(md, "Lens ID"), date);
    if lens.Err? {
      return Err(lens.error);
    }
    var found := Absent;
    if date.Some? {
      found := GetRow(PhotosTakenAt(db.photos, date));
    }
    if found.Several? {
      return Err(MultipleObjectsReturned);
    }
    var gps := Get(md, "GPS Position");
    var location := None;
    if Truthy(gps) {
      location := env.parseGps(gps.value);
      if location.None? {
        return Err(NotUnpackable);
      }
    }
    var matched := if found.Unique? then Some(found.id) else None;
    return Ok(Plan(date, camera.value, lens.value, matched, location));
  }

  /** Lines 134-137: a new tag for the subject, and its link to the photo. */
  method AddTag(db: Catalog, pid: Id, lib: LibraryId, subject: string)
    modifies db
    ensures db.Snapshot() == TagAdded(old(db.Snapshot()), pid, lib, subject)
  {
    var t := db.nextId;
    db.tags := db.tags[t := Tag(Some(lib), subject, "G")];
    db.photoTags := db.photoTags[t + 1 := PhotoTag(pid, t, 1.0)];
    db.nextId := t + 2;
  }

  /** Lines 130-138: one tag and one link per non-blank subject, in order. */
  method AddSubjectTags(db: Catalog, pid: Id, lib: LibraryId, md: Metadata)
    modifies db
    ensures db.Snapshot() == TagsAdded(old(db.Snapshot()), pid, lib, Subjects(md))
  {
    var pieces := SplitOn(GetOr(md, "Subject", ""), ',');
    AddTagsFor(db, pid, lib, pieces);
  }

  /** The loop of lines 131-138 over the comma-separated pieces of the subject list. */
  method AddTagsFor(db: Catalog, pid: Id, lib: LibraryId, pieces: seq<string>)
    modifies db
    ensures db.Snapshot() == TagsAdded(old(db.Snapshot()), pid, lib, CleanTokens(pieces))
  {
    ghost var st := db.Snapshot();
    var i := 0;
    while i < |pieces|
      invariant i <= |pieces|
      invariant db.Snapshot() == TagsAdded(st, pid, lib, CleanTokens(pieces[..i]))
    {
      TagsAddedStep(st, pid, lib, pieces, i);
      var subject := Strip(pieces[i]);
      if subject != "" {
        AddTag(db, pid, lib, subject);
      }
      i := i + 1;
    }
    assert pieces[..i] == pieces;
  }

  /**
   * Lines 140-142 for one file record: deletes it (the photo stays) when its
   * path no longer exists. Returns the record the loop variable then
   * denotes: None once deleted, since saving it afterwards inserts a row.
   */
  method SweepFile(db: Catalog, f: Id, fs: map<string, FileStat>, ghost files: map<Id, PhotoFile>, ghost done: set<Id>)
    returns (target: Option<Id>)
    requires f in files && f !in done && db.files == SweptAmong(files, done, fs)
    modifies db`files
    ensures db.files == SweptAmong(files, done + {f}, fs)
    ensures target == SaveTarget(files, f, fs)
  {
    if db.files[f].path !in fs {
      db.files := db.files - {f};
      target := None;
    } else {
      target := Some(f);
    }
  }

  /**
   * Lines 139-142: each file of the photo whose path no longer exists is
   * deleted. Returns the record the loop variable ends on (None once it was
   * deleted, so that saving it inserts a new row; `tracked` when the photo
   * has no file), and in `last` the record it visited last.
   */
  method DeleteMissingFiles(db: Catalog, all: set<Id>, fs: map<string, FileStat>, tracked: Option<Id>)
    returns (target: Option<Id>, ghost last: Option<Id>)
    requires all <= db.files.Keys
    modifies db`files
    ensures db.files == SweptAmong(old(db.files), all, fs)
    ensures last.None? <==> all == {}
    ensures last.Some? ==> last.value in all
    ensures target == if last.Some? then SaveTarget(old(db.files), last.value, fs) else tracked
  {
    ghost var files := db.files;
    var visit := all;
    ghost var done := {};
    target, last := tracked, None;
    while visit != {}
      invariant visit <= all && done <= all && visit !! done
      invariant forall g :: g in all ==> g in visit || g in done
      invariant db.files == SweptAmong(files, done, fs)
      invariant last.None? ==> done == {} && target == tracked
      invariant last.Some? ==> last.value in done
      invariant last.Some? ==> target == SaveTarget(files, last.value, fs)
      decreases |visit|
    {
      var f :| f in visit;
      target := SweepFile(db, f, fs, files, done);
      last := Some(f);
      visit, done := visit - {f}, done + {f};
    }
  }

  /** `photo_file.save()` on the target record, or on a new one. */
  method SaveFile(db: Catalog, target: Option<Id>, rec: PhotoFile) returns (r: Result<Id, Error>)
    requires KeysBelow(db.files, db.nextId)
    requires target.Some? ==> target.value in db.files
    modifies db
    ensures Outcome(db.Snapshot(), r) == FileSaved(old(db.Snapshot()), target, rec)
  {
    if exists f :: f in db.files && db.files[f].path == rec.path && Some(f) != target {
      return Err(DuplicatePath);
    }
    if target.Some? {
      db.files := db.files[target.value := rec];
      return Ok(target.value);
    }
    var f := db.nextId;
    db.files := db.files[f := rec];
    db.nextId := f + 1;
    return Ok(f);
  }

  /** Once the photo is settled, `Finished` is `Completed` on the settled store. */
  lemma FinishedUnfold(st: Store, req: Request, env: Env, tracked: Option<Id>, plan: Plan, last: Option<Id>,
                       st1: Store, target: Option<Id>)
    requires WellFormed(st) && PlanOk(st, plan) && req.path in env.fs
    requires tracked.Some? ==> tracked.value in st.files && st.files[tracked.value].path == req.path
    requires plan.matched.None? ==>
               && st1 == Created(st, NewPhoto(req.library, plan, env), req.library, Subjects(env.metadata))
               && target == tracked
    requires plan.matched.Some? ==>
               && st1 == Swept(st, plan.matched.value, env.fs)
               && target == if last.Some? then SaveTarget(st.files, last.value, env.fs) else tracked
    ensures var pid := if plan.matched.Some? then plan.matched.value else st.nextId;
            && KeysBelow(st1.files, st1.nextId) && pid in st1.photos
            && (target.Some? ==> target.value in st1.files)
            && Finished(st, req, env, tracked, plan, last) == Completed(st1, pid, target, FileRecord(pid, req.path, env))
  {
  }

  /** Lines 109-138: saves the new photo under a fresh key, then its subject tags. */
  method CreatePhoto(db: Catalog, photo: Photo, lib: LibraryId, md: Metadata) returns (pid: Id)
    modifies db
    ensures pid == old(db.nextId)
    ensures db.Snapshot() == Created(old(db.Snapshot()), photo, lib, Subjects(md))
  {
    ghost var st := db.Snapshot();
    pid := db.nextId;
    db.photos, db.nextId := db.photos[pid := photo], pid + 1;
    assert db.Snapshot() == PhotoInserted(st, photo);
    AddSubjectTags(db, pid, lib, md);
  }

  /** Lines 160-179: writes the file record, then enqueues a `Task` row. */
  method Complete(db: Catalog, pid: Id, target: Option<Id>, rec: PhotoFile) returns (r: Result<RecordResult, Error>)
    requires KeysBelow(db.files, db.nextId) && pid in db.photos
    requires target.Some? ==> target.value in db.files
    modifies db
    ensures Outcome(db.Snapshot(), r) == Completed(old(db.Snapshot()), pid, target, rec)
  {
    var saved := SaveFile(db, target, rec);
    if saved.Err? {
      return Err(saved.error);
    }
    db.tasks := db.tasks + [Task("ensure_raw_processed", pid, true, db.photos[pid].library)];
    r := Ok(PhotoOf(pid));
  }

  /** Lines 97-179. */
  method Finish(db: Catalog, req: Request, env: Env, tracked: Option<Id>, plan: Plan)
    returns (r: Result<RecordResult, Error>, ghost last: Option<Id>)
    requires db.Valid() && PlanOk(db.Snapshot(), plan) && req.path in env.fs
    requires tracked.Some? ==> tracked.value in db.files && db.files[tracked.value].path == req.path
    modifies db
    ensures plan.matched.None? ==> last.None?
    ensures plan.matched.Some? ==> (last.None? <==> FilesOf(old(db.files), plan.matched.value) == {})
    ensures plan.matched.Some? && last.Some? ==> last.value in FilesOf(old(db.files), plan.matched.value)
    ensures Outcome(db.Snapshot(), r) == Finished(old(db.Snapshot()), req, env, tracked, plan, last)
  {
    ghost var st := db.Snapshot();
    var pid: Id;
    var target := tracked;
    last := None;
    if plan.matched.None? {
      pid := CreatePhoto(db, NewPhoto(req.library, plan, env), req.library, env.metadata);
    } else {
      pid := plan.matched.value;
      target, last := DeleteMissingFiles(db, FilesOf(db.files, pid), env.fs, tracked);
    }
    ghost var st1 := db.Snapshot();
    FinishedUnfold(st, req, env, tracked, plan, last, st1, target);
    r := Complete(db, pid, target, FileRecord(pid, req.path, env));
  }

  /**
   * `record_photo(path, library, inotify_event_type)`: returns what the
   * source returns or the exception it raises, with the tables as they are
   * left (rows saved before an exception stay saved); `last` is the record
   * the loop over the matched photo's files visited last.
   */
  method RecordPhoto(db: Catalog, req: Request, env: Env) returns (r: Result<RecordResult, Error>, ghost last: Option<Id>)
    requires db.Valid()
    modifies db
    ensures LastVisited(old(db.Snapshot()), req, env, last)
    ensures Outcome(db.Snapshot(), r) == Recorded(old(db.Snapshot()), req, env, last)
    ensures db.Valid()
  {
    ghost var st := db.Snapshot();
    last := None;
    var tracked := FindFile(db, req.path);
    if IsDeleteEvent(req.event) {
      if tracked.Some? {
        var _ := DeletePhotoRecord(db, tracked.value);
      }
      r := Ok(Done);
    } else if req.path !in env.fs {
      r := Err(FileNotFound);
    } else if tracked.Some? && db.files[tracked.value].modifiedAt == Some(env.fs[req.path].mtime) {
      r := Ok(Done);
    } else {
      var plan := Prepare(db, req, env);
      ghost var prepared := db.Snapshot();
      if plan.Err? {
        r := Err(plan.error);
        assert Recorded(st, req, env, last) == Outcome(prepared, Err(plan.error));
      } else {
        CatalogGrownWellFormed(st, prepared);
        r, last := Finish(db, req, env, tracked, plan.value);
        assert Recorded(st, req, env, last) == Finished(prepared, req, env, tracked, plan.value, last);
      }
    }
    RecordedWellFormed(st, req, env, last);
  }
}
