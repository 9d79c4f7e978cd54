/**
 * The table updates of photonix/photos/utils/db.py. Each operation is a
 * method on the `Catalog` that changes the tables field by field as the
 * source does, proved equal to a ghost function on `Store` values; the
 * lemmas state what the source promises about those functions.
 */
module PhotonixDb {
  import opened Wrappers
  import opened Text
  import opened Records
  import opened PhotonixRules

  // ---------------------------------------------------------------------
  // Deleting files, and purging orphans

  /** The rows of a table whose key is not in `gone`. */
  function Outside<V>(rows: map<Id, V>, gone: set<Id>): (r: map<Id, V>)
    ensures r.Keys == rows.Keys - gone
    ensures forall k :: k in r ==> r[k] == rows[k]
  {
    map k | k in rows && k !in gone :: rows[k]
  }

  /** The photo-tag links whose photo is not in `gone`. */
  function LinksOutside(links: map<Id, PhotoTag>, gone: set<Id>): (r: map<Id, PhotoTag>)
    ensures forall k :: k in r <==> k in links && links[k].photo !in gone
    ensures forall k :: k in r ==> r[k] == links[k]
  {
    map k | k in links && links[k].photo !in gone :: links[k]
  }

  /** The tags some link refers to. */
  function LinkedTags(tags: map<Id, Tag>, links: map<Id, PhotoTag>): map<Id, Tag> {
    map t | t in tags && (exists k :: k in links && links[k].tag == t) :: tags[t]
  }

  /** The cameras some photo refers to. */
  function UsedCameras(cameras: map<Id, Camera>, photos: map<Id, Photo>): map<Id, Camera> {
    map c | c in cameras && (exists p :: p in photos && photos[p].camera == Some(c)) :: cameras[c]
  }

  /** The lenses some photo refers to. */
  function UsedLenses(lenses: map<Id, Lens>, photos: map<Id, Photo>): map<Id, Lens> {
    map l | l in lenses && (exists p :: p in photos && photos[p].lens == Some(l)) :: lenses[l]
  }

  /**
   * `delete_photofile_and_photo_record`: the file record goes; its photo
   * goes too when no other file refers to it, taking its tag links with it.
   */
  function FileRemoved(st: Store, fid: Id): Store
    requires fid in st.files
  {
    var p := st.files[fid].photo;
    var files := st.files - {fid};
    if FilesOf(files, p) == {} then
      st.(files := files, photos := Outside(st.photos, {p}), photoTags := LinksOutside(st.photoTags, {p}))
    else
      st.(files := files)
  }

  /** The three orphan deletions: tags without links, cameras and lenses without photos. */
  function Purged(st: Store): Store {
    st.(tags := LinkedTags(st.tags, st.photoTags),
        cameras := UsedCameras(st.cameras, st.photos),
        lenses := UsedLenses(st.lenses, st.photos))
  }

  /** `delete_photo_record`: the cascade, then the orphan purge. */
  function PhotoRecordDeleted(st: Store, fid: Id): Store
    requires fid in st.files
  {
    Purged(FileRemoved(st, fid))
  }

  /** The photos that had a file in `gone` and have none once `gone` is removed. */
  ghost function Emptied(st: Store, gone: set<Id>): set<Id> {
    set p | p in st.photos && (exists f :: f in gone && f in st.files && st.files[f].photo == p)
                           && FilesOf(Outside(st.files, gone), p) == {}
  }

  /**
   * Deleting the files `gone` one by one with the cascade, in any order: the
   * files go, and so does every photo that had a file in `gone` and has no
   * file left, with its tag links.
   */
  ghost function FilesRemoved(st: Store, gone: set<Id>): Store {
    var emptied := Emptied(st, gone);
    st.(files := Outside(st.files, gone),
        photos := Outside(st.photos, emptied),
        photoTags := LinksOutside(st.photoTags, emptied))
  }

  /** The file records whose path starts with `dir` (a plain string prefix). */
  function FilesUnder(files: map<Id, PhotoFile>, dir: string): set<Id> {
    set f | f in files && StartsWith(files[f].path, dir)
  }

  /** Purging keeps a well-formed store well-formed and leaves no orphan. */
  lemma PurgedWellFormed(st: Store)
    requires WellFormed(st)
    ensures WellFormed(Purged(st)) && OrphanFree(Purged(st))
  {
    var r := Purged(st);
    forall t | t in r.tags ensures TagUsed(r, t) {
      var k :| k in st.photoTags && st.photoTags[k].tag == t;
      assert r.photoTags[k].tag == t;
    }
    forall c | c in r.cameras ensures CameraUsed(r, c) {
      var p :| p in st.photos && st.photos[p].camera == Some(c);
      assert r.photos[p].camera == Some(c);
    }
    forall l | l in r.lenses ensures LensUsed(r, l) {
      var p :| p in st.photos && st.photos[p].lens == Some(l);
      assert r.photos[p].lens == Some(l);
    }
    forall k | k in r.photoTags ensures r.photoTags[k].tag in r.tags {
      assert st.photoTags[k].tag in st.tags;
    }
    forall p | p in r.photos ensures PhotoRefsOk(r, r.photos[p]) {
      assert PhotoRefsOk(st, st.photos[p]);
    }
  }

  /**
   * Purging removes exactly the orphans, a surviving row keeps its value,
   * no other table changes, and a second purge changes nothing.
   */
  lemma PurgedSpec(st: Store)
    ensures var r := Purged(st);
            && r.files == st.files && r.photos == st.photos && r.photoTags == st.photoTags
            && r.tasks == st.tasks && r.nextId == st.nextId
            && (forall t :: t in r.tags <==> t in st.tags && TagUsed(st, t))
            && (forall c :: c in r.cameras <==> c in st.cameras && CameraUsed(st, c))
            && (forall l :: l in r.lenses <==> l in st.lenses && LensUsed(st, l))
            && (forall t :: t in r.tags ==> r.tags[t] == st.tags[t])
            && (forall c :: c in r.cameras ==> r.cameras[c] == st.cameras[c])
            && (forall l :: l in r.lenses ==> r.lenses[l] == st.lenses[l])
            && Purged(r) == r
  {
    var r := Purged(st);
    assert LinkedTags(r.tags, r.photoTags) == r.tags;
    assert UsedCameras(r.cameras, r.photos) == r.cameras;
    assert UsedLenses(r.lenses, r.photos) == r.lenses;
  }

  /**
   * `delete_photofile_and_photo_record`: the file is gone and no other file
   * changes; its photo is gone iff no other file referred to it, and then
   * so are exactly its tag links; nothing else changes.
   */
  lemma FileRemovedSpec(st: Store, fid: Id)
    requires fid in st.files && st.files[fid].photo in st.photos
    ensures var r := FileRemoved(st, fid); var p := st.files[fid].photo;
            && r.files.Keys == st.files.Keys - {fid}
            && (forall f :: f in r.files ==> r.files[f] == st.files[f])
            && (p !in r.photos <==> forall f :: f in st.files && f != fid ==> st.files[f].photo != p)
            && (forall q :: q in st.photos && q != p ==> q in r.photos && r.photos[q] == st.photos[q])
            && r.photos.Keys <= st.photos.Keys
            && (p in r.photos ==> r.photos[p] == st.photos[p])
            && (forall k :: k in r.photoTags <==> k in st.photoTags && (st.photoTags[k].photo != p || p in r.photos))
            && (forall k :: k in r.photoTags ==> r.photoTags[k] == st.photoTags[k])
            && r.tags == st.tags && r.cameras == st.cameras && r.lenses == st.lenses
            && r.tasks == st.tasks && r.nextId == st.nextId
  {
    var p := st.files[fid].photo;
    var files := st.files - {fid};
    if FilesOf(files, p) == {} {
      forall f | f in st.files && f != fid ensures st.files[f].photo != p {
        assert f !in FilesOf(files, p);
      }
    } else {
      var f :| f in FilesOf(files, p);
      assert f in st.files && f != fid && st.files[f].photo == p;
    }
  }

  /** The cascade keeps a well-formed store well-formed. */
  lemma FileRemovedWellFormed(st: Store, fid: Id)
    requires WellFormed(st) && fid in st.files
    ensures WellFormed(FileRemoved(st, fid))
  {
    var p := st.files[fid].photo;
    var files := st.files - {fid};
    if FilesOf(files, p) == {} {
      forall f | f in files ensures files[f].photo !in {p} {
        assert f !in FilesOf(files, p);
      }
      PhotosDroppedWellFormed(st, files, {p});
    } else {
      FilesDroppedWellFormed(st, files);
    }
  }

  /** Dropping file records from a well-formed store keeps it well-formed. */
  lemma FilesDroppedWellFormed(st: Store, files: map<Id, PhotoFile>)
    requires WellFormed(st)
    requires forall f :: f in files ==> f in st.files && files[f] == st.files[f]
    ensures WellFormed(st.(files := files))
  {
    assert UniquePaths(files);
  }

  /**
   * Dropping file records and photos that none of the remaining ones refers
   * to, with their tag links, keeps a store well-formed.
   */
  lemma PhotosDroppedWellFormed(st: Store, files: map<Id, PhotoFile>, gone: set<Id>)
    requires WellFormed(st)
    requires forall f :: f in files ==> f in st.files && files[f] == st.files[f] && files[f].photo !in gone
    ensures WellFormed(st.(files := files, photos := Outside(st.photos, gone), photoTags := LinksOutside(st.photoTags, gone)))
  {
    var r := st.(files := files, photos := Outside(st.photos, gone), photoTags := LinksOutside(st.photoTags, gone));
    forall q | q in r.photos ensures PhotoRefsOk(r, r.photos[q]) {
      assert PhotoRefsOk(st, st.photos[q]);
    }
    assert UniquePaths(r.files);
  }

  /**
   * `delete_photo_record`: the cascade of `FileRemovedSpec`, and afterwards
   * no orphan tag, camera or lens.
   */
  lemma PhotoRecordDeletedSpec(st: Store, fid: Id)
    requires WellFormed(st) && fid in st.files
    ensures var r := PhotoRecordDeleted(st, fid); var p := st.files[fid].photo;
            && r.files == FileRemoved(st, fid).files
            && r.photos == FileRemoved(st, fid).photos
            && (p !in r.photos <==> forall f :: f in st.files && f != fid ==> st.files[f].photo != p)
            && WellFormed(r) && OrphanFree(r)
  {
    FileRemovedSpec(st, fid);
    FileRemovedWellFormed(st, fid);
    PurgedSpec(FileRemoved(st, fid));
    PurgedWellFormed(FileRemoved(st, fid));
  }

  /** Removing one more file adds its photo to the emptied ones exactly when that was its last file. */
  lemma EmptiedStep(st: Store, gone: set<Id>, fid: Id)
    requires fid in st.files && fid !in gone && st.files[fid].photo in st.photos
    ensures var p := st.files[fid].photo;
            && p !in Emptied(st, gone)
            && Emptied(st, gone + {fid}) ==
               Emptied(st, gone) + (if FilesOf(Outside(st.files, gone + {fid}), p) == {} then {p} else {})
  {
    var p := st.files[fid].photo;
    assert fid in FilesOf(Outside(st.files, gone), p);
    forall q | q != p
      ensures q in Emptied(st, gone + {fid}) <==> q in Emptied(st, gone)
    {
      assert FilesOf(Outside(st.files, gone + {fid}), q) == FilesOf(Outside(st.files, gone), q);
    }
  }

  lemma OutsideTwice<V>(rows: map<Id, V>, e: set<Id>, p: Id)
    ensures Outside(Outside(rows, e), {p}) == Outside(rows, e + {p})
  {
  }

  lemma LinksOutsideTwice(links: map<Id, PhotoTag>, e: set<Id>, p: Id)
    ensures LinksOutside(LinksOutside(links, e), {p}) == LinksOutside(links, e + {p})
  {
  }

  /** Removing one more file after a set of them is removing the larger set. */
  lemma FilesRemovedStep(st: Store, gone: set<Id>, fid: Id)
    requires fid in st.files && fid !in gone && st.files[fid].photo in st.photos
    ensures fid in FilesRemoved(st, gone).files
    ensures FileRemoved(FilesRemoved(st, gone), fid) == FilesRemoved(st, gone + {fid})
  {
    var a := FilesRemoved(st, gone);
    var p := st.files[fid].photo;
    var e := Emptied(st, gone);
    EmptiedStep(st, gone, fid);
    assert a.files - {fid} == Outside(st.files, gone + {fid});
    if FilesOf(a.files - {fid}, p) == {} {
      OutsideTwice(st.photos, e, p);
      LinksOutsideTwice(st.photoTags, e, p);
    }
  }

  /** Removing no files changes nothing. */
  lemma FilesRemovedNone(st: Store)
    ensures FilesRemoved(st, {}) == st
  {
    assert Emptied(st, {}) == {};
    assert Outside(st.files, {}) == st.files;
    assert Outside(st.photos, {}) == st.photos;
    assert LinksOutside(st.photoTags, {}) == st.photoTags;
  }

  /** Removing files keeps a well-formed store well-formed. */
  lemma FilesRemovedWellFormed(st: Store, gone: set<Id>)
    requires WellFormed(st)
    ensures WellFormed(FilesRemoved(st, gone))
  {
    var files := Outside(st.files, gone);
    var emptied := Emptied(st, gone);
    forall f | f in files ensures files[f].photo !in emptied {
      assert f in FilesOf(files, files[f].photo);
    }
    PhotosDroppedWellFormed(st, files, emptied);
  }

  /** `delete_child_dir_all_photos`. */
  ghost function DirectoryDeleted(st: Store, dir: string): Store {
    Purged(FilesRemoved(st, FilesUnder(st.files, dir)))
  }

  /**
   * `delete_child_dir_all_photos`: no file left has `dir` as a string
   * prefix of its path, every other file is untouched, a photo keeps its
   * row when one of its files is outside `dir`, and there is no orphan
   * tag, camera or lens.
   */
  lemma DirectoryDeletedSpec(st: Store, dir: string)
    requires WellFormed(st)
    ensures var r := DirectoryDeleted(st, dir);
            && (forall f :: f in r.files ==> !StartsWith(r.files[f].path, dir))
            && (forall f :: f in st.files && !StartsWith(st.files[f].path, dir) ==> f in r.files && r.files[f] == st.files[f])
            && (forall f :: f in st.files && !StartsWith(st.files[f].path, dir) ==>
                  st.files[f].photo in r.photos && r.photos[st.files[f].photo] == st.photos[st.files[f].photo])
            && WellFormed(r) && OrphanFree(r)
  {
    var mid := FilesRemoved(st, FilesUnder(st.files, dir));
    FilesRemovedWellFormed(st, FilesUnder(st.files, dir));
    PurgedWellFormed(mid);
    PurgedSpec(mid);
  }

  // -- the methods

  /** The orphan purge that ends `delete_photo_record` and `delete_child_dir_all_photos`. */
  method PurgeOrphans(db: Catalog)
    requires db.Valid()
    modifies db
    ensures db.Snapshot() == Purged(old(db.Snapshot()))
    ensures db.Valid() && OrphanFree(db.Snapshot())
  {
    PurgedWellFormed(db.Snapshot());
    db.tags := LinkedTags(db.tags, db.photoTags);
    db.cameras := UsedCameras(db.cameras, db.photos);
    db.lenses := UsedLenses(db.lenses, db.photos);
  }

  /** `delete_photofile_and_photo_record(photo_file_obj)`. */
  method DeletePhotofileAndPhotoRecord(db: Catalog, fid: Id)
    requires db.Valid() && fid in db.files
    modifies db
    ensures db.Snapshot() == FileRemoved(old(db.Snapshot()), fid)
    ensures db.Valid()
  {
    FileRemovedWellFormed(db.Snapshot(), fid);
    var photo := db.files[fid].photo;
    db.files := db.files - {fid};
    var remaining := set f | f in db.files && db.files[f].photo == photo;
    if remaining == {} {
      db.photos := Outside(db.photos, {photo});
      db.photoTags := LinksOutside(db.photoTags, {photo});
    }
  }

  /** `delete_photo_record(photo_file_obj)`: always returns true. */
  method DeletePhotoRecord(db: Catalog, fid: Id) returns (r: bool)
    requires db.Valid() && fid in db.files
    modifies db
    ensures r
    ensures db.Snapshot() == PhotoRecordDeleted(old(db.Snapshot()), fid)
    ensures db.Valid()
  {
    DeletePhotofileAndPhotoRecord(db, fid);
    PurgeOrphans(db);
    r := true;
  }

  /**
   * The loop of `delete_child_dir_all_photos`: the files of `gone`, fetched
   * once, are deleted one at a time with the cascade, in whatever order the
   * database yields them.
   */
  method DeleteFiles(db: Catalog, gone: set<Id>)
    requires db.Valid() && gone <= db.files.Keys
    modifies db
    ensures db.Snapshot() == FilesRemoved(old(db.Snapshot()), gone)
    ensures db.Valid()
  {
    ghost var st := db.Snapshot();
    var todo := gone;
    ghost var done: set<Id> := {};
    FilesRemovedNone(st);
    while todo != {}
      invariant todo <= gone && done <= gone && todo !! done
      invariant forall g :: g in gone ==> g in todo || g in done
      invariant db.Snapshot() == FilesRemoved(st, done)
      decreases |todo|
    {
      var f :| f in todo;
      assert st.files[f].photo in st.photos;
      FilesRemovedWellFormed(st, done);
      FilesRemovedStep(st, done, f);
      DeletePhotofileAndPhotoRecord(db, f);
      todo, done := todo - {f}, done + {f};
    }
    assert done == gone;
    FilesRemovedWellFormed(st, done);
  }

  /**
   * `delete_child_dir_all_photos(directory_path, library_id)`: every file
   * whose path starts with the directory goes, with the cascade, then the
   * orphans are purged. The library is not consulted.
   */
  method DeleteChildDirAllPhotos(db: Catalog, dir: string, library: LibraryId) returns (r: bool)
    requires db.Valid()
    modifies db
    ensures r
    ensures db.Snapshot() == DirectoryDeleted(old(db.Snapshot()), dir)
    ensures db.Valid()
  {
    var matched := FilesUnder(db.files, dir);
    DeleteFiles(db, matched);
    PurgeOrphans(db);
    r := true;
  }

  // ---------------------------------------------------------------------
  // Renaming

  /** What `move_or_rename_photo` returns: the renamed file record, or `True`. */
  datatype MoveResult = Renamed(file: Id) | Swallowed

  /**
   * `move_or_rename_photo`: the file at the old path takes the new path.
   * Every failure is swallowed and yields `True` with nothing changed: no
   * file at the old path, or another file already at the new path (the
   * unique constraint on the path).
   */
  ghost function Moved(st: Store, oldPath: string, newPath: string): (Store, MoveResult) {
    match GetOne(FilesAt(st.files, oldPath))
    case Unique(f) =>
      if FilesAt(st.files, newPath) - {f} != {} then (st, Swallowed)
      else (st.(files := st.files[f := st.files[f].(path := newPath)]), Renamed(f))
    case _ => (st, Swallowed)
  }

  /**
   * The rename succeeds exactly when a file is at the old path and no other
   * file is at the new one; it then changes that file's path and nothing
   * else, and otherwise changes nothing.
   */
  lemma MovedSpec(st: Store, oldPath: string, newPath: string)
    requires UniquePaths(st.files)
    ensures var (r, res) := Moved(st, oldPath, newPath);
            && (res.Renamed? <==>
                  (exists f :: f in st.files && st.files[f].path == oldPath) &&
                  (forall g :: g in st.files && st.files[g].path == newPath ==> st.files[g].path == oldPath))
            && (res.Swallowed? ==> r == st)
            && (res.Renamed? ==>
                  && res.file in st.files && st.files[res.file].path == oldPath
                  && r == st.(files := st.files[res.file := st.files[res.file].(path := newPath)]))
  {
    var ids := FilesAt(st.files, oldPath);
    PathLookupNotSeveral(st, oldPath);
    if exists f :: f in st.files && st.files[f].path == oldPath {
      var f :| f in st.files && st.files[f].path == oldPath;
      assert f in ids;
      assert ids == {f};
      if FilesAt(st.files, newPath) - {f} != {} {
        var g :| g in FilesAt(st.files, newPath) - {f};
        assert st.files[g].path != oldPath;
      } else {
        forall g | g in st.files && st.files[g].path == newPath
          ensures st.files[g].path == oldPath
        {
          assert g in FilesAt(st.files, newPath);
        }
      }
    }
  }

  /** A rename keeps a well-formed store well-formed: paths stay unique. */
  lemma MovedWellFormed(st: Store, oldPath: string, newPath: string)
    requires WellFormed(st)
    ensures WellFormed(Moved(st, oldPath, newPath).0)
  {
    MovedSpec(st, oldPath, newPath);
    var (r, res) := Moved(st, oldPath, newPath);
    if res.Renamed? {
      var f := res.file;
      forall g | g in st.files && st.files[g].path == newPath
        ensures g == f
      {
        assert g !in FilesAt(st.files, newPath) - {f};
      }
      assert UniquePaths(r.files);
    }
  }

  /** `move_or_rename_photo(photo_old_path, photo_new_path, library_id)`. */
  method MoveOrRenamePhoto(db: Catalog, oldPath: string, newPath: string, library: LibraryId) returns (r: MoveResult)
    requires db.Valid()
    modifies db
    ensures (db.Snapshot(), r) == Moved(old(db.Snapshot()), oldPath, newPath)
    ensures db.Valid()
  {
    MovedWellFormed(db.Snapshot(), oldPath, newPath);
    var found := GetRow(set f | f in db.files && db.files[f].path == oldPath);
    if found.Unique? {
      var f := found.id;
      if exists g :: g in db.files && db.files[g].path == newPath && g != f {
        var g :| g in db.files && db.files[g].path == newPath && g != f;
        assert g in FilesAt(db.files, newPath) - {f};
        return Swallowed;
      }
      assert FilesAt(db.files, newPath) - {f} == {};
      db.files := db.files[f := db.files[f].(path := newPath)];
      return Renamed(f);
    }
    return Swallowed;
  }
}
