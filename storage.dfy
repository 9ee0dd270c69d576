/** Buckets and objects over an abstract file system (Bucket, main.py:508-637,
    and Object, main.py:652-724).

    The file system is a set of directory paths plus, for each object
    directory, the files written into it. The metadata file is held as the map
    it encodes: reading back what `json.dump` wrote gives the same map. */
module Storage {
  import opened Outcomes
  import opened Metadata

  type Bytes = seq<bv8>

  /** The fixed name of an object's metadata file. */
  const MetaFileName: string := "meta_data.json"

  /** A lower-case hexadecimal digit. */
  predicate IsHexDigit(c: char) {
    '0' <= c <= '9' || 'a' <= c <= 'f'
  }

  /** The canonical text of a UUID: 32 lower-case hex digits in groups of
      8-4-4-4-12 separated by dashes, which is what `str(uuid.uuid4())` gives. */
  predicate IsUuidText(s: string) {
    && |s| == 36
    && forall i :: 0 <= i < 36 ==>
         if i == 8 || i == 13 || i == 18 || i == 23 then s[i] == '-' else IsHexDigit(s[i])
  }

  type Uuid = s: string | IsUuidText(s) witness "00000000-0000-0000-0000-000000000000"

  /** A payload file named by a UUID never collides with the metadata file. */
  lemma UuidIsNotMetaFileName(u: Uuid)
    ensures u != MetaFileName
  {
    assert |MetaFileName| == 14;
  }

  /** The files of one object directory: the metadata file, if written, and
      the other files by name. */
  datatype ObjectDir = ObjectDir(metaDoc: Option<Meta>, payloads: map<string, Bytes>)

  /** `os.path.join(a, b)` on POSIX: an absolute `b` replaces `a`; otherwise a
      separator is inserted unless `a` is empty or already ends with one. */
  function PathJoin(a: string, b: string): (p: string)
    ensures |b| > 0 && b[0] == '/' ==> p == b
    ensures |b| <= |p| <= |a| + 1 + |b|
  {
    if |b| > 0 && b[0] == '/' then b
    else if a == [] || a[|a| - 1] == '/' then a + b
    else a + "/" + b
  }

  /** An absolute second part is the whole result; otherwise the result
      starts with the first part and ends with the second. */
  lemma PathJoinShape(a: string, b: string)
    ensures |b| > 0 && b[0] == '/' ==> PathJoin(a, b) == b
    ensures (|b| == 0 || b[0] != '/') ==>
      var p := PathJoin(a, b);
      |a| + |b| <= |p| && p[..|a|] == a && p[|p| - |b|..] == b
  {
    if (|b| == 0 || b[0] != '/') && !(a == [] || a[|a| - 1] == '/') {
      var p := a + "/" + b;
      assert p[..|a|] == a;
      assert p[|p| - |b|..] == b;
    }
  }

  /** The proper ancestors of a path, which `os.makedirs` creates as well. */
  function Ancestors(p: string): set<string> {
    set i | 0 < i < |p| && p[i] == '/' :: p[..i]
  }

  /** `d` is `b` or lies in the tree under `b`. */
  predicate Within(d: string, b: string) {
    d == b || b + "/" <= d
  }

  /** The file system the service reads and writes. */
  class FileSystem {
    var dirs: set<string>
    var objects: map<string, ObjectDir>

    /** Files live only in existing directories, and no other file of an
        object directory is named like the metadata file. */
    ghost predicate Valid()
      reads this
    {
      && objects.Keys <= dirs
      && forall p :: p in objects ==> MetaFileName !in objects[p].payloads
    }

    /** An empty file system. */
    constructor ()
      ensures Valid() && dirs == {} && objects == map[]
    {
      dirs := {};
      objects := map[];
    }

    /** The files of directory `p` (none if nothing was written there). */
    function Listing(p: string): ObjectDir
      reads this
    {
      if p in objects then objects[p] else ObjectDir(None, map[])
    }

    /** `os.makedirs(p, exist_ok)`: an existing `p` raises FileExistsError
        unless `exist_ok`; otherwise `p` and its ancestors exist afterwards. */
    method MakeDirs(p: string, existOk: bool) returns (r: Result<()>)
      requires Valid()
      modifies this
      ensures Valid() && objects == old(objects)
      ensures p in old(dirs) && !existOk ==> r == Err(FileExists) && dirs == old(dirs)
      ensures p !in old(dirs) || existOk ==> r == Ok(()) && dirs == old(dirs) + {p} + Ancestors(p)
    {
      if p in dirs && !existOk {
        return Err(FileExists);
      }
      dirs := dirs + {p} + Ancestors(p);
      return Ok(());
    }

    /** `shutil.rmtree(b)`: `b` and everything under it is gone. */
    method RemoveTree(b: string)
      requires Valid()
      modifies this
      ensures Valid()
      ensures dirs == set d | d in old(dirs) && !Within(d, b)
      ensures objects == map p | p in old(objects) && !Within(p, b) :: old(objects)[p]
    {
      dirs := set d | d in dirs && !Within(d, b);
      objects := map p | p in objects && !Within(p, b) :: objects[p];
    }

    /** Write the metadata file of directory `p` (`json.dump` into `meta_data.json`). */
    method WriteMeta(p: string, meta: Meta)
      requires Valid() && p in dirs
      modifies this
      ensures Valid() && dirs == old(dirs)
      ensures objects == old(objects)[p := old(Listing(p)).(metaDoc := Some(meta))]
    {
      objects := objects[p := Listing(p).(metaDoc := Some(meta))];
    }

    /** Write the payload file `name` of directory `p`. */
    method WritePayload(p: string, name: string, data: Bytes)
      requires Valid() && p in dirs && name != MetaFileName
      modifies this
      ensures Valid() && dirs == old(dirs)
      ensures objects == old(objects)[p := old(Listing(p)).(payloads := old(Listing(p)).payloads[name := data])]
    {
      var d := Listing(p);
      objects := objects[p := d.(payloads := d.payloads[name := data])];
    }
  }

  /** An object once constructed (the Object class): nothing changes it
      afterwards, so it is a value. */
  datatype StoredObject = StoredObject(
    uuid: Uuid, name: string, objType: string, data: Bytes, bucketName: string, meta: Meta)

  /** The fields the constructor adds to every object's metadata. */
  function SystemMeta(uuid: Uuid, name: string, bucketName: string, objType: string): (m: Meta)
    ensures m.Keys == {"uuid", "object name", "bucket_name", "object_type"}
    ensures forall k :: k in m ==> m[k].Text?
    ensures m["uuid"] == Text(uuid)
  {
    map["uuid" := Text(uuid), "object name" := Text(name),
        "bucket_name" := Text(bucketName), "object_type" := Text(objType)]
  }

  /** `Object(name, bucket_name, type, data, tags)`: a `None` field raises
      NullException; a missing bucket raises BucketNotFoundException; a name
      listed in the process's working directory raises
      ObjectAlreadyExistsException. Otherwise the metadata is the system
      fields overlaid by the caller's tags, so a tag wins on a shared key.
      The working-directory listing and the fresh UUID are inputs. */
  function NewObject(fs: FileSystem, name: Option<string>, bucketName: Option<string>,
                     objType: Option<string>, data: Option<Bytes>, tags: Option<Meta>,
                     cwdListing: set<string>, uuid: Uuid): (r: Result<StoredObject>)
    reads fs
    ensures r == Err(NullValue) <==>
      name.None? || bucketName.None? || objType.None? || data.None? || tags.None?
    ensures r == Err(BucketNotFound) <==>
      && name.Some? && bucketName.Some? && objType.Some? && data.Some? && tags.Some?
      && bucketName.value !in fs.dirs
    ensures r == Err(AlreadyExists) <==>
      && name.Some? && bucketName.Some? && objType.Some? && data.Some? && tags.Some?
      && bucketName.value in fs.dirs && name.value in cwdListing
    ensures r.Ok? ==>
      && r.value.uuid == uuid && r.value.name == name.value && r.value.objType == objType.value
      && r.value.data == data.value && r.value.bucketName == bucketName.value
      && r.value.meta.Keys == {"uuid", "object name", "bucket_name", "object_type"} + tags.value.Keys
      && (forall k :: k in tags.value ==> r.value.meta[k] == tags.value[k])
      && (forall k :: k in SystemMeta(uuid, name.value, bucketName.value, objType.value) && k !in tags.value ==>
            r.value.meta[k] == SystemMeta(uuid, name.value, bucketName.value, objType.value)[k])
  {
    if name.None? || bucketName.None? || objType.None? || data.None? || tags.None? then
      Err(NullValue)
    else if bucketName.value !in fs.dirs then
      Err(BucketNotFound)
    else if name.value in cwdListing then
      Err(AlreadyExists)
    else
      var base := SystemMeta(uuid, name.value, bucketName.value, objType.value);
      Ok(StoredObject(uuid, name.value, objType.value, data.value, bucketName.value, base + tags.value))
  }

  /** A named bucket: a directory of object directories, with its own metadata. */
  class Bucket {
    const name: string
    const meta: MetaData

    /** `Bucket(name, is_private)`: the metadata starts with the creation time
        (an input here), the bucket name and the privacy flag. */
    constructor (name: string, isPrivate: bool, now: int)
      ensures this.name == name && fresh(meta)
      ensures meta.entries == map["Creation Time" := Timestamp(now), "Bucket Name" := Text(name),
                                  "Is Private" := Flag(isPrivate)]
    {
      this.name := name;
      var m := new MetaData();
      m.AddAllMetaData(map["Creation Time" := Timestamp(now), "Bucket Name" := Text(name),
                           "Is Private" := Flag(isPrivate)]);
      meta := m;
    }

    /** `create_bucket`: make the directory; an existing one is tolerated
        (FileExistsError is caught and logged). */
    method CreateBucket(fs: FileSystem)
      requires fs.Valid()
      modifies fs
      ensures fs.Valid() && fs.objects == old(fs.objects)
      ensures fs.dirs == if name in old(fs.dirs) then old(fs.dirs) else old(fs.dirs) + {name} + Ancestors(name)
    {
      var made := fs.MakeDirs(name, false);
    }

    /** `delete_bucket`: remove the bucket's whole tree if it exists. */
    method DeleteBucket(fs: FileSystem)
      requires fs.Valid()
      modifies fs
      ensures fs.Valid()
      ensures name !in old(fs.dirs) ==> fs.dirs == old(fs.dirs) && fs.objects == old(fs.objects)
      ensures name in old(fs.dirs) ==>
        && fs.dirs == (set d | d in old(fs.dirs) && !Within(d, name))
        && fs.objects == (map p | p in old(fs.objects) && !Within(p, name) :: old(fs.objects)[p])
      ensures name !in fs.dirs
    {
      if name in fs.dirs {
        fs.RemoveTree(name);
      }
    }

    /** `update_meta_data`: as MetaData's, with NotFound and NullKeyValue
        swallowed, so a failed update is a no-op. */
    method UpdateMetaData(key: Option<string>, value: Value)
      modifies meta
      ensures meta.entries ==
        if key.Some? && key.value in old(meta.entries) then old(meta.entries)[key.value := value]
        else old(meta.entries)
    {
      var r := meta.UpdateMetaData(key, value);
    }

    /** `delete_meta_data`: as MetaData's, with failures swallowed. */
    method DeleteMetaData(key: Option<string>)
      modifies meta
      ensures meta.entries ==
        if key.Some? && key.value in old(meta.entries) then old(meta.entries) - {key.value}
        else old(meta.entries)
    {
      var r := meta.DeleteMetaData(key);
    }

    /** `add_all_meta_data`: every entry of `m` is stored, `m` winning. */
    method AddAllMetaData(m: Meta)
      modifies meta
      ensures meta.entries == old(meta.entries) + m
    {
      meta.AddAllMetaData(m);
    }

    /** `add_meta_data`: as MetaData's, with a `None` key or value swallowed. */
    method AddMetaData(key: Option<string>, value: Value)
      modifies meta
      ensures meta.entries ==
        if key.Some? && value != Null then old(meta.entries)[key.value := value] else old(meta.entries)
    {
      var r := meta.AddMetaData(key, value);
    }

    /** `get_path(name, type)`: the object's directory, `bucket/name.type`. */
    function GetPath(objectName: string, objectType: string): (p: string)
      ensures var leaf := objectName + "." + objectType;
        |leaf| <= |p| && p[|p| - |leaf|..] == leaf
      ensures |objectName| == 0 || objectName[0] != '/' ==> |name| <= |p| && p[..|name|] == name
    {
      PathJoinShape(name, objectName + "." + objectType);
      PathJoin(name, objectName + "." + objectType)
    }

    /** `upload_object`: a no-op when the object's path already exists;
        otherwise create the directory, then write the metadata file and the
        payload file named by the object's UUID. */
    method UploadObject(fs: FileSystem, obj: StoredObject)
      requires fs.Valid()
      modifies fs
      ensures fs.Valid()
      ensures GetPath(obj.name, obj.objType) in old(fs.dirs) ==>
        fs.dirs == old(fs.dirs) && fs.objects == old(fs.objects)
      ensures GetPath(obj.name, obj.objType) !in old(fs.dirs) ==>
        var path := GetPath(obj.name, obj.objType);
        && fs.dirs == old(fs.dirs) + {path} + Ancestors(path)
        && fs.objects == old(fs.objects)[path := ObjectDir(Some(obj.meta), map[obj.uuid := obj.data])]
    {
      var path := GetPath(obj.name, obj.objType);
      if path in fs.dirs {
        return;
      }
      var made := fs.MakeDirs(path, true);
      fs.WriteMeta(path, obj.meta);
      UuidIsNotMetaFileName(obj.uuid);
      fs.WritePayload(path, obj.uuid, obj.data);
    }

    /** `download_object`: a missing path raises NotFoundException. Otherwise
        the directory's files are visited in the order the system lists them;
        the metadata file gives the metadata and any other file the payload.
        A directory without either raises. */
    method DownloadObject(fs: FileSystem, objectName: string, objectType: string) returns (r: Result<(Bytes, Meta)>)
      requires fs.Valid()
      ensures GetPath(objectName, objectType) !in fs.dirs ==> r == Err(NotFound)
      ensures GetPath(objectName, objectType) in fs.dirs ==>
        var dir := fs.Listing(GetPath(objectName, objectType));
        && (r.Ok? <==> dir.metaDoc.Some? && dir.payloads != map[])
        && (r.Ok? ==> Some(r.value.1) == dir.metaDoc && r.value.0 in dir.payloads.Values)
        && (r.Err? ==> r.error == IOFailure)
    {
      var path := GetPath(objectName, objectType);
      if path !in fs.dirs {
        return Err(NotFound);
      }
      var dir := fs.Listing(path);
      var data: Option<Bytes> := None;
      var metaDoc: Option<Meta> := None;
      var names := dir.payloads.Keys + if dir.metaDoc.Some? then {MetaFileName} else {};
      while names != {}
        invariant names <= dir.payloads.Keys + if dir.metaDoc.Some? then {MetaFileName} else {}
        invariant data.Some? ==> data.value in dir.payloads.Values
        invariant data.None? ==> dir.payloads.Keys <= names
        invariant metaDoc.Some? ==> metaDoc == dir.metaDoc
        invariant metaDoc.None? && dir.metaDoc.Some? ==> MetaFileName in names
        decreases names
      {
        var file :| file in names;
        if file == MetaFileName {
          metaDoc := dir.metaDoc;
        } else {
          data := Some(dir.payloads[file]);
        }
        names := names - {file};
      }
      if data.None? {
        return Err(IOFailure);
      }
      if metaDoc.None? {
        return Err(IOFailure);
      }
      return Ok((data.value, metaDoc.value));
    }
  }

  /** `get_path` joins name and type with a dot, so two different (name, type)
      pairs can share one path; the second upload of such a pair is then
      silently skipped. */
  lemma GetPathIsAmbiguous(bucket: Bucket)
    ensures bucket.GetPath("a.b", "c") == bucket.GetPath("a", "b.c")
  {
    assert "a.b" + "." + "c" == "a" + "." + "b.c";
  }

  /** Uploading an object to a fresh path and then uploading anything else
      with the same name and type leaves the first object in place: the
      download returns its payload and metadata. */
  method UploadTwiceThenDownload(fs: FileSystem, bucket: Bucket, first: StoredObject, second: StoredObject)
    returns (r: Result<(Bytes, Meta)>)
    requires fs.Valid()
    requires bucket.GetPath(first.name, first.objType) !in fs.dirs
    requires second.name == first.name && second.objType == first.objType
    modifies fs
    ensures r == Ok((first.data, first.meta))
  {
    ghost var path := bucket.GetPath(first.name, first.objType);
    ghost var stored := ObjectDir(Some(first.meta), map[first.uuid := first.data]);
    bucket.UploadObject(fs, first);
    assert path in fs.dirs && fs.Listing(path) == stored;
    bucket.UploadObject(fs, second);
    assert fs.Listing(path) == stored;
    SingletonPayloads(first.uuid, first.data);
    r := bucket.DownloadObject(fs, first.name, first.objType);
  }

  /** The payload map an upload writes holds exactly the uploaded bytes. */
  lemma SingletonPayloads(uuid: string, data: Bytes)
    ensures map[uuid := data] != map[] && map[uuid := data].Values == {data}
  {
    var files := map[uuid := data];
    assert uuid in files;
    forall v | v in files.Values ensures v == data {
      var k :| k in files && files[k] == v;
    }
  }
}
