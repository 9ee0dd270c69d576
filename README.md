# DataDepot core in Dafny

A model of the core of DataDepot, a minimal object-storage service, and proofs of its behaviour. The core is four parts of `main.py`:

- **The consistent-hashing ring** (`ConsistentNode`, `ConsistentHashing.Hash`, `ConsistentHashing.Ring` and the `ConsistentHashing` front end). This is an open-addressed table of optional node slots. A node's home slot is the md5 digest of `str(node)` modulo the table size. The ring supports insertion with linear probing, growth to `2 * capacity + 1` slots, lookup, update, hard delete and soft delete.
- **`LruCache`**: an insertion-ordered map with hit / put / evict / miss counters and a trim step for when it is full.
- **`MetaData`**: a string-keyed record with existence-checked get, update and delete.
- **`Bucket` and `Object`**: object storage over a file system. There is one directory per object, holding a `meta_data.json` file and a payload file named by the object's UUID.

The model follows `main.py` as written, quirks included, also where the code's behaviour contradicts its own names and docstrings ("consistent hashing", main.py:197-199; "lru cache", main.py:450):

- Lookup is not a clockwise-successor search. `get_server`'s fallback loops re-read the home slot, so a lookup returns exactly the home slot, which may be empty.
- Registration has no wrap-around probe. A node that finds no empty slot from its home slot to the end is dropped, unless slot `home - 1` is occupied. In that case it is appended and `expand_ring` runs.
- Growth can lose nodes. The probe loop of `expand_ring` has no `break`, so a colliding node fills every empty slot after its home slot (`Hashing.PutCanLoseNodeOnExpansion` shows one case).
- The cache never evicts. The loop header of `trim_to_size` iterates a bool on a non-empty map, which raises `TypeError`. So a full, non-empty cache refuses every new entry.
- An object's name is checked against the listing of the process's working directory, not the bucket's.

Module layout:

- `outcomes.dfy`: `Option`, and `Result` whose errors are the exceptions the service raises.
- `hashing.dfy`: nodes and the pure slot-table functions of the ring, with their lemmas.
- `hash_ring.dfy`: the `Ring` and `ConsistentHashing` classes. Their methods are proved against the functions in `hashing.dfy`.
- `metadata.dfy`: the `MetaData` class.
- `lru_cache.dfy`: the `LruCache` class.
- `storage.dfy`: the file system, objects and buckets.

External inputs are parameters:

- The md5 digest is a `string -> nat` function that the ring holds.
- `uuid.uuid4()` is a `Uuid` input, a string in canonical UUID form.
- The clock is an integer input.
- The working-directory listing is a set input.

Getters that only return a field are the field itself: `get_ring`, `get_meta_data`, `get_all_meta_data`, and the `Object` getters.

## Model

| member | source | states |
|---|---|---|
| Hashing.BoolText | main.py:192 | `str` of a bool: its text starts with `T` exactly for `True` |
| Hashing.Node.Text | main.py:191-192 | `str(node)`: the node's name, a space, then `True` or `False`, whose first letter says whether the node is down |
| Hashing.Node.constructor | main.py:187-189 | a new node carries the given name and is up |
| Hashing.Node.MarkedDown | main.py:400-401 | the node soft delete builds: same name, marked down |
| Hashing.MarkedDownTextDiffers | main.py:191-192 | `str(node)` of a node and of its marked-down copy differ, so the copy is hashed from a different text |
| Hashing.FindIndex | main.py:220-224 | a `None` key raises ValueError, a zero capacity raises ZeroDivisionError, otherwise the index is below the capacity |
| Hashing.OccupiedReplace | main.py:369-377 | writing one slot changes the occupied count by exactly what left and what came in |
| Hashing.FirstIndexOf | main.py:278-283 | the forward scan finds the first slot in a range holding the value, and none exists when it finds nothing |
| Hashing.ProbeFind | main.py:369-377 | the search order home..cap-1 then 0..home-1 finds a slot iff some slot below the capacity holds the node, and that slot is the first in this order |
| Hashing.UpdateSlot | main.py:364-379 | `update` finds the target's first slot iff it is present, except that a hard delete of a node sitting in its own home slot finds nothing |
| Hashing.FillFrom | main.py:318-321 | the probe loop without `break`: afterwards no slot from the index on is empty, and only empty slots from the index on changed, each to the placed node |
| Hashing.Place | main.py:314-322 | placing one node during growth only fills empty slots, and only with that node |
| Hashing.Rehash | main.py:311-322 | the regrown table has exactly the new capacity's number of slots |
| Hashing.RehashKeepsOnlyOldNodes | main.py:311-330 | every occupied slot of the regrown table holds a node of the old table |
| Hashing.Expanded | main.py:302-330 | growth changes nothing while a slot is empty; otherwise the capacity becomes `2 * capacity + 1`, the table has that length and holds only old nodes |
| Hashing.Put | main.py:262-289 | registration keeps the table at least as long as the capacity and only ever adds the registered node |
| Hashing.PutIntoFirstEmpty | main.py:273-283 | the node goes into the first empty slot at or after its home slot (home is the digest modulo the table length); other slots and the capacity are unchanged |
| Hashing.PutDropsWithoutWrapAround | main.py:285-289 | with no empty slot from home to the end, and home 0 or slot `home - 1` empty, the node is silently dropped |
| Hashing.PutAppendsThenExpands | main.py:285-289 | with no empty slot from home to the end and slot `home - 1` occupied, the node is appended and growth runs; it grows the capacity to `2 * capacity + 1` only when that fills every slot |
| Hashing.PutCanLoseNodeOnExpansion | main.py:313-327 | registering a third node in a full ring of capacity 2 can produce `[a, b, b, b, b]`: the new node is lost and a colliding node fills four slots |
| HashRing.FillEmptyFrom | main.py:318-321 | the probe loop without `break` yields `FillFrom`: the node goes into every empty slot from its index to the end |
| HashRing.RehashInto | main.py:311-327 | the rebuild loop yields `Rehash`: the old nodes placed in order into `n` empty slots |
| HashRing.Ring.constructor | main.py:247-249 | a ring of `capacity` empty slots |
| HashRing.Ring.ShouldExpand | main.py:291-300 | true exactly when no slot is empty |
| HashRing.Ring.ExpandRing | main.py:302-330 | the new table and capacity are those of `Expanded` on the old ones |
| HashRing.Ring.PutServer | main.py:262-289 | `None` changes nothing, an empty table raises ZeroDivisionError, otherwise the new table and capacity are those of `Put` |
| HashRing.Ring.GetServer | main.py:332-352 | the result is exactly the slot at the request's digest modulo the capacity, possibly empty; `None` and a zero capacity raise; nothing is changed |
| HashRing.Ring.Update | main.py:354-379 | only the slot `UpdateSlot` picks is overwritten, and the result is whether there was one; a `None` target or a zero capacity raises with nothing changed |
| HashRing.Ring.Delete | main.py:381-389 | `update(target, None)`; on success the slot is freed and the occupied count drops by one |
| HashRing.Ring.SoftDelete | main.py:391-402 | the first slot holding the target gets a fresh node with the same name marked down; the occupied count is unchanged; the result says whether the target was present |
| HashRing.ConsistentHashing.constructor | main.py:404-405 | a fresh ring of the given capacity |
| HashRing.ConsistentHashing.Put | main.py:407-416 | `None` is ignored; otherwise the ring changes as `put_server` says |
| HashRing.ConsistentHashing.GetRequestServer | main.py:418-427 | `None` for a `None` request; otherwise the slot at the request's home index |
| HashRing.ConsistentHashing.SoftDelete | main.py:438-446 | `None` for a `None` node; otherwise the ring's soft delete, keeping the occupied count |
| Cache.LruCache.constructor | main.py:452-462 | empty cache, zero counters; the bound is the `max_size` argument even when it is not positive |
| Cache.LruCache.TrimToSize | main.py:464-473 | a non-positive trim size becomes 100; an empty map is left alone; a non-empty one raises TypeError with the map, order and counters unchanged |
| Cache.LruCache.AddVal | main.py:475-486 | `None` raises; an identical stored value gives False with no change; a full non-empty map raises; otherwise the entry is stored, `put` rises by one and the result is True; with `max_size >= 1` the size never exceeds `max_size` |
| Cache.LruCache.UpdateValue | main.py:488-495 | `None` raises; a present key is overwritten in place with counters and order kept; an absent key goes through `add_val` |
| Cache.LruCache.GetValue | main.py:497-505 | `None` raises with no change; a miss returns `None` and adds one miss; a hit returns the value and adds one hit; the map never changes |
| Metadata.MetaData.constructor | main.py:73-74 | an empty record |
| Metadata.MetaData.AddMetaData | main.py:76-81 | a `None` key or value raises with no change; otherwise the entry is stored |
| Metadata.MetaData.AddAllMetaData | main.py:83-86 | every given entry is stored, the given value winning on a shared key, and other entries keep their values |
| Metadata.MetaData.GetMetaData | main.py:88-96 | a `None` key raises NullKeyValue, an absent key NotFound, otherwise the stored value |
| Metadata.MetaData.UpdateMetaData | main.py:98-113 | a `None` or absent key raises with no change; otherwise only that key's value changes |
| Metadata.MetaData.DeleteMetaData | main.py:115-128 | a `None` or absent key raises with no change; otherwise only that key is removed |
| Storage.UuidIsNotMetaFileName | main.py:606-611 | the payload file, named by the UUID, never overwrites the metadata file |
| Storage.PathJoin | main.py:588 | `os.path.join`: an absolute second part is the result; otherwise the result is the second part behind the first and at most one separator |
| Storage.PathJoinShape | main.py:587-588 | `os.path.join`: an absolute second part replaces the first; otherwise the result starts with the first part and ends with the second |
| Storage.FileSystem.MakeDirs | main.py:600 | an existing directory raises unless `exist_ok`; otherwise the path and its ancestors exist |
| Storage.FileSystem.RemoveTree | main.py:537-538 | the tree under the path is gone and nothing else changes |
| Storage.FileSystem.WriteMeta | main.py:606-607 | the directory's metadata file holds the given map |
| Storage.FileSystem.WritePayload | main.py:609-611 | the directory gains the named payload file |
| Storage.SystemMeta | main.py:698-703 | `base_meta_data`: exactly the four keys `uuid`, `object name`, `bucket_name` and `object_type`, all text, `uuid` holding the UUID's text |
| Storage.NewObject | main.py:667-706 | a `None` field, a missing bucket, or a name in the working-directory listing raise, in that order; otherwise the metadata has the four system keys plus the tags, with tags winning on collision |
| Storage.Bucket.constructor | main.py:514-524 | the bucket's metadata is its creation time, name and privacy flag |
| Storage.Bucket.CreateBucket | main.py:527-533 | the bucket directory exists afterwards; an existing one is left as it was |
| Storage.Bucket.DeleteBucket | main.py:535-541 | the bucket's tree is removed if it exists; the bucket directory is absent afterwards |
| Storage.Bucket.UpdateMetaData | main.py:547-555 | an existing key is updated; a `None` or absent key is a silent no-op |
| Storage.Bucket.DeleteMetaData | main.py:557-565 | an existing key is removed; a `None` or absent key is a silent no-op |
| Storage.Bucket.AddAllMetaData | main.py:567-575 | the record becomes the old one overlaid by the given map |
| Storage.Bucket.AddMetaData | main.py:577-585 | the entry is stored unless key or value is `None`, which is a silent no-op |
| Storage.Bucket.GetPath | main.py:587-588 | the object's path ends with `name.type` and, for a relative name, starts with the bucket name |
| Storage.GetPathIsAmbiguous | main.py:587-588 | two different (name, type) pairs can share a path: `a.b` + `c` and `a` + `b.c` |
| Storage.Bucket.UploadObject | main.py:590-611 | an existing path is a no-op; otherwise the path's directory holds exactly the metadata file and one payload file named by the UUID |
| Storage.Bucket.DownloadObject | main.py:613-637 | a missing path raises NotFound; otherwise it succeeds iff both the metadata file and a payload file exist, returning the metadata and one payload |
| Storage.UploadTwiceThenDownload | main.py:590-637 | upload to a fresh path, then re-upload of the same name and type, then download gives back the first payload and metadata |

## Left out

- The Flask application, its two routes and the module-level bucket (main.py:735-805). They are HTTP plumbing and global state.
- `FileLogger` and every `logger.log` call. Logging is a side-effect sink, so each call is a no-op here.
- md5 (RFC 1321) and `uuid.uuid4()`. These are foreign calls; they become a digest function and a UUID input.
- `os`, `shutil`, `aiofiles`, `asyncio` and `json`. The file system is an abstract set of directories plus object directories. A metadata file is held as the map it encodes (parse after dump is the identity). The asynchronous I/O is modelled as sequential steps.
- Concurrency. Two interleaved uploads could both pass the existence check; the model runs one operation at a time.
- Metadata values JSON cannot encode, such as a `datetime` tag. `json.dump` would raise part-way and leave a partial file; the model treats every value as encodable.
- A metadata file that is not valid JSON. The service writes only what `json.dump` produces.
- Path normalisation (`a//b`, `..`), and `os.makedirs("")` raising FileNotFoundError.
- HashRing.Ring.constructor: a negative capacity is not modelled (capacity is a `nat`). Python builds an empty list and keeps the negative capacity; the list stays empty, because `put_server` raises ZeroDivisionError on an empty list, and `get_server`, `update` and `delete` raise IndexError on it (main.py:248, 273, 340-341, 364-365).
- HashRing.Ring.constructor: the default capacity of 1000 (main.py:247) is not modelled; every caller passes the capacity.
- Hashing.Node.constructor: the node's name is a string. The source accepts any value and hashes `str(value)`.
- Hashing.PutCanLoseNodeOnExpansion: main.py:324-327 is left out of the growth loop because it can never change the table. It only writes slot `idx`, and only when that slot is empty, which is never the case on that path. Its `is` test on integers is therefore irrelevant.
- Storage.Bucket.constructor: the `None` checks on the name and the privacy flag (main.py:515-516) are not modelled, because a Dafny string or boolean cannot be `None`.
- Metadata.MetaData.AddAllMetaData: a `None` key inside the given dictionary is not modelled, because keys are strings.
- Metadata.MetaData.AddAllMetaData: `add_all_meta_data(None)` raises TypeError from `len(None)` (main.py:85), and `Bucket.add_all_meta_data` does not catch it (main.py:569-575). The model's map argument cannot be `None`, so this error is not modelled.
- Cache.LruCache.AddVal: the identity test `is not` (main.py:478) is modelled as value inequality. Two equal values that are different objects would be stored again by the source but not by the model.
- Storage.Bucket.UploadObject: the existence test is directory membership, while `os.path.exists` (main.py:595) is also true for a file. An object name containing `/` can make `get_path` name a file the service wrote: uploading (`x.y/meta_data`, `json`) after (`x`, `y`) is a no-op in the source, but the model creates a directory `…/x.y/meta_data.json` and writes into it. Downloading that name then raises "Failed to read object data" in the source, but NotFound in the model.
- Storage.Bucket.DownloadObject: the model reads only the files directly in the object's directory, while `os.walk` (main.py:623-630) also descends into subdirectories, with later files overwriting earlier ones. An object name containing `/` makes the service itself write such a subdirectory: after uploads of (`x`, `y`) and (`x.y/z`, `w`), downloading (`x`, `y`) returns the nested object's payload and metadata in the source, but the outer object's in the model.
- Storage.Bucket.DownloadObject: when a directory holds several payload files, the source returns the last one in the system's listing order. The model promises only that one of them is returned.
- Aliasing: `get_all_meta_data` returns the live dictionary, and `get_object_meta_data` returns it to the upload. The model passes the map as a value, so later writes through such a reference are not captured.
- `FileMimeTypes` (a constant list with no behaviour), the commented-out Reed-Solomon code, and `geo_loc.py` (floating-point geohashing, unused by `main.py`).
