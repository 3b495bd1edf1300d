/**
 * The disk-backed cache in front of the remote store. Reads through
 * `GetBytes` are served from the cache directory when a file for the
 * object exists, and otherwise fetched once from the remote store, written
 * to the directory and followed by a first-in first-out eviction pass that
 * brings the directory back within `maxBytes`. Every other operation goes
 * straight to the remote store; `Delete` also removes the cache file.
 */
module CachedAccessLayer {
  import opened S3Models
  import opened CacheNaming
  import opened CacheIndex
  import opened S3AccessLayer

  class CachedAwsSdkS3AccessLayer {
    const delegate: AwsSdkS3AccessLayer
    /** The capacity bound on the bytes held in the cache directory. */
    const maxBytes: nat
    /** The cache directory: file name to file content. */
    var files: Directory
    /** The cache files, oldest first. */
    var order: seq<string>
    /** The running total of the bytes in the cache directory. */
    var usedBytes: nat

    ghost predicate Valid()
      reads this
    {
      Indexes(order, files) && usedBytes == SizeOf(order, files)
    }

    /** The capacity invariant. */
    ghost predicate WithinCapacity()
      reads this
    {
      usedBytes <= maxBytes
    }

    /** The cache starts on an empty directory. */
    constructor (delegate: AwsSdkS3AccessLayer, maxBytes: nat)
      ensures Valid() && WithinCapacity()
      ensures this.delegate == delegate && this.maxBytes == maxBytes
      ensures files == map[] && order == []
    {
      this.delegate := delegate;
      this.maxBytes := maxBytes;
      files := map[];
      order := [];
      usedBytes := 0;
    }

    /**
     * A file written into the cache directory by someone other than this
     * layer. A new file becomes the newest entry; a rewritten file is
     * replaced and also becomes the newest entry. No eviction pass runs.
     */
    method SeedFile(name: string, data: seq<byte>)
      requires Valid()
      modifies this
      ensures Valid()
      ensures files == old(files)[name := data]
      ensures order == Without(old(order), name) + [name]
    {
      var rest, others := Without(order, name), files - {name};
      assert others[name := data] == files[name := data];
      SizeOfWithout(order, files, name);
      IndexWithout(order, files, name);
      IndexAppend(rest, others, name, data);
      var kept := SizeOf(rest, others);
      files, order, usedBytes := others[name := data], rest + [name], kept + |data|;
    }

    /**
     * A hit returns the cached bytes without calling the remote store and
     * changes nothing, not even the eviction order. A miss calls the remote
     * store once; if it returns bytes, they are written under the object's
     * cache name as the newest entry and the eviction pass runs; if it
     * fails, the failure is returned and the cache is untouched.
     */
    method GetBytes(ref: ObjectRef) returns (r: Result<seq<byte>>)
      requires Valid()
      modifies this, delegate`calls
      ensures Valid()
      ensures CacheName(ref) in old(files) ==>
        && r == Ok(old(files)[CacheName(ref)])
        && files == old(files) && order == old(order)
        && delegate.calls == old(delegate.calls)
      ensures CacheName(ref) !in old(files) ==>
        && delegate.calls == old(delegate.calls) + [GetBytesCall(ref)]
        && (ref in delegate.objects ==> r == Ok(delegate.objects[ref].data))
        && (ref !in delegate.objects ==> r == Err(NotFound(ref)))
      ensures CacheName(ref) !in old(files) && r.Err? ==>
        files == old(files) && order == old(order)
      ensures CacheName(ref) !in old(files) && r.Ok? ==>
        var written := old(files)[CacheName(ref) := r.value];
        && AllIn(old(order) + [CacheName(ref)], written)
        && order == Retained(old(order) + [CacheName(ref)], written, maxBytes)
        && files == Keep(written, order)
        && WithinCapacity()
      ensures CacheName(ref) !in old(files) && r.Ok? && |r.value| <= maxBytes ==>
        CacheName(ref) in files && files[CacheName(ref)] == r.value
      ensures CacheName(ref) !in old(files) && r.Ok? && |r.value| > maxBytes ==>
        CacheName(ref) !in files
      ensures old(WithinCapacity()) ==> WithinCapacity()
    {
      var name := CacheName(ref);
      if name in files {
        r := Ok(files[name]);
        return;
      }
      r := delegate.GetBytes(ref);
      if r.Err? {
        return;
      }
      var data := r.value;
      var written := files[name := data];
      IndexAppend(order, files, name, data);
      files, order, usedBytes := written, order + [name], usedBytes + |data|;
      ghost var inserted := order;
      EvictToCapacity();
      if |data| <= maxBytes {
        RetainedKeepsFittingNewest(inserted[..|inserted| - 1], written, maxBytes, name);
        assert inserted[..|inserted| - 1] + [name] == inserted;
      } else {
        OversizeNeverRetained(inserted, written, maxBytes, name);
      }
    }

    /** Evicts the oldest entries while the directory holds more than `maxBytes`. */
    method EvictToCapacity()
      requires Valid()
      modifies this
      ensures Valid() && WithinCapacity()
      ensures order == Retained(old(order), old(files), maxBytes)
      ensures files == Keep(old(files), order)
    {
      ghost var order0, files0 := order, files;
      assert files == Keep(files0, order);
      while usedBytes > maxBytes
        invariant Valid()
        invariant files == Keep(files0, order)
        invariant AllIn(order, files0)
        invariant Retained(order, files0, maxBytes) == Retained(order0, files0, maxBytes)
        decreases |order|
      {
        var victim := order[0];
        EvictOldest(order, files);
        KeepAfterEvictOldest(files0, order);
        SizeOfAgree(order, files, files0);
        files, order, usedBytes := files - {victim}, order[1..], usedBytes - |files[victim]|;
      }
      SizeOfAgree(order, files, files0);
    }

    /** Deletes the remote object and removes its cache file, if there is one. */
    method Delete(ref: ObjectRef)
      requires Valid()
      modifies this, delegate
      ensures Valid()
      ensures delegate.calls == old(delegate.calls) + [DeleteCall(ref)]
      ensures delegate.objects == old(delegate.objects) - {ref}
      ensures CacheName(ref) !in files
      ensures files == old(files) - {CacheName(ref)}
      ensures order == Without(old(order), CacheName(ref))
      ensures usedBytes <= old(usedBytes)
    {
      delegate.Delete(ref);
      var name := CacheName(ref);
      SizeOfWithout(order, files, name);
      if name in files {
        usedBytes := usedBytes - |files[name]|;
      }
      files, order := files - {name}, Without(order, name);
    }

    /** Write-through: the remote store is updated; the cache is neither filled nor invalidated. */
    method PutBytes(ref: ObjectRef, data: seq<byte>, contentType: string, metadata: map<string, string>)
      requires Valid()
      modifies delegate
      ensures Valid()
      ensures delegate.calls == old(delegate.calls) + [PutBytesCall(ref, data, contentType, metadata)]
      ensures delegate.objects == old(delegate.objects)[ref := StoredObject(data, contentType, metadata)]
      ensures files == old(files) && order == old(order)
    {
      delegate.PutBytes(ref, data, contentType, metadata);
    }

    /** Pass-through; the cache is not consulted. */
    method Exists(ref: ObjectRef) returns (b: bool)
      requires Valid()
      modifies delegate`calls
      ensures Valid()
      ensures delegate.calls == old(delegate.calls) + [ExistsCall(ref)]
      ensures b <==> ref in delegate.objects
      ensures files == old(files) && order == old(order)
    {
      b := delegate.Exists(ref);
    }

    /** Pass-through; the cache is not consulted. */
    method Head(ref: ObjectRef) returns (r: Result<ObjectHead>)
      requires Valid()
      modifies delegate`calls
      ensures Valid()
      ensures delegate.calls == old(delegate.calls) + [HeadCall(ref)]
      ensures ref in delegate.objects ==> r.Ok? && r.value.contentLength == |delegate.objects[ref].data|
                                          && r.value.contentType == delegate.objects[ref].contentType
                                          && r.value.metadata == delegate.objects[ref].metadata
      ensures ref !in delegate.objects ==> r == Err(NotFound(ref))
      ensures files == old(files) && order == old(order)
    {
      r := delegate.Head(ref);
    }

    /** Pass-through; the stream is never buffered into the cache. */
    method GetStream(ref: ObjectRef) returns (r: Result<ObjectStream>)
      requires Valid()
      modifies delegate`calls
      ensures Valid()
      ensures delegate.calls == old(delegate.calls) + [GetStreamCall(ref)]
      ensures ref in delegate.objects ==> r == Ok(ObjectStream(ref))
      ensures ref !in delegate.objects ==> r == Err(NotFound(ref))
      ensures files == old(files) && order == old(order)
    {
      r := delegate.GetStream(ref);
    }
  }
}
