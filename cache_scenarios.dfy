/**
 * The behaviour the test suite asserts of the cache layer, stated as client
 * methods whose postconditions are the test assertions and which follow
 * from the layer's contracts alone.
 */
module CacheScenarios {
  import opened S3Models
  import opened CacheNaming
  import opened CacheIndex
  import opened S3AccessLayer
  import opened CachedAccessLayer

  /** The capacity of the layer set up before each test: one mebibyte. */
  const OneMiB: nat := 1024 * 1024

  /** The byte strings the tests use, as ASCII bytes. */
  const CachedData: seq<byte> := [99, 97, 99, 104, 101, 100, 45, 100, 97, 116, 97]
  const S3Data: seq<byte> := [115, 51, 45, 100, 97, 116, 97]
  const Data1: seq<byte> := [100, 97, 116, 97, 49]
  const Data2: seq<byte> := [100, 97, 116, 97, 50]
  const Data: seq<byte> := [100, 97, 116, 97]

  lemma TestBytesAreAscii()
    ensures CachedData == AsciiBytes("cached-data")
    ensures S3Data == AsciiBytes("s3-data")
    ensures Data1 == AsciiBytes("data1") && Data2 == AsciiBytes("data2")
    ensures Data == AsciiBytes("data")
  {
  }

  /** A file already in the cache directory is returned without a remote read. */
  method CacheHit() returns (result: Result<seq<byte>>, remoteReads: nat)
    ensures result == Ok(AsciiBytes("cached-data"))
    ensures remoteReads == 0
  {
    TestBytesAreAscii();
    var remote := new AwsSdkS3AccessLayer(map[]);
    var layer := new CachedAwsSdkS3AccessLayer(remote, OneMiB);
    var ref := ObjectRef("test-bucket", "test-key");
    assert CacheName(ref) == "test-bucket_test-key";
    layer.SeedFile("test-bucket_test-key", CachedData);
    result := layer.GetBytes(ref);
    remoteReads := Times(remote.calls, GetBytesCall(ref));
  }

  /**
   * A miss returns the remote bytes, reads the remote object exactly once
   * and leaves a cache file with the same content.
   */
  method CacheMiss() returns (result: Result<seq<byte>>, cached: Option<seq<byte>>, remoteReads: nat)
    ensures result == Ok(AsciiBytes("s3-data"))
    ensures cached == Some(AsciiBytes("s3-data"))
    ensures remoteReads == 1
  {
    TestBytesAreAscii();
    var ref := ObjectRef("test-bucket", "test-key");
    var data := S3Data;
    var remote := new AwsSdkS3AccessLayer(map[ref := StoredObject(data, "application/octet-stream", map[])]);
    var layer := new CachedAwsSdkS3AccessLayer(remote, OneMiB);
    assert CacheName(ref) == "test-bucket_test-key";
    result := layer.GetBytes(ref);
    var name := "test-bucket_test-key";
    cached := if name in layer.files then Some(layer.files[name]) else None;
    remoteReads := Times(remote.calls, GetBytesCall(ref));
  }

  /**
   * At a capacity of 9 bytes, caching 5 bytes for key1 and then 5 bytes
   * for key2 evicts key1's file, the older one, and keeps key2's.
   */
  method EvictionWhenCacheExceedsCapacity() returns (key1Cached: bool, key2Cached: bool)
    ensures !key1Cached
    ensures key2Cached
  {
    var ref1 := ObjectRef("test-bucket", "key1");
    var ref2 := ObjectRef("test-bucket", "key2");
    var data1, data2 := Data1, Data2;
    var remote := new AwsSdkS3AccessLayer(map[
      ref1 := StoredObject(data1, "application/octet-stream", map[]),
      ref2 := StoredObject(data2, "application/octet-stream", map[])]);
    var layer := new CachedAwsSdkS3AccessLayer(remote, 9);
    assert ref1.key[3] != ref2.key[3];
    var name1, name2 := CacheName(ref1), CacheName(ref2);
    assert name1 == "test-bucket_key1" && name2 == "test-bucket_key2";
    SameBucketDistinctKeys(ref1, ref2);

    ghost var first := map[name1 := data1];
    ghost var second := first[name2 := data2];
    NineByteEviction(name1, name2, first, second);

    var r1 := layer.GetBytes(ref1);
    assert layer.order == [name1] by {
      assert [] + [name1] == [name1];
    }
    assert layer.files == first;

    var r2 := layer.GetBytes(ref2);
    assert layer.order == [name2] by {
      assert [name1] + [name2] == [name1, name2];
    }
    key1Cached := "test-bucket_key1" in layer.files;
    key2Cached := "test-bucket_key2" in layer.files;
  }

  /**
   * With a capacity of 9 bytes, one 5-byte file fits and stays, and a
   * second 5-byte file pushes the first one out.
   */
  lemma NineByteEviction(name1: string, name2: string, first: Directory, second: Directory)
    requires name1 in first && |first[name1]| == 5
    requires name1 in second && name2 in second
    requires |second[name1]| == 5 && |second[name2]| == 5
    ensures Retained([name1], first, 9) == [name1]
    ensures Retained([name1, name2], second, 9) == [name2]
  {
    assert SizeOf([name1], first) == 5;
    assert [name1, name2][1..] == [name2];
    assert SizeOf([name2], second) == 5;
    assert SizeOf([name1, name2], second) == 10;
  }

  /** Delete removes an existing cache file and deletes the remote object exactly once. */
  method DeleteRemovesFromCache() returns (cached: bool, remoteDeletes: nat)
    ensures !cached
    ensures remoteDeletes == 1
  {
    var remote := new AwsSdkS3AccessLayer(map[]);
    var layer := new CachedAwsSdkS3AccessLayer(remote, OneMiB);
    var ref := ObjectRef("test-bucket", "test-key");
    assert CacheName(ref) == "test-bucket_test-key";
    layer.SeedFile("test-bucket_test-key", CachedData);
    layer.Delete(ref);
    cached := "test-bucket_test-key" in layer.files;
    remoteDeletes := Times(remote.calls, DeleteCall(ref));
  }

  /**
   * Exists, head, putBytes and getStream each reach the remote store
   * exactly once with the caller's arguments, and leave the cache as it was.
   */
  method DelegateMethods() returns (log: seq<Call>, cacheUntouched: bool)
    ensures var ref := ObjectRef("test-bucket", "test-key");
      && Times(log, ExistsCall(ref)) == 1
      && Times(log, HeadCall(ref)) == 1
      && Times(log, PutBytesCall(ref, AsciiBytes("data"), "text/plain", map[])) == 1
      && Times(log, GetStreamCall(ref)) == 1
    ensures cacheUntouched
  {
    TestBytesAreAscii();
    var remote := new AwsSdkS3AccessLayer(map[]);
    var layer := new CachedAwsSdkS3AccessLayer(remote, OneMiB);
    var ref := ObjectRef("test-bucket", "test-key");
    var data := Data;
    var _ := layer.Exists(ref);
    var _ := layer.Head(ref);
    layer.PutBytes(ref, data, "text/plain", map[]);
    var _ := layer.GetStream(ref);
    log := remote.calls;
    assert log == [ExistsCall(ref), HeadCall(ref), PutBytesCall(ref, data, "text/plain", map[]), GetStreamCall(ref)];
    assert multiset(log) == multiset{ExistsCall(ref), HeadCall(ref), PutBytesCall(ref, data, "text/plain", map[]), GetStreamCall(ref)};
    cacheUntouched := layer.files == map[] && layer.order == [];
  }
}
