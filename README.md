# Disk-backed cache in front of an S3 client

This project models `CachedAwsSdkS3AccessLayer` of the skadi repository and proves properties about it. The class is a read-through cache that sits in front of an S3 client, `AwsSdkS3AccessLayer`, and keeps object bytes in a local cache directory.

- `getBytes(ref)` is served from the cache file `bucket_key` when that file exists.
- Otherwise `getBytes` fetches the object once from S3 and writes it to the directory. It then evicts the oldest cache files, first in first out, until the directory holds at most `maxBytes` bytes.
- `delete` removes the object remotely and removes its cache file.
- `exists`, `head`, `putBytes` and `getStream` are forwarded to S3 unchanged.

The model is built from the assertions of `src/test/java/com/dkay229/skadi/aws/s3/CachedAwsSdkS3AccessLayerTest.java`.

Modules, leaves first:

- `S3Models` (`s3_models.dfy`) holds the values that pass between the layers:
  - `ObjectRef(bucket, key)`;
  - stored objects, head results and stream handles;
  - `Result`, whose one error is `NotFound`;
  - the `Call` record of one remote call with its arguments.

  `Times(calls, c)` counts the calls equal to `c`. It plays the part of Mockito's `verify(..., times(n))`.
- `CacheNaming` (`cache_naming.dfy`) defines the cache file name `bucket + "_" + key`.
- `CacheIndex` (`cache_index.dfy`) is the bookkeeping for the cache directory:
  - the directory is a map from file name to bytes;
  - the insertion order is an explicit sequence, oldest first;
  - `SizeOf` gives the total bytes;
  - `Retained` is the eviction rule as a function: drop the oldest entry while the total exceeds the capacity;
  - `Without` removes one entry.
- `S3AccessLayer` (`s3_access_layer.dfy`) models the S3 client as the class `AwsSdkS3AccessLayer`. It holds a remote map `ObjectRef -> StoredObject` and a log of every call it receives. The log replaces the per-operation counters of the mock and also records the arguments.
- `CachedAccessLayer` (`cached_access_layer.dfy`) models the cache as the class `CachedAwsSdkS3AccessLayer`:
  - the fields are the directory map, the insertion order and a running byte total `usedBytes`;
  - `Valid()` says that the order lists every file exactly once and that `usedBytes` is their total size;
  - eviction is a `while` loop that is proved against `Retained`.
- `CacheScenarios` (`cache_scenarios.dfy`) restates each test as a client method. Its postconditions are the test's assertions, and they are proved from the class contracts.

Two points where the model follows the code rather than what one might expect:

- An injective naming would rule out collisions between cache files. The code uses `bucket + "_" + key`, which is not injective, and the model follows the code. It proves injectivity only when buckets contain no `_`, and it proves the collision that happens otherwise (`SeparatorInBucketCollides`).
- The eviction test's comment says "10 bytes max capacity", but the code passes 9. The model uses 9. With 9 bytes, two 5-byte objects do not fit together, so the older one is evicted.

## Model

| member | source | states |
|---|---|---|
| CacheNaming.CacheName | src/test/java/com/dkay229/skadi/aws/s3/CachedAwsSdkS3AccessLayerTest.java:31-32 | the cache name of `ref` is its bucket, then `_`, then its key; its length is the sum of the three parts |
| S3Models.Times | src/test/java/com/dkay229/skadi/aws/s3/CachedAwsSdkS3AccessLayerTest.java:87-96 | the count behind `verify(..., times(n))` (also used at lines 39, 52 and 80): the number of logged calls equal to `c` with the same arguments is the multiplicity of `c` in the log, at most the log's length, and zero exactly when `c` was never called |
| CacheNaming.SameBucketDistinctKeys | src/test/java/com/dkay229/skadi/aws/s3/CachedAwsSdkS3AccessLayerTest.java:59-68 | two refs in one bucket with different keys always get different cache file names |
| CacheNaming.NameDeterminesRef | src/test/java/com/dkay229/skadi/aws/s3/CachedAwsSdkS3AccessLayerTest.java:32 | if neither bucket contains `_`, equal cache names imply equal refs |
| CacheNaming.SeparatorInBucketCollides | src/test/java/com/dkay229/skadi/aws/s3/CachedAwsSdkS3AccessLayerTest.java:32 | when the bucket contains `_`, two distinct refs map to the same cache file |
| CacheIndex.SizeOfAppend | src/test/java/com/dkay229/skadi/aws/s3/CachedAwsSdkS3AccessLayerTest.java:64-65 | writing a new cache file adds exactly its size to the directory total |
| CacheIndex.IndexAppend | src/test/java/com/dkay229/skadi/aws/s3/CachedAwsSdkS3AccessLayerTest.java:48-51 | a file written under a new name becomes the newest entry, the order still lists every file exactly once, and the total grows by the file's size |
| CacheIndex.SizeOfAgree | src/test/java/com/dkay229/skadi/aws/s3/CachedAwsSdkS3AccessLayerTest.java:64-65 | the total depends only on the contents of the files the order names |
| CacheIndex.EvictOldest | src/test/java/com/dkay229/skadi/aws/s3/CachedAwsSdkS3AccessLayerTest.java:65-67 | after the oldest file is removed, the rest still lists every remaining file exactly once, and the total drops by that file's size |
| CacheIndex.Retained | src/test/java/com/dkay229/skadi/aws/s3/CachedAwsSdkS3AccessLayerTest.java:56-68 | the entries that eviction keeps are no more than before, all of them are still files, and their total size is at most the capacity |
| CacheIndex.RetainedIsSuffix | src/test/java/com/dkay229/skadi/aws/s3/CachedAwsSdkS3AccessLayerTest.java:64-68 | eviction drops only the oldest entries: the survivors are a suffix of the insertion order |
| CacheIndex.RetainedIsLongestFit | src/test/java/com/dkay229/skadi/aws/s3/CachedAwsSdkS3AccessLayerTest.java:64-68 | every longer suffix exceeds the capacity, so eviction keeps the longest suffix that fits |
| CacheIndex.RetainedKeepsFittingNewest | src/test/java/com/dkay229/skadi/aws/s3/CachedAwsSdkS3AccessLayerTest.java:26-51 | an entry just written that fits within the capacity by itself survives the eviction pass (the "if" half; `OversizeNeverRetained` is the "only if" half) |
| CacheIndex.SizeOfCoversEach | src/test/java/com/dkay229/skadi/aws/s3/CachedAwsSdkS3AccessLayerTest.java:64-65 | every file the order names counts towards the directory total: its size is at most the total |
| CacheIndex.OversizeNeverRetained | src/test/java/com/dkay229/skadi/aws/s3/CachedAwsSdkS3AccessLayerTest.java:56-68 | a file larger than the capacity never survives the eviction pass, wherever it stands in the order; with `RetainedKeepsFittingNewest`, a new entry survives if and only if it fits |
| CacheIndex.RetainedAgree | src/test/java/com/dkay229/skadi/aws/s3/CachedAwsSdkS3AccessLayerTest.java:56-68 | eviction depends only on the contents of the files the order names, so `Retained` (and with it `EvictAfterEachIsRetained`) carries over to a directory that has since been written or evicted elsewhere |
| CacheIndex.RetainedAfterAppend | src/test/java/com/dkay229/skadi/aws/s3/CachedAwsSdkS3AccessLayerTest.java:64-68 | evicting before and after an insertion keeps the same entries as evicting only after it |
| CacheIndex.EvictAfterEachIsRetained | src/test/java/com/dkay229/skadi/aws/s3/CachedAwsSdkS3AccessLayerTest.java:56-68 | inserting entries one at a time, with an eviction pass after each, leaves exactly the longest suffix of the whole insertion sequence that fits |
| CacheIndex.Without | src/test/java/com/dkay229/skadi/aws/s3/CachedAwsSdkS3AccessLayerTest.java:77-79 | removing a name leaves exactly the other entries and introduces no duplicates; if the name is absent the order is unchanged |
| CacheIndex.WithoutCutsOne | src/test/java/com/dkay229/skadi/aws/s3/CachedAwsSdkS3AccessLayerTest.java:77-79 | removing a name that occurs once, at position `k`, cuts out exactly that position; every other entry keeps its place relative to the rest (`OccursOnce` supplies the single occurrence for an order without duplicates) |
| CacheIndex.SizeOfWithout | src/test/java/com/dkay229/skadi/aws/s3/CachedAwsSdkS3AccessLayerTest.java:77-79 | removing a file's entry frees exactly that file's bytes, or nothing when it is not cached |
| S3AccessLayer.AwsSdkS3AccessLayer.GetBytes | src/test/java/com/dkay229/skadi/aws/s3/CachedAwsSdkS3AccessLayerTest.java:46 | logs one `getBytes(ref)` call; returns the stored bytes, or `NotFound` when the object is absent |
| S3AccessLayer.AwsSdkS3AccessLayer.GetStream | src/test/java/com/dkay229/skadi/aws/s3/CachedAwsSdkS3AccessLayerTest.java:95-96 | logs one `getStream(ref)` call; returns a stream on the object, or `NotFound` |
| S3AccessLayer.AwsSdkS3AccessLayer.PutBytes | src/test/java/com/dkay229/skadi/aws/s3/CachedAwsSdkS3AccessLayerTest.java:92-93 | logs the call with all four arguments; the stored object becomes exactly those bytes, content type and metadata |
| S3AccessLayer.AwsSdkS3AccessLayer.Head | src/test/java/com/dkay229/skadi/aws/s3/CachedAwsSdkS3AccessLayerTest.java:89-90 | logs one `head(ref)` call; reports the stored size, content type and metadata, or `NotFound` |
| S3AccessLayer.AwsSdkS3AccessLayer.Exists | src/test/java/com/dkay229/skadi/aws/s3/CachedAwsSdkS3AccessLayerTest.java:86-87 | logs one `exists(ref)` call; the answer is true exactly when the object is stored |
| S3AccessLayer.AwsSdkS3AccessLayer.Delete | src/test/java/com/dkay229/skadi/aws/s3/CachedAwsSdkS3AccessLayerTest.java:77-80 | logs one `delete(ref)` call; afterwards the object is absent, and deleting an absent object is not an error |
| CachedAccessLayer.CachedAwsSdkS3AccessLayer.constructor | src/test/java/com/dkay229/skadi/aws/s3/CachedAwsSdkS3AccessLayerTest.java:23-27 | a layer over the given delegate and capacity starts with an empty directory that is within capacity |
| CachedAccessLayer.CachedAwsSdkS3AccessLayer.SeedFile | src/test/java/com/dkay229/skadi/aws/s3/CachedAwsSdkS3AccessLayerTest.java:32-34 | a file written straight into the directory replaces any earlier content under that name and becomes the newest entry; the index stays consistent |
| CachedAccessLayer.CachedAwsSdkS3AccessLayer.GetBytes | src/test/java/com/dkay229/skadi/aws/s3/CachedAwsSdkS3AccessLayerTest.java:30-68 | a hit returns the cached bytes with no delegate call and no change to the directory or its order; a miss makes exactly one delegate `getBytes(ref)` call and returns its result; on success the directory and order are the first-in first-out eviction of the old files plus the new one, and the total is at most `maxBytes`; a new object is left cached with the same bytes if and only if it fits in `maxBytes` (with `maxBytes` 0 no non-empty object is kept); a delegate error leaves the cache unchanged |
| CachedAccessLayer.CachedAwsSdkS3AccessLayer.EvictToCapacity | src/test/java/com/dkay229/skadi/aws/s3/CachedAwsSdkS3AccessLayerTest.java:64-68 | the loop leaves the total at most `maxBytes`, the order equal to `Retained` of the old order, and the directory equal to the old files that survive |
| CachedAccessLayer.CachedAwsSdkS3AccessLayer.Delete | src/test/java/com/dkay229/skadi/aws/s3/CachedAwsSdkS3AccessLayerTest.java:72-80 | exactly one delegate `delete(ref)` call; the remote object is gone; the cache file for `ref` is gone and nothing else in the directory changes; the total does not grow |
| CachedAccessLayer.CachedAwsSdkS3AccessLayer.PutBytes | src/test/java/com/dkay229/skadi/aws/s3/CachedAwsSdkS3AccessLayerTest.java:92-93 | exactly one delegate `putBytes` call with the same ref, data, content type and metadata; the cache is neither filled nor invalidated |
| CachedAccessLayer.CachedAwsSdkS3AccessLayer.Exists | src/test/java/com/dkay229/skadi/aws/s3/CachedAwsSdkS3AccessLayerTest.java:86-87 | exactly one delegate `exists(ref)` call, whose answer is returned; the cache is untouched |
| CachedAccessLayer.CachedAwsSdkS3AccessLayer.Head | src/test/java/com/dkay229/skadi/aws/s3/CachedAwsSdkS3AccessLayerTest.java:89-90 | exactly one delegate `head(ref)` call, whose report (size, content type, metadata) is returned, or `NotFound`; the cache is untouched |
| CachedAccessLayer.CachedAwsSdkS3AccessLayer.GetStream | src/test/java/com/dkay229/skadi/aws/s3/CachedAwsSdkS3AccessLayerTest.java:95-96 | exactly one delegate `getStream(ref)` call, whose stream is returned; nothing is buffered into the cache |
| CacheScenarios.CacheHit | src/test/java/com/dkay229/skadi/aws/s3/CachedAwsSdkS3AccessLayerTest.java:29-40 | a seeded file `test-bucket_test-key` holding "cached-data" is returned as is, with zero delegate `getBytes` calls |
| CacheScenarios.CacheMiss | src/test/java/com/dkay229/skadi/aws/s3/CachedAwsSdkS3AccessLayerTest.java:42-53 | with 1 MiB capacity, a miss returns the delegate's "s3-data", leaves the file `test-bucket_test-key` with those bytes, and makes exactly one delegate `getBytes` call |
| CacheScenarios.EvictionWhenCacheExceedsCapacity | src/test/java/com/dkay229/skadi/aws/s3/CachedAwsSdkS3AccessLayerTest.java:55-69 | at capacity 9, after caching "data1" for key1 and then "data2" for key2, `test-bucket_key1` is gone and `test-bucket_key2` remains |
| CacheScenarios.NineByteEviction | src/test/java/com/dkay229/skadi/aws/s3/CachedAwsSdkS3AccessLayerTest.java:57-65 | at capacity 9 one 5-byte file is kept, and of two 5-byte files only the newer one is kept |
| CacheScenarios.DeleteRemovesFromCache | src/test/java/com/dkay229/skadi/aws/s3/CachedAwsSdkS3AccessLayerTest.java:71-81 | after a delete, the seeded cache file is gone and the delegate's `delete` was called exactly once |
| CacheScenarios.DelegateMethods | src/test/java/com/dkay229/skadi/aws/s3/CachedAwsSdkS3AccessLayerTest.java:83-97 | the delegate's call log holds `exists(ref)`, `head(ref)`, `putBytes(ref, "data" as bytes, "text/plain", {})` and `getStream(ref)` exactly once each, and the cache stays empty |

## Left out

- Concurrency is not modelled: no read coalescing of concurrent misses and no locking around eviction. The model is sequential, and the tests are too.
- Local disk failures are not modelled: no fail-open path when writing a cache file fails, and no fallback to the delegate when reading one fails. Neither is exercised by the tests.
- Transport errors from S3 are not modelled; the only remote error is `NotFound`.
- The real file system and the cache directory's path are not modelled. The directory is a map from file name to bytes, and `Files.write` / `Files.exists` become `SeedFile` and map membership.
- Mockito and the AWS SDK client are not modelled. The delegate is a remote map plus a call log. The `null` that an unstubbed mock returns is not modelled: a stubbed object is present in the remote map.
- Stream contents and S3 metadata formats are opaque. A stream is a handle on its ref, and a head result is the stored length, content type and user metadata.
- The constructor starts with an empty directory, because every test passes a fresh temporary directory. A layer opened on a directory that already holds files is not modelled. Files written by others later are modelled by `SeedFile`.
- `maxBytes` and the byte total are unbounded naturals. A 64-bit limit or overflow is not modelled.
- Invalidation of a stale cache entry on `putBytes` is not modelled. The tests check only that the call is forwarded, so the model leaves the cache as it was.
- Injectivity of the `bucket_key` naming is not claimed in general. Collisions are proved possible when a bucket contains `_`.
- `src/main/java/com/dkay229/skadi/jdbc/JdbcConfig.java` is Spring bean wiring with no logic, and it is not modelled.
- CachedAccessLayer.CachedAwsSdkS3AccessLayer.GetBytes: the bound `usedBytes <= maxBytes` after a hit is proved only when it held before the call. A hit runs no eviction, so only files written by someone other than the layer (`SeedFile`) can break the bound.
