/**
 * The name of the cache file that holds an object: its bucket, a fixed
 * separator, and its key, placed directly under the cache directory.
 */
module CacheNaming {
  import opened S3Models

  const Separator: char := '_'

  /** The key is what follows the bucket and the separator in the name. */
  function CacheName(ref: ObjectRef): (r: string)
    ensures |r| == |ref.bucket| + 1 + |ref.key|
    ensures r[..|ref.bucket|] == ref.bucket
    ensures r[|ref.bucket|] == Separator
    ensures r[|ref.bucket| + 1..] == ref.key
  {
    var head := ref.bucket + [Separator];
    assert (head + ref.key)[..|head|] == head;
    head + ref.key
  }

  /** Two objects of one bucket with different keys never share a cache file. */
  lemma SameBucketDistinctKeys(a: ObjectRef, b: ObjectRef)
    requires a.bucket == b.bucket && a.key != b.key
    ensures CacheName(a) != CacheName(b)
  {
  }

  /**
   * When neither bucket contains the separator, the cache file name
   * determines the object: the first separator in the name ends the bucket.
   */
  lemma NameDeterminesRef(a: ObjectRef, b: ObjectRef)
    requires Separator !in a.bucket && Separator !in b.bucket
    requires CacheName(a) == CacheName(b)
    ensures a == b
  {
  }

  /**
   * The limitation of the naming scheme: a bucket that contains the
   * separator lets two distinct objects share one cache file.
   */
  lemma SeparatorInBucketCollides(b1: string, b2: string, k: string)
    ensures ObjectRef(b1 + [Separator] + b2, k) != ObjectRef(b1, b2 + [Separator] + k)
    ensures CacheName(ObjectRef(b1 + [Separator] + b2, k)) == CacheName(ObjectRef(b1, b2 + [Separator] + k))
  {
    assert |b1 + [Separator] + b2| != |b1|;
  }
}
