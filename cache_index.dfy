/**
 * Bookkeeping for the cache directory: the insertion order of the cache
 * files, the bytes they occupy, and the first-in first-out eviction rule
 * that restores the capacity bound.
 */
module CacheIndex {
  import opened S3Models

  /** The cache directory: file name to file content. */
  type Directory = map<string, seq<byte>>

  predicate NoDuplicates(s: seq<string>)
  {
    forall i, j :: 0 <= i < j < |s| ==> s[i] != s[j]
  }

  predicate AllIn(order: seq<string>, dir: Directory)
  {
    forall n :: n in order ==> n in dir
  }

  /** `order` lists every file of `dir` exactly once. */
  predicate Indexes(order: seq<string>, dir: Directory)
  {
    NoDuplicates(order) && AllIn(order, dir) && forall n :: n in dir ==> n in order
  }

  /** Total size in bytes of the files named in `order`. */
  function SizeOf(order: seq<string>, dir: Directory): (r: nat)
    requires AllIn(order, dir)
  {
    if order == [] then 0 else |dir[order[0]]| + SizeOf(order[1..], dir)
  }

  /** The files of `dir` that `order` names. */
  function Keep(dir: Directory, order: seq<string>): (r: Directory)
    ensures forall n :: n in r <==> n in dir && n in order
    ensures forall n :: n in r ==> r[n] == dir[n]
  {
    map n | n in dir && n in order :: dir[n]
  }

  lemma {:induction false} SizeOfAppend(order: seq<string>, dir: Directory, name: string)
    requires AllIn(order, dir) && name in dir
    ensures AllIn(order + [name], dir)
    ensures SizeOf(order + [name], dir) == SizeOf(order, dir) + |dir[name]|
  {
    if order != [] {
      assert (order + [name])[1..] == order[1..] + [name];
      SizeOfAppend(order[1..], dir, name);
    }
  }

  /** Only the files that `order` names contribute to its size. */
  lemma {:induction false} SizeOfAgree(order: seq<string>, d1: Directory, d2: Directory)
    requires AllIn(order, d1) && AllIn(order, d2)
    requires forall n :: n in order ==> d1[n] == d2[n]
    ensures SizeOf(order, d1) == SizeOf(order, d2)
  {
    if order != [] {
      SizeOfAgree(order[1..], d1, d2);
    }
  }

  /**
   * What first-in first-out eviction keeps of `order`: drop the oldest
   * entry while the total size exceeds `cap`. The result is a suffix of
   * `order` that fits.
   */
  function Retained(order: seq<string>, dir: Directory, cap: nat): (r: seq<string>)
    requires AllIn(order, dir)
    ensures |r| <= |order|
    ensures AllIn(r, dir)
    ensures SizeOf(r, dir) <= cap
    decreases |order|
  {
    if SizeOf(order, dir) <= cap then order else Retained(order[1..], dir, cap)
  }

  /** Eviction only ever drops the oldest entries: what survives is a suffix. */
  lemma {:induction false} RetainedIsSuffix(order: seq<string>, dir: Directory, cap: nat)
    requires AllIn(order, dir)
    ensures Retained(order, dir, cap) == order[|order| - |Retained(order, dir, cap)|..]
    decreases |order|
  {
    if SizeOf(order, dir) > cap {
      RetainedIsSuffix(order[1..], dir, cap);
    }
  }

  /** Writing a new file as the newest entry keeps the index exact and adds the file's size. */
  lemma IndexAppend(order: seq<string>, dir: Directory, name: string, data: seq<byte>)
    requires Indexes(order, dir) && name !in dir
    ensures Indexes(order + [name], dir[name := data])
    ensures SizeOf(order + [name], dir[name := data]) == SizeOf(order, dir) + |data|
  {
    var written := dir[name := data];
    SizeOfAgree(order, dir, written);
    SizeOfAppend(order, written, name);
    forall i, j | 0 <= i < j < |order + [name]|
      ensures (order + [name])[i] != (order + [name])[j]
    {
      if j == |order| {
        assert order[i] in dir;
      }
    }
  }

  /**
   * Evicting the oldest entry of an index: the rest indexes the directory
   * without that file, whose bytes are freed.
   */
  lemma EvictOldest(order: seq<string>, dir: Directory)
    requires Indexes(order, dir) && order != []
    ensures Indexes(order[1..], dir - {order[0]})
    ensures SizeOf(order[1..], dir - {order[0]}) + |dir[order[0]]| == SizeOf(order, dir)
  {
    var victim, rest := order[0], order[1..];
    assert victim !in rest;
    SizeOfAgree(rest, dir, dir - {victim});
  }

  /** The files that survive an eviction are the original files the shorter order names. */
  lemma KeepAfterEvictOldest(origin: Directory, order: seq<string>)
    requires NoDuplicates(order) && order != []
    ensures Keep(origin, order) - {order[0]} == Keep(origin, order[1..])
  {
    assert forall n :: n in order[1..] <==> n in order && n != order[0];
  }

  /** Eviction keeps the longest suffix of the insertion order that fits in `cap`. */
  lemma {:induction false} RetainedIsLongestFit(order: seq<string>, dir: Directory, cap: nat, k: nat)
    requires AllIn(order, dir)
    requires k < |order| - |Retained(order, dir, cap)|
    ensures SizeOf(order[k..], dir) > cap
    decreases |order|
  {
    if SizeOf(order, dir) > cap && k > 0 {
      assert order[1..][k - 1..] == order[k..];
      RetainedIsLongestFit(order[1..], dir, cap, k - 1);
    }
  }

  /** A newest entry that fits by itself survives the eviction pass. */
  lemma {:induction false} RetainedKeepsFittingNewest(order: seq<string>, dir: Directory, cap: nat, name: string)
    requires AllIn(order, dir) && name in dir
    requires |dir[name]| <= cap
    ensures AllIn(order + [name], dir)
    ensures name in Retained(order + [name], dir, cap)
  {
    SizeOfAppend(order, dir, name);
    var s := order + [name];
    var r := Retained(s, dir, cap);
    RetainedIsSuffix(s, dir, cap);
    if r == [] {
      assert s[|s| - 1..] == [name];
      RetainedIsLongestFit(s, dir, cap, |s| - 1);
      assert false;
    }
    assert r[|r| - 1] == s[|s| - 1];
  }

  /** Every file the order names counts towards the total. */
  lemma {:induction false} SizeOfCoversEach(order: seq<string>, dir: Directory, n: string)
    requires AllIn(order, dir) && n in order
    ensures |dir[n]| <= SizeOf(order, dir)
    decreases |order|
  {
    if order[0] != n {
      assert n in order[1..];
      SizeOfCoversEach(order[1..], dir, n);
    }
  }

  /**
   * A file larger than `cap` never survives the eviction pass, wherever it
   * stands in the order.
   */
  lemma OversizeNeverRetained(order: seq<string>, dir: Directory, cap: nat, name: string)
    requires AllIn(order, dir) && name in dir && |dir[name]| > cap
    ensures name !in Retained(order, dir, cap)
  {
    var r := Retained(order, dir, cap);
    if name in r {
      SizeOfCoversEach(r, dir, name);
    }
  }

  /** Eviction depends only on the contents of the files the order names. */
  lemma {:induction false} RetainedAgree(order: seq<string>, d1: Directory, d2: Directory, cap: nat)
    requires AllIn(order, d1) && AllIn(order, d2)
    requires forall n :: n in order ==> d1[n] == d2[n]
    ensures Retained(order, d1, cap) == Retained(order, d2, cap)
    decreases |order|
  {
    SizeOfAgree(order, d1, d2);
    if order != [] {
      assert forall n :: n in order[1..] ==> n in order;
      RetainedAgree(order[1..], d1, d2, cap);
    }
  }

  /**
   * Evicting after an insertion gives the same survivors as evicting
   * before and after: once an entry no longer fits with its successors,
   * a newer entry never brings it back.
   */
  lemma {:induction false} RetainedAfterAppend(order: seq<string>, dir: Directory, cap: nat, name: string)
    requires AllIn(order, dir) && name in dir
    ensures AllIn(order + [name], dir) && AllIn(Retained(order, dir, cap) + [name], dir)
    ensures Retained(Retained(order, dir, cap) + [name], dir, cap) == Retained(order + [name], dir, cap)
    decreases |order|
  {
    SizeOfAppend(order, dir, name);
    SizeOfAppend(Retained(order, dir, cap), dir, name);
    if SizeOf(order, dir) > cap {
      assert (order + [name])[1..] == order[1..] + [name];
      RetainedAfterAppend(order[1..], dir, cap, name);
    }
  }

  /**
   * The survivors when each arrival is inserted and then evicted down to
   * `cap`, one arrival at a time.
   */
  function EvictAfterEach(retained: seq<string>, arrivals: seq<string>, dir: Directory, cap: nat): (r: seq<string>)
    requires AllIn(retained, dir) && AllIn(arrivals, dir)
    decreases |arrivals|
  {
    if arrivals == [] then retained
    else
      SizeOfAppend(retained, dir, arrivals[0]);
      EvictAfterEach(Retained(retained + [arrivals[0]], dir, cap), arrivals[1..], dir, cap)
  }

  /**
   * Inserting entries one by one with an eviction pass after each leaves
   * exactly the longest suffix of the whole insertion sequence that fits.
   */
  lemma {:induction false} EvictAfterEachIsRetained(prefix: seq<string>, arrivals: seq<string>, dir: Directory, cap: nat)
    requires AllIn(prefix, dir) && AllIn(arrivals, dir)
    ensures AllIn(prefix + arrivals, dir)
    ensures EvictAfterEach(Retained(prefix, dir, cap), arrivals, dir, cap) == Retained(prefix + arrivals, dir, cap)
    decreases |arrivals|
  {
    if arrivals == [] {
      assert prefix + arrivals == prefix;
    } else {
      var x, rest := arrivals[0], arrivals[1..];
      assert arrivals == [x] + rest;
      assert (prefix + [x]) + rest == prefix + arrivals;
      assert AllIn(rest, dir);
      RetainedAfterAppend(prefix, dir, cap, x);
      var before := Retained(prefix, dir, cap);
      assert EvictAfterEach(before, arrivals, dir, cap)
          == EvictAfterEach(Retained(before + [x], dir, cap), rest, dir, cap);
      EvictAfterEachIsRetained(prefix + [x], rest, dir, cap);
    }
  }

  /** `order` with `name` taken out; the other entries keep their order. */
  function Without(order: seq<string>, name: string): (r: seq<string>)
    ensures forall n :: n in r <==> n in order && n != name
    ensures NoDuplicates(order) ==> NoDuplicates(r)
    ensures name !in order ==> r == order
    ensures |r| <= |order|
  {
    if order == [] then []
    else if order[0] == name then Without(order[1..], name)
    else
      assert NoDuplicates(order) ==> order[0] !in order[1..];
      [order[0]] + Without(order[1..], name)
  }

  /**
   * Removing a name that occurs once, at position `k`, cuts out that one
   * position and leaves every other entry where it was relative to the rest.
   */
  lemma {:induction false} WithoutCutsOne(order: seq<string>, name: string, k: nat)
    requires k < |order| && order[k] == name
    requires name !in order[..k] && name !in order[k + 1..]
    ensures Without(order, name) == order[..k] + order[k + 1..]
  {
    var rest := order[1..];
    if k == 0 {
      assert order[..0] + order[1..] == rest;
    } else {
      assert order[0] in order[..k];
      assert rest[..k - 1] == order[1..k];
      assert order[k + 1..] == rest[k..];
      WithoutCutsOne(rest, name, k - 1);
      assert order[..k] == [order[0]] + rest[..k - 1];
    }
  }

  /** In an order without duplicates every listed name occurs exactly once. */
  lemma OccursOnce(order: seq<string>, k: nat)
    requires NoDuplicates(order) && k < |order|
    ensures order[k] !in order[..k] && order[k] !in order[k + 1..]
  {
    forall i | 0 <= i < k
      ensures order[..k][i] != order[k]
    {
      assert order[..k][i] == order[i];
    }
    var after := order[k + 1..];
    forall j | 0 <= j < |after|
      ensures after[j] != order[k]
    {
      assert after[j] == order[k + 1 + j];
    }
  }

  /** Removing a file keeps the index exact. */
  lemma IndexWithout(order: seq<string>, dir: Directory, name: string)
    requires Indexes(order, dir)
    ensures Indexes(Without(order, name), dir - {name})
  {
  }

  /** Removing a file from the index frees exactly that file's bytes. */
  lemma {:induction false} SizeOfWithout(order: seq<string>, dir: Directory, name: string)
    requires NoDuplicates(order) && AllIn(order, dir)
    ensures AllIn(Without(order, name), dir - {name})
    ensures SizeOf(Without(order, name), dir - {name}) + (if name in order then |dir[name]| else 0)
         == SizeOf(order, dir)
  {
    if order != [] {
      var rest := order[1..];
      SizeOfWithout(rest, dir, name);
      if order[0] == name {
        assert name !in rest;
        SizeOfAgree(rest, dir, dir - {name});
      }
    }
  }
}
