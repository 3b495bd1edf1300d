/**
 * Values exchanged between the cache layer, its callers and the remote
 * object store: object identities, stored objects, the results of remote
 * calls, and the record of which remote calls were made.
 */
module S3Models {

  /** One octet of object content. */
  newtype byte = x: int | 0 <= x < 256

  /** Identity of a remote object; equality is by value. */
  datatype ObjectRef = ObjectRef(bucket: string, key: string)

  /** The one remote failure the model distinguishes: the object is absent. */
  datatype S3Error = NotFound(ref: ObjectRef)

  datatype Option<T> = None | Some(value: T)

  datatype Result<T> = Ok(value: T) | Err(error: S3Error)

  /** What the remote store keeps for one object. */
  datatype StoredObject = StoredObject(data: seq<byte>, contentType: string, metadata: map<string, string>)

  /** What a head request reports about an object, without its content. */
  datatype ObjectHead = ObjectHead(contentLength: nat, contentType: string, metadata: map<string, string>)

  /** An open stream over a remote object; its content is not modelled. */
  datatype ObjectStream = ObjectStream(ref: ObjectRef)

  /** One call made on the remote store, with its arguments. */
  datatype Call =
    | GetBytesCall(ref: ObjectRef)
    | GetStreamCall(ref: ObjectRef)
    | PutBytesCall(ref: ObjectRef, data: seq<byte>, contentType: string, metadata: map<string, string>)
    | HeadCall(ref: ObjectRef)
    | ExistsCall(ref: ObjectRef)
    | DeleteCall(ref: ObjectRef)

  /** How many times the call `c`, with exactly these arguments, occurs in `calls`. */
  function Times(calls: seq<Call>, c: Call): (r: nat)
    ensures r == multiset(calls)[c]
    ensures r <= |calls|
    ensures r == 0 <==> c !in calls
  {
    if calls == [] then 0
    else
      assert calls == [calls[0]] + calls[1..];
      (if calls[0] == c then 1 else 0) + Times(calls[1..], c)
  }

  /** The bytes of an ASCII string, one byte per character. */
  function AsciiBytes(s: string): (r: seq<byte>)
    requires forall i :: 0 <= i < |s| ==> s[i] as int < 128
    ensures |r| == |s|
    ensures forall i :: 0 <= i < |s| ==> r[i] as int == s[i] as int
  {
    seq(|s|, i requires 0 <= i < |s| => s[i] as int as byte)
  }
}
