/**
 * The remote object store the cache sits in front of. It is modelled as a
 * map from object identity to stored object, together with the log of
 * every call made on it, so that a caller can state how many times each
 * operation was invoked and with which arguments.
 */
module S3AccessLayer {
  import opened S3Models

  class AwsSdkS3AccessLayer {
    /** The objects held by the remote store. */
    var objects: map<ObjectRef, StoredObject>
    /** Every call received so far, oldest first. */
    var calls: seq<Call>

    constructor (objects: map<ObjectRef, StoredObject>)
      ensures this.objects == objects && calls == []
    {
      this.objects := objects;
      calls := [];
    }

    method GetBytes(ref: ObjectRef) returns (r: Result<seq<byte>>)
      modifies this`calls
      ensures calls == old(calls) + [GetBytesCall(ref)]
      ensures ref in objects ==> r == Ok(objects[ref].data)
      ensures ref !in objects ==> r == Err(NotFound(ref))
    {
      calls := calls + [GetBytesCall(ref)];
      r := if ref in objects then Ok(objects[ref].data) else Err(NotFound(ref));
    }

    method GetStream(ref: ObjectRef) returns (r: Result<ObjectStream>)
      modifies this`calls
      ensures calls == old(calls) + [GetStreamCall(ref)]
      ensures ref in objects ==> r == Ok(ObjectStream(ref))
      ensures ref !in objects ==> r == Err(NotFound(ref))
    {
      calls := calls + [GetStreamCall(ref)];
      r := if ref in objects then Ok(ObjectStream(ref)) else Err(NotFound(ref));
    }

    /** Stores the object, replacing any earlier object under the same identity. */
    method PutBytes(ref: ObjectRef, data: seq<byte>, contentType: string, metadata: map<string, string>)
      modifies this
      ensures calls == old(calls) + [PutBytesCall(ref, data, contentType, metadata)]
      ensures objects == old(objects)[ref := StoredObject(data, contentType, metadata)]
    {
      calls := calls + [PutBytesCall(ref, data, contentType, metadata)];
      objects := objects[ref := StoredObject(data, contentType, metadata)];
    }

    method Head(ref: ObjectRef) returns (r: Result<ObjectHead>)
      modifies this`calls
      ensures calls == old(calls) + [HeadCall(ref)]
      ensures ref in objects ==> r.Ok? && r.value.contentLength == |objects[ref].data|
                                 && r.value.contentType == objects[ref].contentType
                                 && r.value.metadata == objects[ref].metadata
      ensures ref !in objects ==> r == Err(NotFound(ref))
    {
      calls := calls + [HeadCall(ref)];
      if ref in objects {
        var o := objects[ref];
        r := Ok(ObjectHead(|o.data|, o.contentType, o.metadata));
      } else {
        r := Err(NotFound(ref));
      }
    }

    /** Absence is an answer, not an error. */
    method Exists(ref: ObjectRef) returns (b: bool)
      modifies this`calls
      ensures calls == old(calls) + [ExistsCall(ref)]
      ensures b <==> ref in objects
    {
      calls := calls + [ExistsCall(ref)];
      b := ref in objects;
    }

    /** Idempotent: deleting an absent object is not an error. */
    method Delete(ref: ObjectRef)
      modifies this
      ensures calls == old(calls) + [DeleteCall(ref)]
      ensures objects == old(objects) - {ref}
    {
      calls := calls + [DeleteCall(ref)];
      objects := objects - {ref};
    }
  }
}
