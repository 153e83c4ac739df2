/**
 * The object-store gateway reduced to what the pipeline observes: the
 * response of one put or one delete call (or the error it raised),
 * mapped to a boolean outcome.
 */
module Gateway {

  import opened ObjectKeys

  datatype Option<T> = None | Some(value: T)

  /** What `put_object` gave back: a response carrying an optional etag, or a raised error. */
  datatype PutResponse =
    | PutRaised(message: string)
    | PutReturned(etag: Option<string>)

  /** What `delete_objects` gave back: the list of keys it reports deleted, or a raised error. */
  datatype DeleteResponse =
    | DeleteRaised(message: string)
    | DeleteReturned(deleted: seq<Key>)

  /** An upload succeeded exactly when the store answered with an etag; a raised error is a failure. */
  function ObjectUploaded(response: PutResponse): (ok: bool)
    ensures response.PutRaised? ==> !ok
    ensures response.PutReturned? ==> (ok <==> response.etag != None)
  {
    match response
    case PutRaised(_) => false
    case PutReturned(etag) => etag.Some?
  }

  /** A delete succeeded exactly when the store reports one deleted object; a raised error is a failure. */
  function ObjectDeleted(response: DeleteResponse): (ok: bool)
    ensures response.DeleteRaised? ==> !ok
    ensures response.DeleteReturned? ==> (ok <==> |response.deleted| == 1)
  {
    match response
    case DeleteRaised(_) => false
    case DeleteReturned(deleted) => |deleted| == 1
  }
}
