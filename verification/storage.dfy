/** The object store behind both archivers, and the URI that addresses it. */
module Storage {
  import opened Wrappers

  newtype byte = x: int | 0 <= x < 256

  type Bytes = seq<byte>

  datatype ObjectId = ObjectId(bucket: string, key: string)

  type Objects = map<ObjectId, Bytes>

  class ObjectStore {
    var objects: Objects

    constructor ()
      ensures objects == map[]
    {
      objects := map[];
    }

    /** Stores or overwrites one object; a put that fails changes nothing. */
    method PutObject(id: ObjectId, body: Bytes, succeeds: bool)
      modifies this
      ensures objects == if succeeds then old(objects)[id := body] else old(objects)
    {
      if succeeds {
        objects := objects[id := body];
      }
    }
  }

  datatype Uri = Uri(scheme: string, hostname: string, path: string)

  datatype UriError = SchemeMismatch | InvalidUri

  const SCHEME := "minio"

  function ValidateUri(uri: Uri): (r: Option<UriError>) {
    if uri.scheme != SCHEME then Some(SchemeMismatch)
    else if uri.hostname == "" then Some(InvalidUri)
    else None
  }
}
