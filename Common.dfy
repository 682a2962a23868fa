/** Values shared by both services: nullable references, the JDK types the core uses, and HTTP responses. */
module Common {

  /** A Java reference that may be null: None stands for null. */
  datatype Option<+T> = None | Some(value: T)

  /** java.util.UUID keeps its 128 bits as two longs. */
  datatype Uuid = Uuid(mostSigBits: bv64, leastSigBits: bv64)

  /** java.time.Instant, opaque here: the persistence layer assigns it. */
  type Instant = int

  const MinInt32: int := -0x8000_0000
  const MaxInt32: int := 0x7fff_ffff

  /** java.lang.Integer */
  type Int32 = x: int | MinInt32 <= x <= MaxInt32

  /** The status (and body) of a Spring ResponseEntity. ServerError stands for an exception that
      the controller does not catch, which Spring answers with status 500. */
  datatype Response<+T> = Ok(body: T) | Created(body: T) | NoContent | BadRequest | NotFound | ServerError
}
