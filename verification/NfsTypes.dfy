/** Types shared by every part of the server model. */
module NfsTypes {

  datatype Option<+T> = None | Some(value: T)

  /** The NFSv4 status codes that the modelled operations return. */
  datatype Status =
    | Ok
    | BadCookie
    | BadSession
    | BadSlot
    | BadStateid
    | ClientidBusy
    | ConnNotBoundToSession
    | Delay
    | DelegRevoked
    | Denied
    | Inval
    | LocksHeld
    | OldStateid
    | NotSame
    | Openmode
    | SeqFalseRetry
    | SeqMisordered
    | Serverfault
    | ShareDenied
    | Stale
    | StaleClientid
    | Toosmall

  datatype Result<+T> = Success(value: T) | Failure(status: Status)

  const WORD: int := 0x1_0000_0000
  const U64_MAX: int := 0xFFFF_FFFF_FFFF_FFFF
  const U128_MAX: int := 0xFFFF_FFFF_FFFF_FFFF_FFFF_FFFF_FFFF_FFFF

  type u32 = x: int | 0 <= x < WORD
  type u64 = x: int | 0 <= x <= U64_MAX
  type byte = x: int | 0 <= x < 256
  type Bytes = seq<byte>

  /** A name as its UTF-8 bytes. */
  type Name = Bytes

  type ObjectId = nat
  type ClientId = nat

  /** What a filehandle names: a backend object or one of its named attributes. */
  datatype ServerObject =
    | Fs(id: ObjectId)
    | NamedAttrDir(id: ObjectId)
    | NamedAttrFile(parent: ObjectId, name: Name)
  {
    /** The backend object whose retirement retires this object too. */
    function Base(): ObjectId {
      if NamedAttrFile? then parent else id
    }
  }

  lemma SubsetSize<T>(a: set<T>, b: set<T>)
    requires a <= b
    ensures |a| <= |b|
  {
    assert b == a + (b - a);
  }
}
