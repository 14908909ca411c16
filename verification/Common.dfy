/** Values shared by every part of the model. */
module Common {

  datatype Option<+T> = None | Some(value: T)
  {
    function UnwrapOr(other: T): T {
      if Some? then value else other
    }
  }

  /** One octet of a message, a file or an encoded Go string. */
  newtype byte = x: int | 0 <= x < 256

  type Bytes = seq<byte>

  /** A SHA-256 digest. The digest carries the data it was taken from, so two
      digests are equal exactly when the data are: collision freedom is built
      into the type instead of being assumed somewhere in a proof. */
  datatype Hash = Sha256(preimage: Bytes)

  /** How one I/O operation ends: done and acknowledged, not done, or done but
      reported as an error to the caller. */
  datatype Outcome = Ok | Fault | LostAck
}
