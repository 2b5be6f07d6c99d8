/** Kernel/message.hpp: what tasks send each other. */
module Messages {
  newtype byte = b: int | 0 <= b < 256

  /** A pipe chunk, or any other message. */
  datatype Message =
    | Pipe(data: seq<byte>)
    | Other(tag: nat)

  lemma Associate(a: seq<byte>, b: seq<byte>, c: seq<byte>)
    ensures a + (b + c) == a + b + c
  {
  }
}
