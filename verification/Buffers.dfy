/** Writing into fixed buffers. */
module Buffers {

  /** Writes `data` into the buffer at an offset; nothing before it changes. */
  method CopyInto<T>(buffer: array<T>, offset: nat, data: seq<T>)
    requires offset + |data| <= buffer.Length
    modifies buffer
    ensures buffer[..offset + |data|] == old(buffer[..offset]) + data
  {
    forall k | 0 <= k < |data| {
      buffer[offset + k] := data[k];
    }
  }
}
