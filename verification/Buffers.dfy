/** Writing into buffers. */
module Buffers {
  import opened Words

  /** Copies bytes to their place, leaving the rest alone. */
  method Put(out: array<Byte>, at: nat, bytes: seq<Byte>)
    requires at + |bytes| <= out.Length
    modifies out
    ensures out[..at + |bytes|] == old(out[..at]) + bytes
    ensures forall i | at + |bytes| <= i < out.Length :: out[i] == old(out[i])
  {
    forall i | 0 <= i < |bytes| {
      out[at + i] := bytes[i];
    }
  }
}
