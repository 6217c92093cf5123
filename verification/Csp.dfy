/** The packet buffers of libcsp. */
module Csp {
  import opened Wire
  import opened FileStore

  /** The largest telemetry either service writes into a packet. */
  const CAPACITY: nat := 249

  /** A libcsp packet buffer: a fixed array, of which `length` bytes are in use. */
  class Packet {
    const data: array<byte>
    var length: nat

    ghost predicate Valid()
      reads this
    {
      CAPACITY <= data.Length && length <= data.Length
    }

    function Bytes(): Bytes
      requires Valid()
      reads this, data
    {
      data[..length]
    }

    /** `memcpy` of a telemetry struct over the buffer. */
    method Overwrite(bytes: Bytes)
      requires Valid() && |bytes| <= CAPACITY
      modifies this, data
      ensures Valid() && Bytes() == bytes
    {
      forall i | 0 <= i < |bytes| {
        data[i] := bytes[i];
      }
      length := |bytes|;
    }

    constructor (bytes: Bytes)
      ensures Valid() && Bytes() == bytes && fresh(data)
    {
      var size := if |bytes| < CAPACITY then CAPACITY else |bytes|;
      data := new byte[size](i => if 0 <= i < |bytes| then bytes[i] else 0);
      length := |bytes|;
    }

    /** `csp_buffer_clone`, which is taken to succeed. */
    method Clone() returns (clone: Packet)
      requires Valid()
      ensures fresh(clone) && fresh(clone.data)
      ensures clone.Valid() && clone.Bytes() == Bytes()
    {
      clone := new Packet(Bytes());
    }
  }
}
