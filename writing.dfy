/** The bounded write buffer of the codec: a byte vector of capacity 512,
    the classic DNS limit on a UDP message. */
module Writing {
  import opened Wire

  const CAPACITY: nat := 512

  /** The bytes of a list of writes, in order. */
  function Concat(writes: seq<seq<u8>>): seq<u8>
  {
    if writes == [] then [] else Concat(writes[..|writes| - 1]) + writes[|writes| - 1]
  }

  class Encoder {
    /** The bytes written so far (`ArrayVec<u8, 512>`). */
    var buffer: seq<u8>
    /** The successful writes so far, in order. */
    ghost var writes: seq<seq<u8>>

    /** The buffer never exceeds its capacity and holds exactly the
        successful writes, concatenated. */
    ghost predicate Valid()
      reads this
    {
      |buffer| <= CAPACITY && buffer == Concat(writes)
    }

    /** An empty buffer. */
    constructor ()
      ensures Valid() && buffer == [] && writes == []
    {
      buffer := [];
      writes := [];
    }

    /** Appends `value` when it fits (`try_extend_from_slice`); otherwise
        returns an error and leaves the buffer as it was. */
    method TryWriteSlice(value: seq<u8>) returns (ok: bool)
      requires Valid()
      modifies this
      ensures Valid()
      ensures ok <==> |old(buffer)| + |value| <= CAPACITY
      ensures ok ==> buffer == old(buffer) + value && writes == old(writes) + [value]
      ensures !ok ==> buffer == old(buffer) && writes == old(writes)
    {
      if |buffer| + |value| <= CAPACITY {
        buffer := buffer + value;
        writes := writes + [value];
        assert writes[..|writes| - 1] == old(writes);
        ok := true;
      } else {
        ok := false;
      }
    }

    /** Appends the two big-endian bytes of `value` when they fit. */
    method TryWriteU16(value: u16) returns (ok: bool)
      requires Valid()
      modifies this
      ensures Valid()
      ensures ok <==> |old(buffer)| + 2 <= CAPACITY
      ensures ok ==> buffer == old(buffer) + [value / 256, value % 256]
      ensures ok ==> writes == old(writes) + [[value / 256, value % 256]]
      ensures !ok ==> buffer == old(buffer) && writes == old(writes)
    {
      ToBE2(value);
      ok := TryWriteSlice(ToBE(value, 2));
    }

    /** The written bytes: every successful write, in order. */
    method Bytes() returns (r: seq<u8>)
      requires Valid()
      ensures r == Concat(writes) && |r| <= CAPACITY
    {
      r := buffer;
    }
  }
}
