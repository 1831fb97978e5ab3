/** The read cursor of the codec: one message buffer that is never changed,
    and the suffix of it that has not been read yet. */
module Cursor {
  import opened Wire

  class Decoder {
    /** The whole message; a `const`, so no method can change it. */
    const buffer: seq<u8>
    /** The unread part of `buffer`. */
    var remaining: seq<u8>

    /** `remaining` is always a suffix of `buffer`. */
    ghost predicate Valid()
      reads this
    {
      |remaining| <= |buffer| && remaining == buffer[|buffer| - |remaining|..]
    }

    /** A cursor at the start of `buffer`. */
    constructor (buffer: seq<u8>)
      ensures this.buffer == buffer && remaining == buffer
      ensures Valid() && Current() == 0
    {
      this.buffer := buffer;
      remaining := buffer;
    }

    /** The number of bytes read so far: the absolute offset of the next byte. */
    function Current(): (n: nat)
      reads this
      requires Valid()
      ensures n <= |buffer| && remaining == buffer[n..]
    {
      |buffer| - |remaining|
    }

    /** The next byte, not consumed; `None` at the end of the buffer. */
    function Peek(): (r: Option<u8>)
      reads this
      requires Valid()
      ensures r.None? <==> Current() == |buffer|
      ensures r.Some? ==> Current() < |buffer| && r.value == buffer[Current()]
    {
      if remaining == [] then None else Some(remaining[0])
    }

    /** Consumes the next byte; at the end of the buffer nothing changes. */
    method Pop() returns (r: Option<u8>)
      requires Valid()
      modifies this
      ensures Valid()
      ensures old(remaining) == [] ==> r == None && remaining == old(remaining)
      ensures old(remaining) != [] ==>
        r == Some(old(remaining)[0]) && remaining == old(remaining)[1..]
      ensures r.Some? ==> r.value == buffer[old(Current())] && Current() == old(Current()) + 1
    {
      if remaining == [] {
        r := None;
      } else {
        r := Some(remaining[0]);
        remaining := remaining[1..];
      }
    }

    /** Consumes and returns the next `n` bytes; `split_at` panics when fewer
        than `n` remain, so callers must check. */
    method ReadSlice(n: nat) returns (s: seq<u8>)
      requires Valid() && n <= |remaining|
      modifies this
      ensures Valid()
      ensures s == old(remaining)[..n] && remaining == old(remaining)[n..]
      ensures s == buffer[old(Current())..old(Current()) + n] && Current() == old(Current()) + n
    {
      s := remaining[..n];
      remaining := remaining[n..];
    }

    /** Consumes two bytes and returns their big-endian value. */
    method ReadU16() returns (x: u16)
      requires Valid() && 2 <= |remaining|
      modifies this
      ensures Valid()
      ensures x as int == 256 * old(remaining)[0] as int + old(remaining)[1]
      ensures x == FromBE(old(remaining)[..2])
      ensures x as int == 256 * buffer[old(Current())] as int + buffer[old(Current()) + 1]
      ensures remaining == old(remaining)[2..] && Current() == old(Current()) + 2
    {
      var s := ReadSlice(2);
      FromBE2(s[0], s[1]);
      assert s == [s[0], s[1]];
      x := FromBE([s[0], s[1]]);
    }

    /** Consumes four bytes and returns their big-endian value. */
    method ReadU32() returns (x: u32)
      requires Valid() && 4 <= |remaining|
      modifies this
      ensures Valid()
      ensures x as int == 0x100_0000 * old(remaining)[0] as int + 0x1_0000 * old(remaining)[1] as int
                        + 0x100 * old(remaining)[2] as int + old(remaining)[3]
      ensures x == FromBE(old(remaining)[..4])
      ensures remaining == old(remaining)[4..] && Current() == old(Current()) + 4
    {
      var s := ReadSlice(4);
      FromBE4(s[0], s[1], s[2], s[3]);
      assert s == [s[0], s[1], s[2], s[3]];
      x := FromBE([s[0], s[1], s[2], s[3]]);
    }

    /** A fresh cursor over the same buffer, positioned at absolute offset `i`,
        independent of this cursor. */
    method CloneAtIndex(i: nat) returns (d: Decoder)
      requires i <= |buffer|
      ensures fresh(d) && d.buffer == buffer && d.remaining == buffer[i..]
      ensures d.Valid() && d.Current() == i
    {
      d := new Decoder(buffer);
      d.remaining := buffer[i..];
    }
  }
}
