/** Machine integers of the widths the codec uses, big-endian byte order,
    and the three ways a call of the codec can end: a value, an `Err`, or a
    panic that aborts the program. */
module Wire {

  type u8 = x: int | 0 <= x < 0x100
  type u16 = x: int | 0 <= x < 0x1_0000
  type u32 = x: int | 0 <= x < 0x1_0000_0000

  datatype Option<+T> = None | Some(value: T)

  /** How a call ends: it returns `Ok(value)`, it returns the error value of a
      `Result`, or it panics (an `unwrap` of `None`, a failed `assert!`, an
      out-of-range slice, a push into a full fixed-capacity vector). */
  datatype Outcome<+T> = Ok(value: T) | Err | Panic

  /** 256 to the power k: the number of values `k` bytes can hold. */
  function Pow256(k: nat): (p: nat)
    ensures p >= 1
  {
    if k == 0 then 1 else 256 * Pow256(k - 1)
  }

  /** The unsigned value of a big-endian byte string (`from_be_bytes`). */
  function FromBE(s: seq<u8>): (n: nat)
    ensures n < Pow256(|s|)
  {
    if s == [] then 0
    else
      var m := FromBE(s[..|s| - 1]);
      assert m + 1 <= Pow256(|s| - 1);
      m * 256 + s[|s| - 1]
  }

  /** The `width`-byte big-endian representation of `x` (`to_be_bytes`);
      decoding it gives `x` back. */
  function ToBE(x: nat, width: nat): (s: seq<u8>)
    requires x < Pow256(width)
    ensures |s| == width
    ensures FromBE(s) == x
  {
    if width == 0 then []
    else
      var high := ToBE(x / 256, width - 1);
      assert (high + [x % 256])[..width - 1] == high;
      high + [x % 256]
  }

  /** Encoding the value of a byte string at its own width gives the string back. */
  lemma {:induction false} ToBEFromBE(s: seq<u8>)
    ensures ToBE(FromBE(s), |s|) == s
  {
    if s != [] {
      var init := s[..|s| - 1];
      ToBEFromBE(init);
      assert s == init + [s[|s| - 1]];
    }
  }

  /** Two bytes read big-endian: `u16::from_be_bytes`. */
  lemma FromBE2(b0: u8, b1: u8)
    ensures FromBE([b0, b1]) == 256 * b0 + b1
  {
    assert [b0, b1][..1] == [b0];
    assert [b0][..0] == [];
  }

  /** Four bytes read big-endian: `u32::from_be_bytes`. */
  lemma FromBE4(b0: u8, b1: u8, b2: u8, b3: u8)
    ensures FromBE([b0, b1, b2, b3]) == 0x100_0000 * b0 + 0x1_0000 * b1 + 0x100 * b2 + b3
  {
    assert [b0, b1, b2, b3][..3] == [b0, b1, b2];
    assert [b0, b1, b2][..2] == [b0, b1];
    FromBE2(b0, b1);
  }

  /** `u16::to_be_bytes`: the high byte, then the low byte. */
  lemma ToBE2(x: u16)
    ensures ToBE(x, 2) == [x / 256, x % 256]
  {
    var s := ToBE(x, 2);
    FromBE2(s[0], s[1]);
    assert s == [s[0], s[1]];
  }
}
