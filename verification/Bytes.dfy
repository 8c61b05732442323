/** Byte strings, Rust's fixed-size arrays, and the two result types used throughout. */
module Bytes {

  type Byte = b: int | 0 <= b < 0x100
  type U16 = n: int | 0 <= n < 0x1_0000
  type U32 = n: int | 0 <= n < 0x1_0000_0000

  type Bytes4 = s: seq<Byte> | |s| == 4 witness seq(4, _ => 0)
  type Bytes16 = s: seq<Byte> | |s| == 16 witness seq(16, _ => 0)
  type Bytes32 = s: seq<Byte> | |s| == 32 witness seq(32, _ => 0)

  datatype Option<+T> = None | Some(value: T)

  datatype Result<+T, +E> = Ok(value: T) | Err(error: E)

  /** The bytes of an ASCII literal. */
  function Ascii(s: string): (r: seq<Byte>)
    ensures |r| == |s|
  {
    seq(|s|, i requires 0 <= i < |s| => if s[i] < 128 as char then s[i] as int else 0)
  }

  /** The cast `n as u16`. */
  function AsU16(n: nat): (r: U16)
    ensures n < 0x1_0000 ==> r == n
  {
    n % 0x1_0000
  }

  /** `u16::to_be_bytes`. */
  function Be16(n: U16): (r: seq<Byte>)
    ensures |r| == 2 && r[0] as int * 0x100 + r[1] as int == n
  {
    [n / 0x100, n % 0x100]
  }

  /** `u16::from_be_bytes`. */
  function FromBe16(hi: Byte, lo: Byte): (n: U16)
    ensures Be16(n) == [hi, lo]
  {
    hi as int * 0x100 + lo as int
  }

  lemma Assoc(a: seq<Byte>, b: seq<Byte>, c: seq<Byte>)
    ensures (a + b) + c == a + (b + c)
  {
  }
}
