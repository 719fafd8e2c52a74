/**
  Bytes, optional values and the widths of the configuration the repository ships:
  int, size_t and ssize_t of 32 bits.
*/
module Basics {
  type Byte = b: int | 0 <= b < 256

  datatype Option<+T> = None | Some(value: T)

  const WORD: nat := 0x1_0000_0000
  const SIZE_MAX: nat := 0xffff_ffff
  const SSIZE_MAX: nat := 0x7fff_ffff

  // The cast of an ev_ssize_t result to a 32-bit int.
  function ToInt32(n: int): (r: int)
    ensures -0x8000_0000 <= r < 0x8000_0000
    ensures (r - n) % 0x1_0000_0000 == 0
  {
    var m := n % 0x1_0000_0000;
    if m < 0x8000_0000 then m else m - 0x1_0000_0000
  }

  lemma SmallInt(n: int)
    ensures -0x8000_0000 <= n < 0x8000_0000 ==> ToInt32(n) == n
    ensures n >= 0 ==> ToInt32(n) <= n
  {
  }

  // Concatenation regroups; stated once so that proofs can name the instance.
  lemma Assoc<T>(a: seq<T>, b: seq<T>, c: seq<T>)
    ensures a + b + c == a + (b + c)
  {
  }
}
