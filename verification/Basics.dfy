/** Bytes, options and the few sequence facts that every other module uses. */
module Basics {

  /** One octet. */
  newtype Byte = b: int | 0 <= b < 256

  /** Keys, values, protocol buffers and arguments are all byte strings. */
  type Bytes = seq<Byte>

  datatype Option<+T> = None | Some(value: T)

  datatype Result<+T, +E> = Ok(value: T) | Err(error: E)

  function Min(a: int, b: int): int {
    if a < b then a else b
  }

  function Max(a: int, b: int): int {
    if a < b then b else a
  }

  /** The bytes of an ASCII text. */
  function Ascii(s: string): (r: Bytes)
    ensures |r| == |s|
    ensures forall i | 0 <= i < |s| && s[i] as int < 128 :: r[i] as int == s[i] as int
  {
    seq(|s|, i requires 0 <= i < |s| => if s[i] as int < 128 then s[i] as Byte else 63)
  }

  /** Two texts that differ somewhere have different bytes. */
  lemma AsciiDiffer(s: string, t: string, i: nat)
    requires i < |s| && i < |t| && s[i] != t[i] && s[i] as int < 128 && t[i] as int < 128
    ensures Ascii(s) != Ascii(t)
  {
    assert Ascii(s)[i] != Ascii(t)[i];
  }
}
