/** Types shared by every module: octets, optional values and results. */
module Base {
  type Byte = b: int | 0 <= b < 256

  datatype Option<+T> = None | Some(value: T)

  datatype Result<+T, +E> = Ok(value: T) | Err(error: E)

  /** The bytes of a string of 8-bit characters. */
  function Ascii(s: string): (b: seq<Byte>)
    ensures |b| == |s|
    ensures forall i :: 0 <= i < |s| && s[i] < 256 as char ==> b[i] == s[i] as int
  {
    seq(|s|, i requires 0 <= i < |s| => (s[i] as int) % 256)
  }

  /** The effect of Go's copy into a zeroed buffer of n bytes. */
  function Copied(n: nat, src: seq<Byte>): (dst: seq<Byte>)
    ensures |dst| == n
    ensures |src| == n ==> dst == src
    ensures forall i :: 0 <= i < n ==> dst[i] == if i < |src| then src[i] else 0
  {
    if |src| >= n then src[..n] else src + seq(n - |src|, _ => 0)
  }
}
