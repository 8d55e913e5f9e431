/** Writing bytes into a buffer. */
module Buffers {
  import opened Wire
  import opened Messages

  /** `bytes` with `src` written over them from `at` on. */
  function Overwritten(bytes: Bytes, at: nat, src: Bytes): (r: Bytes)
    requires at + |src| <= |bytes|
    ensures |r| == |bytes|
  {
    bytes[..at] + src + bytes[at + |src|..]
  }

  method Write(dst: array<Byte>, at: nat, src: Bytes)
    requires at + |src| <= dst.Length
    modifies dst
    ensures dst[..] == Overwritten(old(dst[..]), at, src)
  {
    ghost var before := dst[..];
    for i := 0 to |src|
      invariant dst[..] == Overwritten(before, at, src[..i])
    {
      dst[at + i] := src[i];
    }
    assert src[..|src|] == src;
  }
}
