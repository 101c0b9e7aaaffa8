/** Copies inside and between buffers: `std::memcpy`, and `std::memmove` for bytes of the same buffer. */
module Buffers {
  function Overwrite<T>(s: seq<T>, at: nat, src: seq<T>): (r: seq<T>)
    requires at + |src| <= |s|
    ensures |r| == |s|
  {
    s[..at] + src + s[at + |src|..]
  }

  method CopyInto<T>(buffer: array<T>, at: nat, src: seq<T>)
    requires at + |src| <= buffer.Length
    modifies buffer
    ensures buffer[..] == Overwrite(old(buffer[..]), at, src)
  {
    ghost var was := buffer[..];
    for i := 0 to |src|
      invariant buffer[..at] == was[..at]
      invariant buffer[at..at + i] == src[..i]
      invariant buffer[at + i..] == was[at + i..]
    {
      ghost var copied := buffer[at..at + i];
      buffer[at + i] := src[i];
      assert buffer[at..at + i + 1] == copied + [src[i]];
      assert buffer[..at] == was[..at] && buffer[at + i + 1..] == was[at + i + 1..];
    }
    assert buffer[..] == buffer[..at] + buffer[at..at + |src|] + buffer[at + |src|..];
  }

  lemma {:induction false} OverwriteElsewhere<T>(s: seq<T>, at: nat, src: seq<T>, low: nat, high: nat)
    requires at + |src| <= |s| && low <= high <= |s|
    requires high <= at || at + |src| <= low
    ensures Overwrite(s, at, src)[low..high] == s[low..high]
  {
  }

  lemma {:induction false} OverwriteAppends<T>(s: seq<T>, low: nat, at: nat, src: seq<T>)
    requires at + |src| <= |s| && low <= at
    ensures Overwrite(s, at, src)[low..at + |src|] == s[low..at] + src
  {
  }
}
