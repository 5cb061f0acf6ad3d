/** Reading one field with `my_read`: used by both ends of the pipes. */
module Fields {
  import opened Common
  import opened Bytes
  import opened Pipes
  import opened Wire

  method ReadInt(fd: Source<byte>) returns (v: int32)
    requires GetInt(fd.rest).Some?
    modifies fd
    ensures Some(Got(v, fd.rest)) == GetInt(old(fd.rest))
  {
    var buffer := new byte[4](i => 0);
    var _ := MyRead(fd, buffer, 4);
    assert buffer[..] == old(fd.rest)[..4];
    v := IntFrom(buffer[..]);
  }

  method ReadUint(fd: Source<byte>) returns (v: uint)
    requires GetUint(fd.rest).Some?
    modifies fd
    ensures Some(Got(v, fd.rest)) == GetUint(old(fd.rest))
  {
    var buffer := new byte[4](i => 0);
    var _ := MyRead(fd, buffer, 4);
    assert buffer[..] == old(fd.rest)[..4];
    v := UintFrom(buffer[..]);
  }

  method ReadSize(fd: Source<byte>) returns (v: size)
    requires GetSize(fd.rest).Some?
    modifies fd
    ensures Some(Got(v, fd.rest)) == GetSize(old(fd.rest))
  {
    var buffer := new byte[8](i => 0);
    var _ := MyRead(fd, buffer, 8);
    assert buffer[..] == old(fd.rest)[..8];
    v := SizeFrom(buffer[..]);
  }

  lemma {:induction false} SizesFromAt(b: seq<byte>, n: nat, i: nat)
    requires |b| == 8 * n && i < n
    ensures SizesFrom(b, n)[i] == SizeFrom(b[8 * i..8 * i + 8])
  {
    if i > 0 {
      SizesFromAt(b[8..], n - 1, i - 1);
      assert b[8..][8 * (i - 1)..8 * (i - 1) + 8] == b[8 * i..8 * i + 8];
    }
  }

  /** One `my_read` of `n * sizeof(size_t)` bytes into an array of `size_t`. */
  method ReadSizes(fd: Source<byte>, xs: array<size>, n: nat)
    requires n <= xs.Length && GetSizes(fd.rest, n).Some?
    modifies fd, xs
    ensures Some(Got(xs[..n], fd.rest)) == GetSizes(old(fd.rest), n)
  {
    var buffer := new byte[8 * n](i => 0);
    var _ := MyRead(fd, buffer, 8 * n);
    ghost var b := buffer[..];
    assert b == old(fd.rest)[..8 * n];
    var i := 0;
    while i < n
      invariant 0 <= i <= n
      invariant buffer[..] == b
      invariant forall k :: 0 <= k < i ==> xs[k] == SizesFrom(b, n)[k]
      modifies xs
    {
      SizesFromAt(b, n, i);
      xs[i] := SizeFrom(buffer[8 * i..8 * i + 8]);
      i := i + 1;
    }
    assert xs[..n] == SizesFrom(b, n);
  }
}
