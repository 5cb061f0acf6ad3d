/**
 * Byte streams whose reads and writes move an arbitrary positive part of what was asked for, and the
 * loops of io.c that hide this.
 */
module Pipes {

  /** The reading end of a pipe or file: what is still to come before end of input. */
  class Source<T(0)> {
    var rest: seq<T>

    constructor (input: seq<T>)
      ensures rest == input
    {
      rest := input;
    }

    /** `read`: some positive part of the bytes asked for, or 0 at end of input (or if none were asked for). */
    method Read(buffer: array<T>, from: nat, n: nat) returns (k: nat)
      requires from + n <= buffer.Length
      modifies this, buffer
      ensures k <= n && k <= |old(rest)| && (k == 0 <==> n == 0 || old(rest) == [])
      ensures rest == old(rest)[k..]
      ensures forall i :: 0 <= i < buffer.Length ==>
                buffer[i] == if from <= i < from + k then old(rest)[i - from] else old(buffer[i])
    {
      if n == 0 || rest == [] {
        k := 0;
      } else {
        k :| 1 <= k <= n && k <= |rest|;
        forall i | 0 <= i < k { buffer[from + i] := rest[i]; }
        rest := rest[k..];
      }
    }
  }

  /** A regular file being read: `read` gives all that is asked for unless the file ends. */
  class TextFile {
    var rest: seq<char>

    constructor (input: seq<char>)
      ensures rest == input
    {
      rest := input;
    }

    method Read(buffer: array<char>, from: nat, n: nat) returns (k: nat)
      requires from + n <= buffer.Length
      modifies this, buffer
      ensures k == Min(n, |old(rest)|)
      ensures rest == old(rest)[k..]
      ensures forall i :: 0 <= i < buffer.Length ==>
                buffer[i] == if from <= i < from + k then old(rest)[i - from] else old(buffer[i])
    {
      k := Min(n, |rest|);
      forall i | 0 <= i < k { buffer[from + i] := rest[i]; }
      rest := rest[k..];
    }
  }

  /** The writing end of a pipe or file: what has been written so far. */
  class Sink<T> {
    var written: seq<T>

    constructor ()
      ensures written == []
    {
      written := [];
    }

    /** `write`: some positive part of the data. */
    method Write(data: seq<T>) returns (k: nat)
      requires data != []
      modifies this
      ensures 1 <= k <= |data|
      ensures written == old(written) + data[..k]
    {
      k :| 1 <= k <= |data|;
      written := written + data[..k];
    }
  }

  function Min(a: nat, b: nat): nat {
    if a <= b then a else b
  }

  /** `my_read`: fills the buffer up to `size` bytes, fewer only at end of input, for any chunking. */
  method MyRead<T(0)>(fd: Source<T>, buffer: array<T>, size: nat) returns (done: nat)
    requires size <= buffer.Length
    modifies fd, buffer
    ensures done == Min(size, |old(fd.rest)|)
    ensures buffer[..done] == old(fd.rest)[..done]
    ensures forall i :: done <= i < buffer.Length ==> buffer[i] == old(buffer[i])
    ensures fd.rest == old(fd.rest)[done..]
  {
    ghost var input := fd.rest;
    done := 0;
    while done < size
      invariant done <= size && done <= |input|
      invariant forall i :: 0 <= i < buffer.Length ==> buffer[i] == if i < done then input[i] else old(buffer[i])
      invariant fd.rest == input[done..]
    {
      var k := fd.Read(buffer, done, size - done);
      if k == 0 {
        break;
      }
      done := done + k;
    }
  }

  /** `my_write` (and the loop of `print_str`): writes all the data, for any chunking. */
  method MyWrite<T>(fd: Sink<T>, data: seq<T>) returns (done: nat)
    modifies fd
    ensures done == |data|
    ensures fd.written == old(fd.written) + data
  {
    done := 0;
    var left := |data|;
    while left > 0
      invariant 0 <= left && done + left == |data|
      invariant fd.written == old(fd.written) + data[..done]
    {
      var k := fd.Write(data[done..]);
      assert data[..done + k] == data[..done] + data[done..][..k];
      left := left - k;
      done := done + k;
    }
  }
}
