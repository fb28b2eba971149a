/** The copy loops of pipe.c on the pipe's own buffer, as they run between two sleeps. */
module PipeCode {
  import opened PipeSystem
  import opened PipeFifo

  function Min(a: nat, b: nat): nat { if a < b then a else b }

  class PipeBuffer {
    const data: array<Byte>
    var nread: nat
    var nwrite: nat
    ghost var stored: seq<Byte>
    ghost var delivered: seq<Byte>

    ghost predicate Valid()
      reads this, data
    {
      Ring(data[..], nread, nwrite, stored, delivered)
    }

    constructor (page: array<Byte>)
      requires page.Length == PIPESIZE
      ensures Valid() && data == page && stored == [] && delivered == []
    {
      data := page;
      nread, nwrite := 0, 0;
      stored, delivered := [], [];
    }

    /** pipewrite from byte i on, until all is stored or the pipe is full. */
    method Fill(src: seq<Byte>, i: nat) returns (j: nat)
      requires Valid() && i <= |src|
      modifies this`nwrite, this`stored, data
      ensures Valid() && j == Min(|src|, i + (PIPESIZE - (|old(stored)| - |delivered|)))
      ensures stored == old(stored) + src[i..j]
      ensures j < |src| ==> nwrite == (nread + PIPESIZE) % WORD
    {
      hide Ring;
      Lengths(data[..], nread, nwrite, stored, delivered);
      Tests(data[..], nread, nwrite, stored, delivered);
      j := i;
      while j < |src| && nwrite != (nread + PIPESIZE) % WORD
        invariant i <= j <= |src| && Valid() && stored == old(stored) + src[i..j] && data.Length == PIPESIZE
        invariant |delivered| <= |stored| <= |delivered| + PIPESIZE
        invariant nwrite == (nread + PIPESIZE) % WORD <==> |stored| == |delivered| + PIPESIZE
      {
        PutRing(data[..], nread, nwrite, stored, delivered, src[j]);
        assert src[i..j + 1] == src[i..j] + [src[j]];
        ghost var data0 := data[..];
        data[nwrite % PIPESIZE] := src[j];
        assert data[..] == data0[nwrite % PIPESIZE := src[j]];
        nwrite := (nwrite + 1) % WORD;
        stored := stored + [src[j]];
        j := j + 1;
        Lengths(data[..], nread, nwrite, stored, delivered);
        Tests(data[..], nread, nwrite, stored, delivered);
      }
    }

    /** piperead's copy loop: the oldest bytes, as many as are asked for and there. */
    method Drain(n: nat) returns (got: seq<Byte>)
      requires Valid()
      modifies this`nread, this`delivered
      ensures Valid() && delivered == old(delivered) + got
      ensures |got| == Min(n, |stored| - |old(delivered)|)
      ensures |old(delivered)| + |got| <= |stored| && got == stored[|old(delivered)|..|old(delivered)| + |got|]
    {
      hide Ring;
      Lengths(data[..], nread, nwrite, stored, delivered);
      got := [];
      while |got| < n && nread != nwrite
        invariant |got| <= n && Valid() && delivered == old(delivered) + got && data.Length == PIPESIZE
        decreases n - |got|
      {
        TakeRing(data[..], nread, nwrite, stored, delivered);
        got := got + [data[nread % PIPESIZE]];
        delivered := delivered + [data[nread % PIPESIZE]];
        nread := (nread + 1) % WORD;
      }
      Lengths(data[..], nread, nwrite, stored, delivered);
      Tests(data[..], nread, nwrite, stored, delivered);
    }
  }

  lemma Lengths(data: seq<Byte>, nread: nat, nwrite: nat, stored: seq<Byte>, delivered: seq<Byte>)
    requires Ring(data, nread, nwrite, stored, delivered)
    ensures |data| == PIPESIZE && |delivered| <= |stored| <= |delivered| + PIPESIZE
    ensures delivered == stored[..|delivered|]
  {}
}
