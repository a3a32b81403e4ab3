/** pipe.c's ring buffer with its 32-bit counters. */
module Ring {

  type byte = bv8

  const PIPESIZE := 512
  const WORD := 0x1_0000_0000

  /** The buffer and counters hold the bytes stored and not yet taken, at most 512, in order. */
  predicate Holds(data: seq<byte>, nread: nat, nwrite: nat, stored: seq<byte>, taken: seq<byte>) {
    && |data| == PIPESIZE && nread == |taken| % WORD && nwrite == |stored| % WORD
    && taken <= stored && |stored| - |taken| <= PIPESIZE
    && forall k | |taken| <= k < |stored| :: data[k % PIPESIZE] == stored[k]
  }

  /** The tests the code makes, on counters that wrap, say what they should. */
  lemma Tests(data: seq<byte>, nread: nat, nwrite: nat, stored: seq<byte>, taken: seq<byte>)
    requires Holds(data, nread, nwrite, stored, taken)
    ensures nwrite == (nread + PIPESIZE) % WORD <==> |stored| - |taken| == PIPESIZE
    ensures nread == nwrite <==> |stored| == |taken|
  {
    var r, w := |taken|, |stored|;
    assert w % WORD == (r + (w - r)) % WORD;
  }

  lemma Apart(j: nat, k: nat)
    requires j < k < j + PIPESIZE
    ensures j % PIPESIZE != k % PIPESIZE
  {
  }

  lemma WordIndex(n: nat)
    ensures n % WORD % PIPESIZE == n % PIPESIZE && (n % WORD + 1) % WORD == (n + 1) % WORD
  {
    var q := n / WORD;
    assert n == q * WORD + n % WORD;
    assert q * WORD == (q * 0x80_0000) * PIPESIZE;
  }

  /** data[nwrite++ % PIPESIZE] = b */
  lemma Store(data: seq<byte>, nread: nat, nwrite: nat, stored: seq<byte>, taken: seq<byte>, b: byte)
    requires Holds(data, nread, nwrite, stored, taken) && |stored| - |taken| < PIPESIZE
    ensures Holds(data[nwrite % PIPESIZE := b], nread, (nwrite + 1) % WORD, stored + [b], taken)
  {
    var w := |stored|;
    WordIndex(w);
    forall k | |taken| <= k < w
      ensures k % PIPESIZE != w % PIPESIZE
    {
      Apart(k, w);
    }
  }

  /** data[nread++ % PIPESIZE] */
  lemma Take(data: seq<byte>, nread: nat, nwrite: nat, stored: seq<byte>, taken: seq<byte>)
    requires Holds(data, nread, nwrite, stored, taken) && |taken| < |stored|
    ensures data[nread % PIPESIZE] == stored[|taken|]
    ensures Holds(data, (nread + 1) % WORD, nwrite, stored, taken + [data[nread % PIPESIZE]])
  {
    WordIndex(|taken|);
  }

  /** The loops of pipewrite and piperead that move bytes, run with the pipe's lock held. */
  class Pipe {
    var data: array<byte>
    var nread: nat
    var nwrite: nat
    ghost var stored: seq<byte>
    ghost var taken: seq<byte>

    ghost predicate Valid()
      reads this, data
    {
      Holds(data[..], nread, nwrite, stored, taken)
    }

    constructor ()
      ensures Valid() && fresh(data) && stored == [] && taken == []
    {
      data := new byte[PIPESIZE](_ => 0);
      nread, nwrite, stored, taken := 0, 0, [], [];
    }

    /** pipewrite from byte i on, as far as it goes without sleeping. */
    method Fill(buf: seq<byte>, i: nat) returns (j: nat)
      requires Valid() && i <= |buf|
      modifies this`nwrite, this`stored, data
      ensures Valid() && i <= j <= |buf| && stored == old(stored) + buf[i..j]
      ensures j < |buf| ==> |stored| - |taken| == PIPESIZE
    {
      j := i;
      while j < |buf|
        invariant i <= j <= |buf| && Valid() && stored == old(stored) + buf[i..j]
      {
        Tests(data[..], nread, nwrite, stored, taken);
        if nwrite == (nread + PIPESIZE) % WORD {
          return;
        }
        Store(data[..], nread, nwrite, stored, taken, buf[j]);
        ghost var before := data[..];
        data[nwrite % PIPESIZE] := buf[j];
        assert data[..] == before[nwrite % PIPESIZE := buf[j]];
        nwrite := (nwrite + 1) % WORD;
        stored := stored + [buf[j]];
        assert buf[i..j + 1] == buf[i..j] + [buf[j]];
        j := j + 1;
      }
    }

    /** piperead's copy loop: the oldest bytes, n of them or all there are. */
    method Drain(n: nat) returns (got: seq<byte>)
      requires Valid()
      modifies this`nread, this`taken
      ensures Valid() && taken == old(taken) + got
      ensures |got| == if n < |stored| - |old(taken)| then n else |stored| - |old(taken)|
      ensures got == stored[|old(taken)|..|old(taken)| + |got|]
    {
      got := [];
      while |got| < n
        invariant |got| <= n && Valid() && taken == old(taken) + got
        decreases n - |got|
      {
        Tests(data[..], nread, nwrite, stored, taken);
        if nread == nwrite {
          break;
        }
        Take(data[..], nread, nwrite, stored, taken);
        var b := data[nread % PIPESIZE];
        nread := (nread + 1) % WORD;
        got := got + [b];
        taken := taken + [b];
      }
    }
  }
}
