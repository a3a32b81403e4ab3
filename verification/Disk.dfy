/** The disk as a sequence of blocks, and a block write as the unit of progress.
    A block is its 256 32-bit words (BSIZE is 1024 bytes, fs.h:6). */
module Disk {

  const BLOCK_WORDS := 256
  const SECTOR_WORDS := 128

  type Block = b: seq<int> | |b| == BLOCK_WORDS witness seq(BLOCK_WORDS, _ => 0)

  datatype Write = Write(blockno: nat, data: Block)

  predicate InRange(ws: seq<Write>, nblocks: nat) {
    forall i | 0 <= i < |ws| :: ws[i].blockno < nblocks
  }

  /** The disk after the writes `ws`, in order. */
  ghost function ApplyAll(d: seq<Block>, ws: seq<Write>): (r: seq<Block>)
    requires InRange(ws, |d|)
    ensures |r| == |d|
  {
    if ws == [] then d
    else
      var last := ws[|ws| - 1];
      ApplyAll(d, ws[..|ws| - 1])[last.blockno := last.data]
  }

  lemma {:induction false} ApplyAllAppend(d: seq<Block>, a: seq<Write>, b: seq<Write>)
    requires InRange(a, |d|) && InRange(b, |d|)
    ensures InRange(a + b, |d|)
    ensures ApplyAll(d, a + b) == ApplyAll(ApplyAll(d, a), b)
  {
    if b == [] {
      assert a + b == a;
    } else {
      var n := |b| - 1;
      ApplyAllAppend(d, a, b[..n]);
      assert (a + b)[..|a + b| - 1] == a + b[..n];
      assert (a + b)[|a + b| - 1] == b[n];
    }
  }

  lemma ApplyAllPush(d: seq<Block>, a: seq<Write>, w: Write)
    requires InRange(a, |d|) && w.blockno < |d|
    ensures InRange(a + [w], |d|)
    ensures ApplyAll(d, a + [w]) == ApplyAll(d, a)[w.blockno := w.data]
  {
    assert (a + [w])[..|a|] == a;
  }

  lemma ApplyAllFrom(d: seq<Block>, ws: seq<Write>, n: nat, m: nat, k: nat)
    requires InRange(ws, |d|) && n + m == k <= |ws|
    ensures ApplyAll(d, ws[..k]) == ApplyAll(ApplyAll(d, ws[..n]), ws[n..][..m])
  {
    var a, b := ws[..n], ws[n..][..m];
    assert ws[..k] == a + b;
    ApplyAllAppend(d, a, b);
  }

  lemma ApplyAllSplit(d: seq<Block>, ws: seq<Write>, n: nat)
    requires InRange(ws, |d|) && n <= |ws|
    ensures ApplyAll(d, ws) == ApplyAll(ApplyAll(d, ws[..n]), ws[n..])
  {
    var a, b := ws[..n], ws[n..];
    assert ws == a + b;
    ApplyAllAppend(d, a, b);
  }

  /** One more write. */
  lemma ApplyAllStep(d: seq<Block>, ws: seq<Write>, k: nat)
    requires InRange(ws, |d|) && k < |ws|
    ensures ApplyAll(d, ws[..k + 1]) == ApplyAll(d, ws[..k])[ws[k].blockno := ws[k].data]
  {
    assert ws[..k + 1][..k] == ws[..k];
  }

  /** A block holds its last write, `i`, or its old contents when no write touches it (`i` is -1). */
  lemma {:induction false} ApplyAllAt(d: seq<Block>, ws: seq<Write>, b: nat, i: int)
    requires InRange(ws, |d|) && b < |d|
    requires -1 <= i < |ws| && (i >= 0 ==> ws[i].blockno == b)
    requires forall j | i < j < |ws| :: ws[j].blockno != b
    ensures ApplyAll(d, ws)[b] == if i < 0 then d[b] else ws[i].data
  {
    var n := |ws| - 1;
    if i < n {
      assert forall j | i < j < n :: ws[..n][j] == ws[j];
      ApplyAllAt(d, ws[..n], b, i);
    }
  }

  /** Writes to consecutive blocks. */
  lemma ApplyAllRange(d: seq<Block>, ws: seq<Write>, first: nat, i: nat, b: nat)
    requires InRange(ws, |d|) && i < |ws| && b == first + i
    requires forall j | 0 <= j < |ws| :: ws[j].blockno == first + j
    ensures b < |d| && ApplyAll(d, ws)[b] == ws[i].data
  {
    assert ws[i].blockno == b;
    ApplyAllAt(d, ws, b, i);
  }

  /** The same writes to two disks: a block written, or equal before, is equal after. */
  lemma {:induction false} SameWrites(d: seq<Block>, e: seq<Block>, ws: seq<Write>, b: nat)
    requires |d| == |e| && InRange(ws, |d|) && b < |d|
    requires d[b] == e[b] || exists i | 0 <= i < |ws| :: ws[i].blockno == b
    ensures ApplyAll(d, ws)[b] == ApplyAll(e, ws)[b]
  {
    var n := |ws| - 1;
    if n >= 0 && ws[n].blockno != b {
      if d[b] != e[b] {
        var i :| 0 <= i < |ws| && ws[i].blockno == b;
        assert ws[..n][i].blockno == b;
      }
      SameWrites(d, e, ws[..n], b);
    }
  }
}
