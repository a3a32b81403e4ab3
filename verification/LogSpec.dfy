/** The redo log of log.c: the writes that commit and recovery send to the disk. */
module LogSpec {
  import opened Disk

  const LOGSIZE := 30
  const MAXOPBLOCKS := 10

  /** Where the log lives: header at `start`, log blocks at start+1 .. start+size-1. */
  datatype Layout = Layout(start: nat, size: nat, nblocks: nat) {
    predicate Valid() {
      1 <= size && start + size <= nblocks
    }

    /** A block outside the log area. */
    predicate Home(b: int) {
      0 <= b < nblocks && !(start <= b < start + size)
    }

    /** A block list that log_write can build: in range, outside the log, without repeats. */
    predicate Listable(lh: seq<int>) {
      && (forall i | 0 <= i < |lh| :: Home(lh[i]))
      && (forall i, j | 0 <= i < j < |lh| :: lh[i] != lh[j])
    }

    /** ... that fits lh.block and the log area. */
    predicate ListOk(lh: seq<int>) {
      |lh| <= LOGSIZE && |lh| < size && Listable(lh)
    }

    /** A block list that commit() can work through at all: each entry has a block on the disk to be
        logged to, though not always one of the log's own. */
    predicate Fits(lh: seq<int>) {
      && |lh| <= LOGSIZE && start + |lh| < nblocks
      && forall i | 0 <= i < |lh| :: 0 <= lh[i] < nblocks
    }

    /** The log header block decodes to a usable block list. */
    predicate HeaderOk(d: seq<Block>) {
      && Valid() && |d| == nblocks
      && 0 <= d[start][0] <= LOGSIZE
      && ListOk(d[start][1..1 + d[start][0]])
    }
  }

  /** The block list stored in a header block. */
  function Decode(b: Block): seq<int>
    requires 0 <= b[0] <= LOGSIZE
  {
    b[1..1 + b[0]]
  }

  /** write_head overwrites the count and the first n entries and leaves the rest of the buffer. */
  function Encode(b: Block, lh: seq<int>): (r: Block)
    requires |lh| <= LOGSIZE
    ensures 0 <= r[0] <= LOGSIZE && Decode(r) == lh
  {
    [|lh|] + lh + b[1 + |lh|..]
  }

  /** write_log: log block i gets the cached contents of the i-th logged block. */
  function LogWrites(L: Layout, view: seq<Block>, lh: seq<int>): (ws: seq<Write>)
    requires |view| == L.nblocks && L.Fits(lh)
    ensures |ws| == |lh| && InRange(ws, L.nblocks)
  {
    seq(|lh|, i requires 0 <= i < |lh| => Write(L.start + i + 1, view[lh[i]]))
  }

  /** install_trans on a disk whose log blocks are those of `d`. */
  function InstallWrites(L: Layout, d: seq<Block>, lh: seq<int>): (ws: seq<Write>)
    requires L.Valid() && |d| == L.nblocks && L.ListOk(lh)
    ensures |ws| == |lh| && InRange(ws, L.nblocks)
  {
    seq(|lh|, i requires 0 <= i < |lh| => Write(lh[i], d[L.start + i + 1]))
  }

  /** The effect of installing the logged blocks: the transaction the log holds. */
  ghost function Installed(L: Layout, d: seq<Block>, view: seq<Block>, lh: seq<int>): (r: seq<Block>)
    requires L.Valid() && |d| == L.nblocks == |view| && L.ListOk(lh)
    ensures |r| == |d|
    ensures forall b | 0 <= b < |d| :: r[b] == if b in lh then view[b] else d[b]
  {
    seq(|d|, b requires 0 <= b < |d| => if b in lh then view[b] else d[b])
  }

  /** install_trans during commit(): the log blocks hold the cached contents. */
  function HomeWrites(L: Layout, view: seq<Block>, lh: seq<int>): (ws: seq<Write>)
    requires |view| == L.nblocks && L.Fits(lh)
    ensures |ws| == |lh| && InRange(ws, L.nblocks)
  {
    seq(|lh|, i requires 0 <= i < |lh| => Write(lh[i], view[lh[i]]))
  }

  /** Everything commit() writes for a non-empty transaction, in order (log.c:190-200). */
  ghost function CommitWrites(L: Layout, d: seq<Block>, view: seq<Block>, lh: seq<int>): (ws: seq<Write>)
    requires |d| == |view| == L.nblocks && L.Fits(lh)
    ensures InRange(ws, L.nblocks) && |ws| == 2 * |lh| + 2
  {
    var head := Encode(d[L.start], lh);
    (LogWrites(L, view, lh) + [Write(L.start, head)])
    + (HomeWrites(L, view, lh) + [Write(L.start, Encode(head, []))])
  }

  /** Everything recover_from_log() writes, in order (log.c:114-121). */
  ghost function RecoverWrites(L: Layout, d: seq<Block>): (ws: seq<Write>)
    requires L.HeaderOk(d)
    ensures InRange(ws, L.nblocks) && |ws| == d[L.start][0] + 1
  {
    InstallWrites(L, d, Decode(d[L.start])) + [Write(L.start, Encode(d[L.start], []))]
  }

  ghost function Recovered(L: Layout, d: seq<Block>): (r: seq<Block>)
    requires L.HeaderOk(d)
    ensures |r| == |d|
  {
    ApplyAll(d, RecoverWrites(L, d))
  }

  /** log_write's block list: a block already listed is absorbed. */
  function Absorb(lh: seq<int>, b: int): seq<int> {
    if b in lh then lh else lh + [b]
  }

  /** begin_op's test: room for MAXOPBLOCKS more blocks for every operation, the new one included. */
  predicate RoomForOp(n: int, outstanding: int) {
    n + (outstanding + 1) * MAXOPBLOCKS <= LOGSIZE
  }

  /** log_write's size test. */
  predicate FullLog(L: Layout, n: int) {
    n >= LOGSIZE || n >= L.size - 1
  }
}
