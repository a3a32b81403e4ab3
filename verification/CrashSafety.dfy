/** Crash atomicity of commit() and recover_from_log(): a crash may fall between any two block
    writes or inside one, any number of times, also while recovering. */
module CrashSafety {
  import opened Disk
  import opened LogSpec

  /** What a write to block `b` cut short can leave there. Only the header block is protected:
      its 124 used bytes lie in the first 512-byte sector, which changes as a whole or not at all. */
  predicate Torn(L: Layout, b: nat, before: Block, after: Block, left: Block) {
    b == L.start ==>
      left[..SECTOR_WORDS] == before[..SECTOR_WORDS] || left[..SECTOR_WORDS] == after[..SECTOR_WORDS]
  }

  /** `d'` is what the write `w`, cut short, can make of `d`. */
  ghost predicate TornWrite(L: Layout, d: seq<Block>, w: Write, d': seq<Block>)
    requires w.blockno < |d|
  {
    && |d'| == |d|
    && (forall b | 0 <= b < |d| && b != w.blockno :: d'[b] == d[b])
    && Torn(L, w.blockno, d[w.blockno], w.data, d'[w.blockno])
  }

  /** `d'` can be on disk after a crash that let `k` of the writes `ws` finish. */
  ghost predicate CrashAt(L: Layout, d: seq<Block>, ws: seq<Write>, k: nat, d': seq<Block>)
    requires InRange(ws, |d|) && k <= |ws|
  {
    var e := ApplyAll(d, ws[..k]);
    d' == e || (k < |ws| && TornWrite(L, e, ws[k], d'))
  }

  ghost predicate CrashImage(L: Layout, d: seq<Block>, ws: seq<Write>, d': seq<Block>)
    requires InRange(ws, |d|)
  {
    exists k: nat | k <= |ws| :: CrashAt(L, d, ws, k, d')
  }

  ghost predicate SameHome(L: Layout, d: seq<Block>, e: seq<Block>) {
    && |d| == |e| == L.nblocks
    && forall b | L.Home(b) :: d[b] == e[b]
  }

  /** A completed recovery from `d` leaves the home blocks of `target` and an empty log. */
  ghost predicate RecoversTo(L: Layout, d: seq<Block>, target: seq<Block>) {
    && L.HeaderOk(d)
    && SameHome(L, Recovered(L, d), target)
    && Recovered(L, d)[L.start][0] == 0
  }

  /** The same, read off the disk: the log holds target's version of the listed blocks,
      and every other home block already is target's. */
  ghost predicate Holds(L: Layout, d: seq<Block>, target: seq<Block>) {
    && L.HeaderOk(d) && |target| == L.nblocks
    && var lh := Decode(d[L.start]);
       && (forall i | 0 <= i < |lh| :: d[L.start + i + 1] == target[lh[i]])
       && (forall b | L.Home(b) && b !in lh :: d[b] == target[b])
  }

  lemma RecoveredAt(L: Layout, d: seq<Block>, b: int)
    requires L.HeaderOk(d) && 0 <= b < L.nblocks
    ensures b == L.start ==> Recovered(L, d)[b] == Encode(d[b], [])
    ensures b != L.start && b !in Decode(d[L.start]) ==> Recovered(L, d)[b] == d[b]
    ensures forall i | 0 <= i < d[L.start][0] && Decode(d[L.start])[i] == b ::
              Recovered(L, d)[b] == d[L.start + i + 1]
  {
    var lh := Decode(d[L.start]);
    var ws := RecoverWrites(L, d);
    forall i | 0 <= i < |lh| && lh[i] == b
      ensures Recovered(L, d)[b] == d[L.start + i + 1]
    {
      InstalledAt(L, d, lh, ws, i, b);
    }
    if b == L.start {
      ApplyAllAt(d, ws, b, |lh|);
    } else if b !in lh {
      ApplyAllAt(d, ws, b, -1);
    }
  }

  lemma InstalledAt(L: Layout, d: seq<Block>, lh: seq<int>, ws: seq<Write>, i: nat, b: nat)
    requires L.HeaderOk(d) && lh == Decode(d[L.start]) && ws == RecoverWrites(L, d) && i < |lh| && lh[i] == b
    ensures ApplyAll(d, ws)[b] == d[L.start + i + 1]
  {
    assert L.Home(lh[i]);
    ApplyAllAt(d, ws, b, i);
  }

  lemma HoldsIffRecoversTo(L: Layout, d: seq<Block>, target: seq<Block>)
    ensures Holds(L, d, target) <==> RecoversTo(L, d, target)
  {
    if L.HeaderOk(d) && |target| == L.nblocks {
      var lh := Decode(d[L.start]);
      RecoveredAt(L, d, L.start);
      forall b | L.Home(b)
        ensures b !in lh ==> Recovered(L, d)[b] == d[b]
        ensures forall i | 0 <= i < |lh| && lh[i] == b :: Recovered(L, d)[b] == d[L.start + i + 1]
      {
        RecoveredAt(L, d, b);
      }
      forall i | 0 <= i < |lh|
        ensures Recovered(L, d)[lh[i]] == d[L.start + i + 1]
      {
        assert L.Home(lh[i]);
      }
    }
  }

  /** Holds looks at the header's first sector, the listed log blocks and the other home blocks only. */
  lemma HoldsDependsOn(L: Layout, d: seq<Block>, e: seq<Block>, target: seq<Block>)
    requires Holds(L, d, target) && |e| == |d|
    requires e[L.start][..SECTOR_WORDS] == d[L.start][..SECTOR_WORDS]
    requires forall b | L.start < b <= L.start + d[L.start][0] :: e[b] == d[b]
    requires forall b | L.Home(b) && b !in Decode(d[L.start]) :: e[b] == d[b]
    ensures Holds(L, e, target)
  {
    SameSector(d[L.start], e[L.start]);
  }

  /** The header lies in its block's first sector. */
  lemma SameSector(a: Block, b: Block)
    requires a[..SECTOR_WORDS] == b[..SECTOR_WORDS] && 0 <= a[0] <= LOGSIZE
    ensures b[0] == a[0] && Decode(b) == Decode(a)
  {
    forall i | 0 <= i < SECTOR_WORDS
      ensures a[i] == b[i]
    {
      assert a[i] == a[..SECTOR_WORDS][i] && b[i] == b[..SECTOR_WORDS][i];
    }
    assert forall i | 0 <= i < a[0] :: Decode(a)[i] == Decode(b)[i];
  }

  /** With an empty header, the disk holds itself. */
  lemma HoldsItself(L: Layout, d: seq<Block>, target: seq<Block>)
    requires L.HeaderOk(d) && d[L.start][0] == 0 && SameHome(L, d, target)
    ensures Holds(L, d, target)
  {
  }

  /** Writes to distinct listed blocks: each gets its data, the rest is untouched. */
  lemma ListedWrites(d: seq<Block>, ws: seq<Write>, lh: seq<int>)
    requires InRange(ws, |d|) && |ws| <= |lh|
    requires forall i | 0 <= i < |ws| :: ws[i].blockno == lh[i]
    requires forall i, j | 0 <= i < j < |lh| :: lh[i] != lh[j]
    ensures forall b | 0 <= b < |d| && b !in lh :: ApplyAll(d, ws)[b] == d[b]
    ensures forall i | 0 <= i < |ws| :: ApplyAll(d, ws)[lh[i]] == ws[i].data
  {
    forall b | 0 <= b < |d| && b !in lh
      ensures ApplyAll(d, ws)[b] == d[b]
    {
      ApplyAllAt(d, ws, b, -1);
    }
    forall i | 0 <= i < |ws|
      ensures ApplyAll(d, ws)[lh[i]] == ws[i].data
    {
      ApplyAllAt(d, ws, ws[i].blockno, i);
    }
  }

  /** Listed blocks may hold anything while the log holds them. */
  lemma HoldsOffList(L: Layout, d: seq<Block>, e: seq<Block>, target: seq<Block>)
    requires Holds(L, d, target) && |e| == |d|
    requires forall b | 0 <= b < |d| && b !in Decode(d[L.start]) :: e[b] == d[b]
    ensures Holds(L, e, target)
  {
    var lh := Decode(d[L.start]);
    assert forall b | L.start <= b < L.start + L.size :: b !in lh;
    assert e[L.start] == d[L.start];
    HoldsDependsOn(L, d, e, target);
  }

  lemma HoldsSameHome(L: Layout, d: seq<Block>, t: seq<Block>, t': seq<Block>)
    requires Holds(L, d, t) && SameHome(L, t, t')
    ensures Holds(L, d, t')
  {
    var lh := Decode(d[L.start]);
    forall i | 0 <= i < |lh|
      ensures t'[lh[i]] == t[lh[i]]
    {
      assert L.Home(lh[i]);
    }
  }

  /** Inside install_trans, or at the header write after it. */
  lemma InstallCrash(L: Layout, d: seq<Block>, target: seq<Block>, k: nat, d': seq<Block>, ws: seq<Write>, lh: seq<int>,
                     e: seq<Block>)
    requires Holds(L, d, target) && lh == Decode(d[L.start]) && k <= |lh| && |ws| == k
    requires InRange(ws, |d|) && e == ApplyAll(d, ws)
    requires forall i | 0 <= i < k :: ws[i] == Write(lh[i], d[L.start + i + 1])
    requires CrashAt(L, d, RecoverWrites(L, d), k, d') && ws == RecoverWrites(L, d)[..k]
    ensures Holds(L, d', target)
  {
    ListedWrites(d, ws, lh);
    HoldsOffList(L, d, e, target);
    if d' != e && k < |lh| {
      HoldsOffList(L, d, d', target);
    } else if d' != e {
      HeaderNotListed(L, lh);
      ClearTorn(L, e, target, d');
    }
  }

  lemma HeaderNotListed(L: Layout, lh: seq<int>)
    requires L.Valid() && L.Listable(lh)
    ensures L.start !in lh
  {
    forall i | 0 <= i < |lh|
      ensures lh[i] != L.start
    {
      assert L.Home(lh[i]);
    }
  }

  /** Recovery can be interrupted anywhere and restarted: its outcome is already decided. */
  lemma RecoveryCrash(L: Layout, d: seq<Block>, target: seq<Block>, k: nat, d': seq<Block>)
    requires Holds(L, d, target)
    requires k <= |RecoverWrites(L, d)| && CrashAt(L, d, RecoverWrites(L, d), k, d')
    ensures Holds(L, d', target)
  {
    var ws := RecoverWrites(L, d);
    var lh := Decode(d[L.start]);
    var e := ApplyAll(d, ws[..k]);
    if k <= |lh| {
      assert forall i | 0 <= i < k :: ws[..k][i] == Write(lh[i], d[L.start + i + 1]);
      InstallCrash(L, d, target, k, d', ws[..k], lh, e);
    } else {
      assert ws[..k] == ws;
      HoldsIffRecoversTo(L, d, target);
      HoldsItself(L, e, target);
    }
  }

  /** Erasing the header once every block is installed: both outcomes mean the same. */
  lemma ClearTorn(L: Layout, e: seq<Block>, target: seq<Block>, d': seq<Block>)
    requires Holds(L, e, target) && SameHome(L, e, target) && |d'| == |e|
    requires forall b | 0 <= b < |e| && b != L.start :: d'[b] == e[b]
    requires Torn(L, L.start, e[L.start], Encode(e[L.start], []), d'[L.start])
    ensures Holds(L, d', target)
  {
    var clear := Encode(e[L.start], []);
    if d'[L.start][..SECTOR_WORDS] == clear[..SECTOR_WORDS] {
      assert clear[..SECTOR_WORDS][0] == 0;
      assert d'[L.start][0] == d'[L.start][..SECTOR_WORDS][0];
      HoldsItself(L, d', target);
    } else {
      HoldsDependsOn(L, e, d', target);
    }
  }

  /** A recovery that starts from `d` and is cut short can leave `d'`. */
  ghost predicate RecoveryCrashes(L: Layout, d: seq<Block>, d': seq<Block>) {
    L.HeaderOk(d) ==> CrashImage(L, d, RecoverWrites(L, d), d')
  }

  /** Recovery crashing any number of times: disks[0] is the disk first recovered from, and each
      later one is left by a crash of the recovery that started from its predecessor. */
  ghost predicate RecoveryChain(L: Layout, disks: seq<seq<Block>>) {
    && disks != []
    && forall i | 0 < i < |disks| :: RecoveryCrashes(L, disks[i - 1], disks[i])
  }

  lemma {:induction false} RecoveryChainHolds(L: Layout, disks: seq<seq<Block>>, target: seq<Block>)
    requires RecoveryChain(L, disks) && Holds(L, disks[0], target)
    ensures Holds(L, disks[|disks| - 1], target)
  {
    var n := |disks| - 1;
    if n > 0 {
      var before := disks[..n];
      RecoveryChainHolds(L, before, target);
      assert before[n - 1] == disks[n - 1];
      var ws := RecoverWrites(L, disks[n - 1]);
      assert RecoveryCrashes(L, disks[n - 1], disks[n]);
      var k: nat :| k <= |ws| && CrashAt(L, disks[n - 1], ws, k, disks[n]);
      RecoveryCrash(L, disks[n - 1], target, k, disks[n]);
    }
  }

  /** What the disk holds right after the header write. */
  lemma AtCommitPoint(L: Layout, d: seq<Block>, view: seq<Block>, lh: seq<int>)
    requires L.HeaderOk(d) && |view| == |d| && L.ListOk(lh)
    ensures var full := ApplyAll(d, CommitWrites(L, d, view, lh)[..|lh| + 1]);
            && full[L.start] == Encode(d[L.start], lh)
            && (forall i | 0 <= i < |lh| :: full[L.start + i + 1] == view[lh[i]])
            && SameHome(L, full, d)
  {
    var all := CommitWrites(L, d, view, lh);
    var ws := all[..|lh| + 1];
    assert ws == LogWrites(L, view, lh) + [Write(L.start, Encode(d[L.start], lh))];
    var full := ApplyAll(d, ws);
    ApplyAllAt(d, ws, L.start, |lh|);
    forall i | 0 <= i < |lh|
      ensures full[L.start + i + 1] == view[lh[i]]
    {
      ApplyAllAt(d, ws, L.start + i + 1, i);
    }
    forall b | L.Home(b)
      ensures full[b] == d[b]
    {
      ApplyAllAt(d, ws, b, -1);
    }
  }

  /** With the cached contents in the log blocks, install_trans copies them home. */
  lemma InstallsView(L: Layout, e: seq<Block>, view: seq<Block>, lh: seq<int>)
    requires L.Valid() && |e| == |view| == L.nblocks && L.ListOk(lh)
    requires forall i | 0 <= i < |lh| :: e[L.start + i + 1] == view[lh[i]]
    ensures InstallWrites(L, e, lh) == HomeWrites(L, view, lh)
  {
    var a, b := InstallWrites(L, e, lh), HomeWrites(L, view, lh);
    assert forall i | 0 <= i < |lh| :: a[i] == b[i];
  }

  /** Such a disk holds the transaction, and recovery from it does what commit() does next. */
  lemma HoldsTransaction(L: Layout, d: seq<Block>, view: seq<Block>, lh: seq<int>, full: seq<Block>)
    requires L.Valid() && |view| == |d| && L.ListOk(lh) && SameHome(L, full, d)
    requires full[L.start] == Encode(d[L.start], lh)
    requires forall i | 0 <= i < |lh| :: full[L.start + i + 1] == view[lh[i]]
    ensures Holds(L, full, Installed(L, d, view, lh))
    ensures RecoverWrites(L, full) == HomeWrites(L, view, lh) + [Write(L.start, Encode(full[L.start], []))]
  {
    assert Decode(full[L.start]) == lh;
    InstallsView(L, full, view, lh);
  }

  /** The writes of commit() up to and including the header write make the log hold the transaction,
      and the writes after it are exactly those of a recovery from that disk. */
  lemma CommitPoint(L: Layout, d: seq<Block>, view: seq<Block>, lh: seq<int>)
    requires L.HeaderOk(d) && |view| == |d| && L.ListOk(lh)
    ensures var ws := CommitWrites(L, d, view, lh);
            var full := ApplyAll(d, ws[..|lh| + 1]);
            && Holds(L, full, Installed(L, d, view, lh))
            && ws[|lh| + 1..] == RecoverWrites(L, full)
  {
    AtCommitPoint(L, d, view, lh);
    var ws := CommitWrites(L, d, view, lh);
    HoldsTransaction(L, d, view, lh, ApplyAll(d, ws[..|lh| + 1]));
  }

  /** Up to the header write, nothing but log blocks and (torn) the header differ from `d`. */
  lemma BeforeCommitPoint(L: Layout, d: seq<Block>, view: seq<Block>, lh: seq<int>, k: nat)
    requires L.HeaderOk(d) && |view| == |d| && L.ListOk(lh) && k <= |lh|
    ensures var e := ApplyAll(d, CommitWrites(L, d, view, lh)[..k]);
            SameHome(L, e, d) && e[L.start] == d[L.start]
  {
    var ws := CommitWrites(L, d, view, lh)[..k];
    forall b | 0 <= b < L.nblocks && (b <= L.start || L.start + L.size <= b)
      ensures ApplyAll(d, ws)[b] == d[b]
    {
      ApplyAllAt(d, ws, b, -1);
    }
  }

  /** A crash after `k` writes of commit(): old before the header write, new after it,
      and one of the two when the header write itself is cut short. */
  lemma CommitCrash(L: Layout, d: seq<Block>, view: seq<Block>, lh: seq<int>, k: nat, d': seq<Block>)
    requires L.HeaderOk(d) && d[L.start][0] == 0 && |view| == |d| && L.ListOk(lh)
    requires k <= 2 * |lh| + 2 && CrashAt(L, d, CommitWrites(L, d, view, lh), k, d')
    ensures k < |lh| ==> Holds(L, d', d)
    ensures k == |lh| ==> Holds(L, d', d) || Holds(L, d', Installed(L, d, view, lh))
    ensures k > |lh| ==> Holds(L, d', Installed(L, d, view, lh))
  {
    if k > |lh| {
      CrashAfterHeader(L, d, view, lh, k, d');
    } else {
      CrashUpToHeader(L, d, view, lh, k, d');
    }
  }

  /** A crash after write k = n + m is a crash of the writes from n on, started where the first n led. */
  lemma CrashShift(L: Layout, d: seq<Block>, ws: seq<Write>, n: nat, m: nat, k: nat, d': seq<Block>)
    requires InRange(ws, |d|) && n + m == k <= |ws| && CrashAt(L, d, ws, k, d')
    ensures CrashAt(L, ApplyAll(d, ws[..n]), ws[n..], m, d')
  {
    ApplyAllFrom(d, ws, n, m, k);
    assert k < |ws| ==> ws[n..][m] == ws[k];
  }

  lemma CrashInRest(L: Layout, d: seq<Block>, ws: seq<Write>, n: nat, k: nat, full: seq<Block>, target: seq<Block>,
                    d': seq<Block>)
    requires InRange(ws, |d|) && n <= k <= |ws| && CrashAt(L, d, ws, k, d')
    requires full == ApplyAll(d, ws[..n]) && Holds(L, full, target) && ws[n..] == RecoverWrites(L, full)
    ensures Holds(L, d', target)
  {
    var m := k - n;
    CrashShift(L, d, ws, n, m, k, d');
    RecoveryCrash(L, full, target, m, d');
  }

  lemma CrashAfterHeader(L: Layout, d: seq<Block>, view: seq<Block>, lh: seq<int>, k: nat, d': seq<Block>)
    requires L.HeaderOk(d) && |view| == |d| && L.ListOk(lh)
    requires |lh| < k <= 2 * |lh| + 2 && CrashAt(L, d, CommitWrites(L, d, view, lh), k, d')
    ensures Holds(L, d', Installed(L, d, view, lh))
  {
    var ws := CommitWrites(L, d, view, lh);
    var n := |lh| + 1;
    CommitPoint(L, d, view, lh);
    CrashInRest(L, d, ws, n, k, ApplyAll(d, ws[..n]), Installed(L, d, view, lh), d');
  }

  lemma CrashUpToHeader(L: Layout, d: seq<Block>, view: seq<Block>, lh: seq<int>, k: nat, d': seq<Block>)
    requires L.HeaderOk(d) && d[L.start][0] == 0 && |view| == |d| && L.ListOk(lh)
    requires k <= |lh| && CrashAt(L, d, CommitWrites(L, d, view, lh), k, d')
    ensures |d'| == |d|
    ensures if d'[L.start][..SECTOR_WORDS] == d[L.start][..SECTOR_WORDS] then Holds(L, d', d)
            else k == |lh| && Holds(L, d', Installed(L, d, view, lh))
  {
    var ws := CommitWrites(L, d, view, lh);
    var e := ApplyAll(d, ws[..k]);
    BeforeCommitPoint(L, d, view, lh, k);
    assert ws[k].blockno == if k < |lh| then L.start + k + 1 else L.start;
    if d'[L.start][..SECTOR_WORDS] == d[L.start][..SECTOR_WORDS] {
      OldHeader(L, d, e, ws[k].blockno, d');
    } else {
      CommitPoint(L, d, view, lh);
      ApplyAllStep(d, ws, k);
      NewHeader(L, e, ws[k].data, d', Installed(L, d, view, lh));
    }
  }

  /** While the header is the old, empty one, changes inside the log area mean nothing. */
  lemma OldHeader(L: Layout, d: seq<Block>, e: seq<Block>, n: nat, d': seq<Block>)
    requires L.HeaderOk(d) && d[L.start][0] == 0 && SameHome(L, e, d) && |d'| == |e|
    requires L.start <= n < L.start + L.size && forall b | 0 <= b < |e| && b != n :: d'[b] == e[b]
    requires d'[L.start][..SECTOR_WORDS] == d[L.start][..SECTOR_WORDS]
    ensures Holds(L, d', d)
  {
    assert d'[L.start][0] == d'[L.start][..SECTOR_WORDS][0] == d[L.start][..SECTOR_WORDS][0] == d[L.start][0];
    HoldsItself(L, d', d);
  }

  /** Once the header's sector is the new one, the rest of its block does not matter. */
  lemma NewHeader(L: Layout, e: seq<Block>, head: Block, d': seq<Block>, target: seq<Block>)
    requires L.start < |e| == |d'| && Holds(L, e[L.start := head], target)
    requires forall b | 0 <= b < |e| && b != L.start :: d'[b] == e[b]
    requires d'[L.start][..SECTOR_WORDS] == head[..SECTOR_WORDS]
    ensures Holds(L, d', target)
  {
    HoldsDependsOn(L, e[L.start := head], d', target);
  }

  /** Main result: crash commit() anywhere, crash the recovery as often as you like; the recovery
      that completes leaves all home blocks old or all new, and new once the header is written. */
  lemma CrashAtomicity(L: Layout, d: seq<Block>, view: seq<Block>, lh: seq<int>, k: nat,
                       disks: seq<seq<Block>>)
    requires L.HeaderOk(d) && d[L.start][0] == 0 && |view| == |d| && L.ListOk(lh)
    requires RecoveryChain(L, disks)
    requires k <= 2 * |lh| + 2 && CrashAt(L, d, CommitWrites(L, d, view, lh), k, disks[0])
    ensures var last := disks[|disks| - 1];
            && (k < |lh| ==> RecoversTo(L, last, d))
            && (k == |lh| ==> RecoversTo(L, last, d) || RecoversTo(L, last, Installed(L, d, view, lh)))
            && (k > |lh| ==> RecoversTo(L, last, Installed(L, d, view, lh)))
  {
    var target := Installed(L, d, view, lh);
    CommitCrash(L, d, view, lh, k, disks[0]);
    HoldsIffRecoversTo(L, disks[|disks| - 1], d);
    HoldsIffRecoversTo(L, disks[|disks| - 1], target);
    if Holds(L, disks[0], d) {
      RecoveryChainHolds(L, disks, d);
    }
    if Holds(L, disks[0], target) {
      RecoveryChainHolds(L, disks, target);
    }
  }

  /** All of commit()'s writes: the transaction is at home and the log is empty again. */
  lemma CommitFinished(L: Layout, d: seq<Block>, view: seq<Block>, lh: seq<int>)
    requires L.HeaderOk(d) && |view| == |d| && L.ListOk(lh)
    ensures var e := ApplyAll(d, CommitWrites(L, d, view, lh));
            SameHome(L, e, Installed(L, d, view, lh)) && L.HeaderOk(e) && e[L.start][0] == 0
  {
    CommitPoint(L, d, view, lh);
    RestRecovers(L, d, CommitWrites(L, d, view, lh), |lh| + 1, Installed(L, d, view, lh));
  }

  /** Writes that end with those of a recovery end in the recovered disk. */
  lemma RestRecovers(L: Layout, d: seq<Block>, ws: seq<Write>, n: nat, target: seq<Block>)
    requires InRange(ws, |d|) && n <= |ws| && Holds(L, ApplyAll(d, ws[..n]), target)
    requires ws[n..] == RecoverWrites(L, ApplyAll(d, ws[..n]))
    ensures var e := ApplyAll(d, ws);
            SameHome(L, e, target) && L.HeaderOk(e) && e[L.start][0] == 0
  {
    ApplyAllSplit(d, ws, n);
    RecoveredLog(L, ApplyAll(d, ws[..n]), target);
  }

  lemma RecoveredLog(L: Layout, d: seq<Block>, target: seq<Block>)
    requires Holds(L, d, target)
    ensures var e := Recovered(L, d);
            SameHome(L, e, target) && L.HeaderOk(e) && e[L.start][0] == 0
  {
    HoldsIffRecoversTo(L, d, target);
  }
}
