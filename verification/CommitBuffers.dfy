/** commit() never runs out of buffers (log.c:176-200, bio.c:81-92): with at most NBUF-1 blocks pinned
    and no buffer in use elsewhere, every bread of write_log, write_head and install_trans succeeds. */
module CommitBuffers {
  import opened Disk
  import opened CacheSpec
  import opened BufferCache
  import opened CacheRuns
  import opened Sets

  ghost function Pinned(s: State): set<nat> {
    set i: nat | i < |s.c.bufs| && s.c.bufs[i].dirty
  }

  /** Nobody holds or waits for a buffer, and not all of them are pinned. */
  ghost predicate Quiet(s: State) {
    && Inv(s) && s.want == map[] && |Pinned(s)| < NBUF
    && forall i | 0 <= i < NBUF :: s.c.bufs[i].refcnt == 0
  }

  /** The only way to run out is to have every buffer pinned or referenced. */
  lemma QuietGet(s: State, blockno: nat)
    requires Quiet(s)
    ensures !NoBuffers(s.c, ROOTDEV, blockno)
  {
    if forall i | 0 <= i < NBUF :: !Unused(s.c.bufs[i]) {
      assert Below(NBUF) <= Pinned(s);
      SubsetCount(Below(NBUF), Pinned(s));
      assert false;
    }
  }

  /** The exact condition, with no buffer referenced: only a full set of pins leaves bget without one. */
  lemma OutOfBuffersExactly(s: State, blockno: nat)
    requires |s.c.bufs| == NBUF && forall i | 0 <= i < NBUF :: s.c.bufs[i].refcnt == 0
    ensures NoBuffers(s.c, ROOTDEV, blockno) <==> !Cached(s.c, ROOTDEV, blockno) && |Pinned(s)| == NBUF
  {
    if i :| 0 <= i < NBUF && Unused(s.c.bufs[i]) {
      NotAllPinned(s, i);
    } else {
      assert Pinned(s) == Below(NBUF);
    }
  }

  lemma NotAllPinned(s: State, i: nat)
    requires |s.c.bufs| == NBUF && i < NBUF && !s.c.bufs[i].dirty
    ensures |Pinned(s)| < NBUF
  {
    SubsetCount(Pinned(s), Below(NBUF) - {i});
  }

  /** bread: get, lock, and fill if need be. */
  ghost predicate BRead(s: State, s': State, pid: nat, blockno: nat, b: nat) {
    exists s1, s2 ::
      && Get(s, s1, pid, blockno) && s1.want[pid].b == b
      && Acquire(s1, s2, pid)
      && b < |s2.c.bufs|
      && if s2.c.bufs[b].valid then s' == s2 else Fill(s2, s', b)
  }

  /** `s'` differs from `s` by one more reference to `b`: pins are as they were. */
  ghost predicate OneMoreRef(s: State, s': State, b: nat) {
    && |s.c.bufs| == |s'.c.bufs| == NBUF
    && forall i | 0 <= i < NBUF ::
         && s'.c.bufs[i].refcnt == s.c.bufs[i].refcnt + (if i == b then 1 else 0)
         && s'.c.bufs[i].dirty == s.c.bufs[i].dirty
         && (s.c.bufs[i].dirty ==> s'.c.bufs[i].dev == s.c.bufs[i].dev && s'.c.bufs[i].blockno == s.c.bufs[i].blockno)
  }

  lemma GetEffect(s: State, s1: State, s2: State, pid: nat, blockno: nat)
    requires Get(s, s1, pid, blockno) && Acquire(s1, s2, pid) && |s.c.bufs| == NBUF
    ensures var b := s1.want[pid].b;
            && b < NBUF && OneMoreRef(s, s2, b) && s2.touched == s.touched && s2.want == s.want
            && Matches(s2.c.bufs[b], ROOTDEV, blockno) && s.c.bufs[b].owner == 0 && s2.c.bufs[b].owner == pid > 0
  {
    assert s2.want == s.want;
  }

  /** A bread takes a reference and pins nothing; pinned blocks stay where they are. */
  lemma BReadEffect(s: State, s': State, pid: nat, blockno: nat, b: nat)
    requires Inv(s) && BRead(s, s', pid, blockno, b)
    ensures Inv(s') && s'.want == s.want && b < NBUF && s'.touched == s.touched
    ensures OneMoreRef(s, s', b)
    ensures s.c.bufs[b].owner == 0 && s'.c.bufs[b].owner == pid > 0
    ensures Matches(s'.c.bufs[b], ROOTDEV, blockno) && s'.c.bufs[b].valid
  {
    var s1, s2 :|
      && Get(s, s1, pid, blockno) && s1.want[pid].b == b
      && Acquire(s1, s2, pid)
      && b < |s2.c.bufs|
      && if s2.c.bufs[b].valid then s' == s2 else Fill(s2, s', b);
    GetEffect(s, s1, s2, pid, blockno);
    assert Inv(s2) && BufOk(s2, b) by {
      InvNext(s, s1);
      InvNext(s1, s2);
    }
    if !s2.c.bufs[b].valid {
      assert Inv(s') by { InvNext(s2, s'); }
    }
  }

  /** One turn of write_log or install_trans and the states it passes through: read a log block (into
      `a`) and a pinned block (into `b`), overwrite one of them, `x`, and write it out, release both. */
  datatype Turn = Turn(
    s0: State, s1: State, s2: State, s3: State, s4: State, s5: State, s6: State,
    logBlock: nat, home: nat, a: nat, b: nat, x: nat)
  {
    ghost predicate Valid(pid: nat) {
      && x in {a, b}
      && BRead(s0, s1, pid, logBlock, a)
      && BRead(s1, s2, pid, home, b)
      && (exists data :: Modify(s2, s3, x, data))
      && BWrite(s3, s4, x)
      && (if x == a then BRelse(s4, s5, b) && BRelse(s5, s6, a)
          else BRelse(s4, s5, a) && BRelse(s5, s6, b))
    }

    /** The block it writes out, and so unpins. */
    function Written(): nat { if x == a then logBlock else home }
  }

  ghost predicate IsPinned(s: State, blockno: nat) {
    exists i | 0 <= i < |s.c.bufs| :: s.c.bufs[i].dirty && Matches(s.c.bufs[i], ROOTDEV, blockno)
  }

  /** Neither bread of a turn can fail: there is a buffer for the log block, and taking it does not
      evict the pinned block. */
  lemma TurnEnabled(s: State, s1: State, pid: nat, logBlock: nat, home: nat, a: nat)
    requires Quiet(s) && IsPinned(s, home)
    ensures !NoBuffers(s.c, ROOTDEV, logBlock)
    ensures BRead(s, s1, pid, logBlock, a) ==> !NoBuffers(s1.c, ROOTDEV, home)
  {
    QuietGet(s, logBlock);
    if BRead(s, s1, pid, logBlock, a) {
      BReadEffect(s, s1, pid, logBlock, a);
      var i :| 0 <= i < NBUF && s.c.bufs[i].dirty && Matches(s.c.bufs[i], ROOTDEV, home);
      assert Matches(s1.c.bufs[i], ROOTDEV, home);
    }
  }

  /** The second half of a turn undoes the two references and the pin of `x`, and nothing else. */
  lemma CopyAndRelease(t: Turn, pid: nat)
    requires t.Valid(pid) && |t.s2.c.bufs| == NBUF && t.a != t.b
    ensures |t.s6.c.bufs| == NBUF && t.s6.want == t.s2.want && t.a < NBUF && t.b < NBUF
    ensures forall i | 0 <= i < NBUF ::
              && t.s6.c.bufs[i].dirty == (t.s2.c.bufs[i].dirty && i != t.x)
              && t.s6.c.bufs[i].blockno == t.s2.c.bufs[i].blockno
              && t.s6.c.bufs[i].dev == t.s2.c.bufs[i].dev
              && t.s6.c.bufs[i].refcnt == t.s2.c.bufs[i].refcnt - (if i == t.a || i == t.b then 1 else 0)
  {
    WriteOutEffect(t.s2, t.s3, t.s4, t.x);
    var first, second := if t.x == t.a then t.b else t.a, t.x;
    BRelseEffect(t.s4, t.s5, first);
    BRelseEffect(t.s5, t.s6, second);
  }

  lemma WriteOutEffect(s: State, s1: State, s': State, x: nat)
    requires (exists data :: Modify(s, s1, x, data)) && BWrite(s1, s', x)
    ensures x < |s.c.bufs| == |s'.c.bufs| && s'.want == s.want
    ensures forall i | 0 <= i < |s.c.bufs| ::
              && s'.c.bufs[i].dirty == (s.c.bufs[i].dirty && i != x) && s'.c.bufs[i].refcnt == s.c.bufs[i].refcnt
              && s'.c.bufs[i].blockno == s.c.bufs[i].blockno && s'.c.bufs[i].dev == s.c.bufs[i].dev
  {
  }

  lemma TurnFlags(t: Turn, pid: nat)
    requires t.Valid(pid) && Inv(t.s0)
    ensures |t.s0.c.bufs| == |t.s6.c.bufs| == NBUF && t.s6.want == t.s0.want
    ensures forall i | 0 <= i < NBUF ::
              && t.s6.c.bufs[i].dirty == (t.s0.c.bufs[i].dirty && i != t.x)
              && (t.s0.c.bufs[i].dirty ==> t.s6.c.bufs[i].blockno == t.s0.c.bufs[i].blockno
                                           && t.s6.c.bufs[i].dev == t.s0.c.bufs[i].dev)
              && t.s6.c.bufs[i].refcnt == t.s0.c.bufs[i].refcnt
    ensures t.x < NBUF && (t.s0.c.bufs[t.x].dirty ==> t.s0.c.bufs[t.x].blockno == t.Written())
  {
    BReadEffect(t.s0, t.s1, pid, t.logBlock, t.a);
    BReadEffect(t.s1, t.s2, pid, t.home, t.b);
    assert t.a != t.b;
    CopyAndRelease(t, pid);
  }

  lemma TurnInv(t: Turn, pid: nat)
    requires t.Valid(pid) && Inv(t.s0)
    ensures Inv(t.s6)
  {
    BReadEffect(t.s0, t.s1, pid, t.logBlock, t.a);
    BReadEffect(t.s1, t.s2, pid, t.home, t.b);
    InvLocked(t.s2, t.s3, t.x);
    InvLocked(t.s3, t.s4, t.x);
    InvBRelse(t.s4, t.s5, if t.x == t.a then t.b else t.a);
    InvBRelse(t.s5, t.s6, if t.x == t.a then t.a else t.b);
  }

  /** A turn ends quiet, with no new pin. */
  lemma TurnQuiet(t: Turn, pid: nat)
    requires t.Valid(pid) && Quiet(t.s0)
    ensures Quiet(t.s6)
    ensures Pinned(t.s6) == Pinned(t.s0) - {t.x}
  {
    assert Inv(t.s6) by { TurnInv(t, pid); }
    TurnPins(t, pid);
  }

  lemma TurnPins(t: Turn, pid: nat)
    requires t.Valid(pid) && Quiet(t.s0)
    ensures |t.s6.c.bufs| == NBUF && t.s6.want == map[] && |Pinned(t.s6)| < NBUF
    ensures forall i | 0 <= i < NBUF :: t.s6.c.bufs[i].refcnt == 0
    ensures Pinned(t.s6) == Pinned(t.s0) - {t.x}
  {
    TurnFlags(t, pid);
    PinsLess(t.s0, t.s6, t.x);
  }

  lemma PinsLess(s: State, s': State, x: nat)
    requires |s.c.bufs| == |s'.c.bufs| && |Pinned(s)| < NBUF
    requires forall i | 0 <= i < |s.c.bufs| :: s'.c.bufs[i].dirty == (s.c.bufs[i].dirty && i != x)
    ensures Pinned(s') == Pinned(s) - {x} && |Pinned(s')| < NBUF
  {
    assert Pinned(s') == Pinned(s) - {x};
    SubsetCount(Pinned(s'), Pinned(s));
  }

  /** A pinned block stays pinned through a turn that writes out another one. */
  lemma TurnKeepsPin(t: Turn, pid: nat, n: nat)
    requires t.Valid(pid) && Inv(t.s0) && IsPinned(t.s0, n) && n != t.Written()
    ensures IsPinned(t.s6, n)
  {
    TurnFlags(t, pid);
    var i :| 0 <= i < NBUF && t.s0.c.bufs[i].dirty && Matches(t.s0.c.bufs[i], ROOTDEV, n);
    assert t.s6.c.bufs[i].dirty && Matches(t.s6.c.bufs[i], ROOTDEV, n);
  }

  /** write_head: read the header block, change it, write it out, release it. */
  ghost predicate HeadTurn(ss: seq<State>, pid: nat, head: nat, a: nat) {
    && |ss| == 5
    && BRead(ss[0], ss[1], pid, head, a)
    && (exists data :: Modify(ss[1], ss[2], a, data))
    && BWrite(ss[2], ss[3], a)
    && BRelse(ss[3], ss[4], a)
  }

  lemma HeadFlags(ss: seq<State>, pid: nat, head: nat, a: nat)
    requires HeadTurn(ss, pid, head, a) && Inv(ss[0])
    ensures |ss[0].c.bufs| == |ss[4].c.bufs| == NBUF && ss[4].want == ss[0].want
    ensures forall i | 0 <= i < NBUF ::
              && ss[4].c.bufs[i].dirty == (ss[0].c.bufs[i].dirty && i != a)
              && (ss[0].c.bufs[i].dirty ==> ss[4].c.bufs[i].blockno == ss[0].c.bufs[i].blockno
                                            && ss[4].c.bufs[i].dev == ss[0].c.bufs[i].dev)
              && ss[4].c.bufs[i].refcnt == ss[0].c.bufs[i].refcnt
    ensures a < NBUF && (ss[0].c.bufs[a].dirty ==> ss[0].c.bufs[a].blockno == head)
  {
    BReadEffect(ss[0], ss[1], pid, head, a);
    BRelseEffect(ss[3], ss[4], a);
  }

  lemma HeadInv(ss: seq<State>, pid: nat, head: nat, a: nat)
    requires HeadTurn(ss, pid, head, a) && Inv(ss[0])
    ensures Inv(ss[4])
  {
    BReadEffect(ss[0], ss[1], pid, head, a);
    InvLocked(ss[1], ss[2], a);
    InvLocked(ss[2], ss[3], a);
    InvBRelse(ss[3], ss[4], a);
  }

  lemma HeadQuiet(ss: seq<State>, pid: nat, head: nat, a: nat)
    requires HeadTurn(ss, pid, head, a) && Quiet(ss[0])
    ensures Quiet(ss[4])
  {
    HeadFlags(ss, pid, head, a);
    assert Pinned(ss[4]) <= Pinned(ss[0]);
    SubsetCount(Pinned(ss[4]), Pinned(ss[0]));
    HeadInv(ss, pid, head, a);
  }

  lemma HeadKeepsPin(ss: seq<State>, pid: nat, head: nat, a: nat, n: nat)
    requires HeadTurn(ss, pid, head, a) && Inv(ss[0]) && IsPinned(ss[0], n) && n != head
    ensures IsPinned(ss[4], n)
  {
    HeadFlags(ss, pid, head, a);
    var i :| 0 <= i < NBUF && ss[0].c.bufs[i].dirty && Matches(ss[0].c.bufs[i], ROOTDEV, n);
    assert ss[4].c.bufs[i].dirty && Matches(ss[4].c.bufs[i], ROOTDEV, n);
  }

  ghost predicate Linked(from: State, to: State, pid: nat, head: nat) {
    from == to || exists hs, a :: HeadTurn(hs, pid, head, a) && hs[0] == from && hs[4] == to
  }

  /** Where turn number i begins; after the last one, `cur`. */
  ghost function Before(turns: seq<Turn>, i: nat, cur: State): State
    requires i <= |turns|
  {
    if i < |turns| then turns[i].s0 else cur
  }

  /** Turn number i, and possibly a header write after it. */
  ghost predicate Follows(turns: seq<Turn>, i: nat, cur: State, pid: nat, head: nat)
    requires i < |turns|
  {
    turns[i].Valid(pid) && Linked(turns[i].s6, Before(turns, i + 1, cur), pid, head)
  }

  /** `turns` lead from `s` to `cur`. */
  ghost predicate LeadTo(s: State, turns: seq<Turn>, cur: State, pid: nat, head: nat) {
    Before(turns, 0, cur) == s && forall i | 0 <= i < |turns| :: Follows(turns, i, cur, pid, head)
  }

  lemma LinkQuiet(from: State, to: State, pid: nat, head: nat)
    requires Quiet(from) && Linked(from, to, pid, head)
    ensures Quiet(to)
  {
    if from != to {
      var hs, a :| HeadTurn(hs, pid, head, a) && hs[0] == from && hs[4] == to;
      HeadQuiet(hs, pid, head, a);
    }
  }

  lemma LinkKeepsPin(from: State, to: State, pid: nat, head: nat, n: nat)
    requires Inv(from) && Linked(from, to, pid, head) && IsPinned(from, n) && n != head
    ensures IsPinned(to, n)
  {
    if from != to {
      var hs, a :| HeadTurn(hs, pid, head, a) && hs[0] == from && hs[4] == to;
      HeadKeepsPin(hs, pid, head, a, n);
    }
  }

  lemma StepQuiet(t: Turn, next: State, pid: nat, head: nat)
    requires Quiet(t.s0) && t.Valid(pid) && Linked(t.s6, next, pid, head)
    ensures Quiet(next)
  {
    assert Quiet(t.s6) by { TurnQuiet(t, pid); }
    LinkQuiet(t.s6, next, pid, head);
  }

  lemma {:induction false} ReachedQuiet(s: State, turns: seq<Turn>, i: nat, cur: State, pid: nat, head: nat)
    requires Quiet(s) && LeadTo(s, turns, cur, pid, head) && i <= |turns|
    ensures Quiet(Before(turns, i, cur))
  {
    if i > 0 {
      var k := i - 1;
      ReachedQuiet(s, turns, k, cur, pid, head);
      assert Follows(turns, k, cur, pid, head);
      StepQuiet(turns[k], Before(turns, k + 1, cur), pid, head);
    }
  }

  lemma {:induction false} ReachedPinned(s: State, turns: seq<Turn>, i: nat, cur: State, pid: nat, head: nat, n: nat)
    requires Quiet(s) && LeadTo(s, turns, cur, pid, head) && i <= |turns|
    requires IsPinned(s, n) && n != head && forall k | 0 <= k < |turns| :: turns[k].Written() != n
    ensures IsPinned(Before(turns, i, cur), n)
  {
    if i > 0 {
      var k := i - 1;
      ReachedPinned(s, turns, k, cur, pid, head, n);
      assert Inv(turns[k].s0) by { ReachedQuiet(s, turns, k, cur, pid, head); }
      assert Follows(turns, k, cur, pid, head);
      StepKeepsPin(turns[k], Before(turns, k + 1, cur), pid, head, n);
    }
  }

  lemma StepKeepsPin(t: Turn, cur: State, pid: nat, head: nat, n: nat)
    requires Inv(t.s0) && t.Valid(pid) && Linked(t.s6, cur, pid, head)
    requires IsPinned(t.s0, n) && n != head && t.Written() != n
    ensures IsPinned(cur, n)
  {
    TurnInv(t, pid);
    TurnKeepsPin(t, pid, n);
    LinkKeepsPin(t.s6, cur, pid, head, n);
  }

  /** Main result: commit() starts quiet with its blocks pinned. Wherever it has got to, there is a
      buffer for the next log block and for the header, and after taking the one for the log block
      there is one for any logged block not yet sent home. */
  lemma CommitNeverOutOfBuffers(s: State, turns: seq<Turn>, cur: State, pid: nat, head: nat,
                                logBlock: nat, home: nat, s1: State, a: nat)
    requires Quiet(s) && LeadTo(s, turns, cur, pid, head)
    requires IsPinned(s, home) && home != head && forall i | 0 <= i < |turns| :: turns[i].Written() != home
    ensures !NoBuffers(cur.c, ROOTDEV, logBlock) && !NoBuffers(cur.c, ROOTDEV, head)
    ensures BRead(cur, s1, pid, logBlock, a) ==> !NoBuffers(s1.c, ROOTDEV, home)
  {
    ReachedQuiet(s, turns, |turns|, cur, pid, head);
    ReachedPinned(s, turns, |turns|, cur, pid, head, home);
    TurnEnabled(cur, s1, pid, logBlock, home, a);
    QuietGet(cur, head);
  }
}
