/** What each call on a pipe has done, in every state of every run: its own bytes, in its own order. */
module PipeCalls {
  import opened Ring
  import opened PipeRuns

  /** The bytes that process p has stored, in order. */
  function Mine(stored: seq<byte>, writers: seq<nat>, p: nat): seq<byte>
    requires |writers| == |stored|
  {
    if stored == [] then []
    else
      var n := |stored| - 1;
      Mine(stored[..n], writers[..n], p) + if writers[n] == p then [stored[n]] else []
  }

  predicate EndsWith(s: seq<byte>, tail: seq<byte>) { |tail| <= |s| && s[|s| - |tail|..] == tail }

  /** A write has stored the first i bytes of its buffer, and all of them when it comes to its end. */
  ghost predicate WriteOk(s: State, p: nat, t: Stage)
    requires |s.writers| == |s.stored|
  {
    t.Writing() ==>
      && t.call.i <= |t.call.buf| && EndsWith(Mine(s.stored, s.writers, p), t.call.buf[..t.call.i])
      && (t.pc == End ==> t.call.i == |t.call.buf|)
  }

  /** A read has in its buffer the bytes last taken, as many as it asked for unless the pipe is empty when it ends; and
      nothing before it copies. */
  predicate ReadOk(s: State, t: Stage) {
    t.Reading() ==>
      && |t.call.got| <= t.call.m
      && (if t.pc == Copy || t.pc == End || t.pc == Out then EndsWith(s.taken, t.call.got) else t.call.got == [])
      && (t.pc == End ==> |t.call.got| == t.call.m || s.Empty())
  }

  /** Once a close has had its turn, its end is closed. */
  predicate CloseOk(s: State, t: Stage) {
    t.In? && t.call.Close? && (t.pc == End || t.pc == Out) ==> if t.call.writable then !s.writeopen else !s.readopen
  }

  ghost predicate CallInv(s: State) {
    |s.writers| == |s.stored|
    && forall p | p in s.stages :: WriteOk(s, p, s.stages[p]) && ReadOk(s, s.stages[p]) && CloseOk(s, s.stages[p])
  }

  lemma MineNext(stored: seq<byte>, writers: seq<nat>, x: byte, q: nat, p: nat)
    requires |writers| == |stored|
    ensures Mine(stored + [x], writers + [q], p) == Mine(stored, writers, p) + if q == p then [x] else []
  {
    assert (stored + [x])[..|stored|] == stored && (writers + [q])[..|writers|] == writers;
  }

  lemma TailNext(s: seq<byte>, tail: seq<byte>, x: byte)
    requires EndsWith(s, tail)
    ensures EndsWith(s + [x], tail + [x])
  {
  }

  /** The stepping process. */
  lemma SelfWrites(s: State, s': State, p: nat)
    requires CallInv(s) && Step(s, s', p) && s.stages[p].Writing()
    ensures |s'.writers| == |s'.stored| && p in s'.stages && WriteOk(s', p, s'.stages[p])
    ensures ReadOk(s', s'.stages[p]) && CloseOk(s', s'.stages[p])
  {
    var c := s.stages[p].call;
    assert WriteOk(s, p, s.stages[p]);
    if s.stages[p].pc == Loop && c.i < |c.buf| && !s.Full() {
      StoreOne(s.stored, s.writers, p, c.buf, c.i);
      assert s'.stages[p] == In(Write(c.buf, c.i + 1), Loop);
    }
  }

  lemma StoreOne(stored: seq<byte>, writers: seq<nat>, p: nat, buf: seq<byte>, i: nat)
    requires |writers| == |stored| && i < |buf| && EndsWith(Mine(stored, writers, p), buf[..i])
    ensures EndsWith(Mine(stored + [buf[i]], writers + [p], p), buf[..i + 1])
  {
    MineNext(stored, writers, buf[i], p, p);
    TailNext(Mine(stored, writers, p), buf[..i], buf[i]);
    assert buf[..i] + [buf[i]] == buf[..i + 1];
  }

  lemma SelfReads(s: State, s': State, p: nat)
    requires CallInv(s) && Step(s, s', p) && s.stages[p].Reading()
    ensures |s'.writers| == |s'.stored| && p in s'.stages && WriteOk(s', p, s'.stages[p])
    ensures ReadOk(s', s'.stages[p]) && CloseOk(s', s'.stages[p])
  {
    var c := s.stages[p].call;
    assert ReadOk(s, s.stages[p]);
    if s.stages[p].pc == Copy && |c.got| < c.m && !s.Empty() {
      TailNext(s.taken, c.got, s.data[s.nread % PIPESIZE]);
    }
  }

  lemma SelfCloses(s: State, s': State, p: nat)
    requires CallInv(s) && Step(s, s', p) && s.stages[p].call.Close?
    ensures |s'.writers| == |s'.stored| && p in s'.stages && WriteOk(s', p, s'.stages[p])
    ensures ReadOk(s', s'.stages[p]) && CloseOk(s', s'.stages[p])
  {
    assert CloseOk(s, s.stages[p]);
  }

  // Nothing else can happen to a call while another process steps, but that it is woken

  lemma OtherWrites(s: State, s': State, p: nat, q: nat)
    requires Inv(s) && CallInv(s) && Step(s, s', p) && q in s.stages && q != p
    requires q in s'.stages && (s'.stages[q] == s.stages[q] || exists b :: s'.stages[q] == Woken(s.stages[q], b))
    ensures |s'.writers| == |s'.stored| && WriteOk(s', q, s'.stages[q])
  {
    assert WriteOk(s, q, s.stages[q]);
    StoreStep(s, s', p);
    SameMine(s, s', p, q);
  }

  predicate Stores(s: State, s': State, p: nat, x: byte) {
    s'.stored == s.stored + [x] && s'.writers == s.writers + [p]
  }

  lemma StoreStep(s: State, s': State, p: nat)
    requires Step(s, s', p)
    ensures (s'.stored == s.stored && s'.writers == s.writers)
            || exists x :: Stores(s, s', p, x)
  {
    var c := s.stages[p].call;
    if s.stages[p].pc == Loop && c.Write? && c.i < |c.buf| && !s.Full() {
      assert Stores(s, s', p, c.buf[c.i]);
    }
  }

  lemma SameMine(s: State, s': State, p: nat, q: nat)
    requires |s.writers| == |s.stored| && q != p
    requires (s'.stored == s.stored && s'.writers == s.writers)
             || exists x :: Stores(s, s', p, x)
    ensures |s'.writers| == |s'.stored| && Mine(s'.stored, s'.writers, q) == Mine(s.stored, s.writers, q)
  {
    if s'.stored != s.stored {
      var x :| Stores(s, s', p, x);
      MineNext(s.stored, s.writers, x, p, q);
    }
  }

  lemma OtherReads(s: State, s': State, p: nat, q: nat)
    requires Inv(s) && CallInv(s) && Step(s, s', p) && q in s.stages && q != p
    requires q in s'.stages && (s'.stages[q] == s.stages[q] || exists b :: s'.stages[q] == Woken(s.stages[q], b))
    ensures ReadOk(s', s'.stages[q]) && CloseOk(s', s'.stages[q])
  {
    assert ReadOk(s, s.stages[q]) && CloseOk(s, s.stages[q]);
    assert s.stages[p].HasLock() ==> !s.stages[q].HasLock();
  }

  lemma CallStep(s: State, s': State, p: nat)
    requires Inv(s) && CallInv(s) && Step(s, s', p)
    ensures CallInv(s')
  {
    StepOthers(s, s', p);
    if s.stages[p].Writing() {
      SelfWrites(s, s', p);
    } else if s.stages[p].Reading() {
      SelfReads(s, s', p);
    } else {
      SelfCloses(s, s', p);
    }
    forall q | q in s'.stages && q != p
      ensures WriteOk(s', q, s'.stages[q]) && ReadOk(s', s'.stages[q]) && CloseOk(s', s'.stages[q])
    {
      OtherWrites(s, s', p, q);
      OtherReads(s, s', p, q);
    }
  }

  lemma CallBegin(s: State, s': State, p: nat, c: Call)
    requires CallInv(s) && Begin(s, s', p, c)
    ensures CallInv(s')
  {
    forall q | q in s'.stages
      ensures WriteOk(s', q, s'.stages[q]) && ReadOk(s', s'.stages[q]) && CloseOk(s', s'.stages[q])
    {
      assert WriteOk(s, q, s.stages[q]) && ReadOk(s, s.stages[q]) && CloseOk(s, s.stages[q]);
    }
  }

  lemma CallKill(s: State, s': State, p: nat)
    requires CallInv(s) && Kill(s, s', p)
    ensures CallInv(s')
  {
    forall q | q in s'.stages
      ensures WriteOk(s', q, s'.stages[q]) && ReadOk(s', s'.stages[q]) && CloseOk(s', s'.stages[q])
    {
      assert WriteOk(s, q, s.stages[q]) && ReadOk(s, s.stages[q]) && CloseOk(s, s.stages[q]);
    }
  }

  /** Main result: in every state of every run, whatever the other readers and writers do. */
  lemma {:induction false} CallsKeepTheirBytes(run: seq<State>, i: nat)
    requires IsRun(run) && i < |run|
    ensures CallInv(run[i])
  {
    if i > 0 {
      var k := i - 1;
      CallsKeepTheirBytes(run, k);
      RunInv(run, k);
      var s, s' := run[k], run[k + 1];
      assert Next(s, s');
      if p :| Step(s, s', p) {
        CallStep(s, s', p);
      } else if p, c :| Begin(s, s', p, c) {
        CallBegin(s, s', p, c);
      } else {
        var p :| Kill(s, s', p);
        CallKill(s, s', p);
      }
    }
  }

  // kill

  /** A killed process does not go to sleep from the head of a loop: it goes on, or leaves. And kill wakes it if it
      sleeps already. */
  lemma KilledLeaves(s: State, s': State, p: nat)
    ensures Step(s, s', p) && p in s.killed && s.stages[p].pc == Loop && s.stages[p].Reading() ==>
              p in s'.stages && s'.stages[p].In? && s'.stages[p].pc == if s.Empty() && s.writeopen then Out else Copy
    ensures Step(s, s', p) && p in s.killed && s.stages[p].pc == Loop && s.stages[p].Writing() ==>
              p in s'.stages && s'.stages[p].In? && (s'.stages[p].pc == Out || s'.stages[p].pc == Loop
                                                     || s'.stages[p].pc == End)
    ensures Kill(s, s', p) ==>
              p in s'.killed && p in s'.stages
              && (s'.stages[p].In? && (s'.stages[p].Reading() || s'.stages[p].Writing()) ==> s'.stages[p].pc != Sleep)
  {
  }

  /** A closed end stays closed. */
  lemma StaysClosed(s: State, s': State)
    requires Next(s, s')
    ensures (!s.readopen ==> !s'.readopen) && (!s.writeopen ==> !s'.writeopen)
  {
  }
}
