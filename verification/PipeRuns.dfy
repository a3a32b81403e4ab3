/** Any number of processes in pipewrite, piperead and pipeclose, one step at a time. */
module PipeRuns {
  import opened Ring

  /** A call, with how far its loop has come: the bytes stored, or those in the reader's buffer. */
  datatype Call = Write(buf: seq<byte>, i: nat) | Read(m: nat, got: seq<byte>) | Close(writable: bool)

  /** Where a call is. Doze to Off are sleep(): take ptable.lock, give up the pipe's lock, and only then be asleep. */
  datatype Pc = Acquire | Loop | Poke | Doze | Drop | Off | Sleep | Copy | End | Out

  datatype Stage = Idle | In(call: Call, pc: Pc)
  {
    predicate Writing() { In? && call.Write? }
    predicate Reading() { In? && call.Read? }
    predicate Closing(writable: bool) { In? && call == Close(writable) }
    predicate HasLock() { In? && pc != Acquire && pc != Off && pc != Sleep }
    predicate HasTable() { In? && (pc == Drop || pc == Off) }
  }

  datatype Lock = Free | Held(p: nat)

  /** The pipe, its lock and ptable.lock, the processes, the bytes ever stored, by whom, and those ever taken. */
  datatype State = State(lock: Lock, table: Lock, data: seq<byte>, nread: nat, nwrite: nat,
                         readopen: bool, writeopen: bool, stages: map<nat, Stage>, killed: set<nat>,
                         stored: seq<byte>, writers: seq<nat>, taken: seq<byte>)
  {
    predicate Full() { nwrite == (nread + PIPESIZE) % WORD }
    predicate Empty() { nread == nwrite }
    function At(p: nat, stage: Stage): State { this.(stages := stages[p := stage]) }
  }

  /** wakeup(&nread) if readers, else wakeup(&nwrite). */
  function Wake(stages: map<nat, Stage>, readers: bool): map<nat, Stage> {
    map p | p in stages :: Woken(stages[p], readers)
  }

  function Woken(stage: Stage, readers: bool): Stage {
    if stage.In? && stage.pc == Sleep && (if readers then stage.call.Read? else stage.call.Write?)
      then In(stage.call, Acquire) else stage
  }

  /** The loops of pipewrite. */
  function WriteTurn(s: State, p: nat, buf: seq<byte>, i: nat): State
    requires |s.data| == PIPESIZE
  {
    if i >= |buf| then s.At(p, In(Write(buf, i), End))
    else if s.Full() then s.At(p, In(Write(buf, i), if !s.readopen || p in s.killed then Out else Poke))
    else
      s.(data := s.data[s.nwrite % PIPESIZE := buf[i]],
         nwrite := (s.nwrite + 1) % WORD,
         stored := s.stored + [buf[i]],
         writers := s.writers + [p])
      .At(p, In(Write(buf, i + 1), Loop))
  }

  /** piperead's wait. */
  function ReadTurn(s: State, p: nat, m: nat, got: seq<byte>): State {
    s.At(p, In(Read(m, got), if !(s.Empty() && s.writeopen) then Copy else if p in s.killed then Out else Doze))
  }

  /** piperead's copy loop. */
  function CopyTurn(s: State, p: nat, m: nat, got: seq<byte>): State
    requires |s.data| == PIPESIZE
  {
    if |got| >= m || s.Empty() then s.At(p, In(Read(m, got), End))
    else
      var x := s.data[s.nread % PIPESIZE];
      s.(nread := (s.nread + 1) % WORD, taken := s.taken + [x]).At(p, In(Read(m, got + [x]), Copy))
  }

  function CloseTurn(s: State, p: nat, w: bool): State {
    (if w then s.(writeopen := false) else s.(readopen := false)).At(p, In(Close(w), End))
  }

  /** A call's turn at the loop head, with the lock. */
  function LoopTurn(s: State, p: nat, call: Call): State
    requires |s.data| == PIPESIZE
  {
    match call
    case Write(buf, i) => WriteTurn(s, p, buf, i)
    case Read(m, got) => ReadTurn(s, p, m, got)
    case Close(w) => CloseTurn(s, p, w)
  }

  /** What process p does next. It waits, without a step, for a lock that is held, and while it sleeps. */
  ghost predicate Step(s: State, s': State, p: nat) {
    && p in s.stages && s.stages[p].In? && |s.data| == PIPESIZE
    && var c := s.stages[p].call;
       match s.stages[p].pc
       case Acquire => s.lock.Free? && s' == s.(lock := Held(p)).At(p, In(c, Loop))
       case Loop => s' == LoopTurn(s, p, c)
       case Poke => s.table.Free? && s' == s.(stages := Wake(s.stages, true)).At(p, In(c, Doze))
       case Doze => s.table.Free? && s' == s.(table := Held(p)).At(p, In(c, Drop))
       case Drop => s' == s.(lock := Free).At(p, In(c, Off))
       case Off => s' == s.(table := Free).At(p, In(c, Sleep))
       case Sleep => false
       case Copy => c.Read? && s' == CopyTurn(s, p, c.m, c.got)
       case End =>
         var readers := c.Write? || (c.Close? && c.writable);
         s.table.Free? && s' == s.(stages := Wake(s.stages, readers)).At(p, In(c, Out))
       case Out => s' == s.(lock := Free).At(p, Idle)
  }

  ghost predicate NoneWriting(stages: map<nat, Stage>) { forall q | q in stages :: !stages[q].Writing() }
  ghost predicate NoneReading(stages: map<nat, Stage>) { forall q | q in stages :: !stages[q].Reading() }
  ghost predicate NoneClosing(stages: map<nat, Stage>, w: bool) { forall q | q in stages :: !stages[q].Closing(w) }

  /** A process starts a call. It has the end it uses open, and an end is closed when its last user closes it. */
  ghost predicate Begin(s: State, s': State, p: nat, c: Call) {
    && p in s.stages && s.stages[p].Idle? && s' == s.At(p, In(c, Acquire))
    && match c
       case Write(_, i) => i == 0 && s.writeopen && NoneClosing(s.stages, true)
       case Read(_, got) => got == [] && s.readopen && NoneClosing(s.stages, false)
       case Close(w) =>
         && NoneClosing(s.stages, w)
         && if w then s.writeopen && NoneWriting(s.stages) else s.readopen && NoneReading(s.stages)
  }

  /** kill: the process is marked, and woken if it sleeps. */
  ghost predicate Kill(s: State, s': State, p: nat) {
    && p in s.stages && s.table.Free?
    && s' == s.(killed := s.killed + {p}).At(p, Woken(Woken(s.stages[p], true), false))
  }

  ghost predicate Next(s: State, s': State) {
    || (exists p :: Step(s, s', p))
    || (exists p, c :: Begin(s, s', p, c))
    || (exists p :: Kill(s, s', p))
  }

  ghost predicate Init(s: State) {
    && s.lock.Free? && s.table.Free? && |s.data| == PIPESIZE && s.nread == 0 && s.nwrite == 0
    && s.readopen && s.writeopen
    && s.killed == {} && s.stored == [] && s.writers == [] && s.taken == []
    && forall p | p in s.stages :: s.stages[p].Idle?
  }

  ghost predicate IsRun(run: seq<State>) {
    && run != [] && Init(run[0])
    && forall k | 0 <= k < |run| - 1 :: Next(run[k], run[k + 1])
  }

  // What holds in every run

  /** Each lock is held by the process that is at a stage with it, if any. */
  ghost predicate LockInv(lock: Lock, table: Lock, stages: map<nat, Stage>) {
    && (forall p | p in stages :: stages[p].HasLock() <==> lock == Held(p))
    && (forall p | p in stages :: stages[p].HasTable() <==> table == Held(p))
    && (lock.Held? ==> lock.p in stages) && (table.Held? ==> table.p in stages)
  }

  /** Nobody uses an end that is closed or being closed. */
  ghost predicate EndsInv(readopen: bool, writeopen: bool, stages: map<nat, Stage>) {
    && (!readopen ==> NoneReading(stages)) && (!writeopen ==> NoneWriting(stages))
    && (NoneClosing(stages, false) || NoneReading(stages)) && (NoneClosing(stages, true) || NoneWriting(stages))
  }

  /** Only a writer pokes, only a reader copies, only they sleep. */
  predicate StageOk(stage: Stage) {
    stage.In? ==>
      && (stage.pc == Poke ==> stage.call.Write?) && (stage.pc == Copy ==> stage.call.Read?)
      && (stage.call.Close? ==> stage.pc == Acquire || stage.pc == Loop || stage.pc == End || stage.pc == Out)
  }

  ghost predicate Inv(s: State) {
    && Holds(s.data, s.nread, s.nwrite, s.stored, s.taken)
    && LockInv(s.lock, s.table, s.stages) && EndsInv(s.readopen, s.writeopen, s.stages)
    && forall p | p in s.stages :: StageOk(s.stages[p])
  }

  /** A process keeps a lock, takes it or gives it up. */
  predicate Handled(lock: Lock, p: nat, lock': Lock) {
    lock' == lock || (lock.Free? && lock' == Held(p)) || (lock == Held(p) && lock'.Free?)
  }

  lemma LockMove(lock: Lock, table: Lock, stages: map<nat, Stage>, p: nat, lock': Lock, table': Lock,
                 stages': map<nat, Stage>)
    requires LockInv(lock, table, stages) && p in stages && stages'.Keys == stages.Keys
    requires forall q | q in stages && q != p ::
               stages'[q].HasLock() == stages[q].HasLock() && stages'[q].HasTable() == stages[q].HasTable()
    requires Handled(lock, p, lock') && Handled(table, p, table')
    requires (stages'[p].HasLock() <==> lock' == Held(p)) && (stages'[p].HasTable() <==> table' == Held(p))
    ensures LockInv(lock', table', stages')
  {
  }

  /** The same process, as far as its call goes: it has not begun another. */
  predicate SameCall(a: Stage, b: Stage) {
    b.In? ==> a.In? && match a.call
                       case Write(_, _) => b.call.Write?
                       case Read(_, _) => b.call.Read?
                       case Close(w) => b.call == Close(w)
  }

  lemma EndsMove(ro: bool, wo: bool, stages: map<nat, Stage>, ro': bool, wo': bool, stages': map<nat, Stage>)
    requires EndsInv(ro, wo, stages) && stages'.Keys == stages.Keys
    requires forall q | q in stages :: SameCall(stages[q], stages'[q])
    requires (ro ==> ro' || NoneReading(stages)) && (wo ==> wo' || NoneWriting(stages))
    ensures EndsInv(ro', wo', stages')
  {
  }

  /** Every other process is at the same stage or has been woken. */
  ghost predicate OthersKept(stages: map<nat, Stage>, stages': map<nat, Stage>, p: nat) {
    && stages'.Keys == stages.Keys
    && forall q | q in stages && q != p :: stages'[q] == stages[q] || (exists b :: stages'[q] == Woken(stages[q], b))
  }

  lemma WokenShape(stage: Stage, b: bool)
    ensures Woken(stage, b).HasLock() == stage.HasLock() && Woken(stage, b).HasTable() == stage.HasTable()
    ensures SameCall(stage, Woken(stage, b)) && (StageOk(stage) ==> StageOk(Woken(stage, b)))
  {
  }

  lemma StepOthers(s: State, s': State, p: nat)
    requires Step(s, s', p)
    ensures OthersKept(s.stages, s'.stages, p)
  {
  }

  /** The stepping process itself: its call and its locks. */
  lemma StepSelf(s: State, s': State, p: nat)
    requires Step(s, s', p) && StageOk(s.stages[p])
    ensures p in s'.stages && SameCall(s.stages[p], s'.stages[p]) && StageOk(s'.stages[p])
  {
  }

  lemma StepLocks(s: State, s': State, p: nat)
    requires Step(s, s', p) && StageOk(s.stages[p])
    requires (s.stages[p].HasLock() <==> s.lock == Held(p)) && (s.stages[p].HasTable() <==> s.table == Held(p))
    ensures Handled(s.lock, p, s'.lock) && Handled(s.table, p, s'.table) && p in s'.stages
    ensures (s'.stages[p].HasLock() <==> s'.lock == Held(p)) && (s'.stages[p].HasTable() <==> s'.table == Held(p))
  {
  }

  lemma StepEnds(s: State, s': State, p: nat)
    requires EndsInv(s.readopen, s.writeopen, s.stages) && Step(s, s', p)
    ensures (s.readopen ==> s'.readopen || NoneReading(s.stages))
    ensures (s.writeopen ==> s'.writeopen || NoneWriting(s.stages))
  {
    if s.stages[p].call.Close? {
      assert s.stages[p].Closing(s.stages[p].call.writable);
    }
  }

  lemma StepRing(s: State, s': State, p: nat)
    requires Holds(s.data, s.nread, s.nwrite, s.stored, s.taken) && Step(s, s', p)
    ensures Holds(s'.data, s'.nread, s'.nwrite, s'.stored, s'.taken)
  {
    Tests(s.data, s.nread, s.nwrite, s.stored, s.taken);
    var c := s.stages[p].call;
    if s.stages[p].pc == Loop && c.Write? && c.i < |c.buf| && !s.Full() {
      Store(s.data, s.nread, s.nwrite, s.stored, s.taken, c.buf[c.i]);
    } else if s.stages[p].pc == Copy && !s.Empty() {
      Take(s.data, s.nread, s.nwrite, s.stored, s.taken);
    }
  }

  lemma InvMove(s: State, s': State, p: nat)
    requires Inv(s) && p in s.stages && OthersKept(s.stages, s'.stages, p)
    requires SameCall(s.stages[p], s'.stages[p]) && StageOk(s'.stages[p])
    requires Handled(s.lock, p, s'.lock) && Handled(s.table, p, s'.table)
    requires (s'.stages[p].HasLock() <==> s'.lock == Held(p)) && (s'.stages[p].HasTable() <==> s'.table == Held(p))
    requires (s.readopen ==> s'.readopen || NoneReading(s.stages))
    requires (s.writeopen ==> s'.writeopen || NoneWriting(s.stages))
    requires Holds(s'.data, s'.nread, s'.nwrite, s'.stored, s'.taken)
    ensures Inv(s')
  {
    forall q | q in s.stages && q != p
      ensures s'.stages[q].HasLock() == s.stages[q].HasLock() && s'.stages[q].HasTable() == s.stages[q].HasTable()
      ensures SameCall(s.stages[q], s'.stages[q]) && StageOk(s'.stages[q])
    {
      WokenShape(s.stages[q], true);
      WokenShape(s.stages[q], false);
    }
    LockMove(s.lock, s.table, s.stages, p, s'.lock, s'.table, s'.stages);
    EndsMove(s.readopen, s.writeopen, s.stages, s'.readopen, s'.writeopen, s'.stages);
  }

  lemma InvStep(s: State, s': State, p: nat)
    requires Inv(s) && Step(s, s', p)
    ensures Inv(s')
  {
    StepRing(s, s', p);
    StepOthers(s, s', p);
    StepSelf(s, s', p);
    StepLocks(s, s', p);
    StepEnds(s, s', p);
    InvMove(s, s', p);
  }

  lemma InvBegin(s: State, s': State, p: nat, c: Call)
    requires Inv(s) && Begin(s, s', p, c)
    ensures Inv(s')
  {
    LockMove(s.lock, s.table, s.stages, p, s'.lock, s'.table, s'.stages);
    assert !c.Read? && NoneReading(s.stages) ==> NoneReading(s'.stages);
    assert !c.Write? && NoneWriting(s.stages) ==> NoneWriting(s'.stages);
  }

  lemma InvKill(s: State, s': State, p: nat)
    requires Inv(s) && Kill(s, s', p)
    ensures Inv(s')
  {
    WokenShape(s.stages[p], true);
    WokenShape(Woken(s.stages[p], true), false);
    InvMove(s, s', p);
  }

  lemma InvNext(s: State, s': State)
    requires Inv(s) && Next(s, s')
    ensures Inv(s')
  {
    if p :| Step(s, s', p) {
      InvStep(s, s', p);
    } else if p, c :| Begin(s, s', p, c) {
      InvBegin(s, s', p, c);
    } else {
      var p :| Kill(s, s', p);
      InvKill(s, s', p);
    }
  }

  lemma {:induction false} RunInv(run: seq<State>, i: nat)
    requires IsRun(run) && i < |run|
    ensures Inv(run[i])
  {
    if i > 0 {
      var k := i - 1;
      RunInv(run, k);
      assert Next(run[k], run[k + 1]);
      InvNext(run[k], run[i]);
    }
  }

  /** In every run, with any number of readers and writers: what was read is a prefix of what was stored, and at most
      512 bytes wait, although the counters wrap. */
  lemma InOrder(run: seq<State>)
    requires IsRun(run)
    ensures var s := run[|run| - 1];
            && s.taken <= s.stored && |s.stored| - |s.taken| <= PIPESIZE && |s.data| == PIPESIZE
            && forall k | |s.taken| <= k < |s.stored| :: s.data[k % PIPESIZE] == s.stored[k]
  {
    RunInv(run, |run| - 1);
  }

  // No wakeup is lost, unless a killed writer gives up

  /** pipewrite's return -1 for a killed process: it may have stored bytes, and calls no wakeup. */
  predicate GivesUp(s: State, p: nat) {
    && p in s.stages && p in s.killed && s.readopen && s.stages[p].In? && s.stages[p].pc == Loop
    && s.stages[p].call.Write? && s.stages[p].call.i < |s.stages[p].call.buf| && s.Full()
  }

  /** The holder of the lock will call wakeup(&nread), or wakeup(&nwrite), before it gives the lock up. */
  predicate Owes(s: State, readers: bool) {
    && s.lock.Held? && s.lock.p in s.stages && s.stages[s.lock.p].In?
    && Owing(s.stages[s.lock.p], readers)
  }

  predicate Owing(t: Stage, readers: bool)
    requires t.In?
  {
    if readers then (t.call.Write? && (t.pc == Loop || t.pc == Poke || t.pc == End))
      || (t.call == Close(true) && t.pc == End)
    else (t.call.Read? && (t.pc == Copy || t.pc == End)) || (t.call == Close(false) && t.pc == End)
  }

  predicate Nothing(s: State) { s.Empty() && s.writeopen }
  predicate NoRoom(s: State) { s.Full() && s.readopen }

  /** A reader falls asleep, and sleeps, only while there is nothing to read, or else its wakeup is on the way. */
  predicate ReaderOk(s: State, t: Stage) {
    t.Reading() ==>
      && (t.pc == Doze || t.pc == Drop ==> Nothing(s))
      && (t.pc == Off || t.pc == Sleep ==> Nothing(s) || Owes(s, true))
  }

  /** A writer likewise, while there is no room. */
  predicate WriterOk(s: State, t: Stage) {
    t.Writing() ==>
      && (t.pc == Poke || t.pc == Doze || t.pc == Drop ==> NoRoom(s))
      && (t.pc == Off || t.pc == Sleep ==> NoRoom(s) || Owes(s, false))
  }

  ghost predicate WakeInv(s: State) {
    forall p | p in s.stages :: ReaderOk(s, s.stages[p]) && WriterOk(s, s.stages[p])
  }

  lemma NotBoth(s: State)
    requires Holds(s.data, s.nread, s.nwrite, s.stored, s.taken)
    ensures !(s.Full() && s.Empty())
  {
    Tests(s.data, s.nread, s.nwrite, s.stored, s.taken);
  }

  /** The process at the lock does not itself sleep. */
  lemma HolderOwes(s: State, p: nat, b: bool)
    requires LockInv(s.lock, s.table, s.stages) && p in s.stages && s.stages[p].HasLock()
    ensures Owes(s, b) <==> Owing(s.stages[p], b)
  {
  }

  /** While somebody else has the lock, a step changes neither the pipe nor what the holder owes. */
  lemma HolderElsewhere(s: State, s': State, p: nat, b: bool)
    requires Inv(s) && Step(s, s', p) && s.lock.Held? && s.lock.p != p
    ensures Nothing(s') == Nothing(s) && NoRoom(s') == NoRoom(s) && (Owes(s, b) ==> Owes(s', b))
  {
    assert !s.stages[p].HasLock() && s.stages[s.lock.p].HasLock();
  }

  /** A reader asleep or about to be, while another process steps: it is woken, or there is still nothing to read,
      or the process at the lock owes it a wakeup. */
  lemma OtherReader(s: State, s': State, p: nat, q: nat)
    requires Inv(s) && WakeInv(s) && Step(s, s', p) && !GivesUp(s, p) && q in s.stages && q != p
    requires q in s'.stages && s'.stages[q] == s.stages[q]
    requires s.stages[q].Reading() && (s.stages[q].pc == Off || s.stages[q].pc == Sleep)
    ensures ReaderOk(s', s'.stages[q])
  {
    assert ReaderOk(s, s.stages[q]);
    if s.lock.Held? && s.lock.p != p {
      HolderElsewhere(s, s', p, true);
    } else {
      NotBoth(s);
    }
  }

  lemma OtherWriter(s: State, s': State, p: nat, q: nat)
    requires Inv(s) && WakeInv(s) && Step(s, s', p) && !GivesUp(s, p) && q in s.stages && q != p
    requires q in s'.stages && s'.stages[q] == s.stages[q]
    requires s.stages[q].Writing() && (s.stages[q].pc == Off || s.stages[q].pc == Sleep)
    ensures WriterOk(s', s'.stages[q])
  {
    assert WriterOk(s, s.stages[q]);
    if s.lock.Held? && s.lock.p != p {
      HolderElsewhere(s, s', p, false);
    } else {
      NotBoth(s);
    }
  }

  lemma SelfReader(s: State, s': State, p: nat)
    requires Inv(s) && Step(s, s', p) && ReaderOk(s, s.stages[p]) && s.stages[p].Reading()
    ensures p in s'.stages && ReaderOk(s', s'.stages[p]) && !s'.stages[p].Writing()
  {
  }

  lemma SelfWriter(s: State, s': State, p: nat)
    requires Inv(s) && Step(s, s', p) && WriterOk(s, s.stages[p]) && s.stages[p].Writing() && !GivesUp(s, p)
    ensures p in s'.stages && WriterOk(s', s'.stages[p]) && !s'.stages[p].Reading()
  {
  }

  lemma SelfOk(s: State, s': State, p: nat)
    requires Inv(s) && WakeInv(s) && Step(s, s', p) && !GivesUp(s, p)
    ensures p in s'.stages && ReaderOk(s', s'.stages[p]) && WriterOk(s', s'.stages[p])
  {
    assert ReaderOk(s, s.stages[p]) && WriterOk(s, s.stages[p]) && StageOk(s.stages[p]);
    match s.stages[p].call {
      case Read(_, _) => SelfReader(s, s', p);
      case Write(_, _) => SelfWriter(s, s', p);
      case Close(_) => StepSelf(s, s', p);
    }
  }

  lemma WakeStep(s: State, s': State, p: nat)
    requires Inv(s) && WakeInv(s) && Step(s, s', p) && !GivesUp(s, p)
    ensures WakeInv(s')
  {
    StepOthers(s, s', p);
    SelfOk(s, s', p);
    forall q | q in s'.stages && q != p
      ensures ReaderOk(s', s'.stages[q]) && WriterOk(s', s'.stages[q])
    {
      OtherOk(s, s', p, q);
    }
  }

  lemma OtherOk(s: State, s': State, p: nat, q: nat)
    requires Inv(s) && WakeInv(s) && Step(s, s', p) && !GivesUp(s, p) && OthersKept(s.stages, s'.stages, p)
    requires q in s.stages && q != p
    ensures ReaderOk(s', s'.stages[q]) && WriterOk(s', s'.stages[q])
  {
    var t := s.stages[q];
    if t.In? && s'.stages[q] == t && (t.pc == Off || t.pc == Sleep) {
      if t.Reading() {
        OtherReader(s, s', p, q);
      } else if t.Writing() {
        OtherWriter(s, s', p, q);
      }
    } else {
      OtherAwake(s, s', p, q);
    }
  }

  /** Only the process at the lock is at a stage that depends on the pipe, and it is the one that steps. */
  lemma OtherAwake(s: State, s': State, p: nat, q: nat)
    requires Inv(s) && WakeInv(s) && Step(s, s', p) && !GivesUp(s, p) && OthersKept(s.stages, s'.stages, p)
    requires q in s.stages && q != p
    requires var t := s.stages[q]; !(t.In? && s'.stages[q] == t && (t.pc == Off || t.pc == Sleep))
    ensures ReaderOk(s', s'.stages[q]) && WriterOk(s', s'.stages[q])
  {
    assert ReaderOk(s, s.stages[q]) && WriterOk(s, s.stages[q]);
    assert s.stages[q].HasLock() ==> s.lock == Held(q) && !s.stages[p].HasLock();
  }

  lemma WakeBegin(s: State, s': State, p: nat, c: Call)
    requires Inv(s) && WakeInv(s) && Begin(s, s', p, c)
    ensures WakeInv(s')
  {
    forall q | q in s'.stages
      ensures ReaderOk(s', s'.stages[q]) && WriterOk(s', s'.stages[q])
    {
      if q != p {
        assert ReaderOk(s, s.stages[q]) && WriterOk(s, s.stages[q]);
        assert !s.stages[p].HasLock();
      }
    }
  }

  lemma WakeKill(s: State, s': State, p: nat)
    requires Inv(s) && WakeInv(s) && Kill(s, s', p)
    ensures WakeInv(s')
  {
    forall q | q in s'.stages
      ensures ReaderOk(s', s'.stages[q]) && WriterOk(s', s'.stages[q])
    {
      assert ReaderOk(s, s.stages[q]) && WriterOk(s, s.stages[q]);
      assert s.stages[p].HasLock() ==> s'.stages[p] == s.stages[p];
    }
  }

  /** No reader is asleep or about to be. */
  ghost predicate NoReaderAsleep(s: State) {
    forall q | q in s.stages && s.stages[q].Reading() :: s.stages[q].pc != Off && s.stages[q].pc != Sleep
  }

  /** A killed writer's return is harmless just when no reader is asleep or about to be. */
  lemma GivingUpExactly(s: State, s': State, p: nat)
    requires Inv(s) && WakeInv(s) && Step(s, s', p) && GivesUp(s, p)
    ensures WakeInv(s') <==> NoReaderAsleep(s)
  {
    NotBoth(s);
    if NoReaderAsleep(s) {
      forall q | q in s'.stages
        ensures ReaderOk(s', s'.stages[q]) && WriterOk(s', s'.stages[q])
      {
        assert ReaderOk(s, s.stages[q]) && WriterOk(s, s.stages[q]);
        HolderOwes(s, p, false);
        assert s.stages[q].HasLock() ==> q == p;
      }
    } else {
      var q :| q in s.stages && s.stages[q].Reading() && (s.stages[q].pc == Off || s.stages[q].pc == Sleep);
      assert q != p && !ReaderOk(s', s'.stages[q]);
    }
  }

  /** Between calls no reader sleeps with something to read or the write end closed, and no writer sleeps with room
      or the read end closed. */
  ghost predicate NobodyStuck(s: State) {
    s.lock.Free? ==> forall p | p in s.stages && s.stages[p].In? && s.stages[p].pc == Sleep ::
                       (s.stages[p].Reading() ==> Nothing(s)) && (s.stages[p].Writing() ==> NoRoom(s))
  }

  /** If a killed writer gives up in this step, no reader is asleep or about to be. */
  ghost predicate Harmless(s: State, s': State) {
    forall p | Step(s, s', p) && GivesUp(s, p) :: NoReaderAsleep(s)
  }

  lemma WakeNext(s: State, s': State)
    requires Inv(s) && WakeInv(s) && Next(s, s')
    ensures WakeInv(s') <==> Harmless(s, s')
  {
    if p :| Step(s, s', p) && GivesUp(s, p) {
      GivingUpExactly(s, s', p);
    } else if p :| Step(s, s', p) {
      WakeStep(s, s', p);
    } else if p, c :| Begin(s, s', p, c) {
      WakeBegin(s, s', p, c);
    } else {
      var p :| Kill(s, s', p);
      WakeKill(s, s', p);
    }
  }

  /** The exact condition over a run: every sleeper's wakeup is on its way, up to any moment, if and only if no killed
      writer has given up while a reader was asleep or about to be. */
  lemma {:induction false} WakeExactly(run: seq<State>, i: nat)
    requires IsRun(run) && i < |run|
    ensures (forall k | 0 <= k <= i :: WakeInv(run[k])) <==> (forall k | 0 <= k < i :: Harmless(run[k], run[k + 1]))
  {
    if i > 0 {
      var n := i - 1;
      WakeExactly(run, n);
      RunInv(run, n);
      assert Next(run[n], run[n + 1]);
      if WakeInv(run[n]) {
        WakeNext(run[n], run[i]);
      }
    }
  }

  /** So in every such run, in particular in every run without kill, no wakeup is lost. */
  lemma NoLostWakeup(run: seq<State>, i: nat)
    requires IsRun(run) && i < |run| && forall k | 0 <= k < i :: Harmless(run[k], run[k + 1])
    ensures NobodyStuck(run[i])
  {
    WakeExactly(run, i);
    StuckNever(run[i]);
  }

  lemma StuckNever(s: State)
    requires WakeInv(s)
    ensures NobodyStuck(s)
  {
  }

  // A run in which a reader sleeps on although the pipe is full

  function Zeros(n: nat): (z: seq<byte>)
    ensures |z| == n && forall k | 0 <= k < n :: z[k] == 0
  {
    seq(n, _ => 0)
  }

  /** Reader 0 is at `r`, writer 1 at `w`, and i zero bytes are stored. */
  function Scene(lock: Lock, table: Lock, r: Stage, w: Stage, killed: set<nat>, i: nat): State {
    State(lock, table, Zeros(PIPESIZE), 0, i, true, true, map[0 := r, 1 := w], killed, Zeros(i), seq(i, _ => 1), [])
  }

  function Reader(pc: Pc): Stage { In(Read(1, []), pc) }

  function Writer(i: nat, pc: Pc): Stage { In(Write(Zeros(513), i), pc) }

  /** The reader goes to sleep; the writer starts and is killed; it stores 512 bytes and gives up. */
  function Scenes(k: nat): State {
    if k == 0 then Scene(Free, Free, Idle, Idle, {}, 0)
    else if k == 1 then Scene(Free, Free, Reader(Acquire), Idle, {}, 0)
    else if k == 2 then Scene(Held(0), Free, Reader(Loop), Idle, {}, 0)
    else if k == 3 then Scene(Held(0), Free, Reader(Doze), Idle, {}, 0)
    else if k == 4 then Scene(Held(0), Held(0), Reader(Drop), Idle, {}, 0)
    else if k == 5 then Scene(Free, Held(0), Reader(Off), Idle, {}, 0)
    else if k == 6 then Scene(Free, Free, Reader(Sleep), Idle, {}, 0)
    else if k == 7 then Scene(Free, Free, Reader(Sleep), Writer(0, Acquire), {}, 0)
    else if k == 8 then Scene(Free, Free, Reader(Sleep), Writer(0, Acquire), {1}, 0)
    else if k <= 521 then Scene(Held(1), Free, Reader(Sleep), Writer(k - 9, Loop), {1}, k - 9)
    else if k == 522 then Scene(Held(1), Free, Reader(Sleep), Writer(512, Out), {1}, 512)
    else Scene(Free, Free, Reader(Sleep), Idle, {1}, 512)
  }

  lemma ReaderFollows(k: nat)
    requires k <= 5
    ensures Next(Scenes(k), Scenes(k + 1))
  {
    var s, s' := Scenes(k), Scenes(k + 1);
    assert s.At(0, s'.stages[0]).stages == s'.stages;
    if k == 0 {
      assert Begin(s, s', 0, Read(1, []));
    } else {
      assert Step(s, s', 0);
    }
  }

  lemma WriterFollows(k: nat)
    requires 6 <= k <= 8 || 521 <= k <= 522
    ensures Next(Scenes(k), Scenes(k + 1))
  {
    var s, s' := Scenes(k), Scenes(k + 1);
    assert s.At(1, s'.stages[1]).stages == s'.stages;
    if k == 6 {
      assert Begin(s, s', 1, Write(Zeros(513), 0));
    } else if k == 7 {
      assert Kill(s, s', 1);
    } else {
      assert Step(s, s', 1);
    }
  }

  lemma StoreFollows(k: nat)
    requires 9 <= k < 521
    ensures Next(Scenes(k), Scenes(k + 1))
  {
    var s, s', i := Scenes(k), Scenes(k + 1), k - 9;
    assert s.At(1, s'.stages[1]).stages == s'.stages;
    assert s'.stored == s.stored + [Zeros(513)[i]] && s'.writers == s.writers + [1];
    assert s.data[i := Zeros(513)[i]] == s.data;
    assert s' == WriteTurn(s, 1, Zeros(513), i);
    assert Step(s, s', 1);
  }

  /** Without that proviso the property fails: a reader sleeps on with 512 bytes in the pipe. */
  lemma KilledWriterForgets()
    ensures exists run :: IsRun(run) && !NobodyStuck(run[|run| - 1])
  {
    var run := seq(524, k requires 0 <= k => Scenes(k));
    forall k | 0 <= k < |run| - 1
      ensures Next(run[k], run[k + 1])
    {
      if 9 <= k < 521 {
        StoreFollows(k);
      } else if k <= 5 {
        ReaderFollows(k);
      } else {
        WriterFollows(k);
      }
    }
    var s := run[523];
    assert s.stages[0] == Reader(Sleep) && !s.Empty();
    assert IsRun(run) && !NobodyStuck(run[|run| - 1]);
  }
}
