/** proc.c's process table, and its scans by value. */
module ProcTable {

  datatype PState = Unused | Embryo | Sleeping | Runnable | Running | Zombie

  /** What a process sleeps on: a process's slot, as in wait, or something else. */
  datatype Chan = NoChan | OfProc(slot: nat) | Other(id: nat)

  /** Where a process is in fork, wait, exit, yield or sleep. Dropping, Marking, Slept and Relocking are inside
      sleep(chan, lk): before the release of lk, before the state is set, off the CPU, and before lk is taken again. */
  datatype Cont =
    | User | Forking(child: nat) | Parented(child: nat) | NewBorn | Yielded(back: Cont) | InWait
    | Dropping(chan: Chan, lk: nat) | Marking(chan: Chan, lk: nat) | Slept(chan: Chan, lk: nat) | Relocking(lk: nat)
    | Gone

  /** parent is a slot, or -1. */
  datatype Proc = Proc(state: PState, pid: nat, parent: int, chan: Chan, killed: bool, cont: Cont)
  {
    /** Neither free, nor being made, nor dead. */
    predicate Alive() { state == Sleeping || state == Runnable || state == Running }
  }

  type Table = seq<Proc>

  /** wakeup1 */
  function Wakeup1(t: Table, chan: Chan): (r: Table)
    ensures |r| == |t|
    ensures forall i | 0 <= i < |t| :: r[i] == Woken(t[i], chan)
  {
    seq(|t|, i requires 0 <= i < |t| => Woken(t[i], chan))
  }

  function Woken(p: Proc, chan: Chan): Proc {
    if p.state == Sleeping && p.chan == chan then p.(state := Runnable) else p
  }

  /** exit's scan: children go to init, which is woken if one of them is a zombie. */
  function Adopted(t: Table, cur: nat, init: nat): (r: Table)
    ensures |r| == |t|
    ensures forall i | 0 <= i < |t| :: r[i] == AdoptedAt(t, cur, init, i)
  {
    seq(|t|, i requires 0 <= i < |t| => AdoptedAt(t, cur, init, i))
  }

  predicate ZombieChild(p: Proc, cur: nat) { p.parent == cur && p.state == Zombie }

  function AdoptedAt(t: Table, cur: nat, init: nat, i: nat): Proc
    requires i < |t|
  {
    var p := if exists k | 0 <= k < |t| :: ZombieChild(t[k], cur) then Woken(t[i], OfProc(init)) else t[i];
    if t[i].parent == cur then p.(parent := init) else p
  }

  /** exit, from acquire to sched. */
  function Exited(t: Table, cur: nat, init: nat): (r: Table)
    requires cur < |t|
    ensures |r| == |t|
  {
    var parent := t[cur].parent;
    var t1 := if parent >= 0 then Wakeup1(t, OfProc(parent)) else t;
    var t2 := Adopted(t1, cur, init);
    t2[cur := t2[cur].(state := Zombie, cont := Gone)]
  }

  /** A slot given back by wait. */
  function Reaped(p: Proc): Proc {
    p.(pid := 0, parent := -1, killed := false, state := Unused)
  }

  // The scans as loops over the table

  class Scanner {
    const procs: array<Proc>

    constructor (t: array<Proc>)
      ensures procs == t
    {
      procs := t;
    }

    /** wakeup1 */
    method Wakeup(chan: Chan)
      modifies procs
      ensures procs[..] == Wakeup1(old(procs[..]), chan)
    {
      for i := 0 to procs.Length
        invariant forall k | 0 <= k < i :: procs[k] == Woken(old(procs[k]), chan)
        invariant forall k | i <= k < procs.Length :: procs[k] == old(procs[k])
      {
        if procs[i].state == Sleeping && procs[i].chan == chan {
          procs[i] := procs[i].(state := Runnable);
        }
      }
    }

    /** allocproc's search. */
    method FindUnused() returns (i: int)
      ensures -1 <= i < procs.Length
      ensures i >= 0 ==> procs[i].state == Unused && forall k | 0 <= k < i :: procs[k].state != Unused
      ensures i == -1 ==> forall k | 0 <= k < procs.Length :: procs[k].state != Unused
    {
      for j := 0 to procs.Length
        invariant forall k | 0 <= k < j :: procs[k].state != Unused
      {
        if procs[j].state == Unused {
          return j;
        }
      }
      return -1;
    }

    /** wait's scan: the first zombie child, or whether there are children at all. */
    method FindZombie(cur: nat) returns (z: int, havekids: bool)
      ensures -1 <= z < procs.Length
      ensures z >= 0 ==> ZombieChild(procs[z], cur) && forall k | 0 <= k < z :: !ZombieChild(procs[k], cur)
      ensures z == -1 ==> forall k | 0 <= k < procs.Length :: !ZombieChild(procs[k], cur)
      ensures z == -1 ==> (havekids <==> exists k | 0 <= k < procs.Length :: procs[k].parent == cur)
    {
      havekids := false;
      for j := 0 to procs.Length
        invariant forall k | 0 <= k < j :: !ZombieChild(procs[k], cur)
        invariant havekids <==> exists k | 0 <= k < j :: procs[k].parent == cur
      {
        if procs[j].parent == cur {
          havekids := true;
          if procs[j].state == Zombie {
            return j, true;
          }
        }
      }
      return -1, havekids;
    }

    /** exit's loop: abandoned children to init, waking it for each zombie among them. */
    method Adopt(cur: nat, init: nat)
      requires cur != init
      modifies procs
      ensures procs[..] == Adopted(old(procs[..]), cur, init)
    {
      ghost var t := procs[..];
      ghost var found := false;
      for i := 0 to procs.Length
        invariant found <==> exists k | 0 <= k < i :: ZombieChild(t[k], cur)
        invariant forall k | 0 <= k < procs.Length ::
                    procs[k] == (if found then Woken(t[k], OfProc(init)) else t[k]).(parent := if k < i
                      && t[k].parent == cur then init else t[k].parent)
      {
        if procs[i].parent == cur {
          procs[i] := procs[i].(parent := init);
          if procs[i].state == Zombie {
            found := true;
            Wakeup(OfProc(init));
          }
        }
      }
    }

    /** exit, from acquire to sched. */
    method Exit(cur: nat, init: nat)
      requires cur < procs.Length && cur != init
      modifies procs
      ensures procs[..] == Exited(old(procs[..]), cur, init)
    {
      if procs[cur].parent >= 0 {
        Wakeup(OfProc(procs[cur].parent));
      }
      Adopt(cur, init);
      procs[cur] := procs[cur].(state := Zombie, cont := Gone);
    }
  }
}
