// The queueing lock in place: procs linked through qnext from head to tail.
// Each method is what the program does between lock(&q->use) and
// unlock(&q->use), and acts on the lock as the transition system's steps do.
module QLock {
  import opened RWLock

  class Proc {
    const id: nat
    var qnext: Proc?

    constructor (i: nat)
      ensures id == i && qnext == null
    {
      id, qnext := i, null;
    }
  }

  function Ids(procs: seq<Proc>): seq<nat>
  {
    seq(|procs|, i requires 0 <= i < |procs| => procs[i].id)
  }

  class QueueLock {
    var use: bool
    var locked: bool
    var head: Proc?
    var tail: Proc?
    ghost var procs: seq<Proc>     // waiting, in order of arrival
    ghost var owner: Owner
    ghost var came: seq<nat>
    ghost var got: seq<nat>

    constructor ()
      ensures Valid() && View() == NewQ()
    {
      use, locked, head, tail := false, false, null, null;
      procs, owner, came, got := [], Nobody, [], [];
    }

    ghost predicate Valid()
      reads this, procs
    {
      && (procs == [] <==> head == null) && (procs == [] <==> tail == null)
      && (procs != [] ==> head == procs[0] && tail == procs[|procs| - 1] && tail.qnext == null && locked)
      && (forall i :: 0 <= i < |procs| - 1 ==> procs[i].qnext == procs[i + 1])
      && (forall i, j :: 0 <= i < j < |procs| ==> procs[i] != procs[j])
    }

    ghost function View(): Q
      reads this
    {
      Q(if use then Held(0) else Free, locked, Ids(procs), owner, came, got)
    }

    // qlock by up, past the spin; not got means up is to sleep.
    method Qlock(up: Proc) returns (mine: bool)
      requires Valid() && !use && up !in procs
      modifies this, up, procs
      ensures Valid() && View() == RWLock.Qlock(old(View()), up.id)
      ensures mine == !old(locked)
      ensures procs == if mine then old(procs) else old(procs) + [up]
    {
      use := true;
      if !locked {
        locked := true;
        owner := Thread(up.id, up.id);
        use := false;
        return true;
      }
      var p := tail;
      if p == null {
        head := up;
      } else {
        p.qnext := up;
      }
      tail := up;
      up.qnext := null;
      procs, came := procs + [up], came + [up.id];
      use := false;
      mine := false;
      assert View().waiting == old(View()).waiting + [up.id];
    }

    // canqlock for o: refused if somebody is at the lock, or has it.
    method Canqlock(ghost o: Owner) returns (ok: bool)
      requires Valid()
      modifies this
      ensures Valid() && procs == old(procs)
      ensures ok == (!old(use) && !old(locked))
      ensures View() == if old(use) then old(View()) else RWLock.Canqlock(old(View()), o)
    {
      if use {
        return false;
      }
      use := true;
      if locked {
        use := false;
        return false;
      }
      locked := true;
      owner := o;
      use := false;
      ok := true;
    }

    // qunlock by proc t; the proc to be woken, if any.
    method Qunlock(ghost t: nat) returns (p: Proc?)
      requires Valid() && !use
      modifies this
      ensures Valid() && View() == RWLock.Qunlock(old(View()), t)
      ensures old(procs) == [] ==> p == null && procs == []
      ensures old(procs) != [] ==> p == old(procs[0]) && procs == old(procs[1..]) && locked == old(locked)
    {
      use := true;
      p := head;
      if p != null {
        head := p.qnext;
        if head == null {
          tail := null;
        }
        owner, got, procs := Thread(p.id, t), got + [p.id], procs[1..];
        use := false;
        assert |old(procs)| > 1 ==> procs[0] == old(procs[1]);
        assert old(View()).waiting != [] && View().waiting == old(View()).waiting[1..];
        return;
      }
      locked := false;
      owner := Nobody;
      use := false;
    }
  }
}
