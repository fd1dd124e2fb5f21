// The reader/writer lock as a transition system: any number of threads, each
// somewhere in rlock, canrlock, runlock, wlock or wunlock.  Spin locks are taken
// and let go in separate steps, so that canlock can find one held; what a thread
// does under one is a step.  osblock waits for a wakeup and osready leaves one.
module RWLock {

  // -- states ----------------------------------------------------------------------------

  datatype Spin = Free | Held(holder: nat)

  // Not in the program: whose the lock is, and who passed it on.
  datatype Owner = Nobody | Readers | Thread(id: nat, giver: nat)

  // came and got are history: who had to wait, and who was passed the lock.
  datatype Q = Q(use: Spin, locked: bool, waiting: seq<nat>, owner: Owner, came: seq<nat>, got: seq<nat>)

  // Where a thread is; w marks a writer's passage through code both share.
  datatype Pc =
    | Idle | Reading | Writing
    | XLock(w: bool) | XTest(w: bool) | XWait(w: bool)          // qlock(&l->x)
    | CanX | CanXTest                                           // canqlock(&l->x)
    | IncLock | Inc | CanK | CanKTest | IncUnlock               // the middle of rlock
    | XRel(w: bool) | XRelTest(w: bool) | XReady(w: bool, p: nat)   // qunlock(&l->x)
    | DecLock | Dec | DecUnlock                                 // runlock
    | KRel(w: bool) | KRelTest(w: bool) | KReady(w: bool, p: nat)   // qunlock(&l->k)
    | KLock | KTest | KWait                                     // qlock(&l->k)

  datatype Sys = Sys(pc: seq<Pc>, l: Spin, x: Q, k: Q, readers: int, wake: set<nat>)

  function NewQ(): Q { Q(Free, false, [], Nobody, [], []) }

  function Start(n: nat): Sys { Sys(seq(n, i => Idle), Free, NewQ(), NewQ(), 0, {}) }

  // -- the queueing lock ---------------------------------------------------------------------

  // Under q.use: qlock by t, canqlock by o, qunlock by t.  Each lets go of use.
  function Qlock(q: Q, t: nat): Q
  {
    if !q.locked then q.(use := Free, locked := true, owner := Thread(t, t))
    else q.(use := Free, waiting := q.waiting + [t], came := q.came + [t])
  }

  function Canqlock(q: Q, o: Owner): Q
  {
    if q.locked then q.(use := Free) else q.(use := Free, locked := true, owner := o)
  }

  function Qunlock(q: Q, t: nat): Q
  {
    if q.waiting != [] then
      q.(use := Free, waiting := q.waiting[1..], owner := Thread(q.waiting[0], t), got := q.got + [q.waiting[0]])
    else q.(use := Free, locked := false, owner := Nobody)
  }

  // -- steps -------------------------------------------------------------------------------

  // What an idle thread may call; Go is the one way on from anywhere else.
  datatype Act = Rlock | Canrlock | Wlock | Go

  function At(s: Sys, t: nat, pc: Pc): Sys
    requires t < |s.pc|
  {
    s.(pc := s.pc[t := pc])
  }

  predicate Enabled(s: Sys, t: nat)
    requires t < |s.pc|
  {
    match s.pc[t]
    case XLock(_) => s.x.use == Free
    case XRel(_) => s.x.use == Free
    case KLock => s.k.use == Free
    case KRel(_) => s.k.use == Free
    case IncLock => s.l == Free
    case DecLock => s.l == Free
    case XWait(_) => t in s.wake
    case KWait => t in s.wake
    case _ => true
  }

  function Step(s: Sys, t: nat, a: Act): Sys
    requires t < |s.pc| && Enabled(s, t)
  {
    match s.pc[t]
    case Idle =>
      (match a
       case Rlock => At(s, t, XLock(false))
       case Canrlock => At(s, t, CanX)
       case Wlock => At(s, t, XLock(true))
       case Go => s)
    case XLock(w) => TakeX(s, t, XTest(w))
    case XTest(w) => LockX(s, t, w)
    case XWait(w) => Woken(s, t, if w then KLock else IncLock)
    case CanX => if s.x.use == Free then TakeX(s, t, CanXTest) else At(s, t, Idle)
    case CanXTest => TryX(s, t)
    case IncLock => TakeL(s, t, Inc)
    case Inc => At(s, t, CanK).(readers := s.readers + 1)
    case CanK => if s.k.use == Free then TakeK(s, t, CanKTest) else At(s, t, IncUnlock)
    case CanKTest => At(s, t, IncUnlock).(k := Canqlock(s.k, Readers))
    case IncUnlock => At(s, t, XRel(false)).(l := Free)
    case XRel(w) => TakeX(s, t, XRelTest(w))
    case XRelTest(w) => PassX(s, t, w)
    case XReady(w, p) => Ready(s, t, p, if w then Idle else Reading)
    case Reading => At(s, t, DecLock)
    case DecLock => TakeL(s, t, Dec)
    case Dec => At(s, t, if s.readers - 1 == 0 then KRel(false) else DecUnlock).(readers := s.readers - 1)
    case KRel(w) => TakeK(s, t, KRelTest(w))
    case KRelTest(w) => PassK(s, t, w)
    case KReady(w, p) => Ready(s, t, p, if w then XRel(true) else DecUnlock)
    case DecUnlock => At(s, t, Idle).(l := Free)
    case KLock => TakeK(s, t, KTest)
    case KTest => LockK(s, t)
    case KWait => Woken(s, t, Writing)
    case Writing => At(s, t, KRel(true))
  }

  function TakeX(s: Sys, t: nat, pc: Pc): Sys requires t < |s.pc| { At(s, t, pc).(x := s.x.(use := Held(t))) }
  function TakeK(s: Sys, t: nat, pc: Pc): Sys requires t < |s.pc| { At(s, t, pc).(k := s.k.(use := Held(t))) }
  function TakeL(s: Sys, t: nat, pc: Pc): Sys requires t < |s.pc| { At(s, t, pc).(l := Held(t)) }

  function LockX(s: Sys, t: nat, w: bool): Sys
    requires t < |s.pc|
  {
    At(s, t, if s.x.locked then XWait(w) else if w then KLock else IncLock).(x := Qlock(s.x, t))
  }

  function TryX(s: Sys, t: nat): Sys
    requires t < |s.pc|
  {
    At(s, t, if s.x.locked then Idle else IncLock).(x := Canqlock(s.x, Thread(t, t)))
  }

  function PassX(s: Sys, t: nat, w: bool): Sys
    requires t < |s.pc|
  {
    At(s, t, if s.x.waiting != [] then XReady(w, s.x.waiting[0]) else if w then Idle else Reading)
      .(x := Qunlock(s.x, t))
  }

  function LockK(s: Sys, t: nat): Sys
    requires t < |s.pc|
  {
    At(s, t, if s.k.locked then KWait else Writing).(k := Qlock(s.k, t))
  }

  function PassK(s: Sys, t: nat, w: bool): Sys
    requires t < |s.pc|
  {
    At(s, t, if s.k.waiting != [] then KReady(w, s.k.waiting[0]) else if w then XRel(true) else DecUnlock)
      .(k := Qunlock(s.k, t))
  }

  function Ready(s: Sys, t: nat, p: nat, pc: Pc): Sys requires t < |s.pc| { At(s, t, pc).(wake := s.wake + {p}) }
  function Woken(s: Sys, t: nat, pc: Pc): Sys requires t < |s.pc| { At(s, t, pc).(wake := s.wake - {t}) }

  // A run: who moves, and what an idle one calls; a move that is not enabled is
  // a thread spinning or asleep.
  datatype Move = Move(t: nat, a: Act)

  function Run(s: Sys, run: seq<Move>): Sys
    decreases |run|
  {
    if run == [] then s
    else
      var m := run[0];
      Run(if m.t < |s.pc| && Enabled(s, m.t) then Step(s, m.t, m.a) else s, run[1..])
  }

  // -- what holds in between --------------------------------------------------------------------

  predicate HoldsL(pc: Pc)
  {
    pc.Inc? || pc.CanK? || pc.CanKTest? || pc.IncUnlock? || pc.Dec? || pc.DecUnlock? || pc == KRel(false)
    || pc == KRelTest(false) || (pc.KReady? && !pc.w)
  }

  predicate HoldsXUse(pc: Pc) { pc.XTest? || pc.CanXTest? || pc.XRelTest? }
  predicate HoldsKUse(pc: Pc) { pc.CanKTest? || pc.KRelTest? || pc.KTest? }

  // Has l->x, if not still waiting for it; has l->k as a writer; is counted in readers.
  predicate HasX(pc: Pc)
  {
    pc.IncLock? || pc.Inc? || pc.CanK? || pc.CanKTest? || pc.IncUnlock? || pc.XRel? || pc.XRelTest? ||
    pc.KLock? || pc.KTest?
    || pc.KWait? || pc.Writing? || pc == KRel(true) || pc == KRelTest(true) || (pc.KReady? && pc.w)
  }

  predicate HasK(pc: Pc) { pc.Writing? || pc == KRel(true) || pc == KRelTest(true) }

  predicate Counted(pc: Pc)
  {
    pc.CanK? || pc.CanKTest? || pc.IncUnlock? || pc == XRel(false) || pc == XRelTest(false) || (pc.XReady? && !pc.w)
    || pc.Reading? || pc.DecLock? || pc.Dec?
  }

  function Count(pcs: seq<Pc>): nat
  {
    if pcs == [] then 0 else Count(pcs[1..]) + if Counted(pcs[0]) then 1 else 0
  }

  lemma {:induction false} CountUpdate(pcs: seq<Pc>, t: nat, pc: Pc)
    requires t < |pcs|
    ensures Count(pcs[t := pc]) + (if Counted(pcs[t]) then 1 else 0) == Count(pcs) + if Counted(pc) then 1 else 0
  {
    if t == 0 {
      assert pcs[t := pc][1..] == pcs[1..];
    } else {
      assert pcs[t := pc][1..] == pcs[1..][t - 1 := pc];
      CountUpdate(pcs[1..], t - 1, pc);
    }
  }

  lemma {:induction false} CountZero(n: nat)
    ensures Count(seq(n, i => Idle)) == 0
  {
    if n > 0 {
      assert seq(n, i => Idle)[1..] == seq(n - 1, i => Idle);
      CountZero(n - 1);
    }
  }

  lemma {:induction false} SomeCounted(pcs: seq<Pc>)
    requires Count(pcs) > 0
    ensures exists t :: 0 <= t < |pcs| && Counted(pcs[t])
  {
    if Counted(pcs[0]) {
    } else {
      SomeCounted(pcs[1..]);
      var t :| 0 <= t < |pcs[1..]| && Counted(pcs[1..][t]);
      assert pcs[t + 1] == pcs[1..][t];
    }
  }

  // Asleep but no longer in the queue: the lock has been passed to it.
  predicate GivenX(s: Sys, t: nat) requires t < |s.pc| { s.pc[t].XWait? && t !in s.x.waiting }
  predicate GivenK(s: Sys, t: nat) requires t < |s.pc| { s.pc[t].KWait? && t !in s.k.waiting }

  predicate Owns(q: Q, t: nat) { q.owner.Thread? && q.owner.id == t }

  // Thread t's place and the locks agree.
  ghost predicate Place(s: Sys, t: nat)
    requires t < |s.pc|
  {
    var pc := s.pc[t];
    && (HoldsL(pc) <==> s.l == Held(t))
    && (HoldsXUse(pc) <==> s.x.use == Held(t))
    && (HoldsKUse(pc) <==> s.k.use == Held(t))
    && (t in s.x.waiting ==> pc.XWait?)
    && (t in s.k.waiting ==> pc.KWait?)
    && (HasX(pc) || GivenX(s, t) <==> Owns(s.x, t))
    && (HasK(pc) || GivenK(s, t) <==> Owns(s.k, t))
    && (t in s.wake ==> GivenX(s, t) || GivenK(s, t))
  }

  // A thread passed a lock is woken, or about to be by the one that passed it;
  // and a thread about to wake another has passed it a lock.
  ghost predicate Wakes(s: Sys, t: nat)
    requires t < |s.pc|
  {
    var pc := s.pc[t];
    && (GivenX(s, t) && t !in s.wake ==>
          s.x.owner.Thread? && s.x.owner.giver < |s.pc| && s.pc[s.x.owner.giver].XReady? &&
          s.pc[s.x.owner.giver].p == t)
    && (GivenK(s, t) && t !in s.wake ==>
          s.k.owner.Thread? && s.k.owner.giver < |s.pc| && s.pc[s.k.owner.giver].KReady? &&
          s.pc[s.k.owner.giver].p == t)
    && (pc.XReady? ==> pc.p < |s.pc| && GivenX(s, pc.p) && s.x.owner == Thread(pc.p, t) && pc.p !in s.wake)
    && (pc.KReady? ==> pc.p < |s.pc| && GivenK(s, pc.p) && s.k.owner == Thread(pc.p, t) && pc.p !in s.wake)
  }

  ghost predicate Queue(q: Q, n: nat)
  {
    && (q.use.Held? ==> q.use.holder < n)
    && (q.locked <==> q.owner != Nobody) && (q.owner.Thread? ==> q.owner.id < n)
    && (q.waiting != [] ==> q.locked)
    && (forall i :: 0 <= i < |q.waiting| ==> q.waiting[i] < n)
    && (forall i, j :: 0 <= i < j < |q.waiting| ==> q.waiting[i] != q.waiting[j])
    && q.came == q.got + q.waiting
  }

  // The readers l->k is locked for: while l is held, the first reader has not
  // yet locked it, or the last one not yet unlocked it.
  function Locking(s: Sys): int
  {
    if s.l.Held? && s.l.holder < |s.pc| then
      var pc := s.pc[s.l.holder];
      if pc.CanK? || pc.CanKTest? then s.readers - 1
      else if pc.KRel? || pc.KRelTest? then s.readers + 1
      else s.readers
    else s.readers
  }

  ghost predicate Shared(s: Sys)
  {
    && (s.l.Held? ==> s.l.holder < |s.pc|)
    && Queue(s.x, |s.pc|) && Queue(s.k, |s.pc|)
    && s.x.owner != Readers && |s.k.waiting| <= 1
    && s.readers == Count(s.pc)
    && (s.k.owner == Readers <==> Locking(s) > 0)
    && (s.k.owner.Thread? ==> s.readers == 0)
    && (s.l.Held? && (s.pc[s.l.holder] == KRel(false) || s.pc[s.l.holder] == KRelTest(false)) ==> s.readers == 0)
  }

  predicate Key(u: int) { true }

  // Opened by Key(0).
  ghost predicate Inv(s: Sys)
  {
    forall u: int {:trigger Key(u)} :: Key(u) ==>
      && Shared(s)
      && (forall t {:trigger Place(s, t)} :: 0 <= t < |s.pc| ==> Place(s, t))
      && (forall t {:trigger Wakes(s, t)} :: 0 <= t < |s.pc| ==> Wakes(s, t))
  }

  lemma StartOk(n: nat)
    ensures Inv(Start(n))
  {
    CountZero(n);
    var s := Start(n);
    forall t | 0 <= t < n ensures Place(s, t) && Wakes(s, t) {
      assert s.pc[t] == Idle;
    }
  }

  // -- every step keeps it ------------------------------------------------------------------

  // A thread that has l->k, or waits for it, has l->x; and there is only one of those.
  lemma OwnerOfX(s: Sys, t: nat)
    requires Inv(s) && t < |s.pc| && HasX(s.pc[t])
    ensures Owns(s.x, t)
    ensures s.pc[t].KWait? || HasK(s.pc[t]) || (!s.k.owner.Thread? && s.k.waiting == [])
    ensures forall u | 0 <= u < |s.pc| && (HasK(s.pc[u]) || s.pc[u].KWait? || u in s.k.waiting || Owns(s.k, u)) ::
              u == t
  {
    assert Key(0);
    assert Place(s, t);
    forall u | 0 <= u < |s.pc| && (HasK(s.pc[u]) || s.pc[u].KWait? || u in s.k.waiting || Owns(s.k, u)) ensures u == t {
      assert Place(s, u);
    }
    assert s.k.owner.Thread? ==> Owns(s.k, s.k.owner.id);
    assert s.k.waiting != [] ==> s.k.waiting[0] in s.k.waiting;
  }

  // With l->l and l->x held by t, nobody else is under l->k.use.
  lemma KFree(s: Sys, t: nat)
    requires Inv(s) && t < |s.pc| && (s.pc[t].CanK? || s.pc[t].Inc?)
    ensures s.k.use == Free
  {
    assert Key(0);
    assert Place(s, t);
    assert s.k.use.Held? ==> Place(s, s.k.use.holder);
  }

  // The one about to be passed the lock.
  lemma HeadOfX(s: Sys)
    requires Inv(s) && s.x.waiting != []
    ensures var h := s.x.waiting[0];
      h < |s.pc| && s.pc[h].XWait? && h !in s.x.waiting[1..] && h !in s.wake && h !in s.k.waiting && !Owns(s.x, h)
  {
    assert Key(0);
    assert Place(s, s.x.waiting[0]);
  }

  lemma HeadOfK(s: Sys)
    requires Inv(s) && s.k.waiting != []
    ensures var h := s.k.waiting[0];
      h < |s.pc| && s.pc[h].KWait? && s.k.waiting == [h] && h !in s.wake && h !in s.x.waiting && !Owns(s.k, h)
  {
    assert Key(0);
    assert Place(s, s.k.waiting[0]);
  }

  // What the invariant says of a thread, and of the rest.
  lemma Placed(s: Sys, t: nat)
    requires Inv(s) && t < |s.pc|
    ensures Place(s, t) && Wakes(s, t)
  {
    assert Key(0);
  }

  lemma Common(s: Sys)
    requires Inv(s)
    ensures Shared(s)
  {
    assert Key(0);
  }

  // t moves, and nothing that the places of threads depend on changes.
  predicate Moves(s: Sys, t: nat)
    requires t < |s.pc|
  {
    s.pc[t].Reading? || s.pc[t].Writing? || (s.pc[t].CanX? && s.x.use != Free)
  }
  predicate MovesUnderL(s: Sys, t: nat)
    requires t < |s.pc|
  {
    s.pc[t].Inc? || s.pc[t].Dec? || (s.pc[t].CanK? && s.k.use != Free)
  }

  // t takes a spin lock, or lets go of l->l.
  predicate TakesX(s: Sys, t: nat)
    requires t < |s.pc|
  {
    s.pc[t].XLock? || s.pc[t].XRel? || (s.pc[t].CanX? && s.x.use == Free)
  }
  predicate TakesK(s: Sys, t: nat)
    requires t < |s.pc|
  {
    s.pc[t].KLock? || s.pc[t].KRel? || (s.pc[t].CanK? && s.k.use == Free)
  }
  predicate SpinsL(pc: Pc) { pc.IncLock? || pc.DecLock? || pc.IncUnlock? || pc.DecUnlock? }

  // t takes, or queues for, or is refused, l->x or l->k; t passes one on, or is woken.
  predicate LocksK(pc: Pc) { pc.KTest? || pc.CanKTest? }
  predicate Waker(pc: Pc) { pc.XReady? || pc.KReady? }
  predicate Sleeper(pc: Pc) { pc.XWait? || pc.KWait? }

  lemma ThreadCalls(s: Sys, t: nat, u: nat, a: Act)
    requires Inv(s) && t < |s.pc| && u < |s.pc| && Enabled(s, t) && s.pc[t].Idle?
    ensures Place(Step(s, t, a), u) && Wakes(Step(s, t, a), u)
  {
    Placed(s, t);
    Placed(s, u);
  }

  lemma ThreadMoves(s: Sys, t: nat, u: nat, a: Act)
    requires Inv(s) && t < |s.pc| && u < |s.pc| && Enabled(s, t) && Moves(s, t)
    ensures Place(Step(s, t, a), u) && Wakes(Step(s, t, a), u)
  {
    Placed(s, t);
    Placed(s, u);
  }

  lemma ThreadMovesUnderL(s: Sys, t: nat, u: nat, a: Act)
    requires Inv(s) && t < |s.pc| && u < |s.pc| && Enabled(s, t) && MovesUnderL(s, t)
    ensures Place(Step(s, t, a), u) && Wakes(Step(s, t, a), u)
  {
    Placed(s, t);
    Placed(s, u);
  }

  lemma ThreadTakesX(s: Sys, t: nat, u: nat, a: Act)
    requires Inv(s) && t < |s.pc| && u < |s.pc| && Enabled(s, t) && TakesX(s, t)
    ensures Place(Step(s, t, a), u) && Wakes(Step(s, t, a), u)
  {
    Placed(s, t);
    Placed(s, u);
  }

  lemma ThreadTakesK(s: Sys, t: nat, u: nat, a: Act)
    requires Inv(s) && t < |s.pc| && u < |s.pc| && Enabled(s, t) && TakesK(s, t)
    ensures Place(Step(s, t, a), u) && Wakes(Step(s, t, a), u)
  {
    Placed(s, t);
    Placed(s, u);
  }

  lemma ThreadSpinsL(s: Sys, t: nat, u: nat, a: Act)
    requires Inv(s) && t < |s.pc| && u < |s.pc| && Enabled(s, t) && SpinsL(s.pc[t])
    ensures Place(Step(s, t, a), u) && Wakes(Step(s, t, a), u)
  {
    Placed(s, t);
    Placed(s, u);
  }

  lemma ThreadLocksX(s: Sys, t: nat, u: nat, a: Act)
    requires Inv(s) && t < |s.pc| && u < |s.pc| && Enabled(s, t) && s.pc[t].XTest?
    ensures Place(Step(s, t, a), u) && Wakes(Step(s, t, a), u)
  {
    Placed(s, t);
    Placed(s, u);
    Common(s);
  }

  lemma ThreadTriesX(s: Sys, t: nat, u: nat, a: Act)
    requires Inv(s) && t < |s.pc| && u < |s.pc| && Enabled(s, t) && s.pc[t].CanXTest?
    ensures Place(Step(s, t, a), u) && Wakes(Step(s, t, a), u)
  {
    Placed(s, t);
    Placed(s, u);
    Common(s);
  }

  lemma ThreadLocksK(s: Sys, t: nat, u: nat, a: Act)
    requires Inv(s) && t < |s.pc| && u < |s.pc| && Enabled(s, t) && LocksK(s.pc[t])
    ensures Place(Step(s, t, a), u) && Wakes(Step(s, t, a), u)
  {
    Placed(s, t);
    Placed(s, u);
    Common(s);
    OwnerOfX(s, t);
  }

  lemma ThreadPassesX(s: Sys, t: nat, u: nat, a: Act)
    requires Inv(s) && t < |s.pc| && u < |s.pc| && Enabled(s, t) && s.pc[t].XRelTest?
    ensures Place(Step(s, t, a), u) && Wakes(Step(s, t, a), u)
  {
    Placed(s, t);
    Placed(s, u);
    Common(s);
    if s.x.waiting != [] { HeadOfX(s); }
  }

  lemma ThreadPassesK(s: Sys, t: nat, u: nat, a: Act)
    requires Inv(s) && t < |s.pc| && u < |s.pc| && Enabled(s, t) && s.pc[t].KRelTest?
    ensures Place(Step(s, t, a), u) && Wakes(Step(s, t, a), u)
  {
    Placed(s, t);
    Placed(s, u);
    Common(s);
    if s.k.waiting != [] { HeadOfK(s); }
  }

  lemma ThreadReadies(s: Sys, t: nat, u: nat, a: Act)
    requires Inv(s) && t < |s.pc| && u < |s.pc| && Enabled(s, t) && Waker(s.pc[t])
    ensures Place(Step(s, t, a), u) && Wakes(Step(s, t, a), u)
  {
    Placed(s, t);
    Placed(s, u);
    Common(s);
  }

  lemma ThreadWakened(s: Sys, t: nat, u: nat, a: Act)
    requires Inv(s) && t < |s.pc| && u < |s.pc| && Enabled(s, t) && Sleeper(s.pc[t])
    ensures Place(Step(s, t, a), u) && Wakes(Step(s, t, a), u)
  {
    Placed(s, t);
    Placed(s, u);
    Common(s);
  }

  lemma KeepsThread(s: Sys, t: nat, u: nat, a: Act)
    requires Inv(s) && t < |s.pc| && u < |s.pc| && Enabled(s, t)
    ensures Place(Step(s, t, a), u) && Wakes(Step(s, t, a), u)
  {
    var pc := s.pc[t];
    if pc.Idle? {
      ThreadCalls(s, t, u, a);
    } else if Moves(s, t) {
      ThreadMoves(s, t, u, a);
    } else if MovesUnderL(s, t) {
      ThreadMovesUnderL(s, t, u, a);
    } else if TakesX(s, t) {
      ThreadTakesX(s, t, u, a);
    } else if TakesK(s, t) {
      ThreadTakesK(s, t, u, a);
    } else if SpinsL(pc) {
      ThreadSpinsL(s, t, u, a);
    } else if pc.XTest? {
      ThreadLocksX(s, t, u, a);
    } else if pc.CanXTest? {
      ThreadTriesX(s, t, u, a);
    } else if LocksK(pc) {
      ThreadLocksK(s, t, u, a);
    } else if Waker(pc) {
      ThreadReadies(s, t, u, a);
    } else if Sleeper(pc) {
      ThreadWakened(s, t, u, a);
    } else if pc.XRelTest? {
      ThreadPassesX(s, t, u, a);
    } else {
      ThreadPassesK(s, t, u, a);
    }
  }

  // The queues: what each of their steps keeps.
  lemma QlockOk(q: Q, t: nat, n: nat)
    requires Queue(q, n) && t < n && t !in q.waiting
    ensures Queue(Qlock(q, t), n) && (Qlock(q, t).owner == Readers ==> q.owner == Readers)
  {
  }

  lemma CanqlockOk(q: Q, o: Owner, n: nat)
    requires Queue(q, n) && o != Nobody && (o.Thread? ==> o.id < n)
    ensures Queue(Canqlock(q, o), n)
  {
  }

  lemma QunlockOk(q: Q, t: nat, n: nat)
    requires Queue(q, n)
    ensures Queue(Qunlock(q, t), n) && Qunlock(q, t).owner != Readers
  {
    if q.waiting != [] {
      assert q.waiting == [q.waiting[0]] + q.waiting[1..];
      assert q.got + q.waiting == q.got + [q.waiting[0]] + q.waiting[1..];
    }
  }

  lemma KeepsX(s: Sys, t: nat, a: Act)
    requires Inv(s) && t < |s.pc| && Enabled(s, t)
    ensures Queue(Step(s, t, a).x, |s.pc|) && Step(s, t, a).x.owner != Readers
  {
    Placed(s, t);
    Common(s);
    var pc := s.pc[t];
    if pc.XTest? {
      QlockOk(s.x, t, |s.pc|);
    } else if pc.CanXTest? {
      CanqlockOk(s.x, Thread(t, t), |s.pc|);
    } else if pc.XRelTest? {
      QunlockOk(s.x, t, |s.pc|);
    }
  }

  lemma KeepsK(s: Sys, t: nat, a: Act)
    requires Inv(s) && t < |s.pc| && Enabled(s, t)
    ensures Queue(Step(s, t, a).k, |s.pc|) && |Step(s, t, a).k.waiting| <= 1
  {
    Placed(s, t);
    Common(s);
    var pc := s.pc[t];
    if pc.KTest? {
      OwnerOfX(s, t);
      QlockOk(s.k, t, |s.pc|);
    } else if pc.CanKTest? {
      CanqlockOk(s.k, Readers, |s.pc|);
    } else if pc.KRelTest? {
      QunlockOk(s.k, t, |s.pc|);
    }
  }

  // The count of readers.
  lemma KeepsCount(s: Sys, t: nat, a: Act)
    requires Inv(s) && t < |s.pc| && Enabled(s, t)
    ensures Step(s, t, a).readers == Count(Step(s, t, a).pc)
  {
    var s' := Step(s, t, a);
    Common(s);
    CountUpdate(s.pc, t, s'.pc[t]);
    CountMoves(s, t, a);
  }

  lemma CountMoves(s: Sys, t: nat, a: Act)
    requires t < |s.pc| && Enabled(s, t)
    ensures var s' := Step(s, t, a);
      && s'.pc == s.pc[t := s'.pc[t]]
      && s'.readers + (if Counted(s.pc[t]) then 1 else 0) == s.readers + if Counted(s'.pc[t]) then 1 else 0
  {
  }

  // Whom l->k is locked for.
  ghost predicate LockedFor(s: Sys)
  {
    && (s.l.Held? ==> s.l.holder < |s.pc|)
    && (s.k.owner == Readers <==> Locking(s) > 0)
    && (s.k.owner.Thread? ==> s.readers == 0)
    && (s.l.Held? && (s.pc[s.l.holder] == KRel(false) || s.pc[s.l.holder] == KRelTest(false)) ==> s.readers == 0)
  }

  // A thread that has l->l, takes it, or lets go of it.
  lemma LockingUnderL(s: Sys, t: nat, a: Act)
    requires Inv(s) && t < |s.pc| && Enabled(s, t) && (HoldsL(s.pc[t]) || SpinsL(s.pc[t]))
    ensures LockedFor(Step(s, t, a))
  {
    Placed(s, t);
    Common(s);
    CountUpdate(s.pc, t, Idle);
    var pc := s.pc[t];
    if pc.Inc? || pc.CanK? || pc.CanKTest? { OwnerOfX(s, t); }
    if pc.CanK? { KFree(s, t); }
  }

  // A writer, which takes l->k or lets go of it.
  lemma LockingByWriter(s: Sys, t: nat, a: Act)
    requires Inv(s) && t < |s.pc| && Enabled(s, t) && (s.pc[t].KTest? || s.pc[t] == KRelTest(true))
    ensures LockedFor(Step(s, t, a))
  {
    Placed(s, t);
    Common(s);
    if s.pc[t].KTest? { OwnerOfX(s, t); }
    if s.l.Held? { Placed(s, s.l.holder); }
  }

  // Any other thread changes nothing of this.
  lemma LockingElsewhere(s: Sys, t: nat, a: Act)
    requires Inv(s) && t < |s.pc| && Enabled(s, t) && !HoldsL(s.pc[t]) && !SpinsL(s.pc[t])
    requires !s.pc[t].KTest? && s.pc[t] != KRelTest(true)
    ensures LockedFor(Step(s, t, a))
  {
    Placed(s, t);
    Common(s);
  }

  lemma KeepsStep(s: Sys, t: nat, a: Act)
    requires Inv(s) && t < |s.pc| && Enabled(s, t)
    ensures Inv(Step(s, t, a))
  {
    var s' := Step(s, t, a);
    KeepsX(s, t, a);
    KeepsK(s, t, a);
    KeepsCount(s, t, a);
    if HoldsL(s.pc[t]) || SpinsL(s.pc[t]) {
      LockingUnderL(s, t, a);
    } else if s.pc[t].KTest? || s.pc[t] == KRelTest(true) {
      LockingByWriter(s, t, a);
    } else {
      LockingElsewhere(s, t, a);
    }
    assert Shared(s');
    forall u | 0 <= u < |s'.pc| ensures Place(s', u) && Wakes(s', u) {
      KeepsThread(s, t, u, a);
    }
  }

  // -- over every run ---------------------------------------------------------------------------

  // Any number of threads, any interleaving, any calls.
  lemma {:induction false} RunsKeep(s: Sys, run: seq<Move>)
    requires Inv(s)
    ensures Inv(Run(s, run))
    decreases |run|
  {
    if run != [] {
      var m := run[0];
      if m.t < |s.pc| && Enabled(s, m.t) {
        KeepsStep(s, m.t, m.a);
        RunsKeep(Step(s, m.t, m.a), run[1..]);
      } else {
        RunsKeep(s, run[1..]);
      }
    }
  }

  lemma Reached(n: nat, run: seq<Move>) returns (s: Sys)
    ensures s == Run(Start(n), run) && Inv(s)
  {
    s := Run(Start(n), run);
    StartOk(n);
    RunsKeep(Start(n), run);
  }

  lemma {:induction false} CountedBound(pcs: seq<Pc>, t: nat)
    requires t < |pcs| && Counted(pcs[t])
    ensures Count(pcs) > 0
  {
    CountUpdate(pcs, t, Idle);
  }

  // A writer past wlock never coexists with a reader past rlock or canrlock,
  // nor with another writer.
  lemma Exclusion(n: nat, run: seq<Move>, t: nat, u: nat)
    requires t < |Run(Start(n), run).pc| && u < |Run(Start(n), run).pc|
    requires Run(Start(n), run).pc[t] == Writing
    ensures Run(Start(n), run).pc[u] != Reading
    ensures Run(Start(n), run).pc[u] == Writing ==> u == t
  {
    var s := Reached(n, run);
    assert Key(0);
    assert Place(s, t) && Place(s, u);
    if s.pc[u] == Reading {
      CountedBound(s.pc, u);
    }
  }

  // Where the spin locks are free, l->k is locked exactly when there are readers
  // or a writer has it; at most one thread waits for it, and that one has l->x.
  lemma KLocked(n: nat, run: seq<Move>)
    ensures var s := Run(Start(n), run);
      && (s.l == Free ==> (s.k.locked <==> s.readers > 0 || s.k.owner.Thread?))
      && (s.k.owner.Thread? ==> s.readers == 0)
      && |s.k.waiting| <= 1 && (s.k.waiting != [] ==> Owns(s.x, s.k.waiting[0]))
  {
    var s := Reached(n, run);
    assert Key(0);
    if s.k.waiting != [] {
      assert Place(s, s.k.waiting[0]);
    }
  }

  // The first reader in finds l->k to lock: nobody else is at it, and it is not locked.
  lemma FirstReaderLocks(n: nat, run: seq<Move>, t: nat)
    requires t < |Run(Start(n), run).pc| && Run(Start(n), run).readers == 1
    ensures var s := Run(Start(n), run);
      && (s.pc[t] == CanK ==> s.k.use == Free && !s.k.locked)
      && (s.pc[t] == CanKTest ==> !s.k.locked && Step(s, t, Go).k.owner == Readers)
  {
    var s := Reached(n, run);
    if s.pc[t].CanK? || s.pc[t].CanKTest? {
      OwnerOfX(s, t);
      if s.pc[t].CanK? { KFree(s, t); }
      assert Key(0);
      assert Place(s, t);
    }
  }

  // Passing a lock on: it stays locked while there is somebody to have it, and
  // goes to who came first.
  lemma HandOff(n: nat, run: seq<Move>, t: nat)
    requires t < |Run(Start(n), run).pc|
    ensures var s := Run(Start(n), run);
      && s.x.came == s.x.got + s.x.waiting && s.k.came == s.k.got + s.k.waiting
      && (s.pc[t].XRelTest? && s.x.waiting != [] ==>
            s.x.waiting[0] < |s.pc| && GivenTo(Step(s, t, Go).x, s.x.waiting[0]) &&
            GivenX(Step(s, t, Go), s.x.waiting[0]))
      && (s.pc[t].KRelTest? && s.k.waiting != [] ==>
            s.k.waiting[0] < |s.pc| && GivenTo(Step(s, t, Go).k, s.k.waiting[0]) &&
            GivenK(Step(s, t, Go), s.k.waiting[0]))
  {
    var s := Reached(n, run);
    Common(s);
    if s.pc[t].XRelTest? && s.x.waiting != [] { PassesX(s, t); }
    if s.pc[t].KRelTest? && s.k.waiting != [] { PassesK(s, t); }
  }

  predicate GivenTo(q: Q, t: nat) { q.locked && Owns(q, t) }

  lemma PassesX(s: Sys, t: nat)
    requires Inv(s) && t < |s.pc| && s.pc[t].XRelTest? && s.x.waiting != []
    ensures var h := s.x.waiting[0]; h < |s.pc| && GivenTo(Step(s, t, Go).x, h) && GivenX(Step(s, t, Go), h)
  {
    Common(s);
    HeadOfX(s);
  }

  lemma PassesK(s: Sys, t: nat)
    requires Inv(s) && t < |s.pc| && s.pc[t].KRelTest? && s.k.waiting != []
    ensures var h := s.k.waiting[0]; h < |s.pc| && GivenTo(Step(s, t, Go).k, h) && GivenK(Step(s, t, Go), h)
  {
    Common(s);
    HeadOfK(s);
  }

  // The histories only grow, a hand-off at a time, each to a new owner.
  ghost predicate Grows(q: Q, q': Q) { q.came <= q'.came && q.got <= q'.got }

  predicate OneMore(q: Q, q': Q)
  {
    q'.got == q.got || (q.waiting != [] && q'.got == q.got + [q.waiting[0]] && GivenTo(q', q.waiting[0]))
  }

  lemma StepGrows(s: Sys, t: nat, a: Act)
    requires t < |s.pc| && Enabled(s, t) && Shared(s)
    ensures var s' := Step(s, t, a); Grows(s.x, s'.x) && Grows(s.k, s'.k) && OneMore(s.x, s'.x) && OneMore(s.k, s'.k)
  {
  }

  lemma {:induction false} RunGrows(s: Sys, run: seq<Move>)
    requires Inv(s)
    ensures Grows(s.x, Run(s, run).x) && Grows(s.k, Run(s, run).k)
    decreases |run|
  {
    if run != [] {
      var m := run[0];
      if m.t < |s.pc| && Enabled(s, m.t) {
        Common(s);
        StepGrows(s, m.t, m.a);
        KeepsStep(s, m.t, m.a);
        RunGrows(Step(s, m.t, m.a), run[1..]);
      } else {
        RunGrows(s, run[1..]);
      }
    }
  }

  // After d more hand-offs whoever was at place i of the queue is at place
  // i - d, or was given the lock by the one numbered i.
  ghost predicate Served(q: Q, q': Q)
  {
    && |q.got| <= |q'.got|
    && forall i {:trigger q.waiting[i]} :: 0 <= i < |q.waiting| ==>
        var d := |q'.got| - |q.got|;
        if d <= i then i - d < |q'.waiting| && q'.waiting[i - d] == q.waiting[i]
        else q'.got[|q.got| + i] == q.waiting[i]
  }

  lemma QueueServed(q: Q, q': Q)
    requires q.came == q.got + q.waiting && q'.came == q'.got + q'.waiting && Grows(q, q')
    ensures Served(q, q')
  {
    forall i {:trigger q.waiting[i]} | 0 <= i < |q.waiting|
      ensures var d := |q'.got| - |q.got|;
        if d <= i then i - d < |q'.waiting| && q'.waiting[i - d] == q.waiting[i]
        else q'.got[|q.got| + i] == q.waiting[i]
    {
      assert q.waiting[i] == q.came[|q.got| + i] == q'.came[|q.got| + i];
    }
  }

  // Bounded waiting, over any run and any way it goes on: a thread at place i of
  // a queue is given the lock by the hand-off numbered i after that, and waits
  // one place nearer after each before it.
  lemma BoundedWaiting(n: nat, run: seq<Move>, more: seq<Move>)
    ensures var s := Run(Start(n), run); Served(s.x, Run(s, more).x) && Served(s.k, Run(s, more).k)
  {
    var s := Reached(n, run);
    RunGrows(s, more);
    RunsKeep(s, more);
    Common(s);
    Common(Run(s, more));
    QueueServed(s.x, Run(s, more).x);
    QueueServed(s.k, Run(s, more).k);
  }

  // And the hand-off that a step makes is to who is first, and locks it for him.
  lemma HandOffsServe(n: nat, run: seq<Move>, t: nat, a: Act)
    requires t < |Run(Start(n), run).pc| && Enabled(Run(Start(n), run), t)
    ensures var s := Run(Start(n), run); OneMore(s.x, Step(s, t, a).x) && OneMore(s.k, Step(s, t, a).k)
  {
    var s := Reached(n, run);
    Common(s);
    StepGrows(s, t, a);
  }

  // -- nobody is left behind ----------------------------------------------------------------------

  // A thread under a spin lock, or passing a lock on, can always go on.
  lemma SpinHolderGoes(s: Sys)
    requires Inv(s) && (s.x.use.Held? || s.k.use.Held?)
    ensures exists t :: 0 <= t < |s.pc| && Enabled(s, t) && s.pc[t] != Idle
  {
    assert Key(0);
    var t := if s.x.use.Held? then s.x.use.holder else s.k.use.holder;
    assert Place(s, t);
    assert Enabled(s, t) && s.pc[t] != Idle;
  }

  lemma LHolderGoes(s: Sys)
    requires Inv(s) && s.l.Held? && s.k.use == Free
    ensures exists t :: 0 <= t < |s.pc| && Enabled(s, t) && s.pc[t] != Idle
  {
    assert Key(0);
    assert Place(s, s.l.holder);
    assert Enabled(s, s.l.holder) && s.pc[s.l.holder] != Idle;
  }

  // A thread asleep on l->k, spin locks free: its waker, or somebody who has l->k.
  lemma KSleeperServed(s: Sys, t: nat)
    requires Inv(s) && t < |s.pc| && s.pc[t].KWait? && s.l == Free && s.x.use == Free && s.k.use == Free
    ensures exists u :: 0 <= u < |s.pc| && Enabled(s, u) && s.pc[u] != Idle
  {
    assert Key(0);
    assert Place(s, t) && Wakes(s, t);
    if t in s.k.waiting {
      if s.k.owner.Thread? {
        OwnerOfX(s, t);
        assert Place(s, s.k.owner.id);
        assert Owns(s.k, s.k.owner.id);
        assert false;
      }
      SomeCounted(s.pc);
      var u :| 0 <= u < |s.pc| && Counted(s.pc[u]);
      assert Place(s, u);
      assert Enabled(s, u) && s.pc[u] != Idle;
    } else if t in s.wake {
      assert Enabled(s, t) && s.pc[t] != Idle;
    } else {
      assert Enabled(s, s.k.owner.giver) && s.pc[s.k.owner.giver] != Idle;
    }
  }

  lemma XSleeperServed(s: Sys, t: nat)
    requires Inv(s) && t < |s.pc| && s.pc[t].XWait? && s.l == Free && s.x.use == Free && s.k.use == Free
    ensures exists u :: 0 <= u < |s.pc| && Enabled(s, u) && s.pc[u] != Idle
    decreases if t in s.x.waiting then 1 else 0
  {
    assert Key(0);
    assert Place(s, t) && Wakes(s, t);
    if t in s.x.waiting {
      var o := s.x.owner.id;
      assert Place(s, o);
      if s.pc[o].XWait? {
        XSleeperServed(s, o);
      } else if s.pc[o].KWait? {
        KSleeperServed(s, o);
      } else {
        assert Enabled(s, o) && s.pc[o] != Idle;
      }
    } else if t in s.wake {
      assert Enabled(s, t) && s.pc[t] != Idle;
    } else {
      assert Enabled(s, s.x.owner.giver) && s.pc[s.x.owner.giver] != Idle;
    }
  }

  // No deadlock and no lost wakeup: in every run, as long as some thread is
  // inside a call or holds the lock, some such thread can move.
  lemma SomebodyMoves(n: nat, run: seq<Move>, t: nat)
    requires t < |Run(Start(n), run).pc| && Run(Start(n), run).pc[t] != Idle
    ensures var s := Run(Start(n), run); exists u :: 0 <= u < |s.pc| && Enabled(s, u) && s.pc[u] != Idle
  {
    var s := Reached(n, run);
    if s.x.use.Held? || s.k.use.Held? {
      SpinHolderGoes(s);
    } else if s.l.Held? {
      LHolderGoes(s);
    } else if s.pc[t].XWait? {
      XSleeperServed(s, t);
    } else if s.pc[t].KWait? {
      KSleeperServed(s, t);
    } else {
      assert Enabled(s, t);
    }
  }

  // -- calls that nobody is in the way of ------------------------------------------------------------

  // t alone moves, k times.
  function Solo(s: Sys, t: nat, k: nat): Sys
    requires t < |s.pc|
    ensures |Solo(s, t, k).pc| == |s.pc|
    decreases k
  {
    if k == 0 then s else Solo(if Enabled(s, t) then Step(s, t, Go) else s, t, k - 1)
  }

  function Alone(t: nat, k: nat): seq<Move> { seq(k, i => Move(t, Go)) }

  lemma {:induction false} SoloRuns(s: Sys, t: nat, k: nat)
    requires t < |s.pc|
    ensures Run(s, Alone(t, k)) == Solo(s, t, k)
    decreases k
  {
    if k > 0 {
      assert Alone(t, k)[1..] == Alone(t, k - 1);
      SoloRuns(if Enabled(s, t) then Step(s, t, Go) else s, t, k - 1);
    }
  }

  // A call, and then alone.
  lemma CallRuns(s: Sys, t: nat, a: Act, k: nat)
    requires t < |s.pc| && s.pc[t] == Idle
    ensures Run(s, [Move(t, a)] + Alone(t, k)) == Solo(Step(s, t, a), t, k)
  {
    assert ([Move(t, a)] + Alone(t, k))[1..] == Alone(t, k);
    SoloRuns(Step(s, t, a), t, k);
  }

  lemma {:induction false} SoloAdd(s: Sys, t: nat, i: nat, j: nat)
    requires t < |s.pc|
    ensures Solo(s, t, i + j) == Solo(Solo(s, t, i), t, j)
    decreases i
  {
    if i > 0 { SoloAdd(if Enabled(s, t) then Step(s, t, Go) else s, t, i - 1, j); }
  }

  lemma SoloTwo(s: Sys, t: nat, s1: Sys, s2: Sys)
    requires t < |s.pc| && Enabled(s, t) && s1 == Step(s, t, Go)
    requires t < |s1.pc| && Enabled(s1, t) && s2 == Step(s1, t, Go)
    ensures Solo(s, t, 2) == s2
  {
    assert Solo(s1, t, 1) == Solo(s2, t, 0) == s2;
  }

  predicate Quiet(s: Sys) { s.l == Free && s.x.use == Free && s.k.use == Free }

  // Taking l->x when it is free.
  lemma TakesX2(s: Sys, t: nat)
    requires t < |s.pc| && Quiet(s) && !s.x.locked && (s.pc[t] == CanX || s.pc[t].XLock?)
    ensures Solo(s, t, 2) == s.(pc := s.pc[t := if s.pc[t] == XLock(true) then KLock else IncLock],
                                x := s.x.(locked := true, owner := Thread(t, t)))
  {
    var s1 := Step(s, t, Go);
    var s2 := Step(s1, t, Go);
    SoloTwo(s, t, s1, s2);
    assert s2.pc == s.pc[t := s2.pc[t]];
  }

  // Taking l->k when it is free, as a writer.
  lemma TakesK2(s: Sys, t: nat)
    requires t < |s.pc| && Quiet(s) && !s.k.locked && s.pc[t] == KLock
    ensures Solo(s, t, 2) == s.(pc := s.pc[t := Writing], k := s.k.(locked := true, owner := Thread(t, t)))
  {
    var s1 := Step(s, t, Go);
    var s2 := Step(s1, t, Go);
    SoloTwo(s, t, s1, s2);
    assert s2.pc == s.pc[t := Writing];
  }

  // Counting oneself in, and locking l->k for the readers if it is not locked yet.
  lemma CountsIn(s: Sys, t: nat)
    requires t < |s.pc| && Quiet(s) && s.pc[t] == IncLock
    ensures Solo(s, t, 5) == s.(pc := s.pc[t := XRel(false)], readers := s.readers + 1,
                                k := if s.k.locked then s.k else s.k.(locked := true, owner := Readers))
  {
    var s1 := Step(s, t, Go);
    var s2 := Step(s1, t, Go);
    SoloTwo(s, t, s1, s2);
    assert s2 == s.(pc := s.pc[t := CanK], l := Held(t), readers := s.readers + 1);
    var s3 := Step(s2, t, Go);
    var s4 := Step(s3, t, Go);
    SoloTwo(s2, t, s3, s4);
    assert s4 == s.(pc := s.pc[t := IncUnlock], l := Held(t), readers := s.readers + 1,
                    k := if s.k.locked then s.k else s.k.(locked := true, owner := Readers));
    assert Solo(s4, t, 1) == Solo(Step(s4, t, Go), t, 0);
    SoloAdd(s, t, 2, 2);
    SoloAdd(s, t, 4, 1);
    assert Step(s4, t, Go).pc == s.pc[t := XRel(false)];
  }

  // Letting l->x go, nobody waiting for it.
  lemma LetsX(s: Sys, t: nat)
    requires t < |s.pc| && Quiet(s) && s.pc[t].XRel? && s.x.waiting == []
    ensures Solo(s, t, 2) == s.(pc := s.pc[t := if s.pc[t].w then Idle else Reading],
                                x := s.x.(locked := false, owner := Nobody))
  {
    var s1 := Step(s, t, Go);
    var s2 := Step(s1, t, Go);
    SoloTwo(s, t, s1, s2);
    assert s2.pc == s.pc[t := s2.pc[t]];
  }

  // From l->x free to reading it.
  lemma ReadsIn(s: Sys, t: nat)
    requires Inv(s) && t < |s.pc| && Quiet(s) && !s.x.locked && (s.pc[t] == CanX || s.pc[t] == XLock(false))
    ensures Solo(s, t, 9) == s.(pc := s.pc[t := Reading], readers := s.readers + 1,
                                k := if s.k.locked then s.k else s.k.(locked := true, owner := Readers))
  {
    Common(s);
    TakesX2(s, t);
    var s1 := Solo(s, t, 2);
    CountsIn(s1, t);
    var s2 := Solo(s1, t, 5);
    LetsX(s2, t);
    SoloAdd(s, t, 2, 5);
    SoloAdd(s, t, 7, 2);
    assert s2.pc[t := Reading] == s.pc[t := Reading];
  }

  // canrlock succeeds: wherever the spin locks are free and l->x is not locked, a
  // thread about to try it, left alone, ends up reading, counted, with l->k
  // locked against writers and everything else as it was.
  lemma CanrlockSucceeds(n: nat, run: seq<Move>, t: nat)
    requires var s := Run(Start(n), run); t < |s.pc| && s.pc[t] == CanX && Quiet(s) && !s.x.locked
    ensures var s := Run(Start(n), run);
            Run(s, Alone(t, 9)) == s.(pc := s.pc[t := Reading], readers := s.readers + 1,
                                      k := if s.k.locked then s.k else s.k.(locked := true, owner := Readers))
  {
    var s := Reached(n, run);
    ReadsIn(s, t);
    SoloRuns(s, t, 9);
  }

  // And it is refused only where the spin lock is held or l->x is locked.
  lemma CanrlockRefused(s: Sys, t: nat, u: nat, a: Act)
    requires t < |s.pc| && u < |s.pc| && Enabled(s, u) && (s.pc[t] == CanX || s.pc[t] == CanXTest)
    ensures Step(s, u, a).pc[t] == Idle <==>
      u == t && if s.pc[t] == CanX then s.x.use.Held? else s.x.locked
  {
  }

  // rlock of a lock that nobody has or waits for.
  lemma RlockSucceeds(n: nat, run: seq<Move>, t: nat)
    requires var s := Run(Start(n), run); t < |s.pc| && s.pc[t] == Idle && Quiet(s) && !s.x.locked
    ensures var s := Run(Start(n), run);
            Run(s, [Move(t, Rlock)] + Alone(t, 9))
            == s.(pc := s.pc[t := Reading], readers := s.readers + 1,
                  k := if s.k.locked then s.k else s.k.(locked := true, owner := Readers))
  {
    var s := Reached(n, run);
    CallRuns(s, t, Rlock, 9);
    KeepsStep(s, t, Rlock);
    ReadsIn(Step(s, t, Rlock), t);
    assert s.pc[t := XLock(false)][t := Reading] == s.pc[t := Reading];
  }

  // runlock: one reader less, and the last one leaves l->k unlocked.
  lemma RunlockSucceeds(n: nat, run: seq<Move>, t: nat) returns (k: nat)
    requires var s := Run(Start(n), run); t < |s.pc| && s.pc[t] == Reading && Quiet(s) && s.k.waiting == []
    ensures var s := Run(Start(n), run);
            Run(s, Alone(t, k)) == s.(pc := s.pc[t := Idle], readers := s.readers - 1,
                                      k := if s.readers > 1 then s.k else s.k.(locked := false, owner := Nobody))
  {
    var s := Reached(n, run);
    assert s.readers > 0 by {
      assert Key(0);
      CountedBound(s.pc, t);
    }
    k := CountsOut(s, t);
    SoloRuns(s, t, k);
  }

  lemma CountsOut(s: Sys, t: nat) returns (k: nat)
    requires t < |s.pc| && Quiet(s) && s.pc[t] == Reading && s.k.waiting == [] && s.readers > 0
    ensures Solo(s, t, k) == s.(pc := s.pc[t := Idle], readers := s.readers - 1,
                                k := if s.readers > 1 then s.k else s.k.(locked := false, owner := Nobody))
  {
    var s1 := Step(s, t, Go);
    var s2 := Step(s1, t, Go);
    SoloTwo(s, t, s1, s2);
    assert s2 == s.(pc := s.pc[t := Dec], l := Held(t));
    var s3 := Step(s2, t, Go);
    if s.readers > 1 {
      var s4 := Step(s3, t, Go);
      SoloTwo(s2, t, s3, s4);
      SoloAdd(s, t, 2, 2);
      assert s4.pc == s.pc[t := Idle];
      k := 4;
    } else {
      var s4 := Step(s3, t, Go);
      SoloTwo(s2, t, s3, s4);
      SoloAdd(s, t, 2, 2);
      LetsK(s4, t);
      SoloAdd(s, t, 4, 2);
      assert s4.pc[t := Idle] == s.pc[t := Idle];
      k := 6;
    }
  }

  // The last reader, about to let l->k go and then l.
  lemma LetsK(s: Sys, t: nat)
    requires t < |s.pc| && s.pc[t] == KRelTest(false) && s.k.waiting == []
    ensures Solo(s, t, 2)
            == s.(pc := s.pc[t := Idle], l := Free, k := s.k.(use := Free, locked := false, owner := Nobody))
  {
    var s1 := Step(s, t, Go);
    var s2 := Step(s1, t, Go);
    SoloTwo(s, t, s1, s2);
    assert s2.pc == s.pc[t := Idle];
  }

  // wlock of a lock that nobody has.
  lemma WlockSucceeds(n: nat, run: seq<Move>, t: nat)
    requires var s := Run(Start(n), run);
             t < |s.pc| && s.pc[t] == Idle && Quiet(s) && !s.x.locked && !s.k.locked
    ensures var s := Run(Start(n), run);
            Run(s, [Move(t, Wlock)] + Alone(t, 4))
            == s.(pc := s.pc[t := Writing], x := s.x.(locked := true, owner := Thread(t, t)),
                  k := s.k.(locked := true, owner := Thread(t, t)))
  {
    var s := Reached(n, run);
    CallRuns(s, t, Wlock, 4);
    var s0 := Step(s, t, Wlock);
    TakesX2(s0, t);
    var s1 := Solo(s0, t, 2);
    TakesK2(s1, t);
    SoloAdd(s0, t, 2, 2);
    assert s1.pc[t := Writing] == s.pc[t := Writing];
  }

  // wunlock, nobody waiting: both locks are free again.
  lemma WunlockSucceeds(n: nat, run: seq<Move>, t: nat)
    requires var s := Run(Start(n), run); t < |s.pc| && s.pc[t] == Writing && Quiet(s) && s.x.waiting == []
    ensures var s := Run(Start(n), run);
            Run(s, Alone(t, 5)) == s.(pc := s.pc[t := Idle], x := s.x.(locked := false, owner := Nobody),
                                      k := s.k.(locked := false, owner := Nobody))
  {
    var s := Reached(n, run);
    NobodyForK(s, t);
    SoloRuns(s, t, 5);
    var s1 := Step(s, t, Go);
    var s2 := Step(s1, t, Go);
    SoloTwo(s, t, s1, s2);
    var s3 := Step(s2, t, Go);
    assert Solo(s2, t, 1) == Solo(s3, t, 0) == s3;
    assert s3 == s.(pc := s.pc[t := XRel(true)], k := s.k.(locked := false, owner := Nobody));
    LetsX(s3, t);
    SoloAdd(s, t, 2, 1);
    SoloAdd(s, t, 3, 2);
    assert s3.pc[t := Idle] == s.pc[t := Idle];
  }

  // Whoever waits for l->k has l->x, so nobody does while a writer is in.
  lemma NobodyForK(s: Sys, t: nat)
    requires Inv(s) && t < |s.pc| && s.pc[t] == Writing
    ensures s.k.waiting == []
  {
    assert Key(0);
    OwnerOfX(s, t);
    assert Place(s, t);
    if s.k.waiting != [] { OwnerOfX(s, s.k.waiting[0]); }
  }
}
