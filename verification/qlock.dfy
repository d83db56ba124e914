/**
 Queueing locks (qlock.c) as a state machine. A critical section under q->lock is
 one step, except wunlock's loop, which stays inside it while it meets each reader
 in turn; a rendezvous is a step of two threads.
 */
module QLockModel {

  const NSLOT: nat := 1024

  datatype Option<T> = None | Some(value: T)

  datatype Kind = R | W

  /** The state word of a queue slot: of a QLock, or of a reader or writer of an RWLock. */
  datatype SlotState = Queuing | QueuingR | QueuingW

  function StateOf(k: Kind): SlotState {
    if k == R then QueuingR else QueuingW
  }

  /** Where a thread is. Queued and Called are the same program point, the rendezvous of a waiter: a waiter is
      Called from the moment its slot is taken off the queue. */
  datatype Pc =
    | Idle
    | Reading | Writing                    // returned from rlock, wlock
    | Queued(slot: nat, kind: Kind)
    | Called(slot: nat, kind: Kind, caller: nat)   // caller, whom: the other party, which the program does not record
    | Clearing(slot: nat, kind: Kind)      // past the rendezvous, about to clear inuse
    | Waking(slot: nat, whom: nat)                    // an unlocker in its rendezvous, q->lock released
    | WakingR(slot: nat, whom: nat)                   // wunlock in the rendezvous of its loop, holding q->lock
    | WLoop                                // wunlock at the test of its loop, holding q->lock

  datatype Entry = Entry(slot: nat, owner: nat)

  datatype Fault = Fine | NoSlot | BadQueue

  /** inuse, state and last are the slot array shared by all locks; foreign are the slots other locks hold.
      arrived and granted record the calls of rlock and wlock and the grants, in order. */
  datatype State = State(
    readers: int, writer: bool, queue: seq<Entry>, spin: Option<nat>,
    inuse: seq<bool>, state: seq<SlotState>, last: nat, foreign: set<nat>,
    pc: seq<Pc>, fault: Fault,
    arrived: seq<(nat, Kind)>, granted: seq<(nat, Kind)>)

  // ---- getqlp -----------------------------------------------------------------------------------

  /** Scan from p on for a slot not in use, up to but not including op. */
  function Scan(inuse: seq<bool>, op: nat, p: nat, fuel: nat): (r: Option<nat>)
    requires |inuse| == NSLOT && op < NSLOT
    ensures r.Some? ==> r.value < NSLOT && !inuse[r.value] && r.value != op
    decreases fuel
  {
    var q := if p == NSLOT then 0 else p;
    if q == op || q >= NSLOT || fuel == 0 then None
    else if !inuse[q] then Some(q)
    else Scan(inuse, op, q + 1, fuel - 1)
  }

  /** The slot getqlp takes: the first free one after the last taken; None when it aborts. */
  function GetQlp(inuse: seq<bool>, op: nat): (r: Option<nat>)
    requires |inuse| == NSLOT && op < NSLOT
    ensures r.Some? ==> r.value < NSLOT && !inuse[r.value]
  {
    Scan(inuse, op, op + 1, NSLOT)
  }

  /** Going round from op, slot q comes before slot r. */
  predicate Earlier(op: nat, q: nat, r: nat) {
    if op < r then op < q < r else q > op || q < r
  }

  /** The slots are counted round from op. */
  lemma EarlierIsNearer(op: nat, q: nat, r: nat)
    requires op < NSLOT && q < NSLOT && r < NSLOT && r != op
    ensures q != op && Earlier(op, q, r) <==> 0 < (q - op) % NSLOT < (r - op) % NSLOT
  {
    assert (q - op) % NSLOT == if q < op then q - op + NSLOT else q - op;
    assert (r - op) % NSLOT == if r < op then r - op + NSLOT else r - op;
  }

  /** From p on, going round, slot q comes before op. */
  predicate Ahead(op: nat, p: nat, q: nat) {
    q < NSLOT && if p > op then q >= p || q < op else p <= q < op
  }

  lemma {:induction false} ScanIs(inuse: seq<bool>, op: nat, p: nat, fuel: nat)
    requires |inuse| == NSLOT && op < NSLOT && p <= NSLOT && fuel >= if p > op then NSLOT - p + op + 1 else op - p + 1
    ensures Scan(inuse, op, p, fuel) == None ==> forall q: nat | Ahead(op, p, q) :: inuse[q]
    ensures var r := Scan(inuse, op, p, fuel);
            r.Some? ==> Ahead(op, p, r.value) && forall q: nat | Ahead(op, p, q) && Earlier(op, q, r.value) :: inuse[q]
    decreases fuel
  {
    var q := if p == NSLOT then 0 else p;
    if q != op && inuse[q] {
      ScanIs(inuse, op, q + 1, fuel - 1);
      assert forall x: nat :: Ahead(op, p, x) ==> x == q || Ahead(op, q + 1, x);
    }
  }

  /** getqlp takes the first free slot behind the last one taken, and aborts exactly if all others are in use. */
  lemma FirstFree(inuse: seq<bool>, op: nat)
    requires |inuse| == NSLOT && op < NSLOT
    ensures GetQlp(inuse, op) == None <==> forall q | 0 <= q < NSLOT && q != op :: inuse[q]
    ensures var r := GetQlp(inuse, op);
            r.Some? ==> r.value != op && forall q: nat | q < NSLOT && q != op && Earlier(op, q, r.value) :: inuse[q]
  {
    var p := op + 1;
    ScanIs(inuse, op, p, NSLOT);
    assert forall q: nat | q < NSLOT && q != op :: Ahead(op, p, q);
  }

  /** A call runs out of slots exactly if it has to wait and no slot but the last one taken is free. */
  lemma OutOfSlots(s: State, t: nat)
    requires Shaped(s)
    ensures Enabled(s, RLock(t)) ==>
              (Exec(s, RLock(t)).fault == NoSlot <==>
                (s.writer || s.queue != []) && forall q | 0 <= q < NSLOT && q != s.last :: s.inuse[q])
    ensures Enabled(s, WLock(t)) ==>
              (Exec(s, WLock(t)).fault == NoSlot <==>
                (s.writer || s.readers != 0) && forall q | 0 <= q < NSLOT && q != s.last :: s.inuse[q])
  {
    hide GetQlp;
    FirstFree(s.inuse, s.last);
  }

  // ---- Steps --------------------------------------------------------------------------------------

  datatype Action =
    | RLock(t: nat) | RUnlock(t: nat) | WLock(t: nat) | WUnlock(t: nat)
    | LoopStep(t: nat)
    | Meet(u: nat, w: nat)
    | Clear(t: nat)
    | OtherTakes | OtherFrees(slot: nat)

  predicate Shaped(s: State) {
    |s.inuse| == |s.state| == NSLOT && s.last < NSLOT
  }

  predicate Enabled(s: State, a: Action)
    requires Shaped(s)
  {
    && s.fault == Fine
    && match a
       case RLock(t) => t < |s.pc| && s.pc[t] == Idle && s.spin == None
       case WLock(t) => t < |s.pc| && s.pc[t] == Idle && s.spin == None
       case RUnlock(t) => t < |s.pc| && s.pc[t] == Reading && s.spin == None
       case WUnlock(t) => t < |s.pc| && s.pc[t] == Writing && s.spin == None
       case LoopStep(t) => t < |s.pc| && s.pc[t] == WLoop
       case Meet(u, w) => u < |s.pc| && w < |s.pc| && s.pc[w].Called? && IsWaking(s.pc[u])
                          && s.pc[u].slot == s.pc[w].slot
       case Clear(t) => t < |s.pc| && s.pc[t].Clearing? && s.pc[t].slot < NSLOT
       case OtherTakes => GetQlp(s.inuse, s.last).Some?
       case OtherFrees(slot) => slot in s.foreign && slot < NSLOT
  }

  /** Chain the calling thread into the waiting list. */
  function Enqueue(s: State, t: nat, k: Kind): State
    requires Shaped(s) && t < |s.pc|
  {
    match GetQlp(s.inuse, s.last)
    case None => s.(fault := NoSlot)
    case Some(p) =>
      s.(queue := s.queue + [Entry(p, t)], inuse := s.inuse[p := true], state := s.state[p := StateOf(k)], last := p,
         pc := s.pc[t := Queued(p, k)], arrived := s.arrived + [(t, k)])
  }

  /** The lock is free for a caller of kind k, who gets it. */
  function Grant(s: State, t: nat, k: Kind): State
    requires t < |s.pc|
  {
    s.(pc := s.pc[t := if k == R then Reading else Writing], arrived := s.arrived + [(t, k)],
       granted := s.granted + [(t, k)])
  }

  predicate IsWaking(p: Pc) {
    p.Waking? || p.WakingR?
  }

  /** Thread t takes the head off the queue; its owner is called. */
  function Dequeue(s: State, t: nat): State
    requires s.queue != []
  {
    var e := s.queue[0];
    if e.owner < |s.pc| && s.pc[e.owner].Queued? then
      s.(queue := s.queue[1..], pc := s.pc[e.owner := Called(s.pc[e.owner].slot, s.pc[e.owner].kind, t)],
         granted := s.granted + [(e.owner, s.pc[e.owner].kind)])
    else s.(fault := BadQueue)
  }

  function HeadState(s: State): SlotState
    requires Shaped(s) && s.queue != []
  {
    if s.queue[0].slot < NSLOT then s.state[s.queue[0].slot] else Queuing
  }

  function Exec(s: State, a: Action): (s': State)
    requires Shaped(s) && Enabled(s, a)
    ensures Shaped(s') && |s'.pc| == |s.pc|
  {
    match a
    case RLock(t) =>
      if !s.writer && s.queue == [] then Grant(s.(readers := s.readers + 1), t, R) else Enqueue(s, t, R)
    case WLock(t) =>
      if s.readers == 0 && !s.writer then Grant(s.(writer := true), t, W) else Enqueue(s, t, W)
    case RUnlock(t) =>
      var s1 := s.(readers := s.readers - 1, pc := s.pc[t := Idle]);
      if s1.readers > 0 || s.queue == [] then s1
      else if HeadState(s) != QueuingW then s1.(fault := BadQueue)
      else
        var s2 := Dequeue(s1, t);
        s2.(writer := true, pc := s2.pc[t := Waking(s.queue[0].slot, s.queue[0].owner)])
    case WUnlock(t) =>
      if s.queue == [] then s.(writer := false, pc := s.pc[t := Idle])
      else if HeadState(s) == QueuingW then
        var s2 := Dequeue(s, t);
        s2.(pc := s2.pc[t := Waking(s.queue[0].slot, s.queue[0].owner)])
      else if HeadState(s) != QueuingR then s.(fault := BadQueue)
      else s.(pc := s.pc[t := WLoop], spin := Some(t))
    case LoopStep(t) =>
      if s.queue != [] && HeadState(s) == QueuingR then
        var s2 := Dequeue(s, t);
        s2.(readers := s.readers + 1, pc := s2.pc[t := WakingR(s.queue[0].slot, s.queue[0].owner)])
      else s.(writer := false, spin := None, pc := s.pc[t := Idle])
    case Meet(u, w) =>
      var to := if s.pc[u].Waking? then Idle else WLoop;
      s.(pc := s.pc[w := Clearing(s.pc[w].slot, s.pc[w].kind)][u := to])
    case Clear(t) =>
      s.(inuse := s.inuse[s.pc[t].slot := false], pc := s.pc[t := if s.pc[t].kind == R then Reading else Writing])
    case OtherTakes =>
      var p := GetQlp(s.inuse, s.last).value;
      s.(inuse := s.inuse[p := true], state := s.state[p := Queuing], last := p, foreign := s.foreign + {p})
    case OtherFrees(slot) =>
      s.(inuse := s.inuse[slot := false], foreign := s.foreign - {slot})
  }

  // ---- The invariant --------------------------------------------------------------------------------

  /** The thread holds a read lock, has been handed one, or is about to return with it. */
  predicate HoldsR(p: Pc) {
    p.Reading? || (p.Clearing? && p.kind == R) || (p.Called? && p.kind == R)
  }

  predicate HoldsW(p: Pc) {
    p.Writing? || (p.Clearing? && p.kind == W) || (p.Called? && p.kind == W)
  }

  predicate InLoop(p: Pc) {
    p.WLoop? || p.WakingR?
  }

  predicate HasSlot(p: Pc) {
    p.Queued? || p.Called? || p.Clearing?
  }

  ghost function Count(pc: seq<Pc>, f: Pc -> bool): nat {
    if pc == [] then 0 else Count(pc[..|pc| - 1], f) + (if f(pc[|pc| - 1]) then 1 else 0)
  }

  /** Counters and flags. */
  ghost predicate Counted(readers: int, writer: bool, spin: Option<nat>, pc: seq<Pc>) {
    && readers == Count(pc, HoldsR)
    && Count(pc, HoldsW) + Count(pc, InLoop) == (if writer then 1 else 0)
    && (writer && Count(pc, InLoop) == 0 ==> readers == 0)
    && (match spin
        case None => Count(pc, InLoop) == 0
        case Some(h) => h < |pc| && InLoop(pc[h]))
  }

  function HeadIs(queue: seq<Entry>, state: seq<SlotState>, x: SlotState): bool {
    queue != [] && queue[0].slot < |state| && state[queue[0].slot] == x
  }

  /** A nonempty queue has a reason. */
  ghost predicate Justified(readers: int, writer: bool, spin: Option<nat>, queue: seq<Entry>, state: seq<SlotState>) {
    queue != [] ==>
      && (writer || (readers > 0 && HeadIs(queue, state, QueuingW)))
      && (spin.Some? && readers == 0 ==> HeadIs(queue, state, QueuingR))
  }

  /** The queue is the threads that are queued, each once, on its own slot. */
  ghost predicate QueueOk(queue: seq<Entry>, state: seq<SlotState>, pc: seq<Pc>) {
    && (forall k | 0 <= k < |queue| :: Belongs(queue[k], state, pc))
    && (forall t | 0 <= t < |pc| && pc[t].Queued? :: Entry(pc[t].slot, t) in queue)
    && (forall j, k | 0 <= j < k < |queue| :: queue[j].owner != queue[k].owner)
  }

  ghost predicate Belongs(e: Entry, state: seq<SlotState>, pc: seq<Pc>) {
    && e.owner < |pc| && pc[e.owner].Queued? && pc[e.owner].slot == e.slot
    && e.slot < |state| && state[e.slot] == StateOf(pc[e.owner].kind)
  }

  /** Every slot in use has one user. */
  ghost predicate SlotsOk(inuse: seq<bool>, foreign: set<nat>, pc: seq<Pc>) {
    && (forall t | 0 <= t < |pc| && HasSlot(pc[t]) :: pc[t].slot < |inuse| && inuse[pc[t].slot]
                                                      && pc[t].slot !in foreign)
    && (forall t, u | 0 <= t < u < |pc| && HasSlot(pc[t]) && HasSlot(pc[u]) :: pc[t].slot != pc[u].slot)
    && (forall p | p in foreign :: p < |inuse| && inuse[p])
  }

  /** Thread u is in the rendezvous that called waiter w is waiting for. */
  ghost predicate Paired(pc: seq<Pc>, u: nat, w: nat) {
    && u < |pc| && w < |pc| && IsWaking(pc[u]) && pc[w].Called?
    && pc[u].whom == w && pc[w].caller == u && pc[u].slot == pc[w].slot
  }

  /** Every called waiter is met by one waker, and every waker has someone to meet. */
  ghost predicate WakersOk(pc: seq<Pc>) {
    && (forall w: nat | w < |pc| && pc[w].Called? :: Paired(pc, pc[w].caller, w))
    && (forall u: nat | u < |pc| && IsWaking(pc[u]) :: Paired(pc, u, pc[u].whom))
  }

  function Waiter(e: Entry, pc: seq<Pc>): (nat, Kind) {
    (e.owner, if e.owner < |pc| && pc[e.owner].Queued? then pc[e.owner].kind else R)
  }

  function Waiters(queue: seq<Entry>, pc: seq<Pc>): (r: seq<(nat, Kind)>)
    ensures |r| == |queue| && forall k | 0 <= k < |queue| :: r[k] == Waiter(queue[k], pc)
  {
    seq(|queue|, k requires 0 <= k < |queue| => Waiter(queue[k], pc))
  }

  /** Grants are made in the order of arrival: the grants so far followed by the queue are the arrivals. */
  ghost predicate Fifo(s: State) {
    s.arrived == s.granted + Waiters(s.queue, s.pc)
  }

  ghost predicate Core(s: State) {
    && Shaped(s) && s.fault != BadQueue
    && Counted(s.readers, s.writer, s.spin, s.pc)
    && Justified(s.readers, s.writer, s.spin, s.queue, s.state)
    && QueueOk(s.queue, s.state, s.pc)
    && SlotsOk(s.inuse, s.foreign, s.pc)
    && WakersOk(s.pc)
    && Fifo(s)
  }

  // ---- Counting ---------------------------------------------------------------------------------------

  lemma {:induction false} CountUpdate(pc: seq<Pc>, t: nat, p: Pc, f: Pc -> bool)
    requires t < |pc|
    ensures Count(pc[t := p], f) + (if f(pc[t]) then 1 else 0) == Count(pc, f) + (if f(p) then 1 else 0)
  {
    var n := |pc| - 1;
    if t == n {
      assert pc[t := p][..n] == pc[..n];
    } else {
      assert pc[t := p][..n] == pc[..n][t := p];
      CountUpdate(pc[..n], t, p, f);
    }
  }

  lemma {:induction false} CountPositive(pc: seq<Pc>, t: nat, f: Pc -> bool)
    requires t < |pc| && f(pc[t])
    ensures Count(pc, f) > 0
  {
    if t < |pc| - 1 {
      CountPositive(pc[..|pc| - 1], t, f);
    }
  }

  lemma {:induction false} CountTwo(pc: seq<Pc>, t: nat, u: nat, f: Pc -> bool)
    requires t < u < |pc| && f(pc[t]) && f(pc[u])
    ensures Count(pc, f) >= 2
  {
    if u == |pc| - 1 {
      CountPositive(pc[..u], t, f);
    } else {
      CountTwo(pc[..|pc| - 1], t, u, f);
    }
  }

  lemma {:induction false} CountZero(pc: seq<Pc>, f: Pc -> bool)
    requires forall t | 0 <= t < |pc| :: !f(pc[t])
    ensures Count(pc, f) == 0
  {
    if pc != [] {
      CountZero(pc[..|pc| - 1], f);
    }
  }

  /** The three counts after thread t moves to p. */
  lemma Moved(pc: seq<Pc>, t: nat, p: Pc)
    requires t < |pc|
    ensures Count(pc[t := p], HoldsR) + (if HoldsR(pc[t]) then 1 else 0) ==
              Count(pc, HoldsR) + (if HoldsR(p) then 1 else 0)
    ensures Count(pc[t := p], HoldsW) + (if HoldsW(pc[t]) then 1 else 0) ==
              Count(pc, HoldsW) + (if HoldsW(p) then 1 else 0)
    ensures Count(pc[t := p], InLoop) + (if InLoop(pc[t]) then 1 else 0) ==
              Count(pc, InLoop) + (if InLoop(p) then 1 else 0)
  {
    CountUpdate(pc, t, p, HoldsR);
    CountUpdate(pc, t, p, HoldsW);
    CountUpdate(pc, t, p, InLoop);
  }

  predicate Plain(p: Pc) {
    p == Idle || p == Reading || p == Writing || p == WLoop
  }

  /** A thread that touches no slot moves: queue, slots, wakers and waiters stay as they are. */
  lemma PlainMove(queue: seq<Entry>, state: seq<SlotState>, inuse: seq<bool>, foreign: set<nat>, pc: seq<Pc>,
                  t: nat, p: Pc)
    requires t < |pc| && Plain(pc[t]) && Plain(p)
    requires QueueOk(queue, state, pc) && SlotsOk(inuse, foreign, pc) && WakersOk(pc)
    ensures QueueOk(queue, state, pc[t := p]) && SlotsOk(inuse, foreign, pc[t := p]) && WakersOk(pc[t := p])
    ensures Waiters(queue, pc[t := p]) == Waiters(queue, pc)
  {
    var pc' := pc[t := p];
    forall k | 0 <= k < |queue| ensures Belongs(queue[k], state, pc') && Waiter(queue[k], pc') == Waiter(queue[k], pc) {
      assert Belongs(queue[k], state, pc);
    }
  }

  // ---- Steps keep the invariant -------------------------------------------------------------------------

  lemma GrantKeeps(s: State, s1: State, t: nat, k: Kind)
    requires Core(s) && s.fault == Fine && t < |s.pc| && s.pc[t] == Idle && s.spin == None && s.queue == []
    requires k == R ==> !s.writer && s1 == s.(readers := s.readers + 1)
    requires k == W ==> s.readers == 0 && !s.writer && s1 == s.(writer := true)
    ensures Core(Grant(s1, t, k))
  {
    var p := if k == R then Reading else Writing;
    Moved(s.pc, t, p);
    PlainMove(s.queue, s.state, s.inuse, s.foreign, s.pc, t, p);
  }

  lemma EnqueueKeeps(s: State, t: nat, k: Kind)
    requires Core(s) && s.fault == Fine && t < |s.pc| && s.pc[t] == Idle && s.spin == None
    requires s.queue == [] ==> s.writer || (s.readers > 0 && k == W)
    ensures Core(Enqueue(s, t, k))
  {
    hide Waiters, SlotsOk;
    match GetQlp(s.inuse, s.last)
    case None =>
    case Some(p) => EnqueuedKeeps(s, t, k, p);
  }

  lemma EnqueuedKeeps(s: State, t: nat, k: Kind, p: nat)
    requires Core(s) && s.fault == Fine && t < |s.pc| && s.pc[t] == Idle && s.spin == None
    requires (s.queue == [] ==> s.writer || (s.readers > 0 && k == W)) && GetQlp(s.inuse, s.last) == Some(p)
    ensures Core(Enqueue(s, t, k))
  {
    hide Waiters, SlotsOk, WakersOk;
    Moved(s.pc, t, Queued(p, k));
    EnqueueQueue(s.queue, s.state, s.inuse, s.foreign, s.pc, t, p, k);
    IdleWakers(s.pc, t, Queued(p, k));
    assert s.arrived + [(t, k)] == s.granted + (Waiters(s.queue, s.pc) + [(t, k)]);
  }

  lemma IdleWakers(pc: seq<Pc>, t: nat, p: Pc)
    requires t < |pc| && pc[t] == Idle && p.Queued? && WakersOk(pc)
    ensures WakersOk(pc[t := p])
  {
  }

  lemma EnqueueQueue(queue: seq<Entry>, state: seq<SlotState>, inuse: seq<bool>, foreign: set<nat>, pc: seq<Pc>, t: nat,
                     p: nat, k: Kind)
    requires t < |pc| && pc[t] == Idle && p < |inuse| == |state| && !inuse[p]
    requires QueueOk(queue, state, pc) && SlotsOk(inuse, foreign, pc)
    ensures QueueOk(queue + [Entry(p, t)], state[p := StateOf(k)], pc[t := Queued(p, k)])
    ensures SlotsOk(inuse[p := true], foreign, pc[t := Queued(p, k)])
    ensures Waiters(queue + [Entry(p, t)], pc[t := Queued(p, k)]) == Waiters(queue, pc) + [(t, k)]
  {
    var queue', state', pc' := queue + [Entry(p, t)], state[p := StateOf(k)], pc[t := Queued(p, k)];
    forall j | 0 <= j < |queue|
      ensures Belongs(queue'[j], state', pc') && Waiter(queue'[j], pc') == Waiter(queue[j], pc)
    {
      assert Belongs(queue[j], state, pc);
    }
    forall u | 0 <= u < |pc'| && pc'[u].Queued? ensures Entry(pc'[u].slot, u) in queue' {
      if u != t {
        assert Entry(pc[u].slot, u) in queue;
      }
    }
  }

  /** Thread t takes the head off the queue and goes to meet its owner. */
  ghost function CalledPc(queue: seq<Entry>, pc: seq<Pc>, t: nat, loop: bool): seq<Pc>
    requires queue != [] && t < |pc| && queue[0].owner < |pc| && pc[queue[0].owner].Queued?
  {
    var o := queue[0].owner;
    pc[o := Called(pc[o].slot, pc[o].kind, t)][t := if loop then WakingR(queue[0].slot, o)
                                               else Waking(queue[0].slot, o)]
  }

  lemma HeadWaits(queue: seq<Entry>, state: seq<SlotState>, pc: seq<Pc>)
    requires queue != [] && QueueOk(queue, state, pc)
    ensures Belongs(queue[0], state, pc)
  {
  }

  lemma CallQueue(queue: seq<Entry>, state: seq<SlotState>, pc: seq<Pc>, t: nat, loop: bool)
    requires queue != [] && t < |pc| && Plain(pc[t]) && QueueOk(queue, state, pc) && Belongs(queue[0], state, pc)
    ensures QueueOk(queue[1..], state, CalledPc(queue, pc, t, loop))
    ensures Waiters(queue, pc) == [Waiter(queue[0], pc)] + Waiters(queue[1..], CalledPc(queue, pc, t, loop))
  {
    hide StateOf, HasSlot, IsWaking, Waiters;
    var o := queue[0].owner;
    var pc', rest := CalledPc(queue, pc, t, loop), queue[1..];
    assert forall u | 0 <= u < |pc| && u != o && u != t :: pc'[u] == pc[u];
    CallEntries(queue, state, pc, t, loop);
    forall u | 0 <= u < |pc'| && pc'[u].Queued? ensures Entry(pc'[u].slot, u) in rest {
      assert Entry(pc[u].slot, u) in queue;
      var j :| 0 <= j < |queue| && queue[j] == Entry(pc[u].slot, u);
      assert rest[j - 1] == queue[j];
    }
  }

  /** Those behind the head wait as before. */
  lemma CallEntries(queue: seq<Entry>, state: seq<SlotState>, pc: seq<Pc>, t: nat, loop: bool)
    requires queue != [] && t < |pc| && Plain(pc[t]) && QueueOk(queue, state, pc) && Belongs(queue[0], state, pc)
    ensures forall j | 0 <= j < |queue| - 1 :: Belongs(queue[1..][j], state, CalledPc(queue, pc, t, loop))
    ensures Waiters(queue, pc) == [Waiter(queue[0], pc)] + Waiters(queue[1..], CalledPc(queue, pc, t, loop))
  {
    hide StateOf, HasSlot, IsWaking;
    var pc', rest := CalledPc(queue, pc, t, loop), queue[1..];
    forall j | 0 <= j < |rest|
      ensures Belongs(rest[j], state, pc') && Waiter(rest[j], pc') == Waiter(queue[j + 1], pc)
    {
      assert Belongs(queue[j + 1], state, pc) && queue[j + 1].owner != queue[0].owner;
    }
  }

  lemma CallSlots(queue: seq<Entry>, state: seq<SlotState>, inuse: seq<bool>, foreign: set<nat>, pc: seq<Pc>,
                  t: nat, loop: bool)
    requires queue != [] && t < |pc| && Plain(pc[t]) && Belongs(queue[0], state, pc) && SlotsOk(inuse, foreign, pc)
    ensures SlotsOk(inuse, foreign, CalledPc(queue, pc, t, loop))
  {
  }

  lemma CallWakers(queue: seq<Entry>, state: seq<SlotState>, pc: seq<Pc>, t: nat, loop: bool)
    requires queue != [] && t < |pc| && Plain(pc[t]) && Belongs(queue[0], state, pc) && WakersOk(pc)
    ensures WakersOk(CalledPc(queue, pc, t, loop))
  {
  }

  /** The counts when thread t takes the head off the queue. */
  lemma CallCounts(queue: seq<Entry>, state: seq<SlotState>, pc: seq<Pc>, t: nat, loop: bool)
    requires queue != [] && t < |pc| && Plain(pc[t]) && Belongs(queue[0], state, pc)
    ensures var pc', k := CalledPc(queue, pc, t, loop), pc[queue[0].owner].kind;
            && Count(pc', HoldsR) + (if HoldsR(pc[t]) then 1 else 0) == Count(pc, HoldsR) + (if k == R then 1 else 0)
            && Count(pc', HoldsW) + (if HoldsW(pc[t]) then 1 else 0) == Count(pc, HoldsW) + (if k == W then 1 else 0)
            && Count(pc', InLoop) + (if InLoop(pc[t]) then 1 else 0) == Count(pc, InLoop) + (if loop then 1 else 0)
  {
    var o := queue[0].owner;
    var pc1 := pc[o := Called(pc[o].slot, pc[o].kind, t)];
    Moved(pc, o, Called(pc[o].slot, pc[o].kind, t));
    Moved(pc1, t, if loop then WakingR(queue[0].slot, o) else Waking(queue[0].slot, o));
  }

  /** The state after thread t has taken the head off the queue. */
  ghost function HandedOff(s: State, t: nat, loop: bool, readers: int, writer: bool): State
    requires s.queue != [] && t < |s.pc| && Belongs(s.queue[0], s.state, s.pc)
  {
    s.(queue := s.queue[1..], pc := CalledPc(s.queue, s.pc, t, loop), readers := readers, writer := writer,
       granted := s.granted + [Waiter(s.queue[0], s.pc)])
  }

  lemma HandOffKeeps(s: State, t: nat, loop: bool, readers: int, writer: bool)
    requires Core(s) && s.queue != [] && t < |s.pc| && Plain(s.pc[t]) && Belongs(s.queue[0], s.state, s.pc)
    requires Counted(readers, writer, s.spin, CalledPc(s.queue, s.pc, t, loop))
    requires Justified(readers, writer, s.spin, s.queue[1..], s.state)
    ensures Core(HandedOff(s, t, loop, readers, writer))
  {
    CallQueue(s.queue, s.state, s.pc, t, loop);
    CallSlots(s.queue, s.state, s.inuse, s.foreign, s.pc, t, loop);
    CallWakers(s.queue, s.state, s.pc, t, loop);
    Shift(s.arrived, s.granted, Waiter(s.queue[0], s.pc), Waiters(s.queue, s.pc),
          Waiters(s.queue[1..], CalledPc(s.queue, s.pc, t, loop)));
  }

  lemma Shift<T>(a: seq<T>, g: seq<T>, x: T, w: seq<T>, rest: seq<T>)
    requires a == g + w && w == [x] + rest
    ensures a == (g + [x]) + rest
  {
  }

  /** The last reader leaves and someone is queued: it is a writer, who gets the lock. */
  lemma RUnlockHands(s: State, t: nat)
    requires Core(s) && s.fault == Fine && t < |s.pc| && s.pc[t] == Reading && s.spin == None && s.readers <= 1
             && s.queue != []
    ensures Belongs(s.queue[0], s.state, s.pc) && s.pc[s.queue[0].owner].kind == W && s.readers == 1 && !s.writer
    ensures Exec(s, RUnlock(t)) == HandedOff(s, t, false, 0, true)
  {
    CountPositive(s.pc, t, HoldsR);
    HeadWaits(s.queue, s.state, s.pc);
    var o := s.queue[0].owner;
    assert o != t;
    assert s.pc[t := Idle][o := Called(s.pc[o].slot, s.pc[o].kind, t)][t := Waking(s.queue[0].slot, o)] ==
             CalledPc(s.queue, s.pc, t, false);
  }

  lemma RUnlockKeeps(s: State, t: nat)
    requires Core(s) && s.fault == Fine && t < |s.pc| && s.pc[t] == Reading && s.spin == None
    ensures Core(Exec(s, RUnlock(t)))
  {
    if s.readers > 1 || s.queue == [] {
      CountPositive(s.pc, t, HoldsR);
      Moved(s.pc, t, Idle);
      PlainMove(s.queue, s.state, s.inuse, s.foreign, s.pc, t, Idle);
    } else {
      RUnlockHands(s, t);
      CallCounts(s.queue, s.state, s.pc, t, false);
      HandOffKeeps(s, t, false, 0, true);
    }
  }

  lemma WUnlockHands(s: State, t: nat)
    requires Core(s) && s.fault == Fine && t < |s.pc| && s.pc[t] == Writing && s.spin == None
    requires s.queue != [] && HeadState(s) == QueuingW
    ensures Belongs(s.queue[0], s.state, s.pc) && s.pc[s.queue[0].owner].kind == W && s.readers == 0 && s.writer
    ensures Exec(s, WUnlock(t)) == HandedOff(s, t, false, 0, true)
  {
    CountPositive(s.pc, t, HoldsW);
    HeadWaits(s.queue, s.state, s.pc);
  }

  lemma WUnlockKeeps(s: State, t: nat)
    requires Core(s) && s.fault == Fine && t < |s.pc| && s.pc[t] == Writing && s.spin == None
    ensures Core(Exec(s, WUnlock(t)))
  {
    hide Waiters, SlotsOk, WakersOk;
    CountPositive(s.pc, t, HoldsW);
    if s.queue != [] && HeadState(s) == QueuingW {
      WUnlockHands(s, t);
      CallCounts(s.queue, s.state, s.pc, t, false);
      HandOffKeeps(s, t, false, 0, true);
    } else {
      if s.queue != [] {
        HeadWaits(s.queue, s.state, s.pc);
      }
      var p := if s.queue == [] then Idle else WLoop;
      Moved(s.pc, t, p);
      PlainMove(s.queue, s.state, s.inuse, s.foreign, s.pc, t, p);
    }
  }

  lemma LoopHands(s: State, t: nat)
    requires Core(s) && s.fault == Fine && t < |s.pc| && s.pc[t] == WLoop && s.queue != [] && HeadState(s) == QueuingR
    ensures Belongs(s.queue[0], s.state, s.pc) && s.pc[s.queue[0].owner].kind == R && s.writer && s.spin == Some(t)
    ensures Exec(s, LoopStep(t)) == HandedOff(s, t, true, s.readers + 1, true)
  {
    InLoopIs(s, t);
    HeadWaits(s.queue, s.state, s.pc);
  }

  lemma LoopStepKeeps(s: State, t: nat)
    requires Core(s) && s.fault == Fine && t < |s.pc| && s.pc[t] == WLoop
    ensures Core(Exec(s, LoopStep(t)))
  {
    InLoopIs(s, t);
    if s.queue != [] && HeadState(s) == QueuingR {
      LoopHands(s, t);
      CountPositive(s.pc, t, InLoop);
      CallCounts(s.queue, s.state, s.pc, t, true);
      HandOffKeeps(s, t, true, s.readers + 1, true);
    } else {
      LoopEnds(s, t);
    }
  }

  lemma LoopEnds(s: State, t: nat)
    requires Core(s) && s.fault == Fine && t < |s.pc| && s.pc[t] == WLoop && s.spin == Some(t) && s.writer
    requires s.queue == [] || HeadState(s) != QueuingR
    ensures Core(Exec(s, LoopStep(t)))
  {
    if s.queue != [] {
      HeadWaits(s.queue, s.state, s.pc);
    }
    CountPositive(s.pc, t, InLoop);
    Moved(s.pc, t, Idle);
    PlainMove(s.queue, s.state, s.inuse, s.foreign, s.pc, t, Idle);
  }

  /** Only the holder of q->lock is in the loop. */
  lemma InLoopIs(s: State, t: nat)
    requires Core(s) && t < |s.pc| && InLoop(s.pc[t])
    ensures s.spin == Some(t) && s.writer
  {
    CountPositive(s.pc, t, InLoop);
    var h := s.spin.value;
    if t < h {
      CountTwo(s.pc, t, h, InLoop);
    } else if h < t {
      CountTwo(s.pc, h, t, InLoop);
    }
  }

  ghost function MetPc(pc: seq<Pc>, u: nat, w: nat): seq<Pc>
    requires Paired(pc, u, w)
  {
    pc[w := Clearing(pc[w].slot, pc[w].kind)][u := if pc[u].Waking? then Idle else WLoop]
  }

  /** Slots identify the two parties of a rendezvous. */
  lemma MeetPartners(s: State, u: nat, w: nat)
    requires Core(s) && Enabled(s, Meet(u, w))
    ensures Paired(s.pc, u, w)
  {
    assert Paired(s.pc, u, s.pc[u].whom);
  }

  lemma MeetKeepsSlots(queue: seq<Entry>, state: seq<SlotState>, inuse: seq<bool>, foreign: set<nat>, pc: seq<Pc>,
                       u: nat, w: nat)
    requires Paired(pc, u, w) && QueueOk(queue, state, pc) && SlotsOk(inuse, foreign, pc)
    ensures QueueOk(queue, state, MetPc(pc, u, w)) && SlotsOk(inuse, foreign, MetPc(pc, u, w))
    ensures Waiters(queue, MetPc(pc, u, w)) == Waiters(queue, pc)
  {
    forall k | 0 <= k < |queue|
      ensures Belongs(queue[k], state, MetPc(pc, u, w)) && Waiter(queue[k], MetPc(pc, u, w)) == Waiter(queue[k], pc)
    {
      assert Belongs(queue[k], state, pc);
    }
  }

  lemma MeetKeepsWakers(pc: seq<Pc>, u: nat, w: nat)
    requires Paired(pc, u, w) && WakersOk(pc)
    ensures WakersOk(MetPc(pc, u, w))
  {
    var pc' := MetPc(pc, u, w);
    forall x: nat | x < |pc'| && pc'[x].Called? ensures Paired(pc', pc'[x].caller, x) {
      assert Paired(pc, pc[x].caller, x);
    }
    forall x: nat | x < |pc'| && IsWaking(pc'[x]) ensures Paired(pc', x, pc'[x].whom) {
      assert Paired(pc, x, pc[x].whom);
    }
  }

  lemma MeetKeeps(s: State, u: nat, w: nat)
    requires Core(s) && Enabled(s, Meet(u, w))
    ensures Core(Exec(s, Meet(u, w)))
  {
    hide Justified, QueueOk, WakersOk, SlotsOk, Waiters;
    MeetPartners(s, u, w);
    MeetKeepsSlots(s.queue, s.state, s.inuse, s.foreign, s.pc, u, w);
    MeetKeepsWakers(s.pc, u, w);
    Moved(s.pc, w, Clearing(s.pc[w].slot, s.pc[w].kind));
    Moved(s.pc[w := Clearing(s.pc[w].slot, s.pc[w].kind)], u, if s.pc[u].Waking? then Idle else WLoop);
    if s.pc[u].WakingR? {
      InLoopIs(s, u);
    }
  }

  lemma ClearKeeps(s: State, t: nat)
    requires Core(s) && Enabled(s, Clear(t))
    ensures Core(Exec(s, Clear(t)))
  {
    hide QueueOk, WakersOk, Waiters;
    var p := if s.pc[t].kind == R then Reading else Writing;
    Moved(s.pc, t, p);
    ClearKeepsSlots(s.queue, s.state, s.inuse, s.foreign, s.pc, t, p);
  }

  lemma ClearKeepsSlots(queue: seq<Entry>, state: seq<SlotState>, inuse: seq<bool>, foreign: set<nat>, pc: seq<Pc>,
                        t: nat, p: Pc)
    requires t < |pc| && pc[t].Clearing? && pc[t].slot < |inuse| && (p == Reading || p == Writing)
    requires QueueOk(queue, state, pc) && SlotsOk(inuse, foreign, pc) && WakersOk(pc)
    ensures QueueOk(queue, state, pc[t := p]) && SlotsOk(inuse[pc[t].slot := false], foreign, pc[t := p])
            && WakersOk(pc[t := p])
    ensures Waiters(queue, pc[t := p]) == Waiters(queue, pc)
  {
    forall k | 0 <= k < |queue|
      ensures Belongs(queue[k], state, pc[t := p]) && Waiter(queue[k], pc[t := p]) == Waiter(queue[k], pc)
    {
      assert Belongs(queue[k], state, pc);
    }
    forall u | 0 <= u < |pc| && u != t && HasSlot(pc[u]) ensures pc[u].slot != pc[t].slot {
    }
  }

  lemma OtherKeeps(s: State, a: Action)
    requires Core(s) && Enabled(s, a) && (a.OtherTakes? || a.OtherFrees?)
    ensures Core(Exec(s, a))
  {
    hide Counted, WakersOk, GetQlp;
    var s' := Exec(s, a);
    forall k | 0 <= k < |s.queue| ensures Belongs(s.queue[k], s'.state, s'.pc) {
      assert Belongs(s.queue[k], s.state, s.pc);
    }
    if s.queue != [] {
      assert Belongs(s.queue[0], s.state, s.pc);
    }
  }

  lemma CoreKeeps(s: State, a: Action)
    requires Core(s) && Enabled(s, a)
    ensures Core(Exec(s, a))
  {
    match a
    case RLock(t) =>
      if !s.writer && s.queue == [] {
        GrantKeeps(s, s.(readers := s.readers + 1), t, R);
      } else {
        EnqueueKeeps(s, t, R);
      }
    case WLock(t) =>
      if s.readers == 0 && !s.writer {
        GrantKeeps(s, s.(writer := true), t, W);
      } else {
        EnqueueKeeps(s, t, W);
      }
    case RUnlock(t) => RUnlockKeeps(s, t);
    case WUnlock(t) => WUnlockKeeps(s, t);
    case LoopStep(t) => LoopStepKeeps(s, t);
    case Meet(u, w) => MeetKeeps(s, u, w);
    case Clear(t) => ClearKeeps(s, t);
    case OtherTakes => OtherKeeps(s, a);
    case OtherFrees(_) => OtherKeeps(s, a);
  }

  // ---- No slot is lost ------------------------------------------------------------------------------------

  /** Some thread waits on slot p, or is about to give it back. */
  ghost predicate Held(pc: seq<Pc>, p: nat) {
    exists t :: 0 <= t < |pc| && HasSlot(pc[t]) && pc[t].slot == p
  }

  /** Every slot in use is another lock's or somebody's. */
  ghost predicate Accounted(inuse: seq<bool>, foreign: set<nat>, pc: seq<Pc>) {
    forall p: nat | p < |inuse| && inuse[p] :: p in foreign || Held(pc, p)
  }

  ghost predicate Inv(s: State) {
    Core(s) && Accounted(s.inuse, s.foreign, s.pc)
  }

  /** A slot comes into use only with a holder. */
  lemma TakenIsHeld(s: State, a: Action, p: nat)
    requires Core(s) && Enabled(s, a) && p < NSLOT && !s.inuse[p] && Exec(s, a).inuse[p]
    ensures p in Exec(s, a).foreign || Held(Exec(s, a).pc, p)
  {
    hide Counted, Justified, QueueOk, WakersOk, SlotsOk, Fifo, GetQlp;
    var s' := Exec(s, a);
    if !a.OtherTakes? {
      var t := a.t;
      assert s'.pc[t].Queued? && s'.pc[t].slot == p;
    }
  }

  /** A holder keeps its slot until it clears the slot's mark, and another lock keeps its slot until it frees it. */
  lemma HeldIsKept(s: State, a: Action, p: nat)
    requires Core(s) && Enabled(s, a) && p < NSLOT && s.inuse[p] && Exec(s, a).inuse[p]
    requires p in s.foreign || Held(s.pc, p)
    ensures p in Exec(s, a).foreign || Held(Exec(s, a).pc, p)
  {
    hide Counted, Justified, QueueOk, WakersOk, SlotsOk, Fifo, GetQlp;
    if p !in s.foreign {
      var t :| 0 <= t < |s.pc| && HasSlot(s.pc[t]) && s.pc[t].slot == p;
      SlotKept(s, a, t);
      assert HasSlot(Exec(s, a).pc[t]);
    }
  }

  lemma StepKeeps(s: State, a: Action)
    requires Inv(s) && Enabled(s, a)
    ensures Inv(Exec(s, a))
  {
    hide Exec, Core, Enabled, Held;
    CoreKeeps(s, a);
    CoreShaped(s);
    var s' := Exec(s, a);
    forall p: nat | p < |s'.inuse| && s'.inuse[p] ensures p in s'.foreign || Held(s'.pc, p) {
      if s.inuse[p] {
        HeldIsKept(s, a, p);
      } else {
        TakenIsHeld(s, a, p);
      }
    }
  }

  lemma CoreShaped(s: State)
    requires Core(s)
    ensures Shaped(s) && SlotsOk(s.inuse, s.foreign, s.pc)
  {
  }

  /** Between the steps of any run, a slot is in use exactly as long as another lock or a thread has it: a thread
      that is back from its wait has freed its slot. */
  lemma InUseIsHeld(run: seq<State>, acts: seq<Action>, i: nat, p: nat)
    requires IsRun(run, acts) && i < |run| && p < NSLOT
    ensures |run[i].inuse| == NSLOT && (run[i].inuse[p] <==> p in run[i].foreign || Held(run[i].pc, p))
  {
    hide Core, Accounted, SlotsOk, Initial;
    RunsKeepInv(run, acts, i);
    CoreShaped(run[i]);
    UsersUse(run[i].inuse, run[i].foreign, run[i].pc, p);
  }

  lemma UsersUse(inuse: seq<bool>, foreign: set<nat>, pc: seq<Pc>, p: nat)
    requires SlotsOk(inuse, foreign, pc) && Accounted(inuse, foreign, pc) && p < |inuse|
    ensures inuse[p] <==> p in foreign || Held(pc, p)
  {
  }

  /** A call aborts for want of a slot only if all slots but the last one taken are really held. */
  lemma OutOfSlotsHeld(run: seq<State>, acts: seq<Action>, i: nat, p: nat)
    requires IsRun(run, acts) && i < |acts| && run[i + 1].fault == NoSlot && p < NSLOT && p != run[i].last
    ensures p in run[i].foreign || Held(run[i].pc, p)
  {
    hide Core, Accounted, SlotsOk, Initial, Held;
    RunsKeepInv(run, acts, i);
    NoSlotIsFull(run[i], acts[i]);
    InUseIsHeld(run, acts, i, p);
  }

  lemma NoSlotIsFull(s: State, a: Action)
    requires Shaped(s) && Enabled(s, a) && Exec(s, a).fault == NoSlot
    ensures forall q | 0 <= q < NSLOT && q != s.last :: s.inuse[q]
  {
    hide GetQlp;
    FirstFree(s.inuse, s.last);
  }

  // ---- What the two records record --------------------------------------------------------------------

  /** The arrival that a step is. */
  function Arrival(a: Action): seq<(nat, Kind)> {
    match a
    case RLock(t) => [(t, R)]
    case WLock(t) => [(t, W)]
    case _ => []
  }

  /** Each call of rlock and wlock is recorded when it is made, unless it aborts, and nothing else is. */
  lemma ArrivalsAreCalls(s: State, a: Action)
    requires Shaped(s) && Enabled(s, a)
    ensures Exec(s, a).arrived == s.arrived + if Exec(s, a).fault == NoSlot then [] else Arrival(a)
  {
    hide GetQlp;
  }

  predicate Has(p: Pc, k: Kind) {
    if k == R then HoldsR(p) else HoldsW(p)
  }

  /** Nobody comes to have the lock. */
  ghost predicate NobodyNew(pc: seq<Pc>, pc': seq<Pc>) {
    |pc'| == |pc| && forall t, k | 0 <= t < |pc| && Has(pc'[t], k) :: Has(pc[t], k)
  }

  /** Thread t, and no other, comes to have the lock. */
  ghost predicate OneNew(pc: seq<Pc>, pc': seq<Pc>, t: nat, k: Kind) {
    && |pc'| == |pc| && t < |pc| && Has(pc'[t], k) && !Has(pc[t], R) && !Has(pc[t], W)
    && forall u, l | 0 <= u < |pc| && u != t && Has(pc'[u], l) :: Has(pc[u], l)
  }

  ghost predicate Records(s: State, s': State) {
    || (s'.granted == s.granted && NobodyNew(s.pc, s'.pc))
    || exists t, k :: s'.granted == s.granted + [(t, k)] && OneNew(s.pc, s'.pc, t, k)
  }

  lemma HandOffRecords(s: State, t: nat, loop: bool, readers: int, writer: bool)
    requires s.queue != [] && t < |s.pc| && Belongs(s.queue[0], s.state, s.pc) && !s.pc[t].Queued?
    ensures Records(s, HandedOff(s, t, loop, readers, writer))
  {
    var o := s.queue[0].owner;
    assert OneNew(s.pc, HandedOff(s, t, loop, readers, writer).pc, o, s.pc[o].kind);
  }

  lemma PlainRecords(s: State, s': State, t: nat, p: Pc)
    requires s'.granted == s.granted && t < |s.pc| && s'.pc == s.pc[t := p] && forall k | Has(p, k) :: Has(s.pc[t], k)
    ensures Records(s, s')
  {
  }

  lemma GrantRecords(s: State, s1: State, t: nat, k: Kind)
    requires t < |s.pc| && s.pc[t] == Idle && s1.pc == s.pc && s1.granted == s.granted
    ensures Records(s, Grant(s1, t, k))
  {
    assert OneNew(s.pc, Grant(s1, t, k).pc, t, k);
  }

  lemma EnqueueRecords(s: State, t: nat, k: Kind)
    requires Shaped(s) && t < |s.pc| && s.pc[t] == Idle
    ensures Records(s, Enqueue(s, t, k))
  {
    hide GetQlp;
  }

  lemma MeetRecords(s: State, u: nat, w: nat)
    requires Shaped(s) && Enabled(s, Meet(u, w))
    ensures Records(s, Exec(s, Meet(u, w)))
  {
  }

  /** A grant is recorded exactly when a thread comes to have the lock, and it is to that thread. */
  lemma GrantsAreGiven(s: State, a: Action)
    requires Core(s) && Enabled(s, a)
    ensures Records(s, Exec(s, a))
  {
    hide GetQlp, Counted, Justified, SlotsOk, WakersOk, Fifo, Records;
    match a
    case RLock(t) =>
      GrantRecords(s, s.(readers := s.readers + 1), t, R);
      EnqueueRecords(s, t, R);
    case WLock(t) =>
      GrantRecords(s, s.(writer := true), t, W);
      EnqueueRecords(s, t, W);
    case RUnlock(t) => RUnlockRecords(s, t);
    case WUnlock(t) => WUnlockRecords(s, t);
    case LoopStep(t) => LoopRecords(s, t);
    case Meet(u, w) => MeetRecords(s, u, w);
    case Clear(t) => PlainRecords(s, Exec(s, a), t, if s.pc[t].kind == R then Reading else Writing);
    case OtherTakes => SameRecords(s, Exec(s, a));
    case OtherFrees(_) => SameRecords(s, Exec(s, a));
  }

  lemma SameRecords(s: State, s': State)
    requires s'.granted == s.granted && s'.pc == s.pc
    ensures Records(s, s')
  {
  }

  lemma RUnlockRecords(s: State, t: nat)
    requires Core(s) && Enabled(s, RUnlock(t))
    ensures Records(s, Exec(s, RUnlock(t)))
  {
    hide Counted, Justified, SlotsOk, WakersOk, Fifo, QueueOk, Records, Belongs;
    if s.queue != [] && s.readers <= 1 {
      RUnlockHands(s, t);
      HandOffRecords(s, t, false, 0, true);
    } else {
      PlainRecords(s, Exec(s, RUnlock(t)), t, Idle);
    }
  }

  lemma WUnlockRecords(s: State, t: nat)
    requires Core(s) && Enabled(s, WUnlock(t))
    ensures Records(s, Exec(s, WUnlock(t)))
  {
    hide Counted, SlotsOk, WakersOk, Fifo, QueueOk, Records, Belongs, Justified;
    if s.queue != [] && HeadState(s) == QueuingW {
      WUnlockHands(s, t);
      HandOffRecords(s, t, false, 0, true);
    } else if s.queue != [] && HeadState(s) != QueuingR {
      SameRecords(s, Exec(s, WUnlock(t)));
    } else {
      PlainRecords(s, Exec(s, WUnlock(t)), t, if s.queue == [] then Idle else WLoop);
    }
  }

  lemma LoopRecords(s: State, t: nat)
    requires Core(s) && Enabled(s, LoopStep(t))
    ensures Records(s, Exec(s, LoopStep(t)))
  {
    hide Counted, SlotsOk, WakersOk, Fifo, QueueOk, Records, Belongs, Justified;
    if s.queue != [] && HeadState(s) == QueuingR {
      LoopHands(s, t);
      HandOffRecords(s, t, true, s.readers + 1, true);
    } else {
      PlainRecords(s, Exec(s, LoopStep(t)), t, Idle);
    }
  }

  // ---- Runs ---------------------------------------------------------------------------------------------

  /** n threads outside the lock, which is free. */
  ghost predicate Initial(s: State) {
    && Shaped(s) && s.fault == Fine && s.readers == 0 && !s.writer && s.queue == [] && s.spin == None
    && (forall p | 0 <= p < NSLOT :: !s.inuse[p]) && s.foreign == {} && s.arrived == [] && s.granted == []
    && forall t | 0 <= t < |s.pc| :: s.pc[t] == Idle
  }

  /** The states of an interleaving in which every thread calls the locks properly. */
  ghost predicate IsRun(run: seq<State>, acts: seq<Action>) {
    && |run| == |acts| + 1 && Initial(run[0])
    && forall i | 0 <= i < |acts| :: Shaped(run[i]) && Enabled(run[i], acts[i]) && run[i + 1] == Exec(run[i], acts[i])
  }

  lemma {:induction false} RunsKeepInv(run: seq<State>, acts: seq<Action>, i: nat)
    requires IsRun(run, acts) && i < |run|
    ensures Inv(run[i])
  {
    if i == 0 {
      CountZero(run[0].pc, HoldsR);
      CountZero(run[0].pc, HoldsW);
      CountZero(run[0].pc, InLoop);
    } else {
      RunsKeepInv(run, acts, i - 1);
      StepKeeps(run[i - 1], acts[i - 1]);
    }
  }

  /** No writer is ever inside together with a reader or another writer. */
  lemma MutualExclusion(run: seq<State>, acts: seq<Action>, i: nat, t: nat, u: nat)
    requires IsRun(run, acts) && i < |run| && t < |run[i].pc| && u < |run[i].pc| && t != u
    requires run[i].pc[t] == Writing
    ensures run[i].pc[u] != Writing && run[i].pc[u] != Reading
  {
    RunsKeepInv(run, acts, i);
    var pc := run[i].pc;
    CountPositive(pc, t, HoldsW);
    if pc[u] == Writing {
      CountTwo(pc, if t < u then t else u, if t < u then u else t, HoldsW);
    }
    if pc[u] == Reading {
      CountPositive(pc, u, HoldsR);
    }
  }

  /** The aborts in runlock and wunlock are never reached. */
  lemma AbortsUnreachable(run: seq<State>, acts: seq<Action>, i: nat)
    requires IsRun(run, acts) && i < |run|
    ensures run[i].fault != BadQueue
  {
    RunsKeepInv(run, acts, i);
  }

  lemma {:induction false} CountExists(pc: seq<Pc>, f: Pc -> bool) returns (t: nat)
    requires Count(pc, f) > 0
    ensures t < |pc| && f(pc[t])
  {
    if f(pc[|pc| - 1]) {
      t := |pc| - 1;
    } else {
      t := CountExists(pc[..|pc| - 1], f);
    }
  }

  /** Someone waits only while a writer has or is being handed the lock, or is letting readers in, or readers
      have it with a writer at the head of the queue. */
  lemma QueueHasReason(run: seq<State>, acts: seq<Action>, i: nat) returns (t: nat)
    requires IsRun(run, acts) && i < |run| && run[i].queue != []
    ensures t < |run[i].pc|
    ensures HoldsW(run[i].pc[t]) || InLoop(run[i].pc[t])
            || (HoldsR(run[i].pc[t]) && HeadIs(run[i].queue, run[i].state, QueuingW))
  {
    RunsKeepInv(run, acts, i);
    var s := run[i];
    if s.writer && Count(s.pc, InLoop) > 0 {
      t := CountExists(s.pc, InLoop);
    } else if s.writer {
      t := CountExists(s.pc, HoldsW);
    } else {
      t := CountExists(s.pc, HoldsR);
    }
  }

  /** First come, first served: whatever has been granted so far is an initial part of the calls so far, so no
      later call is granted before an earlier one, no call is granted twice, and the rest is exactly the queue. */
  lemma GrantsFollowArrivals(run: seq<State>, acts: seq<Action>, i: nat)
    requires IsRun(run, acts) && i < |run|
    ensures run[i].granted <= run[i].arrived
    ensures run[i].arrived[|run[i].granted|..] == Waiters(run[i].queue, run[i].pc)
  {
    RunsKeepInv(run, acts, i);
  }

  /** A slot is freed only by the waiter it belongs to: while a thread waits, its slot stays in use and is
      nobody else's, whatever this lock or another does next. */
  lemma SlotsStayTaken(s: State, a: Action, t: nat)
    requires Inv(s) && Enabled(s, a) && t < |s.pc| && HasSlot(s.pc[t]) && a != Clear(t)
    ensures HasSlot(Exec(s, a).pc[t]) && Exec(s, a).pc[t].slot == s.pc[t].slot && Exec(s, a).inuse[s.pc[t].slot]
    ensures s.pc[t].slot !in Exec(s, a).foreign
  {
    hide Exec, Enabled, Counted, Justified, QueueOk, WakersOk, Fifo, SlotsOk;
    StepKeeps(s, a);
    CoreShaped(s);
    SlotKept(s, a, t);
    SlotIsUsed(Exec(s, a).inuse, Exec(s, a).foreign, Exec(s, a).pc, t);
  }

  lemma SlotIsUsed(inuse: seq<bool>, foreign: set<nat>, pc: seq<Pc>, t: nat)
    requires SlotsOk(inuse, foreign, pc) && t < |pc| && HasSlot(pc[t])
    ensures pc[t].slot < |inuse| && inuse[pc[t].slot] && pc[t].slot !in foreign
  {
  }

  /** No step but the waiter's own takes its slot from it. */
  lemma SlotKept(s: State, a: Action, t: nat)
    requires Shaped(s) && Enabled(s, a) && t < |s.pc| && HasSlot(s.pc[t]) && a != Clear(t)
    ensures HasSlot(Exec(s, a).pc[t]) && Exec(s, a).pc[t].slot == s.pc[t].slot
  {
    hide GetQlp, Scan, HeadState;
  }

  // ---- No lost wakeups --------------------------------------------------------------------------------------

  /** Steps that need no decision of a client. */
  predicate Internal(a: Action) {
    a.LoopStep? || a.Meet? || a.Clear?
  }

  function Weight(p: Pc): nat {
    match p
    case Queued(_, _) => 0
    case Called(_, _, _) => 2
    case Clearing(_, _) => 1
    case Waking(_, _) => 1
    case WakingR(_, _) => 2
    case WLoop => 1
    case _ => 0
  }

  ghost function Weights(pc: seq<Pc>): nat {
    if pc == [] then 0 else Weights(pc[..|pc| - 1]) + Weight(pc[|pc| - 1])
  }

  lemma {:induction false} WeightsUpdate(pc: seq<Pc>, t: nat, p: Pc)
    requires t < |pc|
    ensures Weights(pc[t := p]) + Weight(pc[t]) == Weights(pc) + Weight(p)
  {
    var n := |pc| - 1;
    if t == n {
      assert pc[t := p][..n] == pc[..n];
    } else {
      assert pc[t := p][..n] == pc[..n][t := p];
      WeightsUpdate(pc[..n], t, p);
    }
  }

  ghost function Measure(s: State): nat {
    4 * |s.queue| + Weights(s.pc)
  }

  /** Handing over always comes to an end. */
  lemma InternalStepsEnd(s: State, a: Action)
    requires Inv(s) && Enabled(s, a) && Internal(a)
    ensures Measure(Exec(s, a)) < Measure(s)
  {
    match a
    case Meet(u, w) => MeetShrinks(s, u, w);
    case Clear(t) => ClearShrinks(s, t);
    case LoopStep(t) => LoopShrinks(s, t);
  }

  lemma MeetShrinks(s: State, u: nat, w: nat)
    requires Inv(s) && Enabled(s, Meet(u, w))
    ensures Measure(Exec(s, Meet(u, w))) < Measure(s)
  {
    hide Counted, Justified, QueueOk, WakersOk, SlotsOk, Fifo;
    MeetPartners(s, u, w);
    WeightsUpdate(s.pc, w, Clearing(s.pc[w].slot, s.pc[w].kind));
    WeightsUpdate(s.pc[w := Clearing(s.pc[w].slot, s.pc[w].kind)], u, if s.pc[u].Waking? then Idle else WLoop);
  }

  lemma ClearShrinks(s: State, t: nat)
    requires Inv(s) && Enabled(s, Clear(t))
    ensures Measure(Exec(s, Clear(t))) < Measure(s)
  {
    hide Counted, Justified, QueueOk, WakersOk, SlotsOk, Fifo;
    WeightsUpdate(s.pc, t, if s.pc[t].kind == R then Reading else Writing);
  }

  lemma LoopShrinks(s: State, t: nat)
    requires Inv(s) && Enabled(s, LoopStep(t))
    ensures Measure(Exec(s, LoopStep(t))) < Measure(s)
  {
    if s.queue != [] && HeadState(s) == QueuingR {
      LoopHands(s, t);
      var o := s.queue[0].owner;
      WeightsUpdate(s.pc, o, Called(s.pc[o].slot, s.pc[o].kind, t));
      WeightsUpdate(s.pc[o := Called(s.pc[o].slot, s.pc[o].kind, t)], t, WakingR(s.queue[0].slot, o));
    } else {
      WeightsUpdate(s.pc, t, Idle);
    }
  }

  /** A thread that is on its way, waking or having been called, can always move. */
  lemma OnTheWayMoves(s: State, t: nat) returns (a: Action)
    requires Inv(s) && s.fault == Fine && t < |s.pc| && Weight(s.pc[t]) > 0
    ensures Enabled(s, a) && Internal(a)
  {
    match s.pc[t]
    case Called(_, _, u) =>
      assert Paired(s.pc, u, t);
      a := Meet(u, t);
    case Clearing(_, _) =>
      a := Clear(t);
    case Waking(_, w) =>
      assert Paired(s.pc, t, w);
      a := Meet(t, w);
    case WakingR(_, w) =>
      assert Paired(s.pc, t, w);
      a := Meet(t, w);
    case WLoop =>
      a := LoopStep(t);
  }

  lemma NobodyWaits(s: State)
    requires Inv(s) && forall t | 0 <= t < |s.pc| :: s.pc[t] == Idle || s.pc[t].Queued?
    ensures s.queue == [] && s.readers == 0 && !s.writer && forall t | 0 <= t < |s.pc| :: s.pc[t] == Idle
  {
    hide SlotsOk, Fifo, Accounted, WakersOk;
    CountZero(s.pc, HoldsR);
    CountZero(s.pc, HoldsW);
    CountZero(s.pc, InLoop);
    assert s.queue == [];
  }

  /** When all handing over has ended, every thread in the queue waits for a client that is inside; if nobody is
      inside, nobody waits and the lock is free. */
  lemma NoLostWakeup(s: State)
    requires Inv(s) && s.fault == Fine && forall a :: Internal(a) ==> !Enabled(s, a)
    ensures forall t | 0 <= t < |s.pc| :: s.pc[t] == Idle || s.pc[t] == Reading || s.pc[t] == Writing || s.pc[t].Queued?
    ensures (forall t | 0 <= t < |s.pc| :: s.pc[t] != Reading && s.pc[t] != Writing) ==>
              s.queue == [] && s.readers == 0 && !s.writer && forall t | 0 <= t < |s.pc| :: s.pc[t] == Idle
  {
    forall t | 0 <= t < |s.pc| ensures Weight(s.pc[t]) == 0 {
      if Weight(s.pc[t]) > 0 {
        var a := OnTheWayMoves(s, t);
      }
    }
    if forall t | 0 <= t < |s.pc| :: s.pc[t] != Reading && s.pc[t] != Writing {
      NobodyWaits(s);
    }
  }

  // ---- QLock ------------------------------------------------------------------------------------------------

  /** A QLock is an RWLock that only writers use; its locked flag is writer. */
  ghost predicate WritersOnly(s: State) {
    forall t | 0 <= t < |s.pc| :: s.pc[t] != Reading && (HasSlot(s.pc[t]) ==> s.pc[t].kind == W)
  }

  function QLockStep(s: State, t: nat): State
    requires Shaped(s) && t < |s.pc|
  {
    if !s.writer then Grant(s.(writer := true), t, W) else Enqueue(s, t, W)
  }

  function QUnlockStep(s: State, t: nat): State
    requires Shaped(s) && t < |s.pc|
  {
    if s.queue != [] then
      var s2 := Dequeue(s, t);
      if t < |s2.pc| then s2.(pc := s2.pc[t := Waking(s.queue[0].slot, s.queue[0].owner)]) else s2
    else s.(writer := false, pc := s.pc[t := Idle])
  }

  function CanQLockStep(s: State, t: nat): (State, bool)
    requires Shaped(s) && t < |s.pc|
  {
    if !s.writer then (Grant(s.(writer := true), t, W), true) else (s, false)
  }

  /** qlock, qunlock and canqlock are wlock and wunlock; an unlocked QLock has an empty queue. */
  lemma QLockIsWriters(s: State, t: nat)
    requires Inv(s) && s.fault == Fine && WritersOnly(s) && t < |s.pc| && s.spin == None
    ensures s.readers == 0 && (!s.writer ==> s.queue == [])
    ensures s.pc[t] == Idle ==> QLockStep(s, t) == Exec(s, WLock(t)) && WritersOnly(QLockStep(s, t))
    ensures s.pc[t] == Idle ==> CanQLockStep(s, t) == if s.writer then (s, false) else (Exec(s, WLock(t)), true)
    ensures s.pc[t] == Writing ==> QUnlockStep(s, t) == Exec(s, WUnlock(t)) && WritersOnly(QUnlockStep(s, t))
  {
    hide Core, Accounted, WritersOnly;
    CoreShaped(s);
    WritersWait(s);
    if s.pc[t] == Idle {
      QLockIsWLock(s, t);
    }
    if s.pc[t] == Writing {
      QUnlockIsWUnlock(s, t);
    }
  }

  /** With writers only, nobody reads, nobody waits for a free lock, and a writer is first in line. */
  lemma WritersWait(s: State)
    requires Core(s) && WritersOnly(s)
    ensures s.readers == 0 && (!s.writer ==> s.queue == [])
    ensures s.queue != [] ==>
              && HeadState(s) == QueuingW
              && s.queue[0].owner < |s.pc| && s.pc[s.queue[0].owner].Queued? && s.pc[s.queue[0].owner].kind == W
  {
    CountZero(s.pc, HoldsR);
    if s.queue != [] {
      HeadWaits(s.queue, s.state, s.pc);
    }
  }

  lemma QLockIsWLock(s: State, t: nat)
    requires Shaped(s) && s.fault == Fine && WritersOnly(s) && t < |s.pc| && s.spin == None && s.pc[t] == Idle
    requires s.readers == 0 && (!s.writer ==> s.queue == [])
    ensures QLockStep(s, t) == Exec(s, WLock(t)) && WritersOnly(QLockStep(s, t))
    ensures CanQLockStep(s, t) == if s.writer then (s, false) else (Exec(s, WLock(t)), true)
  {
  }

  lemma QUnlockIsWUnlock(s: State, t: nat)
    requires Shaped(s) && s.fault == Fine && WritersOnly(s) && t < |s.pc| && s.spin == None && s.pc[t] == Writing
    requires s.queue != [] ==>
               && HeadState(s) == QueuingW
               && s.queue[0].owner < |s.pc| && s.pc[s.queue[0].owner].Queued? && s.pc[s.queue[0].owner].kind == W
    ensures QUnlockStep(s, t) == Exec(s, WUnlock(t)) && WritersOnly(QUnlockStep(s, t))
  {
  }
}
