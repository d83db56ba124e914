/**
 The critical sections of qlock.c on the memory they work on: the slot array with
 its next links, and a lock's head, tail, readers and writer fields. Each does to
 this memory what its step does to the state of the model.
 */
module QLockSections {
  import opened QLockModel

  const NIL: int := -1

  lemma ScanStep(inuse: seq<bool>, op: nat, p: nat, fuel: nat)
    requires |inuse| == NSLOT && op < NSLOT && p <= NSLOT && fuel > 0
    ensures var q := if p == NSLOT then 0 else p;
            Scan(inuse, op, p, fuel) == if q == op then None else if !inuse[q] then Some(q)
            else Scan(inuse, op, q + 1, fuel - 1)
  {}

  /** The slots shared by all locks. */
  class Slots {
    const inuse: array<bool>
    const state: array<SlotState>
    const next: array<int>
    var last: nat

    constructor ()
      ensures Shape() && last == 0 && fresh(inuse) && fresh(state) && fresh(next)
      ensures forall p | 0 <= p < NSLOT :: !inuse[p]
    {
      inuse := new bool[NSLOT](_ => false);
      state := new SlotState[NSLOT](_ => Queuing);
      next := new int[NSLOT](_ => NIL);
      last := 0;
    }

    ghost predicate Shape()
      reads this
    {
      && inuse.Length == state.Length == next.Length == NSLOT && last < NSLOT
      && inuse as object != state && inuse as object != next && state as object != next
    }

    /** getqlp: the scan starts after the last slot taken and gives up when it comes back to it. */
    method GetQlp() returns (r: Option<nat>)
      requires Shape()
      modifies this`last, inuse, next
      ensures Shape() && r == QLockModel.GetQlp(old(inuse[..]), old(last))
      ensures r == None <==> forall q | 0 <= q < NSLOT && q != old(last) :: old(inuse[q])
      ensures r.Some? ==> r.value < NSLOT && r.value != old(last) && !old(inuse[r.value])
      ensures r.Some? ==> forall q: nat | q < NSLOT && q != old(last) && Earlier(old(last), q, r.value) :: old(inuse[q])
      ensures r == None ==> inuse[..] == old(inuse[..]) && next[..] == old(next[..]) && last == old(last)
      ensures r.Some? ==> inuse[..] == old(inuse[..])[r.value := true] && next[..] == old(next[..])[r.value := NIL]
                          && last == r.value
    {
      var op := last;
      var p := op + 1;
      ghost var fuel: nat := NSLOT;
      hide Scan;
      FirstFree(inuse[..], op);
      while true
        invariant 0 <= p <= NSLOT && (p > op ==> fuel == NSLOT - (p - op - 1)) && (p <= op ==> fuel == op - p + 1)
        invariant inuse[..] == old(inuse[..]) && next[..] == old(next[..]) && last == old(last) == op
        invariant Scan(inuse[..], op, p, fuel) == QLockModel.GetQlp(inuse[..], op)
        decreases fuel
      {
        ScanStep(inuse[..], op, p, fuel);
        if p == NSLOT {
          p := 0;
        }
        if p == op {
          return None;
        }
        if !inuse[p] {
          inuse[p] := true;
          last := p;
          next[p] := NIL;
          return Some(p);
        }
        p := p + 1;
        fuel := fuel - 1;
      }
    }
  }

  class RWLock {
    const slots: Slots
    var head: int
    var tail: int
    var readers: int
    var writer: bool
    ghost var queue: seq<nat>

    ghost predicate Shape()
      reads this, slots
    {
      slots.Shape()
    }

    /** head, tail and next link the slots of the queue; tail is out of date while wunlock's loop runs. */
    ghost predicate Linked(inLoop: bool)
      reads this, slots, slots.next
    {
      && Shape() && (forall k | 0 <= k < |queue| :: queue[k] < NSLOT)
      && (forall j, k | 0 <= j < k < |queue| :: queue[j] != queue[k])
      && head == (if queue == [] then NIL else queue[0])
      && (queue != [] || !inLoop ==> tail == (if queue == [] then NIL else queue[|queue| - 1]))
      && (forall k {:trigger slots.next[queue[k]]} | 0 <= k < |queue| ::
            slots.next[queue[k]] == if k + 1 < |queue| then queue[k + 1] else NIL)
    }

    /** The memory of this lock and the slots is that of model state s. */
    ghost predicate Mirrors(s: State)
      reads this, slots, slots.inuse, slots.state
    {
      && Shape() && s.readers == readers && s.writer == writer
      && |s.queue| == |queue| && (forall k | 0 <= k < |queue| :: s.queue[k].slot == queue[k])
      && s.inuse == slots.inuse[..] && s.state == slots.state[..] && s.last == slots.last
    }

    constructor (slots: Slots)
      requires slots.Shape()
      ensures this.slots == slots && Linked(false) && queue == [] && readers == 0 && !writer
    {
      this.slots := slots;
      head, tail, readers, writer, queue := NIL, NIL, 0, false, [];
    }

    /** Append slot m to the linked list. */
    method Append(m: nat, p: int)
      requires Linked(false) && m < NSLOT && m !in queue && p == tail
      modifies this`head, this`tail, this`queue, slots.next
      ensures Linked(false) && queue == old(queue) + [m]
    {
      if p == NIL {
        head := m;
      } else {
        slots.next[p] := m;
      }
      tail := m;
      slots.next[m] := NIL;
      queue := queue + [m];
    }

    /** Take the head off the linked list. */
    method Unlink() returns (h: nat)
      requires Linked(true) && queue != []
      modifies this`head, this`queue
      ensures Linked(true) && queue == old(queue)[1..] && h == old(queue)[0]
    {
      h := head;
      ghost var was := queue;
      assert slots.next[was[0]] == if 1 < |was| then was[1] else NIL;
      head := slots.next[head];
      queue := queue[1..];
      forall k | 0 <= k < |queue| ensures slots.next[queue[k]] == if k + 1 < |queue| then queue[k + 1] else NIL {
        assert queue[k] == was[k + 1];
        assert slots.next[was[k + 1]] == if k + 2 < |was| then was[k + 2] else NIL;
      }
    }

    method FixTail()
      requires Linked(true)
      modifies this`tail
      ensures Linked(false)
    {
      if head == NIL {
        tail := NIL;
      }
    }

    /** Take a slot, chain it to the end of the queue and mark it. */
    method Chain(k: Kind, ghost s: State, ghost t: nat) returns (mp: Option<nat>)
      requires Linked(false) && Mirrors(s) && t < |s.pc|
      requires forall j | 0 <= j < |queue| :: slots.inuse[queue[j]]
      modifies this`head, this`tail, this`queue, slots`last, slots.inuse, slots.state, slots.next
      ensures mp == QLockModel.GetQlp(s.inuse, s.last)
      ensures mp.Some? ==> Linked(false) && Mirrors(Enqueue(s, t, k)) && queue == old(queue) + [mp.value]
    {
      var p := tail;
      mp := slots.GetQlp();
      if mp == None {
        return;
      }
      var m := mp.value;
      assert m !in queue;
      Append(m, p);
      slots.state[m] := StateOf(k);
      assert Enqueue(s, t, k).queue == s.queue + [Entry(m, t)];
    }

    /** The locked part of rlock: None is granted at once, otherwise the slot to wait on; ok is false on abort. */
    method RLockSection(ghost s: State, ghost t: nat) returns (ok: bool, mp: Option<nat>)
      requires Linked(false) && Mirrors(s) && Inv(s) && Enabled(s, RLock(t))
      modifies this, slots`last, slots.inuse, slots.state, slots.next
      ensures ok ==> Linked(false) && Mirrors(Exec(s, RLock(t)))
      ensures ok && mp == None ==> Exec(s, RLock(t)).pc[t] == Reading
      ensures ok && mp.Some? ==> Exec(s, RLock(t)).pc[t] == Queued(mp.value, R)
      ensures !ok ==> Exec(s, RLock(t)).fault == NoSlot
    {
      if !writer && head == NIL {
        readers := readers + 1;
        return true, None;
      }
      SlotsOfQueue(s);
      mp := Chain(R, s, t);
      ok := mp.Some?;
    }

    method WLockSection(ghost s: State, ghost t: nat) returns (ok: bool, mp: Option<nat>)
      requires Linked(false) && Mirrors(s) && Inv(s) && Enabled(s, WLock(t))
      modifies this, slots`last, slots.inuse, slots.state, slots.next
      ensures ok ==> Linked(false) && Mirrors(Exec(s, WLock(t)))
      ensures ok && mp == None ==> Exec(s, WLock(t)).pc[t] == Writing
      ensures ok && mp.Some? ==> Exec(s, WLock(t)).pc[t] == Queued(mp.value, W)
      ensures !ok ==> Exec(s, WLock(t)).fault == NoSlot
    {
      if readers == 0 && !writer {
        writer := true;
        return true, None;
      }
      SlotsOfQueue(s);
      mp := Chain(W, s, t);
      ok := mp.Some?;
    }

    lemma SlotsOfQueue(s: State)
      requires Mirrors(s) && Inv(s)
      ensures forall j | 0 <= j < |queue| :: queue[j] < NSLOT && slots.inuse[queue[j]]
    {
      forall j | 0 <= j < |queue| ensures queue[j] < NSLOT && slots.inuse[queue[j]] {
        assert Belongs(s.queue[j], s.state, s.pc);
      }
    }

    /** The locked part of runlock: the slot of the writer to wake, if any. */
    method RUnlockSection() returns (p: Option<nat>)
      requires Linked(false)
      requires readers <= 1 && queue != [] ==> slots.state[queue[0]] == QueuingW
      modifies this
      ensures Linked(false) && readers == old(readers) - 1
      ensures old(readers) > 1 || old(queue) == [] ==> p == None && queue == old(queue) && writer == old(writer)
      ensures old(readers) <= 1 && old(queue) != [] ==> p == Some(old(queue)[0]) && queue == old(queue)[1..] && writer
    {
      var h := head;
      readers := readers - 1;
      if readers > 0 || h == NIL {
        return None;
      }
      if slots.state[h] != QueuingW {
        assert false;
      }
      var w := Unlink();
      FixTail();
      writer := true;
      p := Some(w);
    }

    /** The locked part of wunlock up to its loop: done, or hand over to the writer in slot p, or enter the loop. */
    method WUnlockSection() returns (p: Option<nat>, loop: bool)
      requires Linked(false)
      requires queue != [] ==> slots.state[queue[0]] == QueuingW || slots.state[queue[0]] == QueuingR
      modifies this
      ensures Linked(false) && readers == old(readers)
      ensures loop <==> old(queue) != [] && slots.state[old(queue)[0]] == QueuingR
      ensures p.Some? <==> old(queue) != [] && slots.state[old(queue)[0]] == QueuingW
      ensures if p.Some? then p.value == old(queue)[0] && queue == old(queue)[1..] else queue == old(queue)
      ensures writer == (if old(queue) == [] then false else old(writer))
    {
      var h := head;
      if h == NIL {
        writer := false;
        return None, false;
      }
      if slots.state[h] == QueuingW {
        var w := Unlink();
        FixTail();
        return Some(w), false;
      }
      if slots.state[h] != QueuingR {
        assert false;
      }
      return None, true;
    }

    /** One trip through wunlock's loop: the slot of a reader to meet, or the end of wunlock. */
    method LoopSection() returns (p: Option<nat>)
      requires Linked(true)
      modifies this
      ensures p.Some? <==> old(queue) != [] && slots.state[old(queue)[0]] == QueuingR
      ensures p.Some? ==> Linked(true) && p.value == old(queue)[0] && queue == old(queue)[1..]
      ensures p.Some? ==> readers == old(readers) + 1 && writer == old(writer)
      ensures p == None ==> Linked(false) && queue == old(queue) && readers == old(readers) && !writer
    {
      if head != NIL && slots.state[head] == QueuingR {
        var r := Unlink();
        readers := readers + 1;
        return Some(r);
      }
      FixTail();
      writer := false;
      p := None;
    }

    // What these sections do to the memory is what the model's steps do to the state.

    lemma HeadMirrored(s: State)
      requires Mirrors(s) && Inv(s) && queue != []
      ensures queue[0] < NSLOT && slots.state[queue[0]] == HeadState(s)
              && (HeadState(s) == QueuingW || HeadState(s) == QueuingR)
    {
      HeadWaits(s.queue, s.state, s.pc);
    }

    method RUnlock(ghost s: State, ghost t: nat) returns (p: Option<nat>)
      requires Linked(false) && Mirrors(s) && Inv(s) && Enabled(s, QLockModel.RUnlock(t))
      modifies this
      ensures Linked(false) && Mirrors(Exec(s, QLockModel.RUnlock(t)))
      ensures p == None ==> Exec(s, QLockModel.RUnlock(t)).pc[t] == Idle
      ensures p.Some? ==> s.queue != [] && Exec(s, QLockModel.RUnlock(t)).pc[t] == Waking(p.value, s.queue[0].owner)
    {
      hide Core, Accounted;
      if s.readers <= 1 && s.queue != [] {
        RUnlockHands(s, t);
        HeadMirrored(s);
      }
      p := RUnlockSection();
    }

    method WUnlock(ghost s: State, ghost t: nat) returns (p: Option<nat>, loop: bool)
      requires Linked(false) && Mirrors(s) && Inv(s) && Enabled(s, QLockModel.WUnlock(t))
      modifies this
      ensures Linked(false) && Mirrors(Exec(s, QLockModel.WUnlock(t)))
      ensures loop <==> Exec(s, QLockModel.WUnlock(t)).pc[t] == WLoop
      ensures !loop && p == None ==> Exec(s, QLockModel.WUnlock(t)).pc[t] == Idle
      ensures p.Some? ==> s.queue != [] && Exec(s, QLockModel.WUnlock(t)).pc[t] == Waking(p.value, s.queue[0].owner)
    {
      hide Core, Accounted;
      WUnlockCases(s, t);
      if queue != [] {
        HeadMirrored(s);
      }
      p, loop := WUnlockSection();
    }

    method LoopTrip(ghost s: State, ghost t: nat) returns (p: Option<nat>)
      requires Linked(true) && Mirrors(s) && Inv(s) && Enabled(s, LoopStep(t))
      modifies this
      ensures Mirrors(Exec(s, LoopStep(t)))
      ensures p.Some? ==> Linked(true) && s.queue != []
                          && Exec(s, LoopStep(t)).pc[t] == WakingR(p.value, s.queue[0].owner)
      ensures p == None ==> Linked(false) && Exec(s, LoopStep(t)).pc[t] == Idle
    {
      if s.queue != [] {
        HeadMirrored(s);
        if HeadState(s) == QueuingR {
          LoopHands(s, t);
        }
      }
      p := LoopSection();
    }
  }

  /** What wunlock does to the fields of the model that a lock and the slots have in memory. */
  lemma WUnlockCases(s: State, t: nat)
    requires Inv(s) && Enabled(s, WUnlock(t))
    ensures var e, hands := Exec(s, WUnlock(t)), s.queue != [] && HeadState(s) == QueuingW;
            && e.readers == s.readers && e.inuse == s.inuse && e.state == s.state && e.last == s.last
            && e.writer == (s.queue != [] && s.writer)
            && e.queue == (if hands then s.queue[1..] else s.queue)
            && e.pc[t] == (if s.queue == [] then Idle else if hands
                           then Waking(s.queue[0].slot, s.queue[0].owner) else WLoop)
  {
    if s.queue != [] {
      HeadWaits(s.queue, s.state, s.pc);
      if HeadState(s) == QueuingW {
        WUnlockHands(s, t);
      }
    }
  }
}
