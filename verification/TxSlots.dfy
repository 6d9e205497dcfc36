/** The double-buffered pending slot of a head (trigger6_drv.c:957-988, 1085-1166, 2262-2283, 2350-2523, 2786-2812). */
module TxSlots {
  import opened Bits
  import opened Wrappers

  // ---- The protocol ------------------------------------------------------------------

  /**
   * How a staged frame ends: handed to the sender and sent or skipped, overwritten while pending, given up on requeue
   * because a newer one was pending, or dropped on a fault, a failed send or unplug.
   */
  datatype Fate = Sent | Coalesced | Superseded | Dropped

  /**
   * Frames are numbered as they are staged. `hand` is the frame the worker is sending from, `handed` the frames whose
   * turn is over, `sent` those of them that were sent or skipped.
   */
  datatype Slots = Slots(next: nat, pending: Option<nat>, hand: Option<nat>, handed: seq<nat>, sent: seq<nat>,
                         fates: map<nat, Fate>)

  const EMPTY: Slots := Slots(0, None, None, [], [], map[])

  /** Each step is one critical section, or one outcome of the worker; they interleave in any order. */
  datatype Op = Stage | Pop | Requeue | Finish(ok: bool) | Trip

  /** A head has one worker: it pops only with empty hands. */
  predicate Enabled(s: Slots, op: Op) {
    match op
    case Stage => true
    case Pop => s.hand.None?
    case Requeue => s.hand.Some?
    case Finish(_) => s.hand.Some?
    case Trip => true
  }

  function Do(s: Slots, op: Op): Slots
    requires Enabled(s, op)
  {
    match op
    case Stage =>
      var fates := if s.pending.Some? then s.fates[s.pending.value := Coalesced] else s.fates;
      s.(next := s.next + 1, pending := Some(s.next), fates := fates)
    case Pop => s.(pending := None, hand := s.pending)
    case Requeue =>
      if s.pending.None? then s.(pending := s.hand, hand := None)
      else s.(hand := None, fates := s.fates[s.hand.value := Superseded])
    case Finish(ok) =>
      s.(hand := None, handed := s.handed + [s.hand.value], sent := if ok then s.sent + [s.hand.value] else s.sent,
         fates := s.fates[s.hand.value := if ok then Sent else Dropped])
    case Trip =>
      if s.pending.None? then s else s.(pending := None, fates := s.fates[s.pending.value := Dropped])
  }

  ghost predicate Held(s: Slots, id: nat) { s.pending == Some(id) || s.hand == Some(id) }

  ghost predicate Ordered(s: Slots) {
    && (s.pending.Some? ==> s.pending.value < s.next)
    && (s.hand.Some? ==> s.hand.value < s.next)
    && (s.pending.Some? && s.hand.Some? ==> s.hand.value < s.pending.value)
  }

  /** Every staged frame either is held or has its fate, never both; the fate Sent is that of the sent list. */
  ghost predicate Accounted(s: Slots) {
    && (forall id: nat :: id in s.fates ==> id < s.next && !Held(s, id))
    && (forall id: nat :: id < s.next && id !in s.fates ==> Held(s, id))
    && (forall id: nat :: id in s.sent <==> id in s.fates && s.fates[id] == Sent)
  }

  /** Frames are handed over, and sent, in the order they were staged, before everything still held. */
  ghost predicate Increasing(s: Slots) {
    Rising(s, s.handed) && Rising(s, s.sent) && forall i | 0 <= i < |s.sent| :: s.sent[i] in s.handed
  }

  ghost predicate Rising(s: Slots, ids: seq<nat>) {
    && (forall i, j | 0 <= i < j < |ids| :: ids[i] < ids[j])
    && (forall i | 0 <= i < |ids| ::
          ids[i] < s.next && (s.pending.Some? ==> ids[i] < s.pending.value) && (s.hand.Some? ==> ids[i] < s.hand.value))
  }

  ghost predicate Sound(s: Slots) { Ordered(s) && Accounted(s) && Increasing(s) }

  lemma {:induction false} SoundStep(s: Slots, op: Op)
    requires Sound(s) && Enabled(s, op)
    ensures Sound(Do(s, op))
  {
    AccountedStep(s, op);
    IncreasingStep(s, op);
  }

  lemma {:induction false} AccountedStep(s: Slots, op: Op)
    requires Ordered(s) && Accounted(s) && Enabled(s, op)
    ensures Ordered(Do(s, op)) && Accounted(Do(s, op))
  {
    var s' := Do(s, op);
    forall id: nat ensures id in s'.fates ==> id < s'.next && !Held(s', id) {
      assert Held(s, id) ==> id !in s.fates;
    }
    forall id: nat ensures id < s'.next && id !in s'.fates ==> Held(s', id) {
      assert id < s.next && id !in s.fates ==> Held(s, id);
    }
    forall id: nat ensures id in s'.sent <==> id in s'.fates && s'.fates[id] == Sent {
      assert id in s.sent <==> id in s.fates && s.fates[id] == Sent;
      assert Held(s, id) ==> id !in s.fates;
    }
  }

  lemma {:induction false} IncreasingStep(s: Slots, op: Op)
    requires Ordered(s) && Increasing(s) && Enabled(s, op)
    ensures Increasing(Do(s, op))
  {
  }

  /** Nothing already decided changes: numbers, fates and the sent list only grow. */
  lemma {:induction false} FatesStay(s: Slots, op: Op)
    requires Sound(s) && Enabled(s, op)
    ensures var s' := Do(s, op);
      && s.next <= s'.next && s.sent <= s'.sent
      && forall id: nat :: id in s.fates ==> id in s'.fates && s'.fates[id] == s.fates[id]
  {
    forall id: nat | id in s.fates ensures id in Do(s, op).fates && Do(s, op).fates[id] == s.fates[id] {
      assert !Held(s, id);
    }
  }

  ghost predicate Run(states: seq<Slots>, ops: seq<Op>) {
    && |states| == |ops| + 1 && states[0] == EMPTY
    && forall i | 0 <= i < |ops| :: Enabled(states[i], ops[i]) && states[i + 1] == Do(states[i], ops[i])
  }

  /** Over every interleaving of producer and worker. */
  lemma {:induction false} RunSound(states: seq<Slots>, ops: seq<Op>, n: nat)
    requires Run(states, ops) && n < |states|
    ensures Sound(states[n])
  {
    if n > 0 {
      RunSound(states, ops, n - 1);
      SoundStep(states[n - 1], ops[n - 1]);
      assert states[n - 1 + 1] == Do(states[n - 1], ops[n - 1]);
    }
  }

  /** A frame's fate, once decided, is the same at every later point of the run. */
  lemma {:induction false} FateIsFinal(states: seq<Slots>, ops: seq<Op>, m: nat, n: nat, id: nat)
    requires Run(states, ops) && m <= n < |states| && id in states[m].fates
    ensures id in states[n].fates && states[n].fates[id] == states[m].fates[id]
    ensures states[m].sent <= states[n].sent
  {
    if m < n {
      FateIsFinal(states, ops, m, n - 1, id);
      RunSound(states, ops, n - 1);
      FatesStay(states[n - 1], ops[n - 1]);
      assert states[n - 1 + 1] == Do(states[n - 1], ops[n - 1]);
    }
  }

  /** Conservation: staged frames are the decided ones, the one in hand and the pending one. */
  lemma {:induction false} Conservation(s: Slots)
    requires Sound(s)
    ensures |s.fates| + (if s.hand.Some? then 1 else 0) + (if s.pending.Some? then 1 else 0) == s.next
  {
    var hand := if s.hand.Some? then {s.hand.value} else {};
    var pending := if s.pending.Some? then {s.pending.value} else {};
    Cover(s, Below(s.next), s.fates.Keys, hand, pending);
    assert |s.fates.Keys + hand| == |s.fates.Keys| + |hand|;
  }

  lemma {:induction false} Cover(s: Slots, all: set<nat>, decided: set<nat>, hand: set<nat>, pending: set<nat>)
    requires Sound(s) && decided == s.fates.Keys && forall id: nat :: id in all <==> id < s.next
    requires hand == (if s.hand.Some? then {s.hand.value} else {})
    requires pending == if s.pending.Some? then {s.pending.value} else {}
    ensures all == decided + hand + pending && decided !! hand && (decided + hand) !! pending
  {
    forall id: nat ensures id in all <==> id in decided || id in hand || id in pending {
      assert Held(s, id) <==> id in hand || id in pending;
    }
  }

  function Below(n: nat): (r: set<nat>)
    ensures forall id: nat :: id in r <==> id < n
    ensures |r| == n
  {
    if n == 0 then {} else Below(n - 1) + {n - 1}
  }

  // ---- The buffers ----------------------------------------------------------------------

  /** The part of `struct t6_head` that staging uses, and the frames staged so far. */
  class TxHead {
    var txFront: array<byte>
    var txBack: array<byte>
    var txPending: bool
    var txLen: nat
    var txQueuedNs: nat
    var ioFaulted: bool
    ghost var slots: Slots
    ghost var frames: seq<seq<byte>>

    constructor (size: nat)
      ensures Valid() && slots == EMPTY && fresh(txFront) && fresh(txBack) && txFront.Length == size
    {
      txFront, txBack := new byte[size], new byte[size];
      txPending, txLen, txQueuedNs, ioFaulted := false, 0, 0, false;
      slots, frames := EMPTY, [];
    }

    /** The back buffer holds the pending frame and the front buffer the one in hand, unaltered. */
    ghost predicate Valid()
      reads this, txFront, txBack
    {
      && Sound(slots) && |frames| == slots.next
      && txFront != txBack && txFront.Length == txBack.Length
      && txPending == slots.pending.Some?
      && (slots.pending.Some? ==> txLen <= txBack.Length && txBack[..txLen] == frames[slots.pending.value])
      && (slots.hand.Some? ==> Prefix(frames[slots.hand.value], txFront))
    }

    ghost predicate Prefix(frame: seq<byte>, buf: array<byte>)
      reads buf
    {
      |frame| <= buf.Length && buf[..|frame|] == frame
    }

    /** The producer's critical section, under `tx_lock`. */
    method StagePending(frame: seq<byte>, queuedNs: nat)
      requires Valid() && |frame| <= txBack.Length
      modifies this, txBack
      ensures Valid() && slots == Do(old(slots), Stage)
      ensures txFront == old(txFront) && txBack == old(txBack)
      ensures frames == old(frames) + [frame] && ioFaulted == old(ioFaulted)
    {
      forall i | 0 <= i < |frame| { txBack[i] := frame[i]; }
      txLen := |frame|;
      txPending := true;
      txQueuedNs := queuedNs;
      SoundStep(slots, Stage);
      slots, frames := Do(slots, Stage), frames + [frame];
      assert txBack[..txLen] == frame;
    }

    /** `t6_pop_pending_frame_locked`. */
    method PopPending() returns (ok: bool, len: nat, queuedNs: nat)
      requires Valid() && slots.hand.None?
      modifies this
      ensures Valid() && slots == Do(old(slots), Pop) && frames == old(frames) && ioFaulted == old(ioFaulted)
      ensures ok == old(txPending) && ok == slots.hand.Some?
      ensures ok ==> txFront == old(txBack) && txBack == old(txFront)
      ensures ok ==> len == |frames[slots.hand.value]| && queuedNs == old(txQueuedNs)
      ensures !ok ==> txFront == old(txFront) && txBack == old(txBack)
    {
      SoundStep(slots, Pop);
      len, queuedNs := 0, 0;
      if !txPending {
        slots := Do(slots, Pop);
        return false, len, queuedNs;
      }
      var front := txFront;
      txFront := txBack;
      txBack := front;
      len := txLen;
      queuedNs := txQueuedNs;
      txPending := false;
      txQueuedNs := 0;
      slots := Do(slots, Pop);
      ok := true;
    }

    /** `t6_requeue_head_activity` for a popped frame: a newer pending frame wins. */
    method RequeuePopped(len: nat, queuedNs: nat)
      requires Valid() && slots.hand.Some? && len == |frames[slots.hand.value]|
      modifies this
      ensures Valid() && slots == Do(old(slots), Requeue) && frames == old(frames) && ioFaulted == old(ioFaulted)
      ensures {txFront, txBack} == {old(txFront), old(txBack)}
    {
      SoundStep(slots, Requeue);
      if !txPending {
        var front := txFront;
        txFront := txBack;
        txBack := front;
        txPending := true;
        txLen := len;
        if queuedNs != 0 {
          txQueuedNs := queuedNs;
        }
      }
      slots := Do(slots, Requeue);
    }

    /** The end of a send: what the sender saw is the frame that was staged. */
    method EndSend(ok: bool) returns (ghost seen: seq<byte>)
      requires Valid() && slots.hand.Some?
      modifies this`slots
      ensures Valid() && slots == Do(old(slots), Finish(ok))
      ensures seen == frames[old(slots).hand.value] && Prefix(seen, txFront)
    {
      seen := frames[slots.hand.value];
      SoundStep(slots, Finish(ok));
      slots := Do(slots, Finish(ok));
    }

    /** The head's part of `t6_trip_transport_fault`: only the first trip clears the slot. */
    method TripFault()
      requires Valid()
      modifies this
      ensures Valid() && ioFaulted && frames == old(frames) && txFront == old(txFront) && txBack == old(txBack)
      ensures slots == if old(ioFaulted) then old(slots) else Do(old(slots), Trip)
    {
      if !ioFaulted {
        ioFaulted := true;
        SoundStep(slots, Trip);
        slots := Do(slots, Trip);
        txPending := false;
        txLen := 0;
        txQueuedNs := 0;
      }
    }
  }
}
