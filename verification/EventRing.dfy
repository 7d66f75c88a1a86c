/** The event ring: 1024 slots, free-running 32-bit indices, the oldest events dropped when the reader lags. */
module EventRing {
  import opened Wrappers
  import opened Bits

  const LEN: nat := 1024

  datatype Event = Event(tUs: Word32, kind: Byte, arg: Byte, serial: Word16)
  datatype Ring = Ring(ev: seq<Event>, wr: Word32, rd: Word32)

  function Serial(n: nat): Word16 { n % 0x1_0000 }

  predicate Sized(r: Ring) { |r.ev| == LEN }

  /** `n & (LEN - 1)`. */
  function Slot(n: nat): (i: nat)
    ensures i < LEN
  {
    n % LEN
  }

  function Wrap(n: int): Word32 { n % TWO32 }

  function Push(r: Ring, kind: Byte, arg: Byte, now: Word32): (s: Ring)
    requires Sized(r)
    ensures Sized(s)
  {
    Ring(r.ev[Slot(r.wr) := Event(now, kind, arg, Serial(r.wr))], Wrap(r.wr + 1), r.rd)
  }

  /** The index to read: skipped forward to the oldest valid slot after an overflow. */
  function ReadIndex(wr: Word32, rd: Word32): Word32 { if Wrap(wr - rd) > LEN then Wrap(wr - LEN) else rd }

  function Pop(r: Ring): (s: (Ring, Option<Event>))
    requires Sized(r)
    ensures Sized(s.0)
  {
    if r.rd == r.wr then (r, None)
    else
      var rd := ReadIndex(r.wr, r.rd);
      (r.(rd := Wrap(rd + 1)), Some(r.ev[Slot(rd)]))
  }

  // ---- What it stands for: a bounded queue that forgets its oldest events -------------------------------------

  function Enqueue(q: seq<Event>, e: Event): seq<Event> {
    if |q| < 1024 then q + [e] else q[1..] + [e]
  }

  function Min(a: nat, b: nat): nat { if a < b then a else b }

  /** `history` is every event ever pushed; all before index `taken` have been read or skipped. */
  ghost predicate Represents(r: Ring, history: seq<Event>, taken: nat) {
    && Sized(r) && taken <= |history|
    && r.wr == Wrap(|history|) && r.rd == Wrap(taken)
    && Recent(r.ev, history)
  }

  /** The last 1024 events stand in their slots. */
  ghost predicate Recent(ev: seq<Event>, history: seq<Event>)
    requires |ev| == LEN
  {
    forall i: nat :: |history| - LEN <= i < |history| ==> ev[Slot(i)] == history[i]
  }

  function Lag(history: seq<Event>, taken: nat): nat
    requires taken <= |history|
  {
    |history| - taken
  }

  ghost function Queue(history: seq<Event>, taken: nat): (q: seq<Event>)
    requires taken <= |history|
    ensures |q| == Min(Lag(history, taken), LEN)
  {
    history[|history| - Min(Lag(history, taken), LEN)..]
  }

  lemma OfWrapped(n: nat)
    ensures Slot(Wrap(n)) == Slot(n) && Serial(Wrap(n)) == Serial(n) && Wrap(Wrap(n) + 1) == Wrap(n + 1)
  {
    var q, w := n / TWO32, Wrap(n);
    SameSlot(q, w);
    SameSerial(q, w);
    NextWord(q, w);
  }

  lemma SameSlot(q: nat, w: Word32)
    ensures Slot(q * TWO32 + w) == Slot(w)
  {
    SlotOf(q * TWO32 + w, q * 0x40_0000 + w / LEN, w % LEN);
  }

  lemma SlotOf(a: nat, x: nat, r: nat)
    requires r < LEN && a == LEN * x + r
    ensures Slot(a) == r
  {
  }

  lemma SerialOf(a: nat, x: nat, r: nat)
    requires r < 0x1_0000 && a == 0x1_0000 * x + r
    ensures Serial(a) == r
  {
  }

  lemma SameSerial(q: nat, w: Word32)
    ensures Serial(q * TWO32 + w) == Serial(w)
  {
    SerialOf(q * TWO32 + w, q * 0x1_0000 + w / 0x1_0000, w % 0x1_0000);
  }

  lemma NextWord(q: nat, w: Word32)
    ensures Wrap(q * TWO32 + w + 1) == Wrap(w + 1)
  {
  }

  lemma PushRefines(r: Ring, history: seq<Event>, taken: nat, kind: Byte, arg: Byte, now: Word32)
    requires Represents(r, history, taken)
    ensures var e := Event(now, kind, arg, Serial(|history|));
            && Represents(Push(r, kind, arg, now), history + [e], taken)
            && Queue(history + [e], taken) == Enqueue(Queue(history, taken), e)
  {
    hide Queue, Enqueue;
    hide Slot, Wrap, Serial, Recent;
    OfWrapped(|history|);
    var e := Event(now, kind, arg, Serial(|history|));
    RecentPush(r.ev, history, e);
    QueuePush(history, taken, e);
  }

  lemma QueuePush(history: seq<Event>, taken: nat, e: Event)
    requires taken <= |history|
    ensures Queue(history + [e], taken) == Enqueue(Queue(history, taken), e)
  {
  }

  lemma RecentPush(ev: seq<Event>, history: seq<Event>, e: Event)
    requires |ev| == LEN && Recent(ev, history)
    ensures Recent(ev[Slot(|history|) := e], history + [e])
  {
    var n := |history|;
    forall i: nat | n + 1 - LEN <= i < n + 1 ensures ev[Slot(n) := e][Slot(i)] == (history + [e])[i] {
      if i < n { OtherSlot(i, n); }
    }
  }

  lemma OtherSlot(i: nat, n: nat)
    requires i < n < i + LEN
    ensures Slot(i) != Slot(n)
  {
  }

  /** What a pop takes, for any lag at all: it sees the lag modulo 2^32. */
  function Seen(lag: nat): nat { Min(lag % TWO32, LEN) }

  lemma PopTakes(r: Ring, history: seq<Event>, taken: nat)
    requires Represents(r, history, taken)
    ensures var n, seen := |history|, Seen(Lag(history, taken));
            if seen == 0 then Pop(r) == (r, None)
            else
              && Pop(r).1 == Some(history[n - seen])
              && Represents(Pop(r).0, history, n - seen + 1)
  {
    hide Wrap, ReadIndex, Seen, Slot;
    var n := |history|;
    var seen := Seen(Lag(history, taken));
    SeenBound(Lag(history, taken));
    SameWord(n, taken);
    if seen > 0 {
      IndexRead(n, taken);
      OfWrapped(n - seen);
      assert r.ev[Slot(n - seen)] == history[n - seen];
    }
  }

  lemma SeenBound(lag: nat)
    ensures Seen(lag) <= LEN && Seen(lag) <= lag
  {
  }

  lemma SameWord(n: nat, taken: nat)
    requires taken <= n
    ensures Seen(n - taken) == 0 <==> Wrap(taken) == Wrap(n)
  {
    WrapDifference(n, taken);
  }

  lemma IndexRead(n: nat, taken: nat)
    requires taken <= n && Seen(n - taken) > 0
    ensures Seen(n - taken) <= n && ReadIndex(Wrap(n), Wrap(taken)) == Wrap(n - Seen(n - taken))
  {
    WrapDifference(n, taken);
    WrapDifference(n, LEN);
    WrapBack(n, taken);
  }

  lemma WrapDifference(a: nat, b: nat)
    ensures Wrap(Wrap(a) - Wrap(b)) == Wrap(a - b) && Wrap(Wrap(a) - b) == Wrap(a - b)
  {
  }

  /** Going back from `n` by the lag modulo 2^32 gives the same word as going back by the lag. */
  lemma WrapBack(n: nat, taken: nat)
    requires taken <= n
    ensures (n - taken) % TWO32 <= n && Wrap(n - (n - taken) % TWO32) == Wrap(taken)
  {
  }

  /** A pop is the queue's exactly when the lag it sees is the real one: below 2^32, or wrapped onto an overflow. */
  lemma PopRefinesIff(r: Ring, history: seq<Event>, taken: nat)
    requires Represents(r, history, taken)
    ensures var lag := Lag(history, taken);
            Seen(lag) == Min(lag, LEN) <==> lag < TWO32 || lag % TWO32 >= LEN
    ensures var lag, q := Lag(history, taken), Queue(history, taken);
            lag < TWO32 || lag % TWO32 >= LEN ==>
              && Pop(r).1 == (if q == [] then None else Some(q[0]))
              && (q != [] ==> Represents(Pop(r).0, history, |history| - |q| + 1)
                              && Queue(history, |history| - |q| + 1) == q[1..])
    ensures Lag(history, taken) > 0 && Lag(history, taken) % TWO32 == 0 ==> Pop(r) == (r, None)
  {
    hide Seen, Represents, Pop;
    PopTakes(r, history, taken);
    SeenIff(Lag(history, taken));
  }

  lemma SeenIff(lag: nat)
    ensures Seen(lag) == Min(lag, LEN) <==> lag < TWO32 || lag % TWO32 >= LEN
    ensures Seen(lag) == 0 <==> lag % TWO32 == 0
  {
  }

  /** Index of the next event to read after a read that took the head of the queue, if there was one. */
  ghost function AfterRead(history: seq<Event>, taken: nat): (t: nat)
    requires taken <= |history|
    ensures taken <= t <= |history|
  {
    var q := Queue(history, taken);
    if q == [] then taken else |history| - |q| + 1
  }

  lemma ReadStep(r: Ring, history: seq<Event>, taken: nat)
    requires Represents(r, history, taken) && Lag(history, taken) < TWO32
    ensures var q, t := Queue(history, taken), AfterRead(history, taken);
            && Represents(Pop(r).0, history, t)
            && Pop(r).1 == Head(q) && Queue(history, t) == Tail(q)
            && Lag(history, t) == LagAfterRead(Lag(history, taken))
  {
    hide Pop, Represents;
    PopRefinesIff(r, history, taken);
    PopTakes(r, history, taken);
  }

  // ---- Runs ---------------------------------------------------------------------------------------------------

  datatype Op = Write(kind: Byte, arg: Byte, now: Word32) | Read

  /** The answers to the reads of a run. */
  function Replies(r: Ring, ops: seq<Op>): seq<Option<Event>>
    requires Sized(r)
    decreases |ops|
  {
    if ops == [] then []
    else
      match ops[0]
      case Write(kind, arg, now) => Replies(Push(r, kind, arg, now), ops[1..])
      case Read => [Pop(r).1] + Replies(Pop(r).0, ops[1..])
  }

  function Head(q: seq<Event>): Option<Event> { if q == [] then None else Some(q[0]) }
  function Tail(q: seq<Event>): seq<Event> { if q == [] then [] else q[1..] }

  /** The specification: a queue that drops its oldest event when full; `n` numbers the events. */
  function QueueReplies(q: seq<Event>, n: nat, ops: seq<Op>): seq<Option<Event>>
    decreases |ops|
  {
    if ops == [] then []
    else
      match ops[0]
      case Write(kind, arg, now) => QueueReplies(Enqueue(q, Event(now, kind, arg, n % 0x1_0000)), n + 1, ops[1..])
      case Read => [Head(q)] + QueueReplies(Tail(q), n, ops[1..])
  }

  /** Every read comes before the lag reaches 2^32. */
  predicate ReadsInTime(lag: nat, ops: seq<Op>)
    decreases |ops|
  {
    ops == [] ||
    match ops[0]
    case Write(_, _, _) => ReadsInTime(lag + 1, ops[1..])
    case Read => lag < TWO32 && ReadsInTime(LagAfterRead(lag), ops[1..])
  }

  function LagAfterRead(lag: nat): nat { if lag == 0 then 0 else Min(lag, LEN) - 1 }

  /** The ring is a drop-oldest queue of 1024 events: every read of every run in which reads come in time. */
  lemma {:induction false} RingIsDropOldestQueue(r: Ring, history: seq<Event>, taken: nat, ops: seq<Op>)
    requires Represents(r, history, taken) && ReadsInTime(Lag(history, taken), ops)
    ensures Replies(r, ops) == QueueReplies(Queue(history, taken), |history|, ops)
    decreases |ops|
  {
    if ops == [] { return; }
    assert Sized(r) && taken <= |history|;
    match ops[0]
    case Write(kind, arg, now) =>
      WriteUnfolds(r, Queue(history, taken), |history|, Lag(history, taken), ops);
      PushRefines(r, history, taken, kind, arg, now);
      RingIsDropOldestQueue(Push(r, kind, arg, now), history + [Event(now, kind, arg, Serial(|history|))], taken,
          ops[1..]);
    case Read =>
      ReadUnfolds(r, Queue(history, taken), |history|, Lag(history, taken), ops);
      ReadStep(r, history, taken);
      RingIsDropOldestQueue(Pop(r).0, history, AfterRead(history, taken), ops[1..]);
  }

  lemma WriteUnfolds(r: Ring, q: seq<Event>, n: nat, lag: nat, ops: seq<Op>)
    requires Sized(r) && ops != [] && ops[0].Write?
    ensures var Write(kind, arg, now) := ops[0];
            && Replies(r, ops) == Replies(Push(r, kind, arg, now), ops[1..])
            && QueueReplies(q, n, ops) == QueueReplies(Enqueue(q, Event(now, kind, arg, n % 0x1_0000)), n + 1, ops[1..])
            && (ReadsInTime(lag, ops) ==> ReadsInTime(lag + 1, ops[1..]))
  {
    hide Push, Enqueue;
  }

  lemma ReadUnfolds(r: Ring, q: seq<Event>, n: nat, lag: nat, ops: seq<Op>)
    requires Sized(r) && ops != [] && ops[0].Read?
    ensures Replies(r, ops) == [Pop(r).1] + Replies(Pop(r).0, ops[1..])
    ensures QueueReplies(q, n, ops) == [Head(q)] + QueueReplies(Tail(q), n, ops[1..])
    ensures ReadsInTime(lag, ops) ==> lag < TWO32 && ReadsInTime(LagAfterRead(lag), ops[1..])
  {
    hide Pop, Head, Tail, LagAfterRead;
  }

  /** At power-up the ring is the empty queue. */
  lemma EmptyAtBoot(ev: seq<Event>)
    requires |ev| == LEN
    ensures Represents(Ring(ev, 0, 0), [], 0) && Queue([], 0) == []
  {
  }

  // ---- A reader that sleeps for a whole turn of the index -----------------------------------------------------

  predicate AllWrites(ops: seq<Op>) { forall i :: 0 <= i < |ops| ==> ops[i].Write? }

  function Written(r: Ring, ops: seq<Op>): (s: Ring)
    requires Sized(r) && AllWrites(ops)
    ensures Sized(s)
    decreases |ops|
  {
    if ops == [] then r else Written(Push(r, ops[0].kind, ops[0].arg, ops[0].now), ops[1..])
  }

  lemma {:induction false} WrittenRepresents(r: Ring, history: seq<Event>, taken: nat, ops: seq<Op>)
    returns (all: seq<Event>)
    requires Sized(r) && Represents(r, history, taken) && AllWrites(ops)
    ensures Represents(Written(r, ops), all, taken) && |all| == |history| + |ops|
    decreases |ops|
  {
    hide Represents, Push, Serial;
    if ops == [] {
      all := history;
    } else {
      var Write(kind, arg, now) := ops[0];
      PushRefines(r, history, taken, kind, arg, now);
      all := WrittenRepresents(Push(r, kind, arg, now), history + [Event(now, kind, arg, Serial(|history|))], taken,
                               ops[1..]);
    }
  }

  /** Any 2^32 events from power-up on, none of them read: the ring holds the last 1024, and a read finds it empty. */
  lemma FullTurnReadsEmpty(ev: seq<Event>, ops: seq<Op>) returns (history: seq<Event>)
    requires |ev| == LEN && AllWrites(ops) && |ops| == TWO32
    ensures |history| == TWO32 && Represents(Written(Ring(ev, 0, 0), ops), history, 0) && |Queue(history, 0)| == LEN
    ensures Pop(Written(Ring(ev, 0, 0), ops)).1 == None
  {
    hide Represents, Pop, Written, Queue;
    EmptyAtBoot(ev);
    history := WrittenRepresents(Ring(ev, 0, 0), [], 0, ops);
    PopRefinesIff(Written(Ring(ev, 0, 0), ops), history, 0);
    OneTurn();
  }

  lemma OneTurn()
    ensures TWO32 % TWO32 == 0 && TWO32 > LEN
  {
  }

  // ---- In place -----------------------------------------------------------------------------------------------

  class EventBuffer {
    const ev: array<Event>
    var wr: Word32
    var rd: Word32

    ghost function Snap(): Ring
      reads this, ev
    {
      Ring(ev[..], wr, rd)
    }

    constructor ()
      ensures ev.Length == LEN && fresh(ev) && Represents(Snap(), [], 0)
    {
      ev := new Event[LEN](_ => Event(0, 0, 0, 0));
      wr, rd := 0, 0;
    }

    method Put(kind: Byte, arg: Byte, now: Word32)
      requires ev.Length == LEN
      modifies this`wr, ev
      ensures Snap() == Push(old(Snap()), kind, arg, now)
    {
      ev[Slot(wr)] := Event(now, kind, arg, Serial(wr));
      wr := Wrap(wr + 1);
    }

    method Take() returns (e: Option<Event>)
      requires ev.Length == LEN
      modifies this`rd
      ensures (Snap(), e) == Pop(old(Snap()))
    {
      if rd == wr {
        return None;
      }
      var from: nat := rd;
      if Wrap(wr - from) > LEN {
        from := Wrap(wr - LEN);
      }
      e := Some(ev[Slot(from)]);
      rd := Wrap(from + 1);
    }
  }
}
