/** The ring with its steps pulled apart: core 1 writes a slot field by field and then publishes, core 0 loads the
    indices, copies a slot field by field and then stores its own index, and the two interleave freely. */
module RingRace {
  import opened Wrappers
  import opened Bits
  import opened EventRing

  datatype Field = Time | Kind | Arg | Serial16

  const FIELDS: set<Field> := {Time, Kind, Arg, Serial16}

  /** `e` with one field taken from `from`. */
  function CopyField(e: Event, f: Field, from: Event): Event {
    match f
    case Time => e.(tUs := from.tUs)
    case Kind => e.(kind := from.kind)
    case Arg => e.(arg := from.arg)
    case Serial16 => e.(serial := from.serial)
  }

  predicate Agree(a: Event, b: Event, fields: set<Field>) {
    && (Time in fields ==> a.tUs == b.tUs)
    && (Kind in fields ==> a.kind == b.kind)
    && (Arg in fields ==> a.arg == b.arg)
    && (Serial16 in fields ==> a.serial == b.serial)
  }

  datatype Producer = Waiting | Writing(todo: set<Field>)

  /** `rd` is the reader's local index, `index` the event it stands for, `out` what has been copied. */
  datatype Consumer = Idle | Copying(rd: Word32, index: nat, todo: set<Field>, out: Event)

  /** A finished read; `inTime`: when its last field was copied, the writer had not begun the event 1024 later. */
  datatype Taken = Taken(index: nat, event: Event, inTime: bool)

  /** `begun` is every event whose push has started; `published` and `taken` are the true counts behind wr and rd. */
  datatype State = State(ring: Ring, begun: seq<Event>, published: nat, taken: nat, writer: Producer, reader: Consumer,
                         log: seq<Taken>)

  datatype Step =
    | Begin(kind: Byte, arg: Byte, now: Word32)
    | Store(field: Field)
    | Publish
    | Load
    | Copy(field: Field)
    | Finish

  predicate InTime(s: State, index: nat) { |s.begun| <= index + LEN }

  /** A step that is not enabled leaves everything as it is. */
  function Next(s: State, step: Step): (t: State)
    requires Sized(s.ring)
    ensures Sized(t.ring)
  {
    match step
    case Begin(kind, arg, now) =>
      if s.writer != Waiting then s
      else s.(begun := s.begun + [Event(now, kind, arg, Serial(s.ring.wr))], writer := Writing(FIELDS))
    case Store(f) =>
      if s.writer == Waiting || f !in s.writer.todo || s.begun == [] then s
      else
        var i := Slot(s.ring.wr);
        s.(ring := s.ring.(ev := s.ring.ev[i := CopyField(s.ring.ev[i], f, s.begun[|s.begun| - 1])]),
           writer := Writing(s.writer.todo - {f}))
    case Publish =>
      if s.writer != Writing({}) then s
      else s.(ring := s.ring.(wr := Wrap(s.ring.wr + 1)), published := s.published + 1, writer := Waiting)
    case Load =>
      if s.reader != Idle || s.ring.rd == s.ring.wr then s
      else s.(reader := Copying(ReadIndex(s.ring.wr, s.ring.rd), FirstKept(s), FIELDS, Event(0, 0, 0, 0)))
    case Copy(f) =>
      if s.reader == Idle || f !in s.reader.todo then s
      else
        var out := CopyField(s.reader.out, f, s.ring.ev[Slot(s.reader.rd)]);
        var r := s.reader.(todo := s.reader.todo - {f}, out := out);
        s.(reader := r, log := if r.todo == {} then s.log + [Taken(r.index, out, InTime(s, r.index))] else s.log)
    case Finish =>
      if s.reader == Idle || s.reader.todo != {} then s
      else s.(ring := s.ring.(rd := Wrap(s.reader.rd + 1)), taken := s.reader.index + 1, reader := Idle)
  }

  /** The oldest event neither read nor dropped. */
  function FirstKept(s: State): nat {
    if s.published > s.taken + LEN then s.published - LEN else s.taken
  }

  // ---- The invariant ------------------------------------------------------------------------------------------

  ghost predicate WriterOk(ring: Ring, begun: seq<Event>, published: nat, writer: Producer)
    requires Sized(ring)
  {
    && ring.wr == Wrap(published)
    && match writer
       case Waiting => |begun| == published
       case Writing(todo) =>
         && |begun| == published + 1
         && Agree(ring.ev[Slot(published)], begun[published], FIELDS - todo)
  }

  /** Published events stand in their slots unless the writer has begun the event 1024 later. */
  ghost predicate SlotsOk(ev: seq<Event>, begun: seq<Event>, published: nat)
    requires |ev| == LEN && published <= |begun|
  {
    forall i: nat :: |begun| - LEN <= i < published ==> ev[Slot(i)] == begun[i]
  }

  ghost predicate ReaderOk(s: State) {
    && s.ring.rd == Wrap(s.taken) && s.taken <= s.published <= |s.begun|
    && (s.reader.Copying? ==>
        && s.reader.rd == Wrap(s.reader.index) && s.taken <= s.reader.index < s.published
        && (InTime(s, s.reader.index) ==> Agree(s.reader.out, s.begun[s.reader.index], FIELDS - s.reader.todo)))
  }

  /** Reads already logged lie below this index. */
  function Horizon(s: State): nat {
    if s.reader.Copying? && s.reader.todo == {} then s.reader.index + 1 else s.taken
  }

  ghost predicate LogOk(log: seq<Taken>, begun: seq<Event>, horizon: nat) {
    && horizon <= |begun|
    && (forall k :: 0 <= k < |log| ==> log[k].index < horizon)
    && (forall k :: 0 <= k < |log| && log[k].inTime ==> log[k].event == begun[log[k].index])
    && (forall j, k :: 0 <= j < k < |log| ==> log[j].index < log[k].index)
  }

  ghost predicate Inv(s: State) {
    && Sized(s.ring)
    && WriterOk(s.ring, s.begun, s.published, s.writer)
    && SlotsOk(s.ring.ev, s.begun, s.published)
    && ReaderOk(s)
    && LogOk(s.log, s.begun, Horizon(s))
  }

  lemma CopyAgrees(a: Event, b: Event, f: Field, todo: set<Field>)
    requires Agree(a, b, FIELDS - todo)
    ensures Agree(CopyField(a, f, b), b, FIELDS - (todo - {f}))
    ensures todo - {f} == {} ==> CopyField(a, f, b) == b
  {
    var c := CopyField(a, f, b);
    if todo - {f} == {} {
      assert forall g :: g in FIELDS ==> g in FIELDS - (todo - {f});
    }
  }

  lemma BeginKeeps(s: State, kind: Byte, arg: Byte, now: Word32)
    requires Inv(s)
    ensures Inv(Next(s, Begin(kind, arg, now)))
  {
  }

  lemma StoreKeeps(s: State, f: Field)
    requires Inv(s)
    ensures Inv(Next(s, Store(f)))
  {
    if s.writer.Writing? && f in s.writer.todo {
      var n := s.published;
      OfWrapped(n);
      CopyAgrees(s.ring.ev[Slot(n)], s.begun[n], f, s.writer.todo);
      var t := Next(s, Store(f));
      forall i: nat | |t.begun| - LEN <= i < n ensures t.ring.ev[Slot(i)] == t.begun[i] {
        OtherSlot(i, n);
      }
    }
  }

  lemma PublishKeeps(s: State)
    requires Inv(s)
    ensures Inv(Next(s, Publish))
  {
    OfWrapped(s.published);
    if s.writer == Writing({}) {
      CopyAgrees(s.ring.ev[Slot(s.published)], s.begun[s.published], Time, {});
    }
  }

  lemma LoadKeeps(s: State)
    requires Inv(s) && s.published - s.taken < TWO32
    ensures Inv(Next(s, Load))
  {
    SameWord(s.published, s.taken);
    SeenIff(s.published - s.taken);
    if Seen(s.published - s.taken) > 0 {
      IndexRead(s.published, s.taken);
    }
  }

  lemma CopyKeeps(s: State, f: Field)
    requires Inv(s)
    ensures Inv(Next(s, Copy(f)))
  {
    if s.reader.Copying? && f in s.reader.todo {
      var i := s.reader.index;
      OfWrapped(i);
      if InTime(s, i) {
        CopyAgrees(s.reader.out, s.begun[i], f, s.reader.todo);
      }
    }
  }

  lemma FinishKeeps(s: State)
    requires Inv(s)
    ensures Inv(Next(s, Finish))
  {
    if s.reader.Copying? {
      OfWrapped(s.reader.index);
    }
  }

  // ---- Runs ---------------------------------------------------------------------------------------------------

  function Run(s: State, steps: seq<Step>): (t: State)
    requires Sized(s.ring)
    ensures Sized(t.ring)
    decreases |steps|
  {
    if steps == [] then s else Run(Next(s, steps[0]), steps[1..])
  }

  /** Fewer than 2^32 events behind at every load. */
  predicate LoadsInTime(s: State, steps: seq<Step>)
    requires Sized(s.ring)
    decreases |steps|
  {
    steps == [] ||
    ((steps[0].Load? ==> s.published - s.taken < TWO32) && LoadsInTime(Next(s, steps[0]), steps[1..]))
  }

  function Boot(ev: seq<Event>): State {
    State(Ring(ev, 0, 0), [], 0, 0, Waiting, Idle, [])
  }

  lemma BootOk(ev: seq<Event>)
    requires |ev| == LEN
    ensures Inv(Boot(ev))
  {
  }

  lemma StepKeeps(s: State, step: Step)
    requires Inv(s) && (step.Load? ==> s.published - s.taken < TWO32)
    ensures Inv(Next(s, step))
  {
    hide Inv, Next;
    match step
    case Begin(kind, arg, now) => BeginKeeps(s, kind, arg, now);
    case Store(f) => StoreKeeps(s, f);
    case Publish => PublishKeeps(s);
    case Load => LoadKeeps(s);
    case Copy(f) => CopyKeeps(s, f);
    case Finish => FinishKeeps(s);
  }

  lemma {:induction false} RunKeeps(s: State, steps: seq<Step>)
    requires Inv(s) && LoadsInTime(s, steps)
    ensures Inv(Run(s, steps))
    decreases |steps|
  {
    if steps != [] {
      StepKeeps(s, steps[0]);
      RunKeeps(Next(s, steps[0]), steps[1..]);
    }
  }

  /** Under every interleaving from boot: events are read in order and at most once, and every read that ends before the
      writer begins the event 1024 later returns exactly what was pushed. */
  lemma ReadsAreOrderedAndIntact(ev: seq<Event>, steps: seq<Step>)
    requires |ev| == LEN && LoadsInTime(Boot(ev), steps)
    ensures var s := Run(Boot(ev), steps);
            && (forall k :: 0 <= k < |s.log| ==> s.log[k].index < |s.begun|)
            && (forall k :: 0 <= k < |s.log| ==> s.log[k].inTime ==> s.log[k].event == s.begun[s.log[k].index])
            && (forall j, k :: 0 <= j < k < |s.log| ==> s.log[j].index < s.log[k].index)
  {
    BootOk(ev);
    RunKeeps(Boot(ev), steps);
  }

  /** The steps of one push, and of one pop, run without interruption. */
  function PushSteps(kind: Byte, arg: Byte, now: Word32): seq<Step> {
    [Begin(kind, arg, now), Store(Time), Store(Kind), Store(Arg), Store(Serial16), Publish]
  }

  const POP_STEPS: seq<Step> := [Load, Copy(Time), Copy(Kind), Copy(Arg), Copy(Serial16), Finish]

  function Three(s: State, a: Step, b: Step, c: Step): (t: State)
    requires Sized(s.ring)
    ensures Sized(t.ring)
  {
    Next(Next(Next(s, a), b), c)
  }

  lemma SixSteps(s: State, steps: seq<Step>)
    requires Sized(s.ring) && |steps| == 6
    ensures Run(s, steps) == Three(Three(s, steps[0], steps[1], steps[2]), steps[3], steps[4], steps[5])
  {
    ThreeSteps(s, steps);
    ThreeSteps(Three(s, steps[0], steps[1], steps[2]), steps[3..]);
  }

  lemma ThreeSteps(s: State, steps: seq<Step>)
    requires Sized(s.ring) && |steps| >= 3
    ensures Run(s, steps) == Run(Three(s, steps[0], steps[1], steps[2]), steps[3..])
  {
    hide Next;
    var a := Next(s, steps[0]);
    var b := Next(a, steps[1]);
    assert Run(s, steps) == Run(a, steps[1..]);
    assert Run(a, steps[1..]) == Run(b, steps[2..]) by { assert steps[1..][1..] == steps[2..]; }
    assert Run(b, steps[2..]) == Run(Next(b, steps[2]), steps[3..]) by { assert steps[2..][1..] == steps[3..]; }
  }

  /** A copy step before the last. */
  lemma CopyStep(s: State, f: Field, rest: set<Field>)
    requires Inv(s) && s.reader.Copying? && f in s.reader.todo && s.reader.todo - {f} == rest && rest != {}
    ensures var from := s.ring.ev[Slot(s.reader.index)];
            Next(s, Copy(f)) == s.(reader := s.reader.(todo := rest, out := CopyField(s.reader.out, f, from)))
  {
    OfWrapped(s.reader.index);
  }

  lemma LastCopyStep(s: State, f: Field)
    requires Inv(s) && s.reader.Copying? && s.reader.todo == {f}
    ensures var i, out := s.reader.index, CopyField(s.reader.out, f, s.ring.ev[Slot(s.reader.index)]);
            Next(s, Copy(f))
            == s.(reader := s.reader.(todo := {}, out := out), log := s.log + [Taken(i, out, InTime(s, i))])
  {
    OfWrapped(s.reader.index);
    assert {f} - {f} == {};
  }

  /** Uninterrupted, the steps are the whole push of the ring. */
  lemma StepsMakeAPush(s: State, kind: Byte, arg: Byte, now: Word32)
    requires Inv(s) && s.writer == Waiting
    ensures var t := Run(s, PushSteps(kind, arg, now));
            t.ring == Push(s.ring, kind, arg, now) && t.writer == Waiting && t.reader == s.reader
  {
    SixSteps(s, PushSteps(kind, arg, now));
    var e := Event(now, kind, arg, Serial(s.ring.wr));
    var i := Slot(s.ring.wr);
    var b := Next(s, Begin(kind, arg, now));
    var c := Next(Next(b, Store(Time)), Store(Kind));
    assert c.writer == Writing({Arg, Serial16}) by { assert FIELDS - {Time} - {Kind} == {Arg, Serial16}; }
    var d := Next(Next(c, Store(Arg)), Store(Serial16));
    assert d.writer == Writing({}) by { assert {Arg, Serial16} - {Arg} - {Serial16} == {}; }
    assert d.ring.ev[i] == e;
    assert d.ring.ev == s.ring.ev[i := e];
  }

  /** Uninterrupted, the steps are the whole pop of the ring. */
  lemma StepsMakeAPop(s: State)
    requires Sized(s.ring) && Inv(s) && s.reader == Idle && s.published - s.taken < TWO32
    ensures var t := Run(s, POP_STEPS);
            && t.ring == Pop(s.ring).0
            && match Pop(s.ring).1
               case None => t.log == s.log
               case Some(e) => t.log == s.log + [Taken(FirstKept(s), e, InTime(s, FirstKept(s)))]
  {
    hide Next, Inv, Pop;
    SixSteps(s, POP_STEPS);
    if s.ring.rd == s.ring.wr {
      NothingToPop(s);
      IdleCopies(s);
    } else {
      LoadStep(s);
      PopFrom(Next(s, Load));
    }
  }

  lemma NothingToPop(s: State)
    requires Sized(s.ring) && s.ring.rd == s.ring.wr
    ensures Next(s, Load) == s && Pop(s.ring) == (s.ring, None)
  {
  }

  lemma PopFrom(l: State)
    requires Inv(l) && l.reader.Copying? && l.reader.todo == FIELDS
    ensures var i := l.reader.index;
            var t := Next(Next(Next(Next(Next(l, Copy(Time)), Copy(Kind)), Copy(Arg)), Copy(Serial16)), Finish);
            && t.ring == l.ring.(rd := Wrap(i + 1))
            && t.log == l.log + [Taken(i, l.ring.ev[Slot(i)], InTime(l, i))]
  {
    assert l.reader.rd == Wrap(l.reader.index);
    var e := l.ring.ev[Slot(l.reader.index)];
    CopyFour(l);
    FinishStep(l.(reader := l.reader.(todo := {}, out := e),
                  log := l.log + [Taken(l.reader.index, e, InTime(l, l.reader.index))]));
  }

  lemma LoadStep(s: State)
    requires Inv(s) && s.reader == Idle && s.ring.rd != s.ring.wr && s.published - s.taken < TWO32
    ensures var l := Next(s, Load);
            && Inv(l) && l == s.(reader := Copying(Wrap(FirstKept(s)), FirstKept(s), FIELDS, Event(0, 0, 0, 0)))
            && Pop(s.ring) == (s.ring.(rd := Wrap(FirstKept(s) + 1)), Some(s.ring.ev[Slot(FirstKept(s))]))
  {
    LoadKeeps(s);
    OfWrapped(FirstKept(s));
  }

  lemma FinishStep(s: State)
    requires Sized(s.ring) && s.reader.Copying? && s.reader.todo == {} && s.reader.rd == Wrap(s.reader.index)
    ensures Next(s, Finish).ring == s.ring.(rd := Wrap(s.reader.index + 1)) && Next(s, Finish).log == s.log
  {
    OfWrapped(s.reader.index);
  }

  lemma IdleCopies(s: State)
    requires Sized(s.ring) && s.reader == Idle
    ensures forall f :: Next(s, Copy(f)) == s
    ensures Next(s, Finish) == s
  {
  }

  /** Four copies in a row with nothing between take the whole slot. */
  lemma CopyFour(l: State)
    requires Inv(l) && l.reader.Copying? && l.reader.todo == FIELDS
    ensures var i := l.reader.index;
            var e := l.ring.ev[Slot(i)];
            Next(Next(Next(Next(l, Copy(Time)), Copy(Kind)), Copy(Arg)), Copy(Serial16))
            == l.(reader := l.reader.(todo := {}, out := e), log := l.log + [Taken(i, e, InTime(l, i))])
  {
    hide Next, Inv;
    CopyKeeps(l, Time);
    CopyStep(l, Time, {Kind, Arg, Serial16});
    var a := Next(l, Copy(Time));
    CopyKeeps(a, Kind);
    CopyStep(a, Kind, {Arg, Serial16});
    var b := Next(a, Copy(Kind));
    CopyKeeps(b, Arg);
    CopyStep(b, Arg, {Serial16});
    LastCopyStep(Next(b, Copy(Arg)), Serial16);
  }

  /** The writer's first step into the slot being copied. */
  lemma BeginThenStore(a: State, kind: Byte, arg: Byte, now: Word32)
    requires Inv(a) && a.writer == Waiting && a.reader.Copying? && |a.begun| == a.reader.index + LEN
    ensures var c := Next(Next(a, Begin(kind, arg, now)), Store(Kind));
            && Inv(c) && c.reader == a.reader && c.log == a.log && |c.begun| == |a.begun| + 1
            && c.ring.ev[Slot(a.reader.index)] == a.begun[a.reader.index].(kind := kind)
  {
    hide Slot, Wrap, Serial;
    var n, i := a.published, a.reader.index;
    assert a.ring.ev[Slot(i)] == a.begun[i];
    OfWrapped(n);
    SameSlotALapLater(i);
    BeginKeeps(a, kind, arg, now);
    var e := Event(now, kind, arg, Serial(a.ring.wr));
    var b := a.(begun := a.begun + [e], writer := Writing(FIELDS));
    assert Next(a, Begin(kind, arg, now)) == b;
    StoreKeeps(b, Kind);
    assert b.begun[|b.begun| - 1] == e && Kind in FIELDS;
  }

  lemma SameSlotALapLater(i: nat)
    ensures Slot(i + LEN) == Slot(i)
  {
  }

  lemma OldestInSlot(s: State)
    requires Inv(s) && s.writer == Waiting && s.reader.Copying? && |s.begun| == s.reader.index + LEN
    ensures Sized(s.ring) && s.ring.ev[Slot(s.reader.index)] == s.begun[s.reader.index]
  {
  }

  /** The bound is tight: a copy during which the writer begins the event 1024 later can mix two events. */
  lemma OvertakenCopyTears(s: State, kind: Byte, arg: Byte, now: Word32)
    requires Inv(s) && s.writer == Waiting && s.reader.Copying? && s.reader.todo == FIELDS
    requires |s.begun| == s.reader.index + LEN
    ensures var t := Run(s, [Copy(Time), Begin(kind, arg, now), Store(Kind), Copy(Kind), Copy(Arg), Copy(Serial16)]);
            var was := s.begun[s.reader.index];
            t.log == s.log + [Taken(s.reader.index, Event(was.tUs, kind, was.arg, was.serial), false)]
  {
    hide Next, Inv, Run, Slot;
    OldestInSlot(s);
    SixSteps(s, [Copy(Time), Begin(kind, arg, now), Store(Kind), Copy(Kind), Copy(Arg), Copy(Serial16)]);
    var i := s.reader.index;
    CopyKeeps(s, Time);
    CopyStep(s, Time, {Kind, Arg, Serial16});
    var a := Next(s, Copy(Time));
    BeginThenStore(a, kind, arg, now);
    var c := Next(Next(a, Begin(kind, arg, now)), Store(Kind));
    CopyKeeps(c, Kind);
    CopyStep(c, Kind, {Arg, Serial16});
    var d := Next(c, Copy(Kind));
    CopyKeeps(d, Arg);
    CopyStep(d, Arg, {Serial16});
    LastCopyStep(Next(d, Copy(Arg)), Serial16);
  }
}
