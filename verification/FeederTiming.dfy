/** When the feeder's deadlines fall: the read command that gets no feed, and FININ that nobody takes down. */
module FeederTiming {
  import opened Wrappers
  import opened Bits
  import opened Transcode
  import opened FeederModel
  import opened FeederFlags

  /** A deck is armed and no card is being presented. */
  predicate AtRest(s: Feeder) { s.fd.deck.Some? && (s.st.state == ArmedWait || s.st.state == CardDone) }

  /** Pushing characters only adds to the trace and to the queue. */
  lemma {:induction false} PrefillAppends(s: Feeder, now: Word32, drains: seq<nat>)
    requires Core(s) && s.fd.deck.Some? && !s.wire.ready
    ensures var r := Prefill(s, now, drains);
            && |r.trace| >= |s.trace| && r.trace[..|s.trace|] == s.trace
            && r.wire.pom01 == s.wire.pom01 && r.st.mode == s.st.mode && r.fd.cmdPending == s.fd.cmdPending
    decreases |drains|, FIFO_DEPTH - |s.wire.fifo|
  {
    hide PresentNext, GoodDeck, NoPushWhileReady;
    if s.fd.presenting {
      var t := if drains == [] then s else WirePull(s, drains[0]);
      if |t.wire.fifo| != FIFO_DEPTH {
        var u := PresentNext(t, now);
        PresentNextAppends(t, now);
        PrefillAppends(u, now, if drains == [] then [] else drains[1..]);
        assert Prefill(u, now, if drains == [] then [] else drains[1..]).trace[..|u.trace|][..|s.trace|] == s.trace;
      }
    }
  }

  lemma PresentNextAppends(s: Feeder, now: Word32)
    requires Core(s) && s.fd.deck.Some? && |s.wire.fifo| < FIFO_DEPTH && !s.wire.ready
    ensures var r := PresentNext(s, now);
            && |r.trace| > |s.trace| && r.trace[..|s.trace|] == s.trace
            && r.wire.pom01 == s.wire.pom01 && r.st.mode == s.st.mode && r.fd.cmdPending == s.fd.cmdPending
  {
    hide CurrentChar, CurrentMode, GoodDeck, NoPushWhileReady;
  }

  /** A trigger opens a card or signals the end of the deck: either is seen. */
  lemma TriggerIsSeen(s: Feeder, viaFeed: bool, now: Word32, drains: seq<nat>)
    requires Core(s) && s.wire.feedIrq == s.fd.presenting && s.fd.cmdPending && AtRest(s)
    ensures var r := TriggerPresent(s, viaFeed, now, drains); |r.trace| > |s.trace| && !r.fd.cmdPending
  {
    hide GoodDeck, NoPushWhileReady, CurrentMode, Prefill, ReadyFormula;
    var u := FeedPast(s.(fd := s.fd.(cmdPending := false)), viaFeed);
    if u.st.state == ArmedWait {
      PrefillAppends(Opened(u), now, drains);
    }
  }

  // ---- The read command ---------------------------------------------------------------------------------------

  /** A read command accepted at t is latched, and a poll stands in for the feed from the command delay on and for 2^31
      microseconds: the command is taken and a card opened, or the end of the deck signalled.  At any other
      clock reading a poll leaves everything as it is and asks to be called again. */
  lemma ReadWaitsForFeed(s: Feeder, re: Byte, t: Word32, e: nat, now1: Word32, now2: Word32, drains: seq<nat>)
    requires Safe(s) && AtRest(s) && re in {0x40, 0x21, 0x01, 0x24, 0x04, 0x20} && e < 0x1_0000_0000
    ensures var r, now := Step(s, ReCmd(re, t)), (t + e) % 0x1_0000_0000;
            var p := Step(r, Poll(now, now1, now2, drains));
            && r.fd.cmdPending
            && if s.fd.dUs <= e < s.fd.dUs as nat + 0x8000_0000
               then !p.fd.cmdPending && |p.trace| > |r.trace|
               else p == r && OnPoll(r, now, now1, now2, drains).1
  {
    hide Step, OnPoll, Expired, GoodDeck, NoPushWhileReady;
    var r, now := Step(s, ReCmd(re, t)), (t + e) % 0x1_0000_0000;
    ReadStamps(s, re, t);
    Passed(t, s.fd.dUs, e);
    PollTriggers(r, now, now1, now2, drains);
    PollIsStep(r, now, now1, now2, drains);
  }

  lemma PollIsStep(s: Feeder, now0: Word32, now1: Word32, now2: Word32, drains: seq<nat>)
    requires Safe(s)
    ensures Step(s, Poll(now0, now1, now2, drains)) == OnPoll(s, now0, now1, now2, drains).0
  {
    hide OnPoll;
  }

  lemma PollTriggers(s: Feeder, now0: Word32, now1: Word32, now2: Word32, drains: seq<nat>)
    requires Safe(s) && s.fd.cmdPending && AtRest(s)
    ensures var p := OnPoll(s, now0, now1, now2, drains);
            if !Expired(now0, s.fd.cmdDeadline) then p == (s, true)
            else !p.0.fd.cmdPending && |p.0.trace| > |s.trace|
  {
    hide TriggerPresent, Expired, GoodDeck, NoPushWhileReady, CursorInDeck;
    TriggerIsSeen(s, false, now1, drains);
  }

  /** All that a read command changes besides the mode latch. */
  lemma PrepareIs(s: Feeder, now: Word32)
    requires Core(s) && s.wire.feedIrq == s.fd.presenting
    ensures PreparePresentation(s, now)
         == if AtRest(s)
            then s.(fd := s.fd.(cmdPending := true, fininPending := false,
                                cmdDeadline := (now + s.fd.dUs) % 0x1_0000_0000),
                    wire := s.wire.(ready := false))
            else s
  {
    hide GoodDeck, NoPushWhileReady;
  }

  lemma ReadStamps(s: Feeder, re: Byte, t: Word32)
    requires Safe(s) && AtRest(s) && re in {0x40, 0x21, 0x01, 0x24, 0x04, 0x20}
    ensures var r := Step(s, ReCmd(re, t));
            && r.fd.cmdPending && r.fd.cmdDeadline == (t + s.fd.dUs) % 0x1_0000_0000 && AtRest(r)
  {
    hide PreparePresentation, Core;
    PrepareIs(CountCmd(s), t);
    PrepareIs(LatchMode(CountCmd(s), Normal), t);
    PrepareIs(LatchMode(CountCmd(s), Colbin), t);
  }

  /** The signed comparison of two 32-bit clock readings. */
  lemma Passed(t: Word32, delay: Word16, e: nat)
    requires e < 0x1_0000_0000
    ensures Expired((t + e) % 0x1_0000_0000, (t + delay) % 0x1_0000_0000)
        <==> delay <= e < delay as nat + 0x8000_0000
  {
    var d := (t + e) % TWO32 - (t + delay) % TWO32;
    assert d % TWO32 == (e - delay) % TWO32 == if e < delay then e - delay + TWO32 else e - delay;
  }

  // ---- FININ --------------------------------------------------------------------------------------------------

  /** The clock reading of an event that can end a card. */
  function TimeOf(e: Event): Word32 {
    match e
    case Tu03(now, _) => now
    case TxFeed(now) => now
    case Poll(_, now1, _, _) => now1
    case _ => 0
  }

  /** The card ended by the last push is parked for so long, with the cursor back at its first column. */
  predicate StampedAt(r: Feeder, t: Word32, delay: Word16) {
    r.fd.fininToUs == delay &&
    (r.fd.fininPending ==>
       r.fd.fininDeadline == (t + delay) % 0x1_0000_0000 && r.st.col == r.st.half == 0 && r.st.state == CardDone)
  }

  lemma PresentNextStamps(s: Feeder, now: Word32)
    requires Core(s) && s.fd.deck.Some? && |s.wire.fifo| < FIFO_DEPTH && !s.wire.ready && !s.fd.fininPending
    ensures StampedAt(PresentNext(s, now), now, s.fd.fininToUs)
    ensures PresentNext(s, now).fd.presenting ==> !PresentNext(s, now).fd.fininPending
  {
    hide CurrentChar, CurrentMode, GoodDeck, NoPushWhileReady;
  }

  lemma {:induction false} PrefillStamps(s: Feeder, now: Word32, drains: seq<nat>)
    requires Core(s) && s.fd.deck.Some? && !s.wire.ready && StampedAt(s, now, s.fd.fininToUs)
    requires s.fd.presenting ==> !s.fd.fininPending
    ensures StampedAt(Prefill(s, now, drains), now, s.fd.fininToUs)
    decreases |drains|, FIFO_DEPTH - |s.wire.fifo|
  {
    hide PresentNext, GoodDeck, NoPushWhileReady;
    if s.fd.presenting {
      var t := if drains == [] then s else WirePull(s, drains[0]);
      if |t.wire.fifo| != FIFO_DEPTH {
        PresentNextStamps(t, now);
        PrefillStamps(PresentNext(t, now), now, if drains == [] then [] else drains[1..]);
      }
    }
  }

  lemma TriggerStamps(s: Feeder, viaFeed: bool, now: Word32, drains: seq<nat>)
    requires Core(s) && s.wire.feedIrq == s.fd.presenting && (!s.fd.cmdPending ==> Safe(s)) && !s.fd.fininPending
    ensures StampedAt(TriggerPresent(s, viaFeed, now, drains), now, s.fd.fininToUs)
  {
    hide GoodDeck, FeedPast, Opened, Prefill, ReadyFormula, NoPushWhileReady;
    if s.fd.cmdPending {
      var u := FeedPast(s.(fd := s.fd.(cmdPending := false)), viaFeed);
      if u.st.state == ArmedWait { PrefillStamps(Opened(u), now, drains); }
    }
  }

  /** Whatever event ends a card stamps it with its own clock reading. */
  lemma EndIsStamped(s: Feeder, e: Event)
    requires Safe(s) && FlagsAgree(s) && !s.fd.fininPending && Step(s, e).fd.fininPending
    ensures StampedAt(Step(s, e), TimeOf(e), s.fd.fininToUs)
  {
    hide OnReCmd, OnIpc, GoodDeck, NoPushWhileReady, TriggerPresent, PresentNext, CursorInDeck;
    match e
    case ReCmd(re, now) => CommandEndsNothing(s, re, now);
    case Tu03(now, drains) => TriggerStamps(FininRelease(CountFeed(s)), true, now, drains);
    case TxFeed(now) =>
      if s.fd.presenting && |s.wire.fifo| < FIFO_DEPTH { PresentNextStamps(s, now); }
    case Poll(now0, now1, now2, drains) => TriggerStamps(s, false, now1, drains);
    case Ipc(word) => if Armable(s.decks, IpcOp(word), IpcArg(word)) { WordEndsNothing(s, word); }
    case Pull =>
    case Load(slot, deck) =>
  }

  lemma CommandEndsNothing(s: Feeder, re: Byte, now: Word32)
    requires Safe(s) && !s.fd.fininPending
    ensures !OnReCmd(s, re, now).fd.fininPending
  {
    hide PreparePresentation, RejectCard, Core, ReadyFormula;
    var t := CountCmd(s);
    PrepareEndsNothing(t, now);
    PrepareEndsNothing(LatchMode(t, Normal), now);
    PrepareEndsNothing(LatchMode(t, Colbin), now);
    RejectEndsNothing(t);
  }

  lemma PrepareEndsNothing(s: Feeder, now: Word32)
    requires Core(s) && s.wire.feedIrq == s.fd.presenting && !s.fd.fininPending
    ensures !PreparePresentation(s, now).fd.fininPending
  {
    hide Core, ReadyFormula;
  }

  lemma RejectEndsNothing(s: Feeder)
    requires Safe(s) && !s.fd.fininPending
    ensures !RejectCard(s).fd.fininPending
  {
    hide GoodDeck, NoPushWhileReady;
  }

  lemma WordEndsNothing(s: Feeder, word: Word32)
    requires Safe(s) && !s.fd.fininPending && Armable(s.decks, IpcOp(word), IpcArg(word))
    ensures !OnIpc(s, word).fd.fininPending
  {
    hide Core, ReadyFormula, IpcArg, IpcVal, IpcOp, GoTarget, StartCard, Arm, SetParam, Go;
    ArmEndsNothing(s, IpcArg(word) % 2);
    TuneEndsNothing(s, IpcArg(word), IpcVal(word));
    GoEndsNothing(s, IpcVal(word));
  }

  lemma ArmEndsNothing(s: Feeder, slot: nat)
    requires Core(s) && slot < 2
    ensures GoodDeck(s.decks[slot]) ==> !Arm(s, slot).fd.fininPending
  {
    hide GoodDeck, NoPushWhileReady, StartCard;
  }

  lemma TuneEndsNothing(s: Feeder, param: nat, val: Word16)
    requires !s.fd.fininPending
    ensures !SetParam(s, param, val).fd.fininPending
  {
  }

  lemma GoEndsNothing(s: Feeder, val: Word16)
    requires Safe(s) && !s.fd.fininPending
    ensures !Go(s, val).fd.fininPending
  {
    hide Core, StartCard, GoTarget;
  }

  /** A card whose end was recorded at t keeps FININ pending, and a poll releases it from the timeout on and for 2^31
      microseconds, which makes the reader ready and changes nothing else.  At any other clock reading a poll
      leaves everything as it is and asks to be called again. */
  lemma FininWaitsForTimeout(s: Feeder, ev: Event, e: nat, now0: Word32, now1: Word32, drains: seq<nat>)
    requires Safe(s) && FlagsAgree(s) && !IsInject(ev) && !s.fd.fininPending && Step(s, ev).fd.fininPending
    requires e < 0x1_0000_0000
    ensures var r, now := Step(s, ev), (TimeOf(ev) + e) % 0x1_0000_0000;
            var p := Step(r, Poll(now0, now1, now, drains));
            if s.fd.fininToUs <= e < s.fd.fininToUs as nat + 0x8000_0000
            then p == r.(fd := r.fd.(fininPending := false), wire := r.wire.(ready := true))
                 && !OnPoll(r, now0, now1, now, drains).1
            else p == r && OnPoll(r, now0, now1, now, drains).1
  {
    hide Step, GoodDeck, NoPushWhileReady;
    PollIsStep(Step(s, ev), now0, now1, (TimeOf(ev) + e) % 0x1_0000_0000, drains);
    EndIsStamped(s, ev);
    StepFlags(s, ev);
    Passed(TimeOf(ev), s.fd.fininToUs, e);
  }
}
