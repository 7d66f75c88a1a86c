/** Mode flags of the feeder over whole runs. */
module FeederFlags {
  import opened Bits
  import opened Transcode
  import opened DeckImages
  import opened FeederModel

  /** No card was opened while FININ of the one before it was pending. */
  predicate NoStartWithFinin(trace: seq<TraceEvent>) {
    forall i :: 0 <= i < |trace| && trace[i].Start? ==> !trace[i].fininPending
  }

  /** ... nor on the way from s to r. */
  predicate CleanStarts(s: Feeder, r: Feeder) { NoStartWithFinin(s.trace) ==> NoStartWithFinin(r.trace) }

  /** The flags agree with the state: at most one of the three is set, and FIDEN mirrors the end of the deck. */
  predicate FlagsAgree(s: Feeder) {
    && (s.fd.presenting <==> s.st.state == Presenting)
    && (s.fd.fininPending ==> s.st.state == CardDone)
    && (s.fd.cmdPending ==> s.st.state != Presenting && s.st.state != Disarmed && !s.fd.fininPending)
    && (s.wire.fiden <==> s.st.state == Done)
    && (s.st.state == Error ==> s.wire.luren)
  }

  /** Flags inside a prefill: like FlagsAgree, for a card that may have just ended. */
  predicate PrefillFlags(s: Feeder) {
    FlagsAgree(s) && !s.fd.cmdPending && (s.st.state == Presenting || s.st.state == CardDone)
  }

  predicate IsInject(e: Event) { e.Ipc? && IpcOp(e.word) == IPC_INJECT_ERROR }

  /** Nothing in flight: an injected error does no harm here. */
  predicate Idle(s: Feeder) { !s.fd.presenting && !s.fd.fininPending && s.st.state != Done }

  lemma PresentNextFlags(s: Feeder, now: Word32)
    requires Core(s) && s.fd.deck.Some? && |s.wire.fifo| < FIFO_DEPTH && !s.wire.ready
    requires FlagsAgree(s) && s.fd.presenting
    ensures PrefillFlags(PresentNext(s, now)) && CleanStarts(s, PresentNext(s, now))
  {
  }

  lemma {:induction false} PrefillKeepsFlags(s: Feeder, now: Word32, drains: seq<nat>)
    requires Core(s) && s.fd.deck.Some? && !s.wire.ready
    requires PrefillFlags(s)
    ensures PrefillFlags(Prefill(s, now, drains)) && CleanStarts(s, Prefill(s, now, drains))
    decreases |drains|, FIFO_DEPTH - |s.wire.fifo|
  {
    if s.fd.presenting {
      var t := if drains == [] then s else WirePull(s, drains[0]);
      if |t.wire.fifo| != FIFO_DEPTH {
        PresentNextFlags(t, now);
        PrefillKeepsFlags(PresentNext(t, now), now, if drains == [] then [] else drains[1..]);
      }
    }
  }

  lemma OpenCardFlags(s: Feeder, now: Word32, drains: seq<nat>)
    requires Core(s) && s.fd.deck.Some? && FlagsAgree(s) && s.st.state == ArmedWait && !s.fd.cmdPending
    ensures FlagsAgree(OpenCard(s, now, drains))
    ensures !s.fd.fininPending ==> CleanStarts(s, OpenCard(s, now, drains))
  {
    assert PrefillFlags(Opened(s));
    PrefillKeepsFlags(Opened(s), now, drains);
  }

  lemma TriggerFlags(s: Feeder, viaFeed: bool, now: Word32, drains: seq<nat>)
    requires Core(s) && s.wire.feedIrq == s.fd.presenting && (!s.fd.cmdPending ==> Safe(s))
    requires FlagsAgree(s)
    ensures FlagsAgree(TriggerPresent(s, viaFeed, now, drains))
        && CleanStarts(s, TriggerPresent(s, viaFeed, now, drains))
  {
    if s.fd.cmdPending {
      var u := FeedPast(s.(fd := s.fd.(cmdPending := false)), viaFeed);
      if u.st.state == ArmedWait {
        OpenCardFlags(u, now, drains);
      }
    }
  }

  lemma PollFlags(s: Feeder, now0: Word32, now1: Word32, now2: Word32, drains: seq<nat>)
    requires Safe(s) && FlagsAgree(s)
    ensures var r := OnPoll(s, now0, now1, now2, drains).0; FlagsAgree(r) && CleanStarts(s, r)
  {
    if !PollBusyEarly(s, now0) {
      TriggerFlags(s, false, now1, drains);
    }
  }

  lemma ArmFlags(s: Feeder, slot: nat)
    requires Core(s) && slot < 2 && GoodDeck(s.decks[slot])
    ensures FlagsAgree(Arm(s, slot))
  {
  }

  lemma DisarmFlags(s: Feeder)
    requires Core(s)
    ensures FlagsAgree(Disarm(s))
  {
  }

  lemma RewindFlags(s: Feeder)
    requires Safe(s) && (s.fd.deck.Some? || FlagsAgree(s))
    ensures FlagsAgree(Rewind(s))
  {
  }

  lemma GoFlags(s: Feeder, val: Word16)
    requires Safe(s) && (GoesTo(s, val) || FlagsAgree(s))
    ensures FlagsAgree(Go(s, val))
  {
  }

  /** GO names a card of the armed deck. */
  predicate GoesTo(s: Feeder, val: Word16) {
    s.fd.deck.Some? && val >= 1 && GoTarget(s.fd.deck.value, val) < |s.fd.deck.value.idx|
  }

  /** The console words that start over: ARM, DISARM, and REWIND and GO with a deck to start over on. */
  predicate StartsOver(s: Feeder, word: Word32) {
    IpcOp(word) == IPC_ARM || IpcOp(word) == IPC_DISARM || (IpcOp(word) == IPC_REWIND && s.fd.deck.Some?)
    || (IpcOp(word) == IPC_GO && GoesTo(s, IpcVal(word)))
  }

  /** They restore the flags from every safe state, whatever errors were injected before. */
  lemma StartingOverRestoresFlags(s: Feeder, word: Word32)
    requires Safe(s) && Armable(s.decks, IpcOp(word), IpcArg(word)) && StartsOver(s, word)
    ensures FlagsAgree(OnIpc(s, word))
  {
    hide Arm, Disarm, Rewind, Go, Core, IpcArg, IpcVal, IpcOp, GoesTo;
    var op := IpcOp(word);
    if op == IPC_ARM {
      ArmFlags(s, IpcArg(word) % 2);
    } else if op == IPC_DISARM {
      DisarmFlags(s);
    } else if op == IPC_REWIND {
      RewindFlags(s);
    } else {
      GoFlags(s, IpcVal(word));
    }
  }

  lemma IpcFlags(s: Feeder, word: Word32)
    requires Safe(s) && FlagsAgree(s) && (IpcOp(word) == IPC_INJECT_ERROR ==> Idle(s))
    requires Armable(s.decks, IpcOp(word), IpcArg(word))
    ensures FlagsAgree(OnIpc(s, word))
  {
    hide Arm, Disarm, Rewind, Go, Core, IpcArg, IpcVal, IpcOp, GoesTo;
    var op := IpcOp(word);
    if StartsOver(s, word) {
      StartingOverRestoresFlags(s, word);
    } else if op == IPC_REWIND {
      RewindFlags(s);
    } else if op == IPC_GO {
      GoFlags(s, IpcVal(word));
    } else {
      assert FlagsAgree(IpcBody(s, op, IpcArg(word), IpcVal(word)));
    }
  }

  lemma IpcIsSilent(s: Feeder, word: Word32)
    requires Safe(s) && Armable(s.decks, IpcOp(word), IpcArg(word))
    ensures OnIpc(s, word).trace == s.trace
  {
    hide Core, IpcArg, IpcVal, IpcOp;
  }

  lemma PrepareFlags(s: Feeder, now: Word32)
    requires Core(s) && s.wire.feedIrq == s.fd.presenting && FlagsAgree(s)
    ensures FlagsAgree(PreparePresentation(s, now)) && CleanStarts(s, PreparePresentation(s, now))
  {
  }

  lemma AdvanceFlags(s: Feeder)
    requires Core(s) && FlagsAgree(s) && s.fd.deck.Some? && (s.st.state == ArmedWait || s.st.state == CardDone)
    requires !s.fd.fininPending
    ensures FlagsAgree(AdvanceCard(s)) && CleanStarts(s, AdvanceCard(s))
  {
  }

  lemma ReCmdFlags(s: Feeder, re: Byte, now: Word32)
    requires Safe(s) && FlagsAgree(s)
    ensures FlagsAgree(OnReCmd(s, re, now)) && CleanStarts(s, OnReCmd(s, re, now))
  {
    hide FlagsAgree, NoStartWithFinin, PreparePresentation, RejectCard, ResetError, Core, Silent;
    var t := CountCmd(s);
    CountFlags(s);
    ResetFlags(t);
    PrepareFlags(t, now);
    LatchFlags(t, Normal);
    PrepareFlags(LatchMode(t, Normal), now);
    LatchFlags(t, Colbin);
    PrepareFlags(LatchMode(t, Colbin), now);
    RejectFlags(t);
    LupobFlags(ReCmdBody(t, re, now));
    SilentIsClean(t, ReCmdBody(t, re, now));
  }

  lemma SilentIsClean(s: Feeder, t: Feeder)
    requires Silent(s, t)
    ensures CleanStarts(s, t)
  {
  }

  lemma LupobFlags(s: Feeder)
    requires FlagsAgree(s)
    ensures FlagsAgree(LupobUpdate(s))
  {
  }

  lemma CountFlags(s: Feeder)
    requires Safe(s) && FlagsAgree(s)
    ensures Safe(CountCmd(s)) && FlagsAgree(CountCmd(s))
    ensures FlagsAgree(CountUnknown(CountCmd(s)))
  {
  }

  lemma LatchFlags(s: Feeder, mode: TcMode)
    requires Safe(s) && FlagsAgree(s)
    ensures Safe(LatchMode(s, mode)) && FlagsAgree(LatchMode(s, mode))
  {
  }

  lemma ResetFlags(s: Feeder)
    requires Safe(s) && FlagsAgree(s)
    ensures FlagsAgree(ResetError(s))
  {
  }

  lemma RejectFlags(s: Feeder)
    requires Safe(s) && FlagsAgree(s)
    ensures FlagsAgree(RejectCard(s)) && CleanStarts(s, RejectCard(s))
  {
    hide AdvanceCard;
    if s.fd.deck.Some? && (s.st.state == ArmedWait || s.st.state == CardDone) {
      AdvanceFlags(FininRelease(s));
    }
  }

  lemma Tu03Flags(s: Feeder, now: Word32, drains: seq<nat>)
    requires Safe(s) && FlagsAgree(s)
    ensures FlagsAgree(OnTu03(s, now, drains)) && CleanStarts(s, OnTu03(s, now, drains))
  {
    hide AdvanceCard, TriggerPresent, NoStartWithFinin;
    var t := CountFeed(s);
    if t.fd.cmdPending {
      TriggerFlags(FininRelease(t), true, now, drains);
    } else if t.fd.deck.Some? && t.st.state == CardDone {
      AdvanceFlags(FininRelease(t));
    }
  }

  lemma TxFeedFlags(s: Feeder, now: Word32)
    requires Safe(s) && FlagsAgree(s)
    ensures FlagsAgree(Step(s, TxFeed(now))) && CleanStarts(s, Step(s, TxFeed(now)))
  {
    hide PresentNext;
    if s.wire.feedIrq && |s.wire.fifo| < FIFO_DEPTH {
      PresentNextFlags(s, now);
    }
  }

  lemma StepFlags(s: Feeder, e: Event)
    requires Safe(s) && FlagsAgree(s) && (IsInject(e) ==> Idle(s))
    ensures FlagsAgree(Step(s, e)) && CleanStarts(s, Step(s, e))
  {
    hide OnReCmd, OnTu03, OnPoll, OnIpc, Core;
    match e
    case ReCmd(re, now) => ReCmdFlags(s, re, now);
    case Tu03(now, drains) => Tu03Flags(s, now, drains);
    case TxFeed(now) => TxFeedFlags(s, now);
    case Poll(now0, now1, now2, drains) => PollFlags(s, now0, now1, now2, drains);
    case Ipc(word) =>
      if Armable(s.decks, IpcOp(word), IpcArg(word)) {
        IpcFlags(s, word);
        IpcIsSilent(s, word);
      }
    case Pull =>
    case Load(slot, deck) =>
  }

  /** An injected error keeps the flags coherent exactly when nothing is in flight. */
  lemma InjectKeepsFlagsIff(s: Feeder, e: Event)
    requires Safe(s) && FlagsAgree(s) && IsInject(e)
    ensures FlagsAgree(Step(s, e)) <==> Idle(s)
  {
    if Idle(s) {
      StepFlags(s, e);
    }
  }

  /** The state before the i-th event. */
  function StateAt(s: Feeder, es: seq<Event>, i: nat): Feeder
    requires Safe(s) && i <= |es|
  {
    Run(s, es[..i])
  }

  lemma StateAtNext(s: Feeder, es: seq<Event>, i: nat)
    requires Safe(s) && i < |es|
    ensures StateAt(s, es, i + 1) == Step(StateAt(s, es, i), es[i])
  {
    assert es[..i + 1][..i] == es[..i];
  }

  /** Over any run, the flags agree with the state throughout if and only if every error was injected at rest, and then
      no card is opened while FININ is pending. */
  lemma FlagsAgreeThroughoutIff(s: Feeder, es: seq<Event>)
    requires Safe(s) && FlagsAgree(s)
    ensures (forall i | 0 <= i <= |es| :: FlagsAgree(StateAt(s, es, i)))
       <==> (forall i | 0 <= i < |es| :: IsInject(es[i]) ==> Idle(StateAt(s, es, i)))
    ensures (forall i | 0 <= i < |es| :: IsInject(es[i]) ==> Idle(StateAt(s, es, i))) && NoStartWithFinin(s.trace)
        ==> NoStartWithFinin(StateAt(s, es, |es|).trace)
  {
    if forall i | 0 <= i <= |es| :: FlagsAgree(StateAt(s, es, i)) {
      forall i | 0 <= i < |es| ensures IsInject(es[i]) ==> Idle(StateAt(s, es, i)) {
        StateAtNext(s, es, i);
        if IsInject(es[i]) {
          assert FlagsAgree(StateAt(s, es, i + 1));
          InjectKeepsFlagsIff(StateAt(s, es, i), es[i]);
        }
      }
    }
    if forall i | 0 <= i < |es| :: IsInject(es[i]) ==> Idle(StateAt(s, es, i)) {
      forall i | 0 <= i <= |es| ensures FlagsAgree(StateAt(s, es, i)) {
        FlagsUpTo(s, es, i);
      }
      FlagsUpTo(s, es, |es|);
    }
  }

  lemma NotYet(s: Feeder, es: seq<Event>)
    requires Safe(s)
    ensures StateAt(s, es, 0) == s
  {
  }

  lemma {:induction false} FlagsUpTo(s: Feeder, es: seq<Event>, n: nat)
    requires Safe(s) && FlagsAgree(s) && n <= |es|
    requires forall i | 0 <= i < |es| :: IsInject(es[i]) ==> Idle(StateAt(s, es, i))
    ensures FlagsAgree(StateAt(s, es, n)) && CleanStarts(s, StateAt(s, es, n))
    decreases n
  {
    hide Step, FlagsAgree, NoStartWithFinin, Idle, IsInject;
    if n == 0 {
      NotYet(s, es);
    } else {
      FlagsUpTo(s, es, n - 1);
      StateAtNext(s, es, n - 1);
      StepFlags(StateAt(s, es, n - 1), es[n - 1]);
    }
  }

  /** What goes wrong otherwise: an error injected while a card is being presented, cleared by the machine and followed
      by a read command, leaves a command pending behind a card that is still being pushed. */
  lemma InjectedMidCard(s: Feeder, inject: Event, now: Word32)
    requires Safe(s) && s.fd.presenting && IsInject(inject)
    ensures var r := Run(s, [inject] + [ReCmd(RESET_ERROR, now)] + [ReCmd(READ_UNCHANGED, now)]);
            r.fd.presenting && r.fd.cmdPending && r.st.state == ArmedWait
            && r.st.col == s.st.col && r.st.half == s.st.half
  {
    var reset, read := ReCmd(RESET_ERROR, now), ReCmd(READ_UNCHANGED, now);
    var s1, s2 := Run(s, [inject]), Run(s, [inject] + [reset]);
    RunSnoc(s, [], inject);
    assert [] + [inject] == [inject];
    InjectOnly(s, inject);
    RunSnoc(s, [inject], reset);
    ResetWhilePresenting(s1, now);
    RunSnoc(s, [inject] + [reset], read);
    ReadWhilePresenting(s2, now);
  }

  lemma InjectOnly(s: Feeder, inject: Event)
    requires Safe(s) && IsInject(inject)
    ensures Step(s, inject).fd == s.fd && Step(s, inject).st == s.st.(state := Error)
  {
  }

  lemma ResetWhilePresenting(s: Feeder, now: Word32)
    requires Safe(s) && s.fd.presenting && s.st.state == Error
    ensures var r := OnReCmd(s, RESET_ERROR, now);
            r.fd.presenting && r.st.state == ArmedWait && r.st.col == s.st.col && r.st.half == s.st.half
  {
  }

  lemma ReadWhilePresenting(s: Feeder, now: Word32)
    requires Safe(s) && s.fd.presenting && s.st.state == ArmedWait
    ensures var r := OnReCmd(s, READ_UNCHANGED, now);
            r.fd.presenting && r.fd.cmdPending && r.st == s.st.(nCmds := r.st.nCmds)
  {
  }

  /** The boot state satisfies both invariants, whatever the two slots hold; at power-up they are empty. */
  lemma InitHolds(decks: seq<DeckImage>)
    requires TwoSlots(decks)
    ensures Safe(Init(decks)) && FlagsAgree(Init(decks))
  {
  }

  /** Every run, injected errors included: no column is read outside the deck (the preconditions of PresentNext), the
      ready line shows its formula between handlers, no nibble is pushed while it shows ready, the feed interrupt is on
      exactly while a card is being presented, and the state that opens flash writes has no deck and nothing in
      flight. */
  lemma EveryRunIsSafe(decks: seq<DeckImage>, es: seq<Event>)
    requires TwoSlots(decks)
    ensures var r := Run(Init(decks), es);
            && (r.fd.deck.Some? ==> CursorInDeck(r))
            && (r.wire.ready <==> r.fd.deck.Some? && !r.fd.presenting && !r.fd.cmdPending && !r.fd.fininPending
                                  && (r.st.state == ArmedWait || r.st.state == CardDone))
            && (forall i :: 0 <= i < |r.trace| && r.trace[i].Push? ==> !r.trace[i].ready)
            && r.wire.feedIrq == r.fd.presenting
            && |r.wire.fifo| <= 4
            && (r.st.state == Disarmed ==>
                  r.fd.deck.None? && !r.fd.presenting && !r.fd.cmdPending && !r.fd.fininPending)
  {
    InitHolds(decks);
  }
}
