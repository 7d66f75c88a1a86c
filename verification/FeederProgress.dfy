/** When cards and decks end. */
module FeederProgress {
  import opened Wrappers
  import opened Bits
  import opened DeckImages
  import opened FeederModel
  import opened FeederFlags
  import opened FeederSession

  /** The presenter takes a word and the TX interrupt fires, n times. */
  function FeedEvents(n: nat): (es: seq<Event>)
    ensures forall i :: 0 <= i < |es| ==> LoadEvent(es[i])
  {
    if n == 0 then [] else FeedEvents(n - 1) + [Pull, TxFeed(0)]
  }

  /** One turn of the feed pushes exactly one character of the card being presented. */
  lemma FeedTurn(s: Feeder)
    requires Safe(s) && s.fd.presenting
    ensures Step(Step(s, Pull), TxFeed(0)) == PresentNext(WirePull(s, 1), 0)
    ensures |WirePull(s, 1).wire.fifo| < FIFO_DEPTH
  {
    hide GoodDeck, PresentNext;
  }

  /** A card of more than 256 columns never ends: the 8-bit column counter cannot reach its last column. */
  predicate StuckCard(s: Feeder) {
    s.st.state == Presenting && s.fd.deck.Some? &&
    s.st.card < |s.fd.deck.value.idx| && s.fd.deck.value.idx[s.st.card].ncols > 256
  }

  /** Anything the machine, the presenter, the clock and the console's tuning can do; no other console word. */
  predicate Uninterrupted(e: Event) { e.Ipc? ==> IpcOp(e.word) == IPC_SET_PARAM }

  predicate AllUninterrupted(es: seq<Event>) { forall i :: 0 <= i < |es| ==> Uninterrupted(es[i]) }

  predicate StillStuck(s: Feeder, r: Feeder) {
    FlagsAgree(r) && StuckCard(r) && r.fd.deck == s.fd.deck && r.st.card == s.st.card
  }

  /** No such event ends or leaves a card that is too wide. */
  lemma StuckStep(s: Feeder, e: Event)
    requires Safe(s) && FlagsAgree(s) && StuckCard(s) && Uninterrupted(e)
    ensures StillStuck(s, Step(s, e))
  {
    hide PreparePresentation, ResetError, RejectCard, TriggerPresent, AdvanceCard, CurrentChar, GoodDeck,
         NoPushWhileReady, IpcArg, IpcVal, IpcOp;
    StepFlags(s, e);
    match e
    case ReCmd(re, now) => StuckCommand(s, re, now);
    case Tu03(now, drains) =>
    case TxFeed(now) =>
    case Poll(now0, now1, now2, drains) =>
    case Ipc(word) => StuckTune(s, IpcArg(word), IpcVal(word));
    case Pull =>
    case Load(slot, deck) =>
  }

  lemma StuckCommand(s: Feeder, re: Byte, now: Word32)
    requires Safe(s) && FlagsAgree(s) && StuckCard(s)
    ensures var r := OnReCmd(s, re, now);
            StuckCard(r) && r.fd.deck == s.fd.deck && r.st.card == s.st.card
  {
    hide GoodDeck, NoPushWhileReady;
  }

  lemma StuckTune(s: Feeder, param: nat, val: Word16)
    requires StuckCard(s)
    ensures var r := SetParam(s, param, val);
            r.st == s.st && r.fd.deck == s.fd.deck
  {
  }

  lemma {:induction false} StuckRun(s: Feeder, es: seq<Event>)
    requires Safe(s) && FlagsAgree(s) && StuckCard(s) && AllUninterrupted(es)
    ensures StillStuck(s, Run(s, es))
    decreases |es|
  {
    hide Step, FlagsAgree, Safe, Uninterrupted;
    if es != [] {
      var n := |es| - 1;
      StuckRun(s, es[..n]);
      StuckStep(Run(s, es[..n]), es[n]);
    }
  }

  lemma RunTwo(s: Feeder, es: seq<Event>, a: Event, b: Event)
    requires Safe(s)
    ensures Run(s, es + [a, b]) == Step(Step(Run(s, es), a), b)
  {
    hide Step;
    RunSnoc(s, es, a);
    RunSnoc(s, es + [a], b);
    assert es + [a, b] == (es + [a]) + [b];
  }

  /** Characters of the current card still to be pushed. */
  function Remaining(s: Feeder): nat
    requires CursorInDeck(s)
  {
    var n := s.fd.deck.value.idx[s.st.card].ncols;
    if PacksTwo(CurrentMode(s)) then 2 * (n - s.st.col) - s.st.half else n - s.st.col
  }

  /** A card of at most 256 columns is parked after exactly its remaining characters. */
  lemma {:induction false} ShortCardEnds(s: Feeder, n: nat)
    requires Safe(s) && FlagsAgree(s) && s.st.state == Presenting
    requires s.fd.deck.value.idx[s.st.card].ncols <= 256
    requires n <= Remaining(s)
    ensures var r := Run(s, FeedEvents(n));
            && FlagsAgree(r) && r.fd.deck == s.fd.deck && r.st.card == s.st.card
            && r.fd.postLoaderColbin == s.fd.postLoaderColbin && r.fd.latchedMode == s.fd.latchedMode
            && (n < Remaining(s) ==> r.st.state == Presenting && Remaining(r) == Remaining(s) - n)
            && (n == Remaining(s) ==> r.st.state == CardDone) && !r.fd.cmdPending
  {
    hide Step, Run;
    if n > 0 {
      ShortCardEnds(s, n - 1);
      RunTwo(s, FeedEvents(n - 1), Pull, TxFeed(0));
      CountdownTurn(Run(s, FeedEvents(n - 1)));
    } else {
      assert Remaining(s) > 0 && Run(s, FeedEvents(0)) == s by { NoFeeds(s); }
    }
  }

  lemma NoFeeds(s: Feeder)
    requires Safe(s)
    ensures Run(s, FeedEvents(0)) == s
  {
  }

  lemma CountdownTurn(s: Feeder)
    requires Safe(s) && FlagsAgree(s) && s.st.state == Presenting
    requires s.fd.deck.value.idx[s.st.card].ncols <= 256
    ensures var r := Step(Step(s, Pull), TxFeed(0));
            && FlagsAgree(r) && r.fd.deck == s.fd.deck && r.st.card == s.st.card
            && r.fd.postLoaderColbin == s.fd.postLoaderColbin && r.fd.latchedMode == s.fd.latchedMode
            && (Remaining(s) > 1 ==> r.st.state == Presenting && Remaining(r) == Remaining(s) - 1)
            && (Remaining(s) == 1 ==> r.st.state == CardDone) && !r.fd.cmdPending
  {
    hide Step, PresentNext;
    FeedTurn(s);
    var t := WirePull(s, 1);
    assert FlagsAgree(t);
    PresentNextFlags(t, 0);
    CountdownNext(t);
  }

  lemma CountdownNext(s: Feeder)
    requires Core(s) && s.fd.deck.Some? && |s.wire.fifo| < FIFO_DEPTH && !s.wire.ready && s.st.state == Presenting
    requires s.fd.deck.value.idx[s.st.card].ncols <= 256
    ensures var r := PresentNext(s, 0);
            && r.fd.deck == s.fd.deck && r.st.card == s.st.card
            && r.fd.postLoaderColbin == s.fd.postLoaderColbin && r.fd.latchedMode == s.fd.latchedMode
            && (Remaining(s) > 1 ==> r.st.state == Presenting && Remaining(r) == Remaining(s) - 1)
            && (Remaining(s) == 1 ==> r.st.state == CardDone) && r.fd.cmdPending == s.fd.cmdPending
  {
    hide CurrentChar, GoodDeck, NoPushWhileReady;
    var n := s.fd.deck.value.idx[s.st.card].ncols;
    assert AtLastColumn(s) <==> n == s.st.col + 1;
  }

  /** A presented card can come to its end, in any run the console does not interrupt, exactly when it has at most 256
      columns. */
  lemma CardEndsIff(s: Feeder)
    requires Safe(s) && FlagsAgree(s) && s.st.state == Presenting
    ensures (exists es :: AllUninterrupted(es) && Run(s, es).st.state == CardDone)
       <==> s.fd.deck.value.idx[s.st.card].ncols <= 256
  {
    hide Run, FeedEvents, AllUninterrupted;
    if s.fd.deck.value.idx[s.st.card].ncols <= 256 {
      var es := FeedEvents(Remaining(s));
      ShortCardEnds(s, Remaining(s));
      FeedsUninterrupted(Remaining(s));
      assert AllUninterrupted(es) && Run(s, es).st.state == CardDone;
    } else {
      forall es | AllUninterrupted(es) ensures Run(s, es).st.state != CardDone {
        StuckRun(s, es);
      }
    }
  }

  lemma FeedsUninterrupted(n: nat)
    ensures AllUninterrupted(FeedEvents(n))
  {
  }

  /** Parked between cards, or waiting at one, with no command latched. */
  predicate Parked(s: Feeder, d: DeckImage) {
    SessionDeck(s, d) && !s.fd.cmdPending && (s.st.state == ArmedWait || s.st.state == CardDone)
  }

  /** The card the next feed presents. */
  function NextCard(s: Feeder): nat {
    if s.st.state == CardDone then s.st.card + 1 else s.st.card
  }

  const READ: Event := ReCmd(READ_UNCHANGED, 0)
  const FEED: Event := Tu03(0, [])

  lemma ReadLatches(s: Feeder, d: DeckImage)
    requires Parked(s, d)
    ensures var r := Step(s, READ);
            SessionDeck(r, d) && r.fd.cmdPending && r.st.state == s.st.state && r.st.card == s.st.card
  {
    hide GoodDeck;
    StepFlags(s, READ);
  }

  lemma FeedOpens(s: Feeder, d: DeckImage)
    requires SessionDeck(s, d) && s.fd.cmdPending && (s.st.state == ArmedWait || s.st.state == CardDone)
    ensures var r := Step(s, FEED);
            && SessionDeck(r, d) && !r.fd.cmdPending
            && if NextCard(s) == |d.idx| then r.st.state == Done
               else (r.st.state == Presenting || r.st.state == CardDone) && r.st.card == NextCard(s)
    ensures NextCard(s) < |d.idx| && d.idx[NextCard(s)].ncols > 256 ==> StuckCard(Step(s, FEED))
  {
    hide GoodDeck;
    StepFlags(s, FEED);
    var t := FininRelease(CountFeed(s));
    var u := FeedPast(t.(fd := t.fd.(cmdPending := false)), true);
    assert FlagsAgree(u);
    if NextCard(s) < |d.idx| {
      assert u.st.state == ArmedWait && u.st.card == NextCard(s) && u.fd.deck == Some(d);
      FeedOpensCard(u, d);
    }
  }

  lemma FeedOpensCard(u: Feeder, d: DeckImage)
    requires Core(u) && FlagsAgree(u) && u.st.state == ArmedWait && !u.fd.cmdPending && u.fd.deck == Some(d)
    ensures var r := OpenCard(u, 0, []);
            && r.fd.deck == Some(d) && !r.fd.cmdPending && r.st.card == u.st.card
            && (r.st.state == Presenting || r.st.state == CardDone)
    ensures d.idx[u.st.card].ncols > 256 ==> StuckCard(OpenCard(u, 0, []))
  {
    hide GoodDeck, NoPushWhileReady;
    assert PrefillFlags(Opened(u));
    PrefillKeepsFlags(Opened(u), 0, []);
    if d.idx[u.st.card].ncols > 256 { PrefillStuck(Opened(u), 0, []); }
  }

  lemma PresentNextStuck(s: Feeder, now: Word32)
    requires Core(s) && s.fd.deck.Some? && |s.wire.fifo| < FIFO_DEPTH && !s.wire.ready && StuckCard(s)
    ensures StuckCard(PresentNext(s, now))
  {
    hide CurrentChar, NoPushWhileReady, EffectiveMode;
  }

  /** Nor does the prefill end such a card. */
  lemma {:induction false} PrefillStuck(s: Feeder, now: Word32, drains: seq<nat>)
    requires Core(s) && s.fd.deck.Some? && !s.wire.ready && StuckCard(s)
    ensures StuckCard(Prefill(s, now, drains))
    decreases |drains|, FIFO_DEPTH - |s.wire.fifo|
  {
    hide PresentNext, GoodDeck, NoPushWhileReady;
    if s.fd.presenting {
      var t := if drains == [] then s else WirePull(s, drains[0]);
      if |t.wire.fifo| != FIFO_DEPTH {
        PresentNextStuck(t, now);
        PrefillStuck(PresentNext(t, now), now, if drains == [] then [] else drains[1..]);
      }
    }
  }

  /** From any parked position with a card of more than 256 columns next: a read command and a feed open it, and then no
      run that the console leaves alone ends it. */
  lemma WideCardStalls(s: Feeder, d: DeckImage, es: seq<Event>)
    requires Parked(s, d) && NextCard(s) < |d.idx| && d.idx[NextCard(s)].ncols > 256 && AllUninterrupted(es)
    ensures var r := Run(s, [READ, FEED] + es);
            r.st.state == Presenting && r.st.card == NextCard(s) && r.fd.deck == Some(d)
  {
    hide Step, Run, Safe, FlagsAgree, AllUninterrupted;
    ReadLatches(s, d);
    FeedOpens(Step(s, READ), d);
    RunTwo(s, [], READ, FEED);
    assert [] + [READ, FEED] == [READ, FEED];
    RunNothing(s);
    StuckRun(Run(s, [READ, FEED]), es);
    RunConcat(s, [READ, FEED], es);
  }

  lemma RunNothing(s: Feeder)
    requires Safe(s)
    ensures Run(s, []) == s
  {
  }

  /** One read command, one feed and the FIFO refills they need: the next card, or the end of the deck. */
  lemma NextCardCanBePresented(s: Feeder, d: DeckImage) returns (es: seq<Event>)
    requires Parked(s, d) && ShortCards(d)
    ensures forall i :: 0 <= i < |es| ==> LoadEvent(es[i])
    ensures var r := Run(s, es);
            r.st.state == Done || (Parked(r, d) && NextCard(r) == NextCard(s) + 1 && NextCard(s) < |d.idx|)
  {
    hide Step;
    ReadLatches(s, d);
    FeedOpens(Step(s, READ), d);
    RunTwo(s, [], READ, FEED);
    es := [] + [READ, FEED];
    var t := Run(s, es);
    if t.st.state == Presenting {
      var feeds := FeedEvents(Remaining(t));
      ShortCardEnds(t, Remaining(t));
      RunConcat(s, es, feeds);
      es := es + feeds;
    }
  }

  /** From any parked position, some admissible continuation reaches the end of the deck. */
  lemma {:induction false} DeckCanBeExhausted(s: Feeder, d: DeckImage) returns (es: seq<Event>)
    requires Parked(s, d) && ShortCards(d)
    ensures Run(s, es).st.state == Done
    ensures forall i :: 0 <= i < |es| ==> LoadEvent(es[i])
    decreases |d.idx| - NextCard(s)
  {
    hide Step, Run;
    es := NextCardCanBePresented(s, d);
    if Run(s, es).st.state != Done {
      var rest := DeckCanBeExhausted(Run(s, es), d);
      RunConcat(s, es, rest);
      es := es + rest;
    }
  }
}
