/** The words that reach the presenter are the characters the trace records, in order and without loss. */
module FeederWords {
  import opened Bits
  import opened PresenterWord
  import opened FeederModel

  function CharOf(e: TraceEvent): seq<Char> {
    if e.Push? then [Char(e.present % 16, e.fini)] else []
  }

  /** The characters pushed, oldest first. */
  function CharsOf(trace: seq<TraceEvent>): seq<Char> {
    if trace == [] then [] else CharOf(trace[0]) + CharsOf(trace[1..])
  }

  lemma {:induction false} CharsOfConcat(a: seq<TraceEvent>, b: seq<TraceEvent>)
    ensures CharsOf(a + b) == CharsOf(a) + CharsOf(b)
    decreases |a|
  {
    hide CharOf;
    if a == [] {
      assert a + b == b;
    } else {
      CharsOfConcat(a[1..], b);
      assert (a + b)[1..] == a[1..] + b;
    }
  }

  lemma CharsOfSnoc(trace: seq<TraceEvent>, e: TraceEvent)
    ensures CharsOf(trace + [e]) == CharsOf(trace) + CharOf(e)
  {
    CharsOfConcat(trace, [e]);
  }

  /** Words taken by the presenter, then words still queued. */
  function Sent(w: Wire): seq<Char> { Samples(w.pulled + w.fifo) }

  predicate WordsAgree(s: Feeder, before: seq<Char>) {
    before + Sent(s.wire) == CharsOf(s.trace)
  }

  lemma PushWords(s: Feeder, present: Byte, fini: bool, before: seq<Char>)
    requires WordsAgree(s, before)
    ensures WordsAgree(WirePush(s, present, fini), before)
  {
    var word := Pack(present, fini, s.fd.wTicks, s.fd.gTicks);
    FieldsRecovered(present, fini, s.fd.wTicks, s.fd.gTicks);
    CharsOfSnoc(s.trace, Push(present, fini, s.wire.ready));
    assert s.wire.pulled + (s.wire.fifo + [word]) == (s.wire.pulled + s.wire.fifo) + [word];
    assert Samples((s.wire.pulled + s.wire.fifo) + [word]) == Samples(s.wire.pulled + s.wire.fifo)
        + [Sample(word % 0x200)];
  }

  lemma PullWords(s: Feeder, n: nat, before: seq<Char>)
    requires WordsAgree(s, before)
    ensures WordsAgree(WirePull(s, n), before)
  {
    var r := WirePull(s, n);
    assert r.wire.pulled + r.wire.fifo == s.wire.pulled + s.wire.fifo;
  }

  /** Nothing but a push adds characters. */
  lemma SilentWords(s: Feeder, t: Feeder, e: TraceEvent, before: seq<Char>)
    requires WordsAgree(s, before) && !e.Push?
    requires t.wire.pulled == s.wire.pulled && t.wire.fifo == s.wire.fifo
    requires t.trace == s.trace || t.trace == s.trace + [e]
    ensures WordsAgree(t, before)
  {
    CharsOfSnoc(s.trace, e);
  }

  lemma PresentNextWords(s: Feeder, now: Word32, before: seq<Char>)
    requires Core(s) && s.fd.deck.Some? && |s.wire.fifo| < FIFO_DEPTH && !s.wire.ready
    requires WordsAgree(s, before)
    ensures WordsAgree(PresentNext(s, now), before)
  {
    hide CurrentChar, WordsAgree, WirePush;
    var c := CurrentChar(s);
    var t := WirePush(s, c.0, c.1);
    PushWords(s, c.0, c.1, before);
    SilentWords(t, PresentNext(s, now), End(t.st.card), before);
  }

  lemma {:induction false} PrefillWords(s: Feeder, now: Word32, drains: seq<nat>, before: seq<Char>)
    requires Core(s) && s.fd.deck.Some? && !s.wire.ready && WordsAgree(s, before)
    ensures WordsAgree(Prefill(s, now, drains), before)
    decreases |drains|, FIFO_DEPTH - |s.wire.fifo|
  {
    if s.fd.presenting {
      var t := if drains == [] then s else WirePull(s, drains[0]);
      if drains != [] {
        PullWords(s, drains[0], before);
      }
      if |t.wire.fifo| != FIFO_DEPTH {
        PresentNextWords(t, now, before);
        PrefillWords(PresentNext(t, now), now, if drains == [] then [] else drains[1..], before);
      }
    }
  }

  lemma TriggerWords(s: Feeder, viaFeed: bool, now: Word32, drains: seq<nat>, before: seq<Char>)
    requires Core(s) && s.wire.feedIrq == s.fd.presenting && (!s.fd.cmdPending ==> Safe(s))
    requires WordsAgree(s, before)
    ensures WordsAgree(TriggerPresent(s, viaFeed, now, drains), before)
  {
    hide WordsAgree, Prefill, GoodDeck;
    if s.fd.cmdPending {
      var u := FeedPast(s.(fd := s.fd.(cmdPending := false)), viaFeed);
      SilentWords(s, u, Fiden(s.st.card), before);
      if u.st.state != ArmedWait {
        SilentWords(u, LupobUpdate(u), Fiden(0), before);
      } else {
        SilentWords(u, Opened(u), Start(u.st.card, CurrentMode(u), u.fd.fininPending), before);
        PrefillWords(Opened(u), now, drains, before);
        SilentWords(Prefill(Opened(u), now, drains), OpenCard(u, now, drains), Fiden(0), before);
      }
    }
  }

  /** Operations that restart the presenter and empty its FIFO. */
  predicate Restarts(e: Event) {
    e.Ipc? && IpcOp(e.word) in {IPC_ARM, IPC_DISARM, IPC_REWIND, IPC_GO}
  }

  lemma ReCmdWords(s: Feeder, re: Byte, now: Word32, before: seq<Char>)
    requires Safe(s) && WordsAgree(s, before)
    ensures WordsAgree(OnReCmd(s, re, now), before)
  {
    hide WordsAgree, Core, ReCmdBody;
    SilentWords(s, OnReCmd(s, re, now), Fiden(s.st.card), before);
  }

  lemma Tu03Words(s: Feeder, now: Word32, drains: seq<nat>, before: seq<Char>)
    requires Safe(s) && WordsAgree(s, before)
    ensures WordsAgree(OnTu03(s, now, drains), before)
  {
    hide WordsAgree, TriggerPresent, GoodDeck;
    var t := CountFeed(s);
    SilentWords(s, FininRelease(t), Fiden(0), before);
    if t.fd.cmdPending {
      TriggerWords(FininRelease(t), true, now, drains, before);
    } else {
      SilentWords(s, OnTu03(s, now, drains), Fiden(s.st.card), before);
    }
  }

  lemma PollWords(s: Feeder, now0: Word32, now1: Word32, now2: Word32, drains: seq<nat>, before: seq<Char>)
    requires Safe(s) && WordsAgree(s, before)
    ensures WordsAgree(OnPoll(s, now0, now1, now2, drains).0, before)
  {
    hide WordsAgree, Core, TriggerPresent;
    if !PollBusyEarly(s, now0) {
      var t := PollCommand(s, now0, now1, drains);
      if t != s {
        TriggerWords(s, false, now1, drains, before);
      }
      SilentWords(t, OnPoll(s, now0, now1, now2, drains).0, Fiden(0), before);
    }
  }

  lemma IpcWords(s: Feeder, word: Word32, before: seq<Char>)
    requires Safe(s) && WordsAgree(s, before) && !Restarts(Ipc(word))
    ensures WordsAgree(OnIpc(s, word), before)
  {
    hide WordsAgree, Core;
    SilentWords(s, OnIpc(s, word), Fiden(0), before);
  }

  lemma StepWords(s: Feeder, e: Event, before: seq<Char>)
    requires Safe(s) && WordsAgree(s, before) && !Restarts(e)
    ensures WordsAgree(Step(s, e), before)
  {
    hide WordsAgree, OnReCmd, OnTu03, OnPoll, OnIpc, WirePull;
    match e
    case ReCmd(re, now) => ReCmdWords(s, re, now, before);
    case Tu03(now, drains) => Tu03Words(s, now, drains, before);
    case TxFeed(now) =>
      if s.wire.feedIrq && |s.wire.fifo| < FIFO_DEPTH {
        PresentNextWords(s, now, before);
      }
    case Poll(now0, now1, now2, drains) => PollWords(s, now0, now1, now2, drains, before);
    case Ipc(word) => IpcWords(s, word, before);
    case Pull => PullWords(s, 1, before);
    case Load(slot, deck) => SilentWords(s, Step(s, e), Fiden(0), before);
  }

  /** Between restarts of the presenter, in every run (injected errors, ejects and card-rejects included), the words it
      has taken plus those still queued sample to exactly the characters pushed. */
  lemma {:induction false} WordsAgreeThroughout(s: Feeder, es: seq<Event>, before: seq<Char>)
    requires Safe(s) && WordsAgree(s, before)
    requires forall i :: 0 <= i < |es| ==> !Restarts(es[i])
    ensures WordsAgree(Run(s, es), before)
    decreases |es|
  {
    hide Step, WordsAgree;
    if es != [] {
      var n := |es| - 1;
      WordsAgreeThroughout(s, es[..n], before);
      StepWords(Run(s, es[..n]), es[n], before);
    }
  }
}
