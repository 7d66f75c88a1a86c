/** What the machine is shown between a repositioning of the deck and the end of it: the exact trace. */
module FeederSession {
  import opened Wrappers
  import opened Bits
  import opened Transcode
  import opened DeckImages
  import opened FeederModel
  import opened FeederFlags

  // ---- The specified stream of one card -----------------------------------------------------------------------

  function StreamLen(d: DeckImage, card: nat, mode: TcMode): nat
    requires card < |d.idx|
  {
    if PacksTwo(mode) then 2 * d.idx[card].ncols else d.idx[card].ncols
  }

  /** The k-th presentation of a card: high then low nibble of each column when two are packed per byte, else the
      column's value; FININ on the last one only. */
  function StreamAt(d: DeckImage, card: nat, mode: TcMode, k: nat): TraceEvent
    requires Indexed(d) && card < |d.idx| && k < StreamLen(d, card, mode)
  {
    var col := if PacksTwo(mode) then k / 2 else k;
    var byte := Transcoded(CardOf(d, card)[col], mode);
    var fini := k == StreamLen(d, card, mode) - 1;
    if !PacksTwo(mode) then Push(byte, fini, false)
    else if k % 2 == 0 then Push(byte / 16, false, false)
    else Push(byte % 16, fini, false)
  }

  function Stream(d: DeckImage, card: nat, mode: TcMode): (t: seq<TraceEvent>)
    requires Indexed(d) && card < |d.idx|
    ensures |t| == StreamLen(d, card, mode)
  {
    seq(StreamLen(d, card, mode), k requires 0 <= k < StreamLen(d, card, mode) => StreamAt(d, card, mode, k))
  }

  /** A card presented in part: opened, and the first `pos` presentations pushed. */
  function OpenTrace(d: DeckImage, card: nat, mode: TcMode, pos: nat): seq<TraceEvent>
    requires Indexed(d) && card < |d.idx| && pos <= StreamLen(d, card, mode)
  {
    [Start(card, mode, false)] + Stream(d, card, mode)[..pos]
  }

  /** A card presented in full. */
  function CardTrace(d: DeckImage, card: nat, mode: TcMode): seq<TraceEvent>
    requires Indexed(d) && card < |d.idx|
  {
    OpenTrace(d, card, mode, StreamLen(d, card, mode)) + [End(card)]
  }

  /** The cards first, first+1, ... presented in full, in the given modes. */
  function FullTrace(d: DeckImage, first: nat, modes: seq<TcMode>): seq<TraceEvent>
    requires Indexed(d) && first + |modes| <= |d.idx|
  {
    if modes == [] then []
    else
      var n := |modes| - 1;
      FullTrace(d, first, modes[..n]) + CardTrace(d, first + n, modes[n])
  }

  // ---- Sessions -----------------------------------------------------------------------------------------------

  /** The 8-bit column counter can reach every column. */
  predicate ShortCards(d: DeckImage) {
    forall i :: 0 <= i < |d.idx| ==> d.idx[i].ncols <= 256
  }

  predicate SessionDeck(s: Feeder, d: DeckImage) {
    Safe(s) && FlagsAgree(s) && s.fd.deck == Some(d) && GoodDeck(d)
  }

  /** Freshly positioned at a card: nothing pushed, nothing pending. */
  predicate AtStart(s: Feeder, d: DeckImage) {
    SessionDeck(s, d) && s.st.state == ArmedWait && s.st.col == 0 && s.st.half == 0 &&
    !s.fd.cmdPending && s.wire.fifo == [] && s.wire.pulled == []
  }

  function Position(s: Feeder, mode: TcMode): nat {
    if PacksTwo(mode) then 2 * s.st.col + s.st.half else s.st.col
  }

  /** The trace so far, as a function of the state: cards `first`.. in order, each exactly once, each exactly its
      specified stream. */
  predicate Shape(s: Feeder, d: DeckImage, first: nat, before: seq<TraceEvent>, modes: seq<TcMode>) {
    && s.fd.deck == Some(d) && GoodDeck(d) && ShortCards(d) && first + |modes| <= |d.idx|
    && match s.st.state {
         case ArmedWait =>
           s.st.card == first + |modes| && s.st.col == 0 && s.st.half == 0 &&
           s.trace == before + FullTrace(d, first, modes)
         case Presenting =>
           |modes| > 0 && s.st.card == first + |modes| - 1 && CurrentMode(s) == modes[|modes| - 1] &&
           OpenShape(s, d, modes[|modes| - 1]) &&
           s.trace == before + FullTrace(d, first, modes[..|modes| - 1])
                    + OpenTrace(d, s.st.card, modes[|modes| - 1], Position(s, modes[|modes| - 1]))
         case CardDone =>
           |modes| > 0 && s.st.card == first + |modes| - 1 && s.trace == before + FullTrace(d, first, modes)
         case Done =>
           first + |modes| == |d.idx| && s.trace == before + FullTrace(d, first, modes) + [Fiden(|d.idx| - 1)]
         case _ => false
       }
  }

  predicate OpenShape(s: Feeder, d: DeckImage, mode: TcMode) {
    s.st.card < |d.idx| && s.st.col < d.idx[s.st.card].ncols && s.st.half <= 1 && (!PacksTwo(mode) ==> s.st.half == 0)
  }

  /** Mode latch after a command byte. */
  function LatchedBy(re: Byte, latched: TcMode): TcMode {
    if re == READ_NORMAL_1 || re == READ_NORMAL_2 || re == READ_MIXED_1 || re == READ_MIXED_2 then Normal
    else if re == READ_BINARY || re == PUT_BINARY then Colbin
    else latched
  }

  /** Events of a load session: any reader command but card-reject, feeds, FIFO and clock events, and tuning; a command
      or a policy change that would switch the transcoding of a card half-way through it is left out. */
  predicate Admissible(s: Feeder, e: Event) {
    match e
    case ReCmd(re, _) =>
      re != CARD_REJECT &&
      (s.fd.presenting && s.fd.deck.Some? ==>
         EffectiveMode(s.fd.deck.value, s.st.card, s.fd.postLoaderColbin, LatchedBy(re, s.fd.latchedMode))
             == CurrentMode(s))
    case Ipc(word) =>
      IpcOp(word) == IPC_SET_PARAM &&
      (s.fd.presenting && s.fd.deck.Some? && IpcArg(word) == PARAM_POLICY ==>
         EffectiveMode(s.fd.deck.value, s.st.card, IpcVal(word) % 2 == 1, s.fd.latchedMode) == CurrentMode(s))
    case _ => true
  }

  ghost predicate AdmissibleRun(s: Feeder, es: seq<Event>)
    requires Safe(s)
  {
    forall i :: 0 <= i < |es| ==> Admissible(StateAt(s, es, i), es[i])
  }

  // ---- Pushing keeps the shape --------------------------------------------------------------------------------

  lemma StreamNext(d: DeckImage, card: nat, mode: TcMode, pos: nat)
    requires Indexed(d) && card < |d.idx| && pos < StreamLen(d, card, mode)
    ensures OpenTrace(d, card, mode, pos + 1) == OpenTrace(d, card, mode, pos) + [StreamAt(d, card, mode, pos)]
  {
    var t := Stream(d, card, mode);
    assert t[..pos + 1] == t[..pos] + [t[pos]];
  }

  lemma FullTraceNext(d: DeckImage, first: nat, modes: seq<TcMode>)
    requires Indexed(d) && |modes| > 0 && first + |modes| <= |d.idx|
    ensures FullTrace(d, first, modes)
         == FullTrace(d, first, modes[..|modes| - 1])
            + OpenTrace(d, first + |modes| - 1, modes[|modes| - 1],
                        StreamLen(d, first + |modes| - 1, modes[|modes| - 1]))
            + [End(first + |modes| - 1)]
  {
  }

  /** The character presented is the one the stream specifies at the cursor. */
  lemma CharIsStreamAt(s: Feeder, d: DeckImage, mode: TcMode)
    requires CursorInDeck(s) && s.fd.deck == Some(d) && CurrentMode(s) == mode && OpenShape(s, d, mode)
    ensures Position(s, mode) < StreamLen(d, s.st.card, mode)
    ensures var c := CurrentChar(s);
            StreamAt(d, s.st.card, mode, Position(s, mode)) == Push(c.0, c.1, false)
  {
    hide Transcoded;
    CardColumnAt(d, s.st.card, s.st.col);
    if PacksTwo(mode) { HalfPosition(s.st.col, s.st.half); }
  }

  lemma CardColumnAt(d: DeckImage, card: nat, col: nat)
    requires Indexed(d) && card < |d.idx| && col < d.idx[card].ncols
    ensures CardOf(d, card)[col] == d.cols[d.idx[card].off + col]
  {
  }

  lemma HalfPosition(col: nat, half: nat)
    requires half <= 1
    ensures (2 * col + half) / 2 == col && (2 * col + half) % 2 == half
  {
  }

  /** Right after the push, before the cursor moves. */
  predicate Pushed(t: Feeder, d: DeckImage, first: nat, before: seq<TraceEvent>, modes: seq<TcMode>) {
    && t.fd.deck == Some(d) && GoodDeck(d) && ShortCards(d) && 0 < |modes| && first + |modes| <= |d.idx|
    && t.st.state == Presenting && t.st.card == first + |modes| - 1
    && var mode := modes[|modes| - 1];
       CurrentMode(t) == mode && OpenShape(t, d, mode) && Position(t, mode) < StreamLen(d, t.st.card, mode) &&
       t.trace == before + FullTrace(d, first, modes[..|modes| - 1])
           + OpenTrace(d, t.st.card, mode, Position(t, mode) + 1)
  }

  lemma PushShape(s: Feeder, d: DeckImage, first: nat, before: seq<TraceEvent>, modes: seq<TcMode>)
    requires Core(s) && |s.wire.fifo| < FIFO_DEPTH && !s.wire.ready
    requires Shape(s, d, first, before, modes) && s.st.state == Presenting
    ensures var c := CurrentChar(s); Pushed(WirePush(s, c.0, c.1), d, first, before, modes)
  {
    hide CurrentChar, FullTrace, Stream, StreamAt, NoPushWhileReady;
    var mode := modes[|modes| - 1];
    CharIsStreamAt(s, d, mode);
    StreamNext(d, s.st.card, mode, Position(s, mode));
  }

  lemma ParkShape(t: Feeder, now: Word32, d: DeckImage, first: nat, before: seq<TraceEvent>, modes: seq<TcMode>)
    requires Pushed(t, d, first, before, modes) && CursorInDeck(t) && AtLastColumn(t)
    requires PacksTwo(CurrentMode(t)) ==> t.st.half == 1
    ensures Shape(ParkCard(t, now), d, first, before, modes)
  {
    hide ShortCards, Stream;
    FullTraceNext(d, first, modes);
  }

  lemma LowHalfShape(t: Feeder, d: DeckImage, first: nat, before: seq<TraceEvent>, modes: seq<TcMode>)
    requires Pushed(t, d, first, before, modes) && PacksTwo(CurrentMode(t)) && t.st.half == 0
    ensures Shape(LowHalfNext(t), d, first, before, modes)
  {
    hide ShortCards, GoodDeck, FullTrace, OpenTrace;
  }

  lemma NextColumnShape(t: Feeder, d: DeckImage, first: nat, before: seq<TraceEvent>, modes: seq<TcMode>)
    requires Pushed(t, d, first, before, modes) && CursorInDeck(t) && !AtLastColumn(t)
    requires PacksTwo(CurrentMode(t)) ==> t.st.half == 1
    ensures Shape(NextColumn(t), d, first, before, modes)
  {
    hide GoodDeck, FullTrace, OpenTrace;
    assert d.idx[t.st.card].ncols <= 256;
  }

  lemma PresentNextShape(s: Feeder, now: Word32, d: DeckImage, first: nat, before: seq<TraceEvent>, modes: seq<TcMode>)
    requires Core(s) && |s.wire.fifo| < FIFO_DEPTH && !s.wire.ready
    requires Shape(s, d, first, before, modes) && s.st.state == Presenting
    ensures Shape(PresentNext(s, now), d, first, before, modes)
  {
    hide CurrentChar, FullTrace, OpenTrace, GoodDeck, ParkCard, Pushed, OpenShape, ShortCards, NoPushWhileReady;
    var c := CurrentChar(s);
    var t := WirePush(s, c.0, c.1);
    PushShape(s, d, first, before, modes);
    if PacksTwo(CurrentMode(s)) && s.st.half == 0 {
      LowHalfShape(t, d, first, before, modes);
    } else if AtLastColumn(s) {
      ParkShape(t, now, d, first, before, modes);
    } else {
      NextColumnShape(t, d, first, before, modes);
    }
  }

  lemma {:induction false} PrefillShape(s: Feeder, now: Word32, drains: seq<nat>, d: DeckImage, first: nat,
                                        before: seq<TraceEvent>, modes: seq<TcMode>)
    requires Core(s) && !s.wire.ready && PrefillFlags(s)
    requires Shape(s, d, first, before, modes)
    ensures Shape(Prefill(s, now, drains), d, first, before, modes)
    decreases |drains|, FIFO_DEPTH - |s.wire.fifo|
  {
    if s.fd.presenting {
      var t := if drains == [] then s else WirePull(s, drains[0]);
      assert Shape(t, d, first, before, modes);
      if |t.wire.fifo| != FIFO_DEPTH {
        PresentNextShape(t, now, d, first, before, modes);
        PresentNextFlags(t, now);
        PrefillShape(PresentNext(t, now), now, if drains == [] then [] else drains[1..], d, first, before, modes);
      }
    }
  }

  // ---- Every admissible event keeps the shape -----------------------------------------------------------------

  lemma OpenedShape(s: Feeder, d: DeckImage, first: nat, before: seq<TraceEvent>, modes: seq<TcMode>)
    requires Core(s) && s.st.state == ArmedWait && !s.fd.fininPending
    requires Shape(s, d, first, before, modes)
    ensures Shape(Opened(s), d, first, before, modes + [CurrentMode(s)])
  {
    var eff := CurrentMode(s);
    assert (modes + [eff])[..|modes|] == modes;
    assert OpenTrace(d, s.st.card, eff, 0) == [Start(s.st.card, eff, false)];
  }

  lemma OpenCardShape(s: Feeder, now: Word32, drains: seq<nat>, d: DeckImage, first: nat, before: seq<TraceEvent>,
                      modes: seq<TcMode>)
    requires Core(s) && FlagsAgree(s) && s.st.state == ArmedWait && !s.fd.cmdPending && !s.fd.fininPending
    requires Shape(s, d, first, before, modes)
    ensures Shape(OpenCard(s, now, drains), d, first, before, modes + [CurrentMode(s)])
  {
    OpenedShape(s, d, first, before, modes);
    var more := modes + [CurrentMode(s)];
    assert PrefillFlags(Opened(s));
    PrefillShape(Opened(s), now, drains, d, first, before, more);
    SameShape(Prefill(Opened(s), now, drains), OpenCard(s, now, drains), d, first, before, more);
  }

  lemma AdvanceShape(s: Feeder, d: DeckImage, first: nat, before: seq<TraceEvent>, modes: seq<TcMode>)
    requires Core(s) && s.st.state == CardDone && Shape(s, d, first, before, modes)
    ensures Shape(AdvanceCard(s), d, first, before, modes)
  {
  }

  /** At most one more card was opened, in the mode the engine computes for it. */
  predicate Grows(s: Feeder, d: DeckImage, first: nat, modes: seq<TcMode>, more: seq<TcMode>) {
    more == modes ||
    more == modes + [EffectiveMode(d, first + |modes|, s.fd.postLoaderColbin, s.fd.latchedMode)]
  }

  lemma TriggerShape(s: Feeder, viaFeed: bool, now: Word32, drains: seq<nat>, d: DeckImage, first: nat,
                     before: seq<TraceEvent>, modes: seq<TcMode>)
    returns (more: seq<TcMode>)
    requires Core(s) && s.wire.feedIrq == s.fd.presenting && (!s.fd.cmdPending ==> Safe(s))
    requires FlagsAgree(s) && Shape(s, d, first, before, modes)
    ensures Shape(TriggerPresent(s, viaFeed, now, drains), d, first, before, more)
    ensures Grows(s, d, first, modes, more)
  {
    hide OpenCard, FullTrace, OpenTrace, GoodDeck, ShortCards;
    more := modes;
    if s.fd.cmdPending {
      var t := s.(fd := s.fd.(cmdPending := false));
      var u := FeedPast(t, viaFeed);
      if t.st.state == CardDone {
        AdvanceShape(if viaFeed then t else t.(st := t.st.(nAutofeeds := Inc32(t.st.nAutofeeds))), d, first, before,
            modes);
      }
      assert FlagsAgree(u) && Shape(u, d, first, before, modes);
      if u.st.state == ArmedWait {
        OpenCardShape(u, now, drains, d, first, before, modes);
        more := modes + [CurrentMode(u)];
      }
    }
  }

  /** A command byte latches its mode and then at most prepares a presentation. */
  lemma ReCmdReads(s: Feeder, re: Byte, now: Word32)
    requires Safe(s) && re in {READ_UNCHANGED, READ_NORMAL_1, READ_NORMAL_2, READ_MIXED_1, READ_MIXED_2, READ_BINARY}
    ensures ReCmdBody(s, re, now) == PreparePresentation(LatchMode(s, LatchedBy(re, s.fd.latchedMode)), now)
  {
  }

  lemma ReCmdOthers(s: Feeder, re: Byte, now: Word32)
    requires Safe(s) && re !in {READ_UNCHANGED, READ_NORMAL_1, READ_NORMAL_2, READ_MIXED_1, READ_MIXED_2, READ_BINARY}
    requires re != CARD_REJECT && s.st.state != Error
    ensures var r := ReCmdBody(s, re, now);
            && r.fd == LatchMode(s, LatchedBy(re, s.fd.latchedMode)).fd && r.trace == s.trace
            && r.st == s.st.(nUnknownCmd := r.st.nUnknownCmd)
  {
  }

  lemma ReCmdShape(s: Feeder, re: Byte, now: Word32, d: DeckImage, first: nat, before: seq<TraceEvent>,
                   modes: seq<TcMode>)
    requires Safe(s) && FlagsAgree(s) && Shape(s, d, first, before, modes) && Admissible(s, ReCmd(re, now))
    ensures Shape(OnReCmd(s, re, now), d, first, before, modes)
  {
    hide ReCmdBody, PreparePresentation, FullTrace, OpenTrace, GoodDeck, ShortCards, Core;
    var c := CountCmd(s);
    var t := LatchMode(c, LatchedBy(re, c.fd.latchedMode));
    assert Shape(t, d, first, before, modes);
    if re in {READ_UNCHANGED, READ_NORMAL_1, READ_NORMAL_2, READ_MIXED_1, READ_MIXED_2, READ_BINARY} {
      ReCmdReads(c, re, now);
      PrepareShape(t, now, d, first, before, modes);
    } else {
      ReCmdOthers(c, re, now);
      SameShape(t, ReCmdBody(c, re, now), d, first, before, modes);
    }
    SameShape(ReCmdBody(c, re, now), OnReCmd(s, re, now), d, first, before, modes);
  }

  /** The shape reads only the cursor, the engine struct and the trace. */
  lemma SameShape(s: Feeder, t: Feeder, d: DeckImage, first: nat, before: seq<TraceEvent>, modes: seq<TcMode>)
    requires Shape(s, d, first, before, modes) && t.fd == s.fd && t.trace == s.trace
    requires t.st.state == s.st.state && t.st.card == s.st.card && t.st.col == s.st.col && t.st.half == s.st.half
    ensures Shape(t, d, first, before, modes)
  {
  }

  lemma PrepareShape(s: Feeder, now: Word32, d: DeckImage, first: nat, before: seq<TraceEvent>, modes: seq<TcMode>)
    requires Core(s) && s.wire.feedIrq == s.fd.presenting && Shape(s, d, first, before, modes)
    ensures Shape(PreparePresentation(s, now), d, first, before, modes)
  {
  }

  lemma Tu03Shape(s: Feeder, now: Word32, drains: seq<nat>, d: DeckImage, first: nat, before: seq<TraceEvent>,
                  modes: seq<TcMode>)
    returns (more: seq<TcMode>)
    requires Safe(s) && FlagsAgree(s) && Shape(s, d, first, before, modes)
    ensures Shape(OnTu03(s, now, drains), d, first, before, more)
    ensures Grows(s, d, first, modes, more)
  {
    hide TriggerPresent, AdvanceCard, FullTrace, OpenTrace, GoodDeck, ShortCards;
    more := modes;
    var t := FininRelease(CountFeed(s));
    if s.fd.cmdPending {
      more := TriggerShape(t, true, now, drains, d, first, before, modes);
    } else if s.st.state == CardDone {
      AdvanceShape(t, d, first, before, modes);
    }
  }

  lemma PollShape(s: Feeder, now0: Word32, now1: Word32, now2: Word32, drains: seq<nat>, d: DeckImage, first: nat,
                  before: seq<TraceEvent>, modes: seq<TcMode>)
    returns (more: seq<TcMode>)
    requires Safe(s) && FlagsAgree(s) && Shape(s, d, first, before, modes)
    ensures Shape(OnPoll(s, now0, now1, now2, drains).0, d, first, before, more)
    ensures Grows(s, d, first, modes, more)
  {
    hide TriggerPresent, FullTrace, OpenTrace, GoodDeck, ShortCards, Core;
    more := modes;
    if s.fd.cmdPending && Expired(now0, s.fd.cmdDeadline) {
      more := TriggerShape(s, false, now1, drains, d, first, before, modes);
    }
  }

  lemma TuneShape(s: Feeder, word: Word32, d: DeckImage, first: nat, before: seq<TraceEvent>, modes: seq<TcMode>)
    requires Safe(s) && FlagsAgree(s) && Shape(s, d, first, before, modes) && Admissible(s, Ipc(word))
    ensures Shape(OnIpc(s, word), d, first, before, modes)
  {
    hide SetParam, Core, IpcArg, IpcVal, FullTrace, OpenTrace, GoodDeck, ShortCards, OpenShape;
    var r := OnIpc(s, word);
    assert r == LupobUpdate(SetParam(s, IpcArg(word), IpcVal(word)));
    ParamKeeps(s, IpcArg(word), IpcVal(word));
    TunedShape(s, r, d, first, before, modes);
  }

  /** Tuning moves nothing, and without a policy change it leaves the mode of the card alone. */
  lemma ParamKeeps(s: Feeder, param: nat, val: Word16)
    requires s.fd.deck.Some?
    requires param == PARAM_POLICY && s.st.state == Presenting ==>
               EffectiveMode(s.fd.deck.value, s.st.card, val % 2 == 1, s.fd.latchedMode) == CurrentMode(s)
    ensures var t := SetParam(s, param, val);
            && t.st == s.st && t.trace == s.trace && t.fd.deck == s.fd.deck
            && (s.st.state == Presenting ==> CurrentMode(t) == CurrentMode(s))
  {
    hide EffectiveMode;
  }

  lemma TunedShape(s: Feeder, t: Feeder, d: DeckImage, first: nat, before: seq<TraceEvent>, modes: seq<TcMode>)
    requires Shape(s, d, first, before, modes) && t.st == s.st && t.trace == s.trace && t.fd.deck == s.fd.deck
    requires s.st.state == Presenting ==> CurrentMode(t) == CurrentMode(s)
    ensures Shape(t, d, first, before, modes)
  {
    hide FullTrace, OpenTrace, GoodDeck, ShortCards, CurrentMode;
  }

  lemma StepShape(s: Feeder, e: Event, d: DeckImage, first: nat, before: seq<TraceEvent>, modes: seq<TcMode>)
    returns (more: seq<TcMode>)
    requires Safe(s) && FlagsAgree(s) && Shape(s, d, first, before, modes) && Admissible(s, e)
    ensures Shape(Step(s, e), d, first, before, more)
    ensures Grows(s, d, first, modes, more)
  {
    hide OnReCmd, OnTu03, OnPoll, OnIpc, FullTrace, OpenTrace, GoodDeck, ShortCards, Core;
    more := modes;
    match e {
      case ReCmd(re, now) => ReCmdShape(s, re, now, d, first, before, modes);
      case Tu03(now, drains) => more := Tu03Shape(s, now, drains, d, first, before, modes);
      case TxFeed(now) =>
        if s.wire.feedIrq && |s.wire.fifo| < FIFO_DEPTH {
          PresentNextShape(s, now, d, first, before, modes);
        }
      case Poll(now0, now1, now2, drains) => more := PollShape(s, now0, now1, now2, drains, d, first, before, modes);
      case Ipc(word) => TuneShape(s, word, d, first, before, modes);
      case Pull =>
      case Load(slot, deck) =>
    }
  }

  lemma AdmissiblePrefix(s: Feeder, es: seq<Event>)
    requires Safe(s) && AdmissibleRun(s, es) && es != []
    ensures AdmissibleRun(s, es[..|es| - 1])
    ensures Admissible(Run(s, es[..|es| - 1]), es[|es| - 1])
  {
    hide Run, Admissible, Safe;
    var n := |es| - 1;
    forall i | 0 <= i < n ensures Admissible(StateAt(s, es[..n], i), es[..n][i]) {
      assert es[..n][..i] == es[..i];
      assert Admissible(StateAt(s, es, i), es[i]);
    }
    assert Admissible(StateAt(s, es, n), es[n]);
  }

  /** Every admissible run from a fresh position shows the machine exactly the specified cards, in order. */
  lemma {:induction false} SessionTrace(s: Feeder, es: seq<Event>, d: DeckImage) returns (modes: seq<TcMode>)
    requires AtStart(s, d) && ShortCards(d) && AdmissibleRun(s, es)
    ensures FlagsAgree(Run(s, es)) && Shape(Run(s, es), d, s.st.card, s.trace, modes)
    decreases |es|
  {
    hide Shape, FlagsAgree, Step, CurrentMode, EffectiveMode, AdmissibleRun, ShortCards, Core;
    if es == [] {
      modes := [];
      StartShape(s, d);
    } else {
      var n := |es| - 1;
      AdmissiblePrefix(s, es);
      modes := SessionTrace(s, es[..n], d);
      StepFlags(Run(s, es[..n]), es[n]);
      modes := StepShape(Run(s, es[..n]), es[n], d, s.st.card, s.trace, modes);
    }
  }

  /** Nothing shown yet: no card opened. */
  lemma StartShape(s: Feeder, d: DeckImage)
    requires AtStart(s, d) && ShortCards(d)
    ensures FlagsAgree(s) && Shape(s, d, s.st.card, s.trace, [])
  {
    hide ShortCards, NoPushWhileReady;
    assert s.trace + [] == s.trace;
  }

  // ---- The default policy -------------------------------------------------------------------------------------

  /** What the machine, the presenter and the clock can do during a load, plus tuning of the timings. */
  predicate LoadEvent(e: Event) {
    match e
    case ReCmd(re, _) => re != CARD_REJECT
    case Ipc(word) => IpcOp(word) == IPC_SET_PARAM && IpcArg(word) != PARAM_POLICY
    case _ => true
  }

  function DefaultMode(d: DeckImage, card: nat): TcMode {
    EffectiveMode(d, card, true, Hex)
  }

  /** Loader card in hex, every other card in column binary. */
  function DefaultModes(d: DeckImage, first: nat, n: nat): (modes: seq<TcMode>)
    ensures |modes| == n
  {
    seq(n, i requires 0 <= i < n => DefaultMode(d, first + i))
  }

  lemma DefaultModesNext(d: DeckImage, first: nat, n: nat)
    ensures DefaultModes(d, first, n + 1) == DefaultModes(d, first, n) + [DefaultMode(d, first + n)]
  {
  }

  lemma LoadEventAdmissible(s: Feeder, e: Event)
    requires LoadEvent(e) && s.fd.postLoaderColbin
    ensures Admissible(s, e)
  {
  }

  lemma LoadEventKeepsPolicy(s: Feeder, e: Event)
    requires Safe(s) && LoadEvent(e)
    ensures Step(s, e).fd.postLoaderColbin == s.fd.postLoaderColbin
  {
    hide Core, OnReCmd, OnTu03, OnPoll, OnIpc, PresentNext;
    if e.Ipc? {
      TuneKeepsPolicy(s, e.word);
    }
  }

  lemma TuneKeepsPolicy(s: Feeder, word: Word32)
    requires Safe(s) && LoadEvent(Ipc(word))
    ensures OnIpc(s, word).fd.postLoaderColbin == s.fd.postLoaderColbin
  {
    hide Core, IpcArg, IpcVal, IpcOp, Arm, Disarm, Rewind, Eject, Go;
  }

  /** With the default policy, whatever the machine and the clock do, the machine is shown the cards from the starting
      position on, in order, each exactly once, the loader in hex and the rest in column binary. */
  lemma {:induction false} LoadTrace(s: Feeder, es: seq<Event>, d: DeckImage) returns (n: nat)
    requires AtStart(s, d) && ShortCards(d) && s.fd.postLoaderColbin
    requires forall i :: 0 <= i < |es| ==> LoadEvent(es[i])
    ensures FlagsAgree(Run(s, es)) && Run(s, es).fd.postLoaderColbin
    ensures s.st.card + n <= |d.idx|
    ensures Shape(Run(s, es), d, s.st.card, s.trace, DefaultModes(d, s.st.card, n))
    decreases |es|
  {
    hide Step, Shape;
    if es == [] {
      n := 0;
      StartShape(s, d);
      assert DefaultModes(d, s.st.card, 0) == [];
    } else {
      var k := |es| - 1;
      n := LoadTrace(s, es[..k], d);
      var t, e := Run(s, es[..k]), es[k];
      LoadEventAdmissible(t, e);
      LoadEventKeepsPolicy(t, e);
      StepFlags(t, e);
      var modes := StepShape(t, e, d, s.st.card, s.trace, DefaultModes(d, s.st.card, n));
      ShapeBound(Step(t, e), d, s.st.card, s.trace, modes);
      if modes != DefaultModes(d, s.st.card, n) {
        DefaultModesNext(d, s.st.card, n);
        n := n + 1;
      }
    }
  }

  lemma ShapeBound(s: Feeder, d: DeckImage, first: nat, before: seq<TraceEvent>, modes: seq<TcMode>)
    requires Shape(s, d, first, before, modes)
    ensures first + |modes| <= |d.idx|
  {
  }

  // ---- Where sessions start -----------------------------------------------------------------------------------

  /** ARM, REWIND and GO leave the feeder freshly positioned, from every safe state: at the loader card (or card 0), or
      val-1 cards further. */
  lemma ArmStarts(s: Feeder, word: Word32)
    requires Safe(s) && IpcOp(word) == IPC_ARM && GoodDeck(s.decks[IpcArg(word) % 2])
    ensures var d := s.decks[IpcArg(word) % 2];
            var r := Step(s, Ipc(word));
            AtStart(r, d) && r.st.card == StartCard(d) && r.trace == s.trace &&
            r.fd.postLoaderColbin == s.fd.postLoaderColbin
  {
    hide GoodDeck;
    ArmFlags(s, IpcArg(word) % 2);
  }

  lemma RewindStarts(s: Feeder, word: Word32, d: DeckImage)
    requires Safe(s) && s.fd.deck == Some(d) && IpcOp(word) == IPC_REWIND
    ensures var r := OnIpc(s, word);
            AtStart(r, d) && r.st.card == StartCard(d) && r.trace == s.trace
  {
    hide GoodDeck;
    RewindFlags(s);
  }

  lemma GoStarts(s: Feeder, word: Word32, d: DeckImage)
    requires Safe(s) && s.fd.deck == Some(d) && IpcOp(word) == IPC_GO
    requires 1 <= IpcVal(word) && StartCard(d) + IpcVal(word) - 1 < |d.idx|
    ensures var r := OnIpc(s, word);
            AtStart(r, d) && r.st.card == StartCard(d) + IpcVal(word) - 1 && r.trace == s.trace
  {
    GoFlags(s, IpcVal(word));
  }
}
