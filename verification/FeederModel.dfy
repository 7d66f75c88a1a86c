/** The reader-side protocol engine as a state machine.

    Each handler is one atomic step on the state below.  `trace` records what an observer of the engine sees:
    cards opened and closed, nibbles pushed (with the ready line at that moment) and the end-of-deck signal. */
module FeederModel {
  import opened Wrappers
  import opened Bits
  import opened Transcode
  import opened DeckImages
  import opened PresenterWord

  datatype FsState = Disarmed | ArmedWait | Presenting | CardDone | Done | Error

  const FIFO_DEPTH: nat := 4

  const READ_UNCHANGED: Byte := 0x40
  const READ_NORMAL_1: Byte := 0x21
  const READ_NORMAL_2: Byte := 0x01
  const READ_MIXED_1: Byte := 0x24
  const READ_MIXED_2: Byte := 0x04
  const READ_BINARY: Byte := 0x20
  const PUT_BINARY: Byte := 0xa0
  const EXAM: Byte := 0x44
  const RESET_ERROR: Byte := 0x47
  const CARD_REJECT: Byte := 0x48
  const NO_FUNCTION: Byte := 0x0c

  const IPC_ARM := 1
  const IPC_DISARM := 2
  const IPC_REWIND := 3
  const IPC_EJECT := 4
  const IPC_SET_PARAM := 5
  const IPC_INJECT_ERROR := 6
  const IPC_GO := 7

  const PARAM_W_TICKS := 1
  const PARAM_G_TICKS := 2
  const PARAM_S_TICKS := 3
  const PARAM_D_US := 4
  const PARAM_FININ_TO_US := 5
  const PARAM_POLICY := 6

  /** struct feeder_status. `col` and `half` are 8-bit in the firmware. */
  datatype Status = Status(
    state: FsState, mode: TcMode, card: nat, col: nat, half: nat,
    nCmds: Word32, nFeeds: Word32, nAutofeeds: Word32, nNibbles: Word32, nUnknownCmd: Word32)

  /** The engine's private struct. */
  datatype Engine = Engine(
    deck: Option<DeckImage>, latchedMode: TcMode,
    presenting: bool, cmdPending: bool, fininPending: bool,
    cmdDeadline: Word32, fininDeadline: Word32,
    wTicks: Word16, gTicks: Word16, sTicks: Word16, dUs: Word16, fininToUs: Word16,
    postLoaderColbin: bool, autoRewind: bool)

  /** Output lines, the presenter's TX FIFO and the words the presenter has taken since it was last restarted. */
  datatype Wire = Wire(
    ready: bool, fiden: bool, pom01: bool, luren: bool, feedIrq: bool, fifo: seq<Word32>, pulled: seq<Word32>)

  datatype TraceEvent =
    | Start(card: nat, mode: TcMode, fininPending: bool)
    | Push(present: Byte, fini: bool, ready: bool)
    | End(card: nat)
    | Fiden(card: nat)

  datatype Feeder = Feeder(st: Status, fd: Engine, wire: Wire, decks: seq<DeckImage>, trace: seq<TraceEvent>)

  /** One step of the environment.  Every `now` is a reading of the 32-bit microsecond clock; `drains[i]` is how many
      words the presenter takes before the i-th test of the FIFO in the prefill loop. */
  datatype Event =
    | ReCmd(re: Byte, now: Word32)
    | Tu03(now: Word32, drains: seq<nat>)
    | TxFeed(now: Word32)
    | Poll(now0: Word32, now1: Word32, now2: Word32, drains: seq<nat>)
    | Ipc(word: Word32)
    | Pull
    | Load(slot: nat, deck: DeckImage)

  // ---- Safety: what every handler relies on and re-establishes ------------------------------------------------

  /** A deck the console arms: at least one card, no empty card, loader index in range. */
  predicate GoodDeck(d: DeckImage) {
    Indexed(d) && 1 <= |d.idx| <= DECK_MAX_CARDS && -1 <= d.loaderCard < |d.idx| &&
    forall i :: 0 <= i < |d.idx| ==> d.idx[i].ncols >= 1
  }

  predicate CursorAt(d: DeckImage, card: nat, col: nat, half: nat) {
    GoodDeck(d) && card < |d.idx| && col < d.idx[card].ncols && col < 256 && half <= 1
  }

  predicate CursorInDeck(s: Feeder) {
    s.fd.deck.Some? && CursorAt(s.fd.deck.value, s.st.card, s.st.col, s.st.half)
  }

  /** The two deck slots; either may be empty or hold what a failed load left behind. */
  predicate TwoSlots(decks: seq<DeckImage>) { |decks| == 2 }

  /** An ARM names a slot that holds a deck; nothing is asked of the other slot, nor of other words. */
  predicate Armable(decks: seq<DeckImage>, op: nat, arg: nat) {
    op == IPC_ARM ==> TwoSlots(decks) && GoodDeck(decks[arg % 2])
  }

  predicate NoPushWhileReady(trace: seq<TraceEvent>) {
    forall i :: 0 <= i < |trace| && trace[i].Push? ==> !trace[i].ready
  }

  /** The defining formula of the LUPOB handshake line. */
  predicate ReadyFormula(s: Feeder) {
    s.fd.deck.Some? && !s.fd.presenting && !s.fd.cmdPending && !s.fd.fininPending &&
    (s.st.state == ArmedWait || s.st.state == CardDone)
  }

  /** Safety inside a handler. */
  predicate Core(s: Feeder) {
    && TwoSlots(s.decks)
    && (s.fd.deck.Some? ==> CursorInDeck(s) && s.st.state != Disarmed)
    && (s.fd.deck.None? ==> !s.fd.presenting && !s.fd.cmdPending && !s.fd.fininPending
                            && (s.st.state == Disarmed || s.st.state == Error))
    && |s.wire.fifo| <= FIFO_DEPTH
    && NoPushWhileReady(s.trace)
  }

  /** Safety between handlers. */
  predicate Safe(s: Feeder) {
    Core(s) && s.wire.ready == ReadyFormula(s) && s.wire.feedIrq == s.fd.presenting
  }

  // ---- Building blocks ----------------------------------------------------------------------------------------

  function AddTime(t: Word32, dt: Word16): Word32 { (t + dt) % TWO32 }

  /** `(int32_t)(now - deadline) >= 0`. */
  predicate Expired(now: Word32, deadline: Word32) { (now - deadline) % TWO32 < TWO31 }

  function Inc32(n: Word32): Word32 { (n + 1) % TWO32 }

  function StartCard(d: DeckImage): nat { if d.loaderCard > 0 then d.loaderCard else 0 }

  function CursorReset(s: Feeder): Feeder {
    s.(st := s.st.(card := if s.fd.deck.Some? then StartCard(s.fd.deck.value) else 0, col := 0, half := 0),
       fd := s.fd.(presenting := false, cmdPending := false, fininPending := false))
  }

  /** Mode in which one card is transcoded. */
  function EffectiveMode(d: DeckImage, card: nat, postLoaderColbin: bool, latched: TcMode): TcMode {
    if d.loaderCard >= 0 && card == d.loaderCard then Hex
    else if postLoaderColbin then Colbin
    else latched
  }

  predicate PacksTwo(mode: TcMode) { mode == Colbin || mode == Binary }

  function LupobUpdate(s: Feeder): Feeder { s.(wire := s.wire.(ready := ReadyFormula(s))) }

  function FininRelease(s: Feeder): Feeder { s.(fd := s.fd.(fininPending := false)) }

  function AdvanceCard(s: Feeder): (r: Feeder)
    requires Core(s) && s.fd.deck.Some?
    ensures Core(r) && r.fd == s.fd && r.wire.feedIrq == s.wire.feedIrq && Silent(s, r)
  {
    if s.st.card + 1 >= |s.fd.deck.value.idx| then
      s.(st := s.st.(col := 0, half := 0, state := Done),
         wire := s.wire.(fiden := true),
         trace := s.trace + [Fiden(s.st.card)])
    else
      s.(st := s.st.(col := 0, half := 0, card := s.st.card + 1, state := ArmedWait))
  }

  /** wire_tx_push: `present` reaches the FIFO as a packed word. */
  function WirePush(s: Feeder, present: Byte, fini: bool): (r: Feeder)
    ensures Core(s) && |s.wire.fifo| < FIFO_DEPTH && !s.wire.ready ==> Core(r)
  {
    s.(st := s.st.(nNibbles := Inc32(s.st.nNibbles)),
       wire := s.wire.(fifo := s.wire.fifo + [Pack(present, fini, s.fd.wTicks, s.fd.gTicks)]),
       trace := s.trace + [Push(present, fini, s.wire.ready)])
  }

  function CurrentMode(s: Feeder): TcMode
    requires s.fd.deck.Some?
  {
    EffectiveMode(s.fd.deck.value, s.st.card, s.fd.postLoaderColbin, s.fd.latchedMode)
  }

  function CurrentByte(s: Feeder): Byte
    requires CursorInDeck(s)
  {
    var d := s.fd.deck.value;
    Transcoded(d.cols[d.idx[s.st.card].off + s.st.col], CurrentMode(s))
  }

  predicate AtLastColumn(s: Feeder)
    requires CursorInDeck(s)
  {
    s.st.col + 1 >= s.fd.deck.value.idx[s.st.card].ncols
  }

  /** After its last character the card waits, not presented any more, for FININ to be taken down. */
  function ParkCard(s: Feeder, now: Word32): (r: Feeder)
    requires s.fd.deck.Some?
    ensures Core(s) ==> Core(r)
  {
    s.(st := s.st.(half := 0, col := 0, state := CardDone),
       fd := s.fd.(presenting := false, fininPending := true, fininDeadline := AddTime(now, s.fd.fininToUs)),
       wire := s.wire.(feedIrq := false),
       trace := s.trace + [End(s.st.card)])
  }

  /** The low half of the same column comes next. */
  function LowHalfNext(s: Feeder): (r: Feeder)
    ensures Core(s) ==> Core(r)
  {
    s.(st := s.st.(half := 1))
  }

  /** The next column of the card comes next; the column counter has 8 bits. */
  function NextColumn(s: Feeder): (r: Feeder)
    requires CursorInDeck(s) && !AtLastColumn(s)
    ensures Core(s) ==> Core(r)
  {
    s.(st := s.st.(half := 0, col := (s.st.col + 1) % 256))
  }

  /** The nibble (or unpacked byte) to present now, and whether FININ rides on it. */
  function CurrentChar(s: Feeder): (Byte, bool)
    requires CursorInDeck(s)
  {
    var byte := CurrentByte(s);
    if !PacksTwo(CurrentMode(s)) then (byte, AtLastColumn(s))
    else if s.st.half == 0 then (byte / 16 % 16, false)
    else (byte % 16, AtLastColumn(s))
  }

  /** One nibble presentation. */
  function PresentNext(s: Feeder, now: Word32): (r: Feeder)
    requires Core(s) && s.fd.deck.Some? && |s.wire.fifo| < FIFO_DEPTH && !s.wire.ready
    ensures Core(r) && r.fd.deck == s.fd.deck && !r.wire.ready
    ensures |r.wire.fifo| == |s.wire.fifo| + 1 && r.wire.pulled == s.wire.pulled
    ensures r.fd.postLoaderColbin == s.fd.postLoaderColbin && r.st.card == s.st.card
  {
    var c := CurrentChar(s);
    var t := WirePush(s, c.0, c.1);
    if PacksTwo(CurrentMode(s)) && s.st.half == 0 then LowHalfNext(t)
    else if AtLastColumn(s) then ParkCard(t, now)
    else NextColumn(t)
  }

  /** The presenter takes up to n words. */
  function WirePull(s: Feeder, n: nat): (r: Feeder)
    ensures Core(s) ==> Core(r)
  {
    var k := if n < |s.wire.fifo| then n else |s.wire.fifo|;
    s.(wire := s.wire.(fifo := s.wire.fifo[k..], pulled := s.wire.pulled + s.wire.fifo[..k]))
  }

  lemma PullNone(s: Feeder)
    ensures WirePull(s, 0) == s
  {
  }

  /** The prefill loop of trigger_present. */
  function Prefill(s: Feeder, now: Word32, drains: seq<nat>): (r: Feeder)
    requires Core(s) && s.fd.deck.Some? && !s.wire.ready
    ensures Core(r) && r.fd.deck == s.fd.deck && !r.wire.ready
    ensures r.fd.postLoaderColbin == s.fd.postLoaderColbin && r.st.card == s.st.card
    decreases |drains|, FIFO_DEPTH - |s.wire.fifo|
  {
    hide PresentNext;
    if !s.fd.presenting then s
    else
      var t := if drains == [] then s else WirePull(s, drains[0]);
      if |t.wire.fifo| == FIFO_DEPTH then t
      else Prefill(PresentNext(t, now), now, if drains == [] then [] else drains[1..])
  }

  function FeedIrqIfPresenting(s: Feeder): Feeder {
    if s.fd.presenting then s.(wire := s.wire.(feedIrq := true)) else s
  }

  /** Nothing is pushed or pulled from s to t and the policy stays; at most the end of the deck is signalled. */
  predicate Silent(s: Feeder, t: Feeder) {
    t.fd.postLoaderColbin == s.fd.postLoaderColbin &&
    t.wire.fifo == s.wire.fifo && t.wire.pulled == s.wire.pulled &&
    (t.trace == s.trace || t.trace == s.trace + [Fiden(s.st.card)])
  }

  /** A read command: latch it and wait for the feed. */
  function PreparePresentation(s: Feeder, now: Word32): (r: Feeder)
    requires Core(s) && s.wire.feedIrq == s.fd.presenting
    ensures Core(r) && r.wire.feedIrq == r.fd.presenting && Silent(s, r)
  {
    if s.fd.deck.None? then s
    else if s.st.state != ArmedWait && s.st.state != CardDone then s
    else
      var t := FininRelease(s);
      LupobUpdate(t.(fd := t.fd.(cmdPending := true, cmdDeadline := AddTime(now, t.fd.dUs))))
  }

  /** The current card is opened: mode indicator, PRESENT_START, and the ready line stays busy through the card. */
  function Opened(s: Feeder): (r: Feeder)
    requires Core(s) && s.fd.deck.Some?
    ensures Core(r) && r.fd == s.fd.(presenting := true) && !r.wire.ready
  {
    var eff := CurrentMode(s);
    LupobUpdate(
      s.(st := s.st.(mode := eff, state := Presenting),
         fd := s.fd.(presenting := true),
         wire := s.wire.(pom01 := PacksTwo(eff)),
         trace := s.trace + [Start(s.st.card, eff, s.fd.fininPending)]))
  }

  /** The presentation proper: open the current card and prefill the FIFO. */
  function OpenCard(s: Feeder, now: Word32, drains: seq<nat>): (r: Feeder)
    requires Core(s) && s.fd.deck.Some?
    ensures Safe(r) && r.fd.postLoaderColbin == s.fd.postLoaderColbin
  {
    PrefillEnds(Opened(s), now, drains);
    FeedIrqIfPresenting(Prefill(Opened(s), now, drains))
  }

  /** When the prefill ends the card, FININ is pending and the feed interrupt is off. */
  lemma {:induction false} PrefillEnds(s: Feeder, now: Word32, drains: seq<nat>)
    requires Core(s) && s.fd.deck.Some? && !s.wire.ready && s.fd.presenting
    ensures var r := Prefill(s, now, drains);
            !r.fd.presenting ==> r.fd.fininPending && !r.wire.feedIrq
    decreases |drains|, FIFO_DEPTH - |s.wire.fifo|
  {
    var t := if drains == [] then s else WirePull(s, drains[0]);
    if |t.wire.fifo| != FIFO_DEPTH {
      var u := PresentNext(t, now);
      if u.fd.presenting {
        PrefillEnds(u, now, if drains == [] then [] else drains[1..]);
      }
    }
  }

  /** Move past a parked card; the timeout that stands in for a feed is counted. */
  function FeedPast(s: Feeder, viaFeed: bool): (r: Feeder)
    requires Core(s) && s.fd.deck.Some?
    ensures Core(r) && r.fd == s.fd && r.wire.feedIrq == s.wire.feedIrq
  {
    if s.st.state != CardDone then s
    else AdvanceCard(if viaFeed then s else s.(st := s.st.(nAutofeeds := Inc32(s.st.nAutofeeds))))
  }

  /** The trigger: a card feed, or the timeout that stands in for it. */
  function TriggerPresent(s: Feeder, viaFeed: bool, now: Word32, drains: seq<nat>): (r: Feeder)
    requires Core(s) && s.wire.feedIrq == s.fd.presenting && (!s.fd.cmdPending ==> Safe(s))
    ensures Safe(r) && r.fd.postLoaderColbin == s.fd.postLoaderColbin
  {
    if !s.fd.cmdPending then s
    else
      var u := FeedPast(s.(fd := s.fd.(cmdPending := false)), viaFeed);
      if u.st.state != ArmedWait then LupobUpdate(u) else OpenCard(u, now, drains)
  }

  // ---- Handlers -----------------------------------------------------------------------------------------------

  function LatchMode(s: Feeder, mode: TcMode): (r: Feeder)
    ensures Safe(s) ==> Safe(r)
  {
    s.(fd := s.fd.(latchedMode := mode))
  }

  function CountCmd(s: Feeder): (r: Feeder)
    ensures Safe(s) ==> Safe(r)
  {
    s.(st := s.st.(nCmds := Inc32(s.st.nCmds)))
  }

  function CountFeed(s: Feeder): (r: Feeder)
    ensures Safe(s) ==> Safe(r)
  {
    s.(st := s.st.(nFeeds := Inc32(s.st.nFeeds)))
  }

  function CountUnknown(s: Feeder): (r: Feeder)
    ensures Safe(s) ==> Safe(r)
  {
    s.(st := s.st.(nUnknownCmd := Inc32(s.st.nUnknownCmd)))
  }

  /** Clear LUREN, and leave the error state if in it. */
  function ResetError(s: Feeder): (r: Feeder)
    requires Safe(s)
    ensures Core(r) && r.fd == s.fd && r.wire.feedIrq == s.wire.feedIrq && Silent(s, r)
  {
    var t := s.(wire := s.wire.(luren := false));
    if t.st.state == Error then
      t.(st := t.st.(state := if t.fd.deck.Some? then ArmedWait else Disarmed))
    else t
  }

  /** Skip a card that is not being presented. */
  function RejectCard(s: Feeder): (r: Feeder)
    requires Safe(s)
    ensures Core(r) && r.wire.feedIrq == r.fd.presenting && Silent(s, r)
  {
    if s.fd.deck.Some? && (s.st.state == ArmedWait || s.st.state == CardDone) then AdvanceCard(FininRelease(s))
    else s
  }

  function ReCmdBody(s: Feeder, re: Byte, now: Word32): (r: Feeder)
    requires Safe(s)
    ensures Core(r) && r.wire.feedIrq == r.fd.presenting && Silent(s, r)
  {
    if re == READ_UNCHANGED then PreparePresentation(s, now)
    else if re == READ_NORMAL_1 || re == READ_NORMAL_2 || re == READ_MIXED_1 || re == READ_MIXED_2 then
      PreparePresentation(LatchMode(s, Normal), now)
    else if re == READ_BINARY then PreparePresentation(LatchMode(s, Colbin), now)
    else if re == PUT_BINARY then LatchMode(s, Colbin)
    else if re == EXAM then s
    else if re == RESET_ERROR then ResetError(s)
    else if re == CARD_REJECT then RejectCard(s)
    else if re == NO_FUNCTION then s
    else CountUnknown(s)
  }

  function OnReCmd(s: Feeder, re: Byte, now: Word32): (r: Feeder)
    requires Safe(s)
    ensures Safe(r) && r.fd.postLoaderColbin == s.fd.postLoaderColbin
  {
    LupobUpdate(ReCmdBody(CountCmd(s), re, now))
  }

  function OnTu03(s: Feeder, now: Word32, drains: seq<nat>): (r: Feeder)
    requires Safe(s)
    ensures Safe(r) && r.fd.postLoaderColbin == s.fd.postLoaderColbin
  {
    var t := CountFeed(s);
    if t.fd.cmdPending then TriggerPresent(FininRelease(t), true, now, drains)
    else if t.fd.deck.Some? && t.st.state == CardDone then LupobUpdate(AdvanceCard(FininRelease(t)))
    else t
  }

  function OnTxFeed(s: Feeder, now: Word32): (r: Feeder)
    requires Safe(s) && |s.wire.fifo| < FIFO_DEPTH
    ensures Safe(r)
  {
    hide CurrentChar, EffectiveMode;
    if s.fd.presenting then PresentNext(s, now) else s
  }

  /** The FIFO is emptied and the state machine restarted; `wire_tx_disarm` has the same effect on this state. */
  function WireRestart(s: Feeder): Feeder {
    s.(wire := s.wire.(feedIrq := false, fifo := [], pulled := []))
  }

  function Arm(s: Feeder, slot: nat): (r: Feeder)
    requires Core(s) && slot < 2 && GoodDeck(s.decks[slot])
    ensures Core(r) && !r.wire.feedIrq && !r.fd.presenting
  {
    var t := CursorReset(s.(fd := s.fd.(deck := Some(s.decks[slot]), latchedMode := Hex)));
    WireRestart(
      t.(st := t.st.(nCmds := 0, nFeeds := 0, nAutofeeds := 0, nNibbles := 0, nUnknownCmd := 0, mode := Hex,
                     state := ArmedWait),
         wire := t.wire.(fiden := false, pom01 := false)))
  }

  function Disarm(s: Feeder): (r: Feeder)
    requires Core(s)
    ensures Core(r) && !r.wire.feedIrq && !r.fd.presenting
  {
    var t := CursorReset(s.(fd := s.fd.(deck := None)));
    WireRestart(t.(st := t.st.(state := Disarmed), wire := t.wire.(fiden := false, pom01 := false)))
  }

  function Rewind(s: Feeder): (r: Feeder)
    requires Safe(s)
    ensures Core(r) && !r.wire.feedIrq && !r.fd.presenting
  {
    var t := CursorReset(s);
    if t.fd.deck.None? then t
    else WireRestart(t.(st := t.st.(state := ArmedWait), wire := t.wire.(fiden := false)))
  }

  function Eject(s: Feeder): (r: Feeder)
    requires Safe(s)
    ensures Core(r) && r.wire.feedIrq == r.fd.presenting
  {
    if s.fd.deck.Some? && s.st.card + 1 < |s.fd.deck.value.idx| then
      s.(st := s.st.(card := s.st.card + 1, col := 0, half := 0))
    else s
  }

  function SetParam(s: Feeder, param: nat, val: Word16): (r: Feeder)
    ensures Core(s) ==> Core(r)
    ensures r.wire == s.wire && r.fd.presenting == s.fd.presenting
  {
    if param == PARAM_W_TICKS then s.(fd := s.fd.(wTicks := val))
    else if param == PARAM_G_TICKS then s.(fd := s.fd.(gTicks := val))
    else if param == PARAM_S_TICKS then s.(fd := s.fd.(sTicks := val))
    else if param == PARAM_D_US then s.(fd := s.fd.(dUs := val))
    else if param == PARAM_FININ_TO_US then s.(fd := s.fd.(fininToUs := val))
    else if param == PARAM_POLICY then
      s.(fd := s.fd.(postLoaderColbin := val % 2 == 1, autoRewind := val / 2 % 2 == 1))
    else s
  }

  function InjectError(s: Feeder): (r: Feeder)
    ensures Core(s) ==> Core(r)
  {
    s.(st := s.st.(state := Error), wire := s.wire.(luren := true))
  }

  /** Index of the val-th card of the feed order, in 32-bit arithmetic. */
  function GoTarget(d: DeckImage, val: Word16): nat { (StartCard(d) + val - 1) % TWO32 }

  function Go(s: Feeder, val: Word16): (r: Feeder)
    requires Safe(s)
    ensures Core(r) && r.wire.feedIrq == r.fd.presenting
  {
    if s.fd.deck.None? then s
    else
      var tgt := GoTarget(s.fd.deck.value, val);
      if val < 1 || tgt >= |s.fd.deck.value.idx| then s
      else
        var t := CursorReset(s);
        WireRestart(t.(st := t.st.(card := tgt, state := ArmedWait), wire := t.wire.(fiden := false)))
  }

  function IpcOp(word: Word32): nat { word % 0x100 }
  function IpcArg(word: Word32): nat { word / 0x100 % 0x100 }
  function IpcVal(word: Word32): Word16 { word / 0x1_0000 }

  function IpcBody(s: Feeder, op: nat, arg: nat, val: Word16): (r: Feeder)
    requires Safe(s) && Armable(s.decks, op, arg)
    ensures Core(r) && r.wire.feedIrq == r.fd.presenting
  {
    if op == IPC_ARM then Arm(s, arg % 2)
    else if op == IPC_DISARM then Disarm(s)
    else if op == IPC_REWIND then Rewind(s)
    else if op == IPC_EJECT then Eject(s)
    else if op == IPC_SET_PARAM then SetParam(s, arg, val)
    else if op == IPC_INJECT_ERROR then InjectError(s)
    else if op == IPC_GO then Go(s, val)
    else s
  }

  function OnIpc(s: Feeder, word: Word32): (r: Feeder)
    requires Safe(s) && Armable(s.decks, IpcOp(word), IpcArg(word))
    ensures Safe(r)
  {
    LupobUpdate(IpcBody(s, IpcOp(word), IpcArg(word), IpcVal(word)))
  }

  /** First half of the poll: the read-command deadline. */
  function PollCommand(s: Feeder, now0: Word32, now1: Word32, drains: seq<nat>): (r: Feeder)
    requires Safe(s)
    ensures Safe(r) && r.fd.postLoaderColbin == s.fd.postLoaderColbin
  {
    if s.fd.cmdPending && Expired(now0, s.fd.cmdDeadline) then TriggerPresent(s, false, now1, drains) else s
  }

  predicate PollBusyEarly(s: Feeder, now0: Word32) { s.fd.cmdPending && !Expired(now0, s.fd.cmdDeadline) }

  function FininTimeout(s: Feeder): (r: Feeder)
    requires Safe(s)
    ensures Safe(r) && r.fd.postLoaderColbin == s.fd.postLoaderColbin
  {
    LupobUpdate(FininRelease(s))
  }

  /** The idle poll, with the value it returns. */
  function OnPoll(s: Feeder, now0: Word32, now1: Word32, now2: Word32, drains: seq<nat>): (r: (Feeder, bool))
    requires Safe(s)
    ensures Safe(r.0) && r.0.fd.postLoaderColbin == s.fd.postLoaderColbin
  {
    if PollBusyEarly(s, now0) then (s, true)
    else
      var t := PollCommand(s, now0, now1, drains);
      if !t.fd.fininPending then (t, false)
      else if Expired(now2, t.fd.fininDeadline) then (FininTimeout(t), false)
      else (t, true)
  }

  // ---- Runs ---------------------------------------------------------------------------------------------------

  function Init(decks: seq<DeckImage>): Feeder {
    Feeder(Status(Disarmed, Normal, 0, 0, 0, 0, 0, 0, 0, 0),
           Engine(None, Hex, false, false, false, 0, 0, 35, 115, 5, 50000, 1000, true, true),
           Wire(false, false, false, false, false, [], []), decks, [])
  }

  /** One event.  What the rest of the firmware does not do is no step: the TX interrupt is taken only when its source
      is on and the FIFO has room, core0 rewrites a deck slot only while the feeder is disarmed, and it arms a slot only
      after a load into it succeeded. */
  function Step(s: Feeder, e: Event): (r: Feeder)
    requires Safe(s)
    ensures Safe(r)
  {
    match e
    case ReCmd(re, now) => OnReCmd(s, re, now)
    case Tu03(now, drains) => OnTu03(s, now, drains)
    case TxFeed(now) => if s.wire.feedIrq && |s.wire.fifo| < FIFO_DEPTH then OnTxFeed(s, now) else s
    case Poll(now0, now1, now2, drains) => OnPoll(s, now0, now1, now2, drains).0
    case Ipc(word) => if Armable(s.decks, IpcOp(word), IpcArg(word)) then OnIpc(s, word) else s
    case Pull => WirePull(s, 1)
    case Load(slot, deck) =>
      if s.st.state == Disarmed && slot < 2 then s.(decks := s.decks[slot := deck]) else s
  }

  function Run(s: Feeder, es: seq<Event>): (r: Feeder)
    requires Safe(s)
    ensures Safe(r)
    decreases |es|
  {
    if es == [] then s else Step(Run(s, es[..|es| - 1]), es[|es| - 1])
  }

  lemma RunSnoc(s: Feeder, es: seq<Event>, e: Event)
    requires Safe(s)
    ensures Run(s, es + [e]) == Step(Run(s, es), e)
  {
    assert (es + [e])[..|es|] == es;
  }

  lemma {:induction false} RunConcat(s: Feeder, es: seq<Event>, more: seq<Event>)
    requires Safe(s)
    ensures Run(s, es + more) == Run(Run(s, es), more)
    decreases |more|
  {
    hide Step;
    if more == [] {
      assert es + more == es;
    } else {
      var init, e := more[..|more| - 1], more[|more| - 1];
      RunConcat(s, es, init);
      assert es + more == (es + init) + [e];
      RunSnoc(s, es + init, e);
    }
  }
}
