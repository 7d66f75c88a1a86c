/** What each command byte, console word and feed does, byte by byte and field by field. */
module FeederTables {
  import opened Wrappers
  import opened Bits
  import opened Transcode
  import opened DeckImages
  import opened PresenterWord
  import opened FeederModel
  import opened FeederFlags
  import opened FeederTiming
  import opened FeederWords

  // ---- Command bytes ------------------------------------------------------------------------------------------

  predicate IsRead(re: Byte) { re in {0x40, 0x21, 0x01, 0x24, 0x04, 0x20} }

  /** All that a reject changes. */
  lemma RejectIs(s: Feeder)
    requires Safe(s)
    ensures RejectCard(s)
         == if !AtRest(s) then s
            else if s.st.card + 1 < |s.fd.deck.value.idx|
            then s.(st := s.st.(card := s.st.card + 1, col := 0, half := 0, state := ArmedWait),
                    fd := s.fd.(fininPending := false))
            else s.(st := s.st.(col := 0, half := 0, state := Done), fd := s.fd.(fininPending := false),
                    wire := s.wire.(fiden := true), trace := s.trace + [Fiden(s.st.card)])
  {
    hide GoodDeck, NoPushWhileReady;
  }

  /** Reads latch a command if a deck is at rest, and take a pending FININ down. */
  lemma ReadsLatch(s: Feeder, re: Byte, now: Word32)
    requires Safe(s) && IsRead(re) && AtRest(s)
    ensures var r := Step(s, ReCmd(re, now)); r.fd.cmdPending && !r.fd.fininPending && !r.wire.ready
  {
    hide PreparePresentation, Core;
    PrepareIs(CountCmd(s), now);
    PrepareIs(LatchMode(CountCmd(s), Normal), now);
    PrepareIs(LatchMode(CountCmd(s), Colbin), now);
  }

  /** In other states, and for every other byte, the command latch stays as it was; so does FININ, but for a reject. */
  lemma OthersLatchNothing(s: Feeder, re: Byte, now: Word32)
    requires Safe(s) && !(IsRead(re) && AtRest(s))
    ensures var r := Step(s, ReCmd(re, now));
            && r.fd.cmdPending == s.fd.cmdPending && r.fd.cmdDeadline == s.fd.cmdDeadline
            && (re != 0x48 ==> r.fd.fininPending == s.fd.fininPending)
  {
    hide Step, Safe, AtRest;
    if IsRead(re) { ReadsLatchNothing(s, re, now); } else { PlainLatchNothing(s, re, now); }
  }

  lemma ReadsLatchNothing(s: Feeder, re: Byte, now: Word32)
    requires Safe(s) && IsRead(re) && !AtRest(s)
    ensures var r := Step(s, ReCmd(re, now));
            && r.fd.cmdPending == s.fd.cmdPending && r.fd.cmdDeadline == s.fd.cmdDeadline
            && r.fd.fininPending == s.fd.fininPending
  {
    hide PreparePresentation, RejectCard, Core, ReadyFormula;
    PrepareIs(CountCmd(s), now);
    PrepareIs(LatchMode(CountCmd(s), Normal), now);
    PrepareIs(LatchMode(CountCmd(s), Colbin), now);
  }

  lemma PlainLatchNothing(s: Feeder, re: Byte, now: Word32)
    requires Safe(s) && !IsRead(re)
    ensures var r := Step(s, ReCmd(re, now));
            && r.fd.cmdPending == s.fd.cmdPending && r.fd.cmdDeadline == s.fd.cmdDeadline
            && (re != 0x48 ==> r.fd.fininPending == s.fd.fininPending)
  {
    hide PreparePresentation, RejectCard, Core, ReadyFormula;
    RejectIs(CountCmd(s));
  }

  /** The mode latch: normal after the normal and mixed reads, column binary after the two binary commands. */
  lemma CommandsLatchModes(s: Feeder, re: Byte, now: Word32)
    requires Safe(s)
    ensures Step(s, ReCmd(re, now)).fd.latchedMode
         == if re in {0x21, 0x01, 0x24, 0x04} then Normal
            else if re in {0x20, 0xA0} then Colbin
            else s.fd.latchedMode
  {
    hide PreparePresentation, RejectCard, Core, ReadyFormula, NoPushWhileReady, AtRest;
    PrepareIs(CountCmd(s), now);
    PrepareIs(LatchMode(CountCmd(s), Normal), now);
    PrepareIs(LatchMode(CountCmd(s), Colbin), now);
    RejectIs(CountCmd(s));
  }

  /** Every command is counted, and one that is none of the twelve is counted as unknown. */
  lemma CommandsAreCounted(s: Feeder, re: Byte, now: Word32)
    requires Safe(s)
    ensures var r := Step(s, ReCmd(re, now));
            && r.st.nCmds == (s.st.nCmds + 1) % 0x1_0000_0000
            && r.st.nUnknownCmd == (if IsRead(re) || re in {0xA0, 0x44, 0x47, 0x48, 0x0C} then s.st.nUnknownCmd
                                    else (s.st.nUnknownCmd + 1) % 0x1_0000_0000)
            && r.st.nFeeds == s.st.nFeeds && r.st.nAutofeeds == s.st.nAutofeeds && r.st.nNibbles == s.st.nNibbles
  {
    hide PreparePresentation, RejectCard, Core, ReadyFormula, NoPushWhileReady, AtRest;
    PrepareIs(CountCmd(s), now);
    PrepareIs(LatchMode(CountCmd(s), Normal), now);
    PrepareIs(LatchMode(CountCmd(s), Colbin), now);
    RejectIs(CountCmd(s));
  }

  /** Only the reset byte takes LUREN down; it also leaves the error state, to waiting if a deck is armed. */
  lemma ResetClearsError(s: Feeder, re: Byte, now: Word32)
    requires Safe(s)
    ensures var r := Step(s, ReCmd(re, now));
            && r.wire.luren == (s.wire.luren && re != 0x47)
            && (re == 0x47 ==> r.st.state == if s.st.state != Error then s.st.state
                                             else if s.fd.deck.Some? then ArmedWait else Disarmed)
  {
    hide Step, Safe;
    if re == 0x47 { ResetIs(s, now); } else { LurenStays(s, re, now); }
  }

  lemma ResetIs(s: Feeder, now: Word32)
    requires Safe(s)
    ensures var r := Step(s, ReCmd(0x47, now));
            && !r.wire.luren
            && r.st.state == if s.st.state != Error then s.st.state
                             else if s.fd.deck.Some? then ArmedWait else Disarmed
  {
    hide PreparePresentation, RejectCard, Core, ReadyFormula, NoPushWhileReady;
  }

  lemma LurenStays(s: Feeder, re: Byte, now: Word32)
    requires Safe(s) && re != 0x47
    ensures Step(s, ReCmd(re, now)).wire.luren == s.wire.luren
  {
    hide PreparePresentation, RejectCard, Core, ReadyFormula, NoPushWhileReady;
    PrepareIs(CountCmd(s), now);
    PrepareIs(LatchMode(CountCmd(s), Normal), now);
    PrepareIs(LatchMode(CountCmd(s), Colbin), now);
    RejectIs(CountCmd(s));
  }

  /** The reject byte skips a card at rest: the cursor goes to the next one, or the deck ends with FIDEN up.  Nothing is
      presented. */
  lemma RejectSkips(s: Feeder, now: Word32)
    requires Safe(s) && AtRest(s)
    ensures var r := Step(s, ReCmd(0x48, now));
            && !r.fd.fininPending && r.st.col == 0 && r.st.half == 0 && r.wire.fifo == s.wire.fifo
            && if s.st.card + 1 < |s.fd.deck.value.idx|
               then r.st.card == s.st.card + 1 && r.st.state == ArmedWait && r.trace == s.trace
                    && r.wire.fiden == s.wire.fiden
               else r.st.card == s.st.card && r.st.state == Done && r.trace == s.trace + [Fiden(s.st.card)]
                    && r.wire.fiden
  {
    hide RejectCard, PreparePresentation, Core, ReadyFormula;
    RejectIs(CountCmd(s));
  }

  predicate SamePlace(s: Feeder, r: Feeder) {
    && r.st.card == s.st.card && r.st.col == s.st.col && r.st.half == s.st.half
    && r.trace == s.trace && r.wire.fiden == s.wire.fiden && r.wire.fifo == s.wire.fifo
  }

  /** No other byte moves the cursor or ends the deck, nor does the reject byte in any other state; and only the reset
      byte may change the state. */
  lemma OthersStay(s: Feeder, re: Byte, now: Word32)
    requires Safe(s) && !(re == 0x48 && AtRest(s))
    ensures var r := Step(s, ReCmd(re, now)); SamePlace(s, r) && (re != 0x47 ==> r.st.state == s.st.state)
  {
    hide Step, Safe, AtRest, SamePlace;
    if IsRead(re) {
      ReadsStay(s, re, now);
    } else if re == 0x48 {
      RejectStays(s, now);
    } else {
      PlainStay(s, re, now);
    }
  }

  lemma ReadsStay(s: Feeder, re: Byte, now: Word32)
    requires Safe(s) && IsRead(re)
    ensures SamePlace(s, Step(s, ReCmd(re, now))) && Step(s, ReCmd(re, now)).st.state == s.st.state
  {
    hide PreparePresentation, RejectCard, Core, ReadyFormula;
    PrepareIs(CountCmd(s), now);
    PrepareIs(LatchMode(CountCmd(s), Normal), now);
    PrepareIs(LatchMode(CountCmd(s), Colbin), now);
  }

  lemma RejectStays(s: Feeder, now: Word32)
    requires Safe(s) && !AtRest(s)
    ensures SamePlace(s, Step(s, ReCmd(0x48, now))) && Step(s, ReCmd(0x48, now)).st.state == s.st.state
  {
    hide PreparePresentation, RejectCard, Core, ReadyFormula;
    RejectIs(CountCmd(s));
  }

  lemma PlainStay(s: Feeder, re: Byte, now: Word32)
    requires Safe(s) && !IsRead(re) && re != 0x48
    ensures var r := Step(s, ReCmd(re, now)); SamePlace(s, r) && (re != 0x47 ==> r.st.state == s.st.state)
  {
    hide PreparePresentation, RejectCard, Core, ReadyFormula;
  }

  // ---- Feeds --------------------------------------------------------------------------------------------------

  /** A feed is counted; a timeout that stands in for one is counted apart, and only if it moves past a parked card. */
  lemma FeedsAreCounted(s: Feeder, now: Word32, drains: seq<nat>)
    requires Safe(s)
    ensures Step(s, Tu03(now, drains)).st.nFeeds == (s.st.nFeeds + 1) % 0x1_0000_0000
    ensures Step(s, Tu03(now, drains)).st.nAutofeeds == s.st.nAutofeeds
  {
    hide GoodDeck, NoPushWhileReady, CurrentMode;
    var t := FininRelease(CountFeed(s));
    if t.fd.cmdPending {
      var u := FeedPast(t.(fd := t.fd.(cmdPending := false)), true);
      if u.st.state == ArmedWait { PrefillCounts(Opened(u), now, drains); }
    }
  }

  lemma TimeoutsAreCounted(s: Feeder, now0: Word32, now1: Word32, now2: Word32, drains: seq<nat>)
    requires Safe(s) && s.fd.cmdPending && Expired(now0, s.fd.cmdDeadline)
    ensures var r := Step(s, Poll(now0, now1, now2, drains));
            && r.st.nFeeds == s.st.nFeeds
            && r.st.nAutofeeds == if s.st.state == CardDone then (s.st.nAutofeeds + 1) % 0x1_0000_0000
                                  else s.st.nAutofeeds
  {
    hide GoodDeck, NoPushWhileReady, CurrentMode, Expired, TriggerPresent;
    TriggerCounts(s, now1, drains);
  }

  lemma TriggerCounts(s: Feeder, now: Word32, drains: seq<nat>)
    requires Safe(s) && s.fd.cmdPending
    ensures var r := TriggerPresent(s, false, now, drains);
            && !r.fd.cmdPending && r.st.nFeeds == s.st.nFeeds
            && r.st.nAutofeeds == if s.st.state == CardDone then (s.st.nAutofeeds + 1) % 0x1_0000_0000
                                  else s.st.nAutofeeds
  {
    hide GoodDeck, NoPushWhileReady, CurrentMode;
    var u := FeedPast(s.(fd := s.fd.(cmdPending := false)), false);
    if u.st.state == ArmedWait {
      PrefillCounts(Opened(u), now, drains);
      PrefillAppends(Opened(u), now, drains);
    }
  }

  lemma {:induction false} PrefillCounts(s: Feeder, now: Word32, drains: seq<nat>)
    requires Core(s) && s.fd.deck.Some? && !s.wire.ready
    ensures var r := Prefill(s, now, drains); r.st.nFeeds == s.st.nFeeds && r.st.nAutofeeds == s.st.nAutofeeds
    decreases |drains|, FIFO_DEPTH - |s.wire.fifo|
  {
    hide CurrentChar, CurrentMode, AtLastColumn, GoodDeck, NoPushWhileReady;
    if s.fd.presenting {
      var t := if drains == [] then s else WirePull(s, drains[0]);
      if |t.wire.fifo| != FIFO_DEPTH {
        PrefillCounts(PresentNext(t, now), now, if drains == [] then [] else drains[1..]);
      }
    }
  }

  /** A feed with a read command pending opens the next card in its mode: hex for the loader card; then column binary if
      that is the policy, or else the latched mode.  The mode line is up for the modes that pack two nibbles. */
  lemma FeedOpensInMode(s: Feeder, now: Word32, drains: seq<nat>)
    requires Safe(s) && FlagsAgree(s) && s.fd.cmdPending && s.st.state == ArmedWait
    ensures s.fd.deck.Some?
    ensures var r, d := Step(s, Tu03(now, drains)), s.fd.deck.value;
            var mode := if d.loaderCard >= 0 && s.st.card == d.loaderCard then Hex
                        else if s.fd.postLoaderColbin then Colbin
                        else s.fd.latchedMode;
            && |r.trace| > |s.trace| && r.trace[|s.trace|] == Start(s.st.card, mode, false)
            && r.st.mode == mode && r.wire.pom01 == (mode == Colbin || mode == Binary)
  {
    hide GoodDeck, NoPushWhileReady;
    var t := FininRelease(CountFeed(s));
    var u := FeedPast(t.(fd := t.fd.(cmdPending := false)), true);
    PrefillAppends(Opened(u), now, drains);
    assert Opened(u).trace[|s.trace|] == Prefill(Opened(u), now, drains).trace[..|Opened(u).trace|][|s.trace|];
  }

  /** A feed with no command pending moves past a parked card, and otherwise does nothing but count. */
  lemma BareFeedMovesOn(s: Feeder, now: Word32, drains: seq<nat>)
    requires Safe(s) && !s.fd.cmdPending
    ensures var r := Step(s, Tu03(now, drains));
            if s.fd.deck.Some? && s.st.state == CardDone then
              !r.fd.fininPending && (if s.st.card + 1 < |s.fd.deck.value.idx|
                                     then r.st.card == s.st.card + 1 && r.st.state == ArmedWait
                                     else r.st.state == Done && r.wire.fiden)
            else r == s.(st := s.st.(nFeeds := (s.st.nFeeds + 1) % 0x1_0000_0000))
  {
    hide NoPushWhileReady;
  }

  // ---- Console words ------------------------------------------------------------------------------------------

  /** Operation, argument and value of a word. */
  function Packet(op: Byte, arg: Byte, val: Word16): Word32 { op + 0x100 * arg as nat + 0x1_0000 * val as nat }

  lemma PacketFields(op: Byte, arg: Byte, val: Word16)
    ensures var w := Packet(op, arg, val); IpcOp(w) == op && IpcArg(w) == arg && IpcVal(w) == val
  {
    var w := Packet(op, arg, val);
    assert w == op + 0x100 * (arg + 0x100 * val as nat);
    assert w / 0x100 == arg + 0x100 * val as nat;
    assert w == (op + 0x100 * arg as nat) + 0x1_0000 * val as nat;
  }

  /** ARM takes the deck of its slot, in hex, with the counters at zero and the lines of the deck before down. */
  lemma ArmWord(s: Feeder, arg: Byte, val: Word16)
    requires Safe(s) && GoodDeck(s.decks[arg % 2])
    ensures var r := Step(s, Ipc(Packet(1, arg, val)));
            && r.fd.deck == Some(s.decks[arg % 2]) && r.fd.latchedMode == Hex && r.st.mode == Hex
            && r.st.nCmds == r.st.nFeeds == r.st.nAutofeeds == r.st.nNibbles == r.st.nUnknownCmd == 0
            && r.st.state == ArmedWait && !r.wire.fiden && !r.wire.pom01 && r.wire.ready
            && r.wire.fifo == [] && r.wire.luren == s.wire.luren
            && r.st.card == Max(s.decks[arg % 2].loaderCard, 0) && r.st.col == r.st.half == 0
            && !r.fd.presenting && !r.fd.cmdPending && !r.fd.fininPending
  {
    hide GoodDeck, NoPushWhileReady, IpcOp, IpcArg, IpcVal, Packet;
    PacketFields(1, arg, val);
  }

  function Max(a: int, b: int): int { if a > b then a else b }

  /** REWIND goes back to the loader card, or card 0 without one, with the queue empty and nothing in flight. */
  lemma RewindWord(s: Feeder, arg: Byte, val: Word16)
    requires Safe(s) && s.fd.deck.Some?
    ensures var r := Step(s, Ipc(Packet(3, arg, val)));
            && r.st == s.st.(card := Max(s.fd.deck.value.loaderCard, 0), col := 0, half := 0, state := ArmedWait)
            && r.fd == s.fd.(presenting := false, cmdPending := false, fininPending := false)
            && !r.wire.fiden && r.wire.ready && r.wire.fifo == [] && r.wire.luren == s.wire.luren
            && r.wire.pom01 == s.wire.pom01
  {
    hide GoodDeck, NoPushWhileReady, IpcOp, IpcArg, IpcVal, Packet;
    PacketFields(3, arg, val);
  }

  /** GO does the same for the card val - 1 further; a val of zero, or one past the deck, changes nothing. */
  lemma GoWord(s: Feeder, arg: Byte, val: Word16)
    requires Safe(s) && s.fd.deck.Some?
    ensures var r := Step(s, Ipc(Packet(7, arg, val)));
            var d := s.fd.deck.value;
            var card := Max(d.loaderCard, 0) + val - 1;
            if val == 0 || card >= |d.idx| then r == s
            else
              && r.st == s.st.(card := card, col := 0, half := 0, state := ArmedWait)
              && r.fd == s.fd.(presenting := false, cmdPending := false, fininPending := false)
              && !r.wire.fiden && r.wire.ready && r.wire.fifo == [] && r.wire.luren == s.wire.luren
              && r.wire.pom01 == s.wire.pom01
  {
    hide NoPushWhileReady, IpcOp, IpcArg, IpcVal, Packet, GoodDeck, GoTarget;
    PacketFields(7, arg, val);
    GoTargetIs(s.fd.deck.value, val);
  }

  lemma GoTargetIs(d: DeckImage, val: Word16)
    requires GoodDeck(d)
    ensures val > 0 ==> GoTarget(d, val) == Max(d.loaderCard, 0) + val - 1
  {
  }

  /** DISARM drops the deck, the queue and everything in flight; FIDEN, the mode line and the ready line go down. */
  lemma DisarmWord(s: Feeder, arg: Byte, val: Word16)
    requires Safe(s)
    ensures var r := Step(s, Ipc(Packet(2, arg, val)));
            && r.fd.deck == None && r.st.state == Disarmed && r.st.card == 0
            && !r.fd.presenting && !r.fd.cmdPending && !r.fd.fininPending && r.wire.fifo == []
            && !r.wire.fiden && !r.wire.pom01 && !r.wire.ready && r.wire.luren == s.wire.luren
  {
    hide GoodDeck, NoPushWhileReady, IpcOp, IpcArg, IpcVal, Packet;
    PacketFields(2, arg, val);
  }

  /** EJECT moves the cursor to the start of the next card, if there is one, and changes nothing else. */
  lemma EjectWord(s: Feeder, arg: Byte, val: Word16)
    requires Safe(s)
    ensures Step(s, Ipc(Packet(4, arg, val)))
         == if s.fd.deck.Some? && s.st.card + 1 < |s.fd.deck.value.idx|
            then s.(st := s.st.(card := s.st.card + 1, col := 0, half := 0)) else s
  {
    hide GoodDeck, NoPushWhileReady, IpcOp, IpcArg, IpcVal, Packet;
    PacketFields(4, arg, val);
  }

  /** Each parameter sets its own field and no other. */
  lemma TuneWord(s: Feeder, arg: Byte, val: Word16)
    requires Safe(s)
    ensures Step(s, Ipc(Packet(5, arg, val)))
         == s.(fd := if arg == 1 then s.fd.(wTicks := val)
                     else if arg == 2 then s.fd.(gTicks := val)
                     else if arg == 3 then s.fd.(sTicks := val)
                     else if arg == 4 then s.fd.(dUs := val)
                     else if arg == 5 then s.fd.(fininToUs := val)
                     else if arg == 6 then s.fd.(postLoaderColbin := val % 2 == 1, autoRewind := val / 2 % 2 == 1)
                     else s.fd)
  {
    hide Core, IpcOp, IpcArg, IpcVal, Packet;
    PacketFields(5, arg, val);
  }

  /** The next character after a change of the strobe width or the gap goes out with it. */
  lemma TunedWordIsPushed(s: Feeder, arg: Byte, val: Word16, now: Word32)
    requires Safe(s) && s.fd.presenting && |s.wire.fifo| < 4 && (arg == 1 || arg == 2)
    ensures var r := Step(Step(s, Ipc(Packet(5, arg, val))), TxFeed(now));
            && |r.wire.fifo| == |s.wire.fifo| + 1
            && var word := r.wire.fifo[|s.wire.fifo|];
               if arg == 1 then word / 0x200 % 0x100 == val % 0x100 else word / 0x2_0000 % 0x8000 == val % 0x8000
  {
    hide Step, GoodDeck, NoPushWhileReady, Packet, Pack, CurrentChar, CurrentMode;
    TuneWord(s, arg, val);
    var t := Step(s, Ipc(Packet(5, arg, val)));
    FeedPushes(t, now);
  }

  lemma FeedPushes(s: Feeder, now: Word32)
    requires Safe(s) && s.fd.presenting && |s.wire.fifo| < 4
    ensures var r := Step(s, TxFeed(now));
            && |r.wire.fifo| == |s.wire.fifo| + 1
            && r.wire.fifo[|s.wire.fifo|] / 0x200 % 0x100 == s.fd.wTicks % 0x100
            && r.wire.fifo[|s.wire.fifo|] / 0x2_0000 % 0x8000 == s.fd.gTicks % 0x8000
  {
    hide GoodDeck, NoPushWhileReady, CurrentMode, Pack;
    var c := CurrentChar(s);
    FieldsRecovered(c.0, c.1, s.fd.wTicks, s.fd.gTicks);
    WordFields(Pack(c.0, c.1, s.fd.wTicks, s.fd.gTicks));
  }

  lemma WordFields(word: Word32)
    ensures word / 0x200 / 0x100 == word / 0x2_0000
  {
  }

  /** An injected error raises LUREN and enters the error state; the deck and everything in flight stay. */
  lemma InjectWord(s: Feeder, arg: Byte, val: Word16)
    requires Safe(s)
    ensures var r := Step(s, Ipc(Packet(6, arg, val)));
            && r.st == s.st.(state := Error) && r.fd == s.fd && r.trace == s.trace
            && r.wire == s.wire.(luren := true, ready := false)
  {
    hide Core, IpcOp, IpcArg, IpcVal, Packet;
    PacketFields(6, arg, val);
  }

  /** A word with any other operation does nothing. */
  lemma OtherWord(s: Feeder, op: Byte, arg: Byte, val: Word16)
    requires Safe(s) && !(1 <= op <= 7)
    ensures Step(s, Ipc(Packet(op, arg, val))) == s
  {
    hide Core, IpcOp, IpcArg, IpcVal, Packet;
    PacketFields(op, arg, val);
  }

  // ---- The count of characters --------------------------------------------------------------------------------

  /** The counter is the number of characters pushed so far, with what it had before, in 32 bits. */
  predicate Counted(s: Feeder, before: int) {
    s.st.nNibbles == (before + |CharsOf(s.trace)|) % 0x1_0000_0000
  }

  lemma PushIsCounted(s: Feeder, present: Byte, fini: bool, before: int)
    requires Counted(s, before)
    ensures Counted(WirePush(s, present, fini), before)
  {
    CharsOfSnoc(s.trace, Push(present, fini, s.wire.ready));
  }

  lemma SilentIsCounted(s: Feeder, t: Feeder, e: TraceEvent, before: int)
    requires Counted(s, before) && !e.Push? && t.st.nNibbles == s.st.nNibbles
    requires t.trace == s.trace || t.trace == s.trace + [e]
    ensures Counted(t, before)
  {
    CharsOfSnoc(s.trace, e);
  }

  lemma PresentNextIsCounted(s: Feeder, now: Word32, before: int)
    requires Core(s) && s.fd.deck.Some? && |s.wire.fifo| < FIFO_DEPTH && !s.wire.ready && Counted(s, before)
    ensures Counted(PresentNext(s, now), before)
  {
    hide CurrentChar, Counted, WirePush;
    var c := CurrentChar(s);
    var t := WirePush(s, c.0, c.1);
    PushIsCounted(s, c.0, c.1, before);
    SilentIsCounted(t, PresentNext(s, now), End(t.st.card), before);
  }

  lemma {:induction false} PrefillIsCounted(s: Feeder, now: Word32, drains: seq<nat>, before: int)
    requires Core(s) && s.fd.deck.Some? && !s.wire.ready && Counted(s, before)
    ensures Counted(Prefill(s, now, drains), before)
    decreases |drains|, FIFO_DEPTH - |s.wire.fifo|
  {
    if s.fd.presenting {
      var t := if drains == [] then s else WirePull(s, drains[0]);
      if |t.wire.fifo| != FIFO_DEPTH {
        PresentNextIsCounted(t, now, before);
        PrefillIsCounted(PresentNext(t, now), now, if drains == [] then [] else drains[1..], before);
      }
    }
  }

  lemma TriggerIsCounted(s: Feeder, viaFeed: bool, now: Word32, drains: seq<nat>, before: int)
    requires Core(s) && s.wire.feedIrq == s.fd.presenting && (!s.fd.cmdPending ==> Safe(s)) && Counted(s, before)
    ensures Counted(TriggerPresent(s, viaFeed, now, drains), before)
  {
    hide Counted, Prefill, GoodDeck;
    if s.fd.cmdPending {
      var u := FeedPast(s.(fd := s.fd.(cmdPending := false)), viaFeed);
      SilentIsCounted(s, u, Fiden(s.st.card), before);
      if u.st.state != ArmedWait {
        SilentIsCounted(u, LupobUpdate(u), Fiden(0), before);
      } else {
        SilentIsCounted(u, Opened(u), Start(u.st.card, CurrentMode(u), u.fd.fininPending), before);
        PrefillIsCounted(Opened(u), now, drains, before);
        SilentIsCounted(Prefill(Opened(u), now, drains), OpenCard(u, now, drains), Fiden(0), before);
      }
    }
  }

  predicate IsArm(e: Event) { e.Ipc? && IpcOp(e.word) == 1 }

  /** Every character pushed is counted once, and nothing else is; only ARM sets the count back. */
  lemma CharactersAreCounted(s: Feeder, e: Event, before: int)
    requires Safe(s) && Counted(s, before) && !IsArm(e)
    ensures Counted(Step(s, e), before)
  {
    hide Counted, OnReCmd, OnTu03, OnPoll, OnIpc;
    match e
    case ReCmd(re, now) => CommandIsCounted(s, re, now, before);
    case Tu03(now, drains) => FeedIsCounted(s, now, drains, before);
    case TxFeed(now) =>
      if s.wire.feedIrq && |s.wire.fifo| < FIFO_DEPTH {
        PresentNextIsCounted(s, now, before);
      }
    case Poll(now0, now1, now2, drains) => PollIsCounted(s, now0, now1, now2, drains, before);
    case Ipc(word) => WordIsCounted(s, word, before);
    case Pull => SilentIsCounted(s, Step(s, e), Fiden(0), before);
    case Load(slot, deck) => SilentIsCounted(s, Step(s, e), Fiden(0), before);
  }

  lemma CommandIsCounted(s: Feeder, re: Byte, now: Word32, before: int)
    requires Safe(s) && Counted(s, before)
    ensures Counted(OnReCmd(s, re, now), before)
  {
    hide Counted, Core, ReCmdBody;
    CommandsAreCounted(s, re, now);
    SilentIsCounted(s, OnReCmd(s, re, now), Fiden(s.st.card), before);
  }

  lemma FeedIsCounted(s: Feeder, now: Word32, drains: seq<nat>, before: int)
    requires Safe(s) && Counted(s, before)
    ensures Counted(OnTu03(s, now, drains), before)
  {
    hide Counted, TriggerPresent, GoodDeck;
    var t := CountFeed(s);
    SilentIsCounted(s, FininRelease(t), Fiden(0), before);
    if t.fd.cmdPending {
      TriggerIsCounted(FininRelease(t), true, now, drains, before);
    } else {
      SilentIsCounted(s, OnTu03(s, now, drains), Fiden(s.st.card), before);
    }
  }

  lemma PollIsCounted(s: Feeder, now0: Word32, now1: Word32, now2: Word32, drains: seq<nat>, before: int)
    requires Safe(s) && Counted(s, before)
    ensures Counted(OnPoll(s, now0, now1, now2, drains).0, before)
  {
    hide Counted, Core, TriggerPresent;
    if !PollBusyEarly(s, now0) {
      var t := PollCommand(s, now0, now1, drains);
      if t != s {
        TriggerIsCounted(s, false, now1, drains, before);
      }
      SilentIsCounted(t, OnPoll(s, now0, now1, now2, drains).0, Fiden(0), before);
    }
  }

  lemma WordIsCounted(s: Feeder, word: Word32, before: int)
    requires Safe(s) && Counted(s, before) && IpcOp(word) != 1
    ensures Counted(OnIpc(s, word), before)
  {
    hide Counted, Core;
    SilentIsCounted(s, OnIpc(s, word), Fiden(0), before);
  }

  /** Over any run without another ARM, the counter grows by the number of characters pushed. */
  lemma {:induction false} CharactersAreCountedThroughout(s: Feeder, es: seq<Event>, before: int)
    requires Safe(s) && Counted(s, before) && forall i :: 0 <= i < |es| ==> !IsArm(es[i])
    ensures Counted(Run(s, es), before)
    decreases |es|
  {
    hide Step, Counted;
    if es != [] {
      var n := |es| - 1;
      CharactersAreCountedThroughout(s, es[..n], before);
      CharactersAreCounted(Run(s, es[..n]), es[n], before);
    }
  }

  // ---- The parameters -----------------------------------------------------------------------------------------

  /** Strobe, gap and setup in tenths of a microsecond, the two delays in microseconds, and the policy. */
  function Tuning(s: Feeder): (nat, nat, nat, nat, nat, bool, bool) {
    (s.fd.wTicks, s.fd.gTicks, s.fd.sTicks, s.fd.dUs, s.fd.fininToUs, s.fd.postLoaderColbin, s.fd.autoRewind)
  }

  predicate IsTune(e: Event) { e.Ipc? && IpcOp(e.word) == 5 }

  /** From power-up, and until the console tunes something: strobes of 3.5 and gaps of 11.5 microseconds, 50
      milliseconds for a feed to come, one for FININ to be taken down, and column binary behind the loader card. */
  lemma {:induction false} UntunedRun(decks: seq<DeckImage>, es: seq<Event>)
    requires TwoSlots(decks) && forall i :: 0 <= i < |es| ==> !IsTune(es[i])
    ensures Safe(Init(decks)) && Tuning(Run(Init(decks), es)) == (35, 115, 5, 50000, 1000, true, true)
    decreases |es|
  {
    hide Step, Safe;
    InitHolds(decks);
    if es != [] {
      var n := |es| - 1;
      UntunedRun(decks, es[..n]);
      TuningStays(Run(Init(decks), es[..n]), es[n]);
    }
  }

  lemma TuningStays(s: Feeder, e: Event)
    requires Safe(s) && !IsTune(e)
    ensures Tuning(Step(s, e)) == Tuning(s)
  {
    hide Tuning, OnReCmd, OnTu03, OnPoll, OnIpc, PresentNext;
    match e
    case ReCmd(re, now) => CommandTunesNothing(s, re, now);
    case Tu03(now, drains) => FeedTunesNothing(s, now, drains);
    case TxFeed(now) =>
      if s.wire.feedIrq && |s.wire.fifo| < FIFO_DEPTH {
        PresentNextTunesNothing(s, now);
      }
    case Poll(now0, now1, now2, drains) => PollTunesNothing(s, now0, now1, now2, drains);
    case Ipc(word) => WordTunesNothing(s, word);
    case Pull => SameTuning(s, Step(s, e));
    case Load(slot, deck) => SameTuning(s, Step(s, e));
  }

  lemma SameTuning(s: Feeder, r: Feeder)
    requires r.fd == s.fd
    ensures Tuning(r) == Tuning(s)
  {
  }

  lemma CommandTunesNothing(s: Feeder, re: Byte, now: Word32)
    requires Safe(s)
    ensures Tuning(OnReCmd(s, re, now)) == Tuning(s)
  {
    hide PreparePresentation, RejectCard, Core, ReadyFormula;
    PrepareIs(CountCmd(s), now);
    PrepareIs(LatchMode(CountCmd(s), Normal), now);
    PrepareIs(LatchMode(CountCmd(s), Colbin), now);
    RejectIs(CountCmd(s));
  }

  lemma PresentNextTunesNothing(s: Feeder, now: Word32)
    requires Core(s) && s.fd.deck.Some? && |s.wire.fifo| < FIFO_DEPTH && !s.wire.ready && s.fd.presenting
    ensures Tuning(PresentNext(s, now)) == Tuning(s)
  {
    hide CurrentChar, CurrentMode, GoodDeck, NoPushWhileReady;
  }

  lemma {:induction false} PrefillTunesNothing(s: Feeder, now: Word32, drains: seq<nat>)
    requires Core(s) && s.fd.deck.Some? && !s.wire.ready
    ensures Tuning(Prefill(s, now, drains)) == Tuning(s)
    decreases |drains|, FIFO_DEPTH - |s.wire.fifo|
  {
    hide Tuning, PresentNext, GoodDeck, NoPushWhileReady;
    if s.fd.presenting {
      var t := if drains == [] then s else WirePull(s, drains[0]);
      SameTuning(s, t);
      if |t.wire.fifo| != FIFO_DEPTH {
        PresentNextTunesNothing(t, now);
        PrefillTunesNothing(PresentNext(t, now), now, if drains == [] then [] else drains[1..]);
      }
    }
  }

  lemma TriggerTunesNothing(s: Feeder, viaFeed: bool, now: Word32, drains: seq<nat>)
    requires Core(s) && s.wire.feedIrq == s.fd.presenting && (!s.fd.cmdPending ==> Safe(s))
    ensures Tuning(TriggerPresent(s, viaFeed, now, drains)) == Tuning(s)
  {
    hide GoodDeck, FeedPast, Opened, Prefill, ReadyFormula, NoPushWhileReady;
    if s.fd.cmdPending {
      var u := FeedPast(s.(fd := s.fd.(cmdPending := false)), viaFeed);
      if u.st.state == ArmedWait { PrefillTunesNothing(Opened(u), now, drains); }
    }
  }

  lemma FeedTunesNothing(s: Feeder, now: Word32, drains: seq<nat>)
    requires Safe(s)
    ensures Tuning(OnTu03(s, now, drains)) == Tuning(s)
  {
    hide TriggerPresent, GoodDeck, NoPushWhileReady;
    if s.fd.cmdPending { TriggerTunesNothing(FininRelease(CountFeed(s)), true, now, drains); }
  }

  lemma PollTunesNothing(s: Feeder, now0: Word32, now1: Word32, now2: Word32, drains: seq<nat>)
    requires Safe(s)
    ensures Tuning(OnPoll(s, now0, now1, now2, drains).0) == Tuning(s)
  {
    hide TriggerPresent, GoodDeck, NoPushWhileReady;
    if s.fd.cmdPending { TriggerTunesNothing(s, false, now1, drains); }
  }

  lemma WordTunesNothing(s: Feeder, word: Word32)
    requires Safe(s) && IpcOp(word) != 5
    ensures Tuning(Step(s, Ipc(word))) == Tuning(s)
  {
    hide Core, IpcOp, IpcArg, IpcVal, Arm, Disarm, Rewind, Go, GoodDeck, ReadyFormula, NoPushWhileReady;
    if Armable(s.decks, IpcOp(word), IpcArg(word)) && IpcOp(word) == IPC_ARM {
      ArmTunesNothing(s, IpcArg(word) % 2);
    }
    RestartsTuneNothing(s, IpcVal(word));
  }

  lemma ArmTunesNothing(s: Feeder, slot: nat)
    requires Core(s) && slot < 2 && GoodDeck(s.decks[slot])
    ensures Tuning(Arm(s, slot)) == Tuning(s)
  {
    hide Core, GoodDeck;
  }

  lemma RestartsTuneNothing(s: Feeder, val: Word16)
    requires Safe(s)
    ensures Tuning(Disarm(s)) == Tuning(Rewind(s)) == Tuning(Go(s, val)) == Tuning(s)
  {
    hide Core, GoodDeck, GoTarget, StartCard;
  }
}
