/** The protocol engine in its imperative form: handlers that update the two static structs and the lines in place.
    Each method's contract ties the new state to the state machine of FeederModel. */
module FeederEngine {
  import opened Wrappers
  import opened Bits
  import opened Transcode
  import opened DeckImages
  import opened PresenterWord
  import M = FeederModel

  class Reader {
    var st: M.Status              // g_feeder_status
    var fd: M.Engine              // the engine's own struct
    var wire: M.Wire              // output lines and the presenter FIFO
    var decks: seq<DeckImage>     // g_deck
    ghost var trace: seq<M.TraceEvent>

    ghost function Snap(): M.Feeder
      reads this
    {
      M.Feeder(st, fd, wire, decks, trace)
    }

    constructor (slots: seq<DeckImage>)
      requires M.TwoSlots(slots)
      ensures Snap() == M.Init(slots) && M.Safe(Snap())
    {
      st := M.Status(M.Disarmed, Normal, 0, 0, 0, 0, 0, 0, 0, 0);
      fd := M.Engine(None, Hex, false, false, false, 0, 0, 35, 115, 5, 50000, 1000, true, true);
      wire := M.Wire(false, false, false, false, false, [], []);
      decks := slots;
      trace := [];
    }

    // ---- Presenter FIFO ---------------------------------------------------------------------------------------

    /** wire_tx_full, asked after the presenter has taken up to `drained` words. */
    method TxFull(drained: nat) returns (full: bool)
      modifies this`wire
      ensures Snap() == M.WirePull(old(Snap()), drained)
      ensures full == (|wire.fifo| == M.FIFO_DEPTH)
    {
      var k := if drained < |wire.fifo| then drained else |wire.fifo|;
      wire := wire.(fifo := wire.fifo[k..], pulled := wire.pulled + wire.fifo[..k]);
      full := |wire.fifo| == M.FIFO_DEPTH;
    }

    method TxPush(present: Byte, fini: bool)
      modifies this`wire, this`trace
      ensures Snap() == M.WirePush(old(Snap()), present, fini).(st := st)
    {
      wire := wire.(fifo := wire.fifo + [Pack(present, fini, fd.wTicks, fd.gTicks)]);
      trace := trace + [M.Push(present, fini, wire.ready)];
    }

    method TxRestart()
      modifies this`wire
      ensures Snap() == M.WireRestart(old(Snap()))
    {
      wire := wire.(feedIrq := false, fifo := [], pulled := []);
    }

    // ---- Building blocks --------------------------------------------------------------------------------------

    method CursorReset()
      modifies this`st, this`fd
      ensures Snap() == M.CursorReset(old(Snap()))
    {
      st := st.(card := if fd.deck.Some? && fd.deck.value.loaderCard > 0 then fd.deck.value.loaderCard else 0);
      st := st.(col := 0);
      st := st.(half := 0);
      fd := fd.(presenting := false);
      fd := fd.(cmdPending := false);
      fd := fd.(fininPending := false);
    }

    method LupobUpdate()
      modifies this`wire
      ensures Snap() == M.LupobUpdate(old(Snap()))
    {
      wire := wire.(ready := fd.deck.Some? && !fd.presenting && !fd.cmdPending && !fd.fininPending &&
                             (st.state == M.ArmedWait || st.state == M.CardDone));
    }

    method FininRelease()
      modifies this`fd
      ensures Snap() == M.FininRelease(old(Snap()))
    {
      if !fd.fininPending {
        return;
      }
      fd := fd.(fininPending := false);
    }

    method AdvanceCard()
      requires M.Core(Snap()) && fd.deck.Some?
      modifies this`st, this`wire, this`trace
      ensures Snap() == M.AdvanceCard(old(Snap()))
    {
      st := st.(col := 0);
      st := st.(half := 0);
      if st.card + 1 >= |fd.deck.value.idx| {
        st := st.(state := M.Done);
        wire := wire.(fiden := true);
        trace := trace + [M.Fiden(st.card)];
      } else {
        st := st.(card := st.card + 1);
        st := st.(state := M.ArmedWait);
      }
    }

    /** The character at the cursor, and where the cursor stands. */
    method TranscodeCurrent() returns (present: Byte, fini: bool, packed: bool, lastCol: bool)
      requires M.CursorInDeck(Snap())
      ensures (present, fini) == M.CurrentChar(Snap())
      ensures packed == PacksTwo() && lastCol == M.AtLastColumn(Snap())
    {
      hide Transcoded, M.EffectiveMode;
      var d, card, col := fd.deck.value, st.card, st.col;
      var eff := M.EffectiveMode(d, card, fd.postLoaderColbin, fd.latchedMode);
      var byte := TranscodeColumn(d.cols[d.idx[card].off + col], eff);
      packed := eff == Colbin || eff == Binary;
      lastCol := col + 1 >= d.idx[card].ncols;
      if packed && st.half == 0 {
        present := byte / 16 % 16;
        fini := false;
      } else {
        present := if packed then byte % 16 else byte;
        fini := lastCol;
      }
    }

    ghost predicate PacksTwo()
      reads this
      requires fd.deck.Some?
    {
      M.PacksTwo(M.CurrentMode(Snap()))
    }

    method PresentNext(now: Word32)
      requires M.Core(Snap()) && fd.deck.Some? && |wire.fifo| < M.FIFO_DEPTH && !wire.ready
      modifies this`st, this`fd, this`wire, this`trace
      ensures Snap() == M.PresentNext(old(Snap()), now)
    {
      ghost var before := Snap();
      var present, fini, packed, lastCol := TranscodeCurrent();
      var col := st.col;
      TxPush(present, fini);
      st := st.(nNibbles := M.Inc32(st.nNibbles));
      assert Snap() == M.WirePush(before, present, fini);
      if packed && st.half == 0 {
        st := st.(half := 1);
        return;
      }
      if !lastCol {
        st := st.(half := 0);
        st := st.(col := (col + 1) % 256);
        return;
      }
      ParkCard(now);
    }

    method ParkCard(now: Word32)
      requires fd.deck.Some?
      modifies this`st, this`fd, this`wire, this`trace
      ensures Snap() == M.ParkCard(old(Snap()), now)
    {
      st := st.(half := 0);
      st := st.(col := 0);
      fd := fd.(presenting := false);
      fd := fd.(fininPending := true);
      fd := fd.(fininDeadline := M.AddTime(now, fd.fininToUs));
      st := st.(state := M.CardDone);
      trace := trace + [M.End(st.card)];
      wire := wire.(feedIrq := false);
    }

    method PreparePresentation(now: Word32)
      requires M.Core(Snap()) && wire.feedIrq == fd.presenting
      modifies this`fd, this`wire
      ensures Snap() == M.PreparePresentation(old(Snap()), now)
    {
      hide M.Core;
      if fd.deck.None? {
        return;
      }
      if st.state != M.ArmedWait && st.state != M.CardDone {
        return;
      }
      FininRelease();
      fd := fd.(cmdPending := true);
      fd := fd.(cmdDeadline := M.AddTime(now, fd.dUs));
      LupobUpdate();
    }

    /** Presents character after character until the card ends or the FIFO is full. */
    method Prefill(now: Word32, drains: seq<nat>)
      requires M.Core(Snap()) && fd.deck.Some? && !wire.ready
      modifies this`st, this`fd, this`wire, this`trace
      ensures Snap() == M.Prefill(old(Snap()), now, drains)
    {
      hide M.PresentNext;
      ghost var before := Snap();
      var rest := drains;
      while fd.presenting
        invariant M.Core(Snap()) && fd.deck.Some? && !wire.ready
        invariant M.Prefill(Snap(), now, rest) == M.Prefill(before, now, drains)
        decreases |rest|, M.FIFO_DEPTH - |wire.fifo|
      {
        ghost var top := Snap();
        var full := TxFull(if rest == [] then 0 else rest[0]);
        M.PullNone(top);
        if full {
          return;
        }
        PresentNext(now);
        rest := if rest == [] then [] else rest[1..];
      }
    }

    method OpenCard(now: Word32, drains: seq<nat>)
      requires M.Core(Snap()) && fd.deck.Some?
      modifies this`st, this`fd, this`wire, this`trace
      ensures Snap() == M.OpenCard(old(Snap()), now, drains)
    {
      ghost var before := Snap();
      var eff := M.EffectiveMode(fd.deck.value, st.card, fd.postLoaderColbin, fd.latchedMode);
      st := st.(mode := eff);
      wire := wire.(pom01 := eff == Colbin || eff == Binary);
      trace := trace + [M.Start(st.card, eff, fd.fininPending)];
      st := st.(state := M.Presenting);
      fd := fd.(presenting := true);
      LupobUpdate();
      assert Snap() == M.Opened(before);
      Prefill(now, drains);
      if fd.presenting {
        wire := wire.(feedIrq := true);
      }
    }

    method TriggerPresent(viaFeed: bool, now: Word32, drains: seq<nat>)
      requires M.Core(Snap()) && wire.feedIrq == fd.presenting && (!fd.cmdPending ==> M.Safe(Snap()))
      modifies this`st, this`fd, this`wire, this`trace
      ensures Snap() == M.TriggerPresent(old(Snap()), viaFeed, now, drains)
    {
      hide M.OpenCard, M.AdvanceCard, M.GoodDeck;
      if !fd.cmdPending {
        return;
      }
      fd := fd.(cmdPending := false);
      if st.state == M.CardDone {
        if !viaFeed {
          st := st.(nAutofeeds := M.Inc32(st.nAutofeeds));
        }
        AdvanceCard();
      }
      if st.state != M.ArmedWait {
        LupobUpdate();
        return;
      }
      OpenCard(now, drains);
    }

    // ---- Handlers ---------------------------------------------------------------------------------------------

    method OnReCmd(re: Byte, now: Word32)
      requires M.Safe(Snap())
      modifies this`st, this`fd, this`wire, this`trace
      ensures Snap() == M.OnReCmd(old(Snap()), re, now) && M.Safe(Snap())
    {
      hide M.ReCmdBody;
      ghost var before := Snap();
      st := st.(nCmds := M.Inc32(st.nCmds));
      assert Snap() == M.CountCmd(before);
      Dispatch(re, now);
      LupobUpdate();
    }

    method Dispatch(re: Byte, now: Word32)
      requires M.Safe(Snap())
      modifies this`st, this`fd, this`wire, this`trace
      ensures Snap() == M.ReCmdBody(old(Snap()), re, now)
    {
      hide M.PreparePresentation, M.RejectCard, M.ResetError, M.Core;
      ghost var before := Snap();
      if re == M.READ_UNCHANGED {
        PreparePresentation(now);
      } else if re == M.READ_NORMAL_1 || re == M.READ_NORMAL_2 || re == M.READ_MIXED_1 || re == M.READ_MIXED_2 {
        fd := fd.(latchedMode := Normal);
        assert Snap() == M.LatchMode(before, Normal);
        PreparePresentation(now);
      } else if re == M.READ_BINARY {
        fd := fd.(latchedMode := Colbin);
        assert Snap() == M.LatchMode(before, Colbin);
        PreparePresentation(now);
      } else if re == M.PUT_BINARY {
        fd := fd.(latchedMode := Colbin);
      } else if re == M.EXAM {
      } else if re == M.RESET_ERROR {
        ResetError();
      } else if re == M.CARD_REJECT {
        RejectCard();
      } else if re == M.NO_FUNCTION {
      } else {
        st := st.(nUnknownCmd := M.Inc32(st.nUnknownCmd));
      }
    }

    method ResetError()
      requires M.Safe(Snap())
      modifies this`st, this`wire
      ensures Snap() == M.ResetError(old(Snap()))
    {
      wire := wire.(luren := false);
      if st.state == M.Error {
        st := st.(state := if fd.deck.Some? then M.ArmedWait else M.Disarmed);
      }
    }

    method RejectCard()
      requires M.Safe(Snap())
      modifies this`st, this`fd, this`wire, this`trace
      ensures Snap() == M.RejectCard(old(Snap()))
    {
      hide M.AdvanceCard, M.GoodDeck;
      if fd.deck.Some? && (st.state == M.ArmedWait || st.state == M.CardDone) {
        FininRelease();
        AdvanceCard();
      }
    }

    method OnTu03(now: Word32, drains: seq<nat>)
      requires M.Safe(Snap())
      modifies this`st, this`fd, this`wire, this`trace
      ensures Snap() == M.OnTu03(old(Snap()), now, drains) && M.Safe(Snap())
    {
      ghost var before := Snap();
      st := st.(nFeeds := M.Inc32(st.nFeeds));
      assert Snap() == M.CountFeed(before);
      if fd.cmdPending {
        FininRelease();
        TriggerPresent(true, now, drains);
      } else if fd.deck.Some? && st.state == M.CardDone {
        FininRelease();
        AdvanceCard();
        LupobUpdate();
      }
    }

    method OnTxFeed(now: Word32)
      requires M.Safe(Snap()) && |wire.fifo| < M.FIFO_DEPTH
      modifies this`st, this`fd, this`wire, this`trace
      ensures Snap() == M.OnTxFeed(old(Snap()), now) && M.Safe(Snap())
    {
      hide M.PresentNext;
      if fd.presenting {
        PresentNext(now);
      }
    }

    method OnIpc(word: Word32)
      requires M.Safe(Snap()) && M.Armable(decks, M.IpcOp(word), M.IpcArg(word))
      modifies this`st, this`fd, this`wire
      ensures Snap() == M.OnIpc(old(Snap()), word) && M.Safe(Snap())
    {
      hide M.IpcBody;
      IpcDispatch(M.IpcOp(word), M.IpcArg(word), M.IpcVal(word));
      LupobUpdate();
    }

    method IpcDispatch(op: nat, arg: nat, val: Word16)
      requires M.Safe(Snap()) && M.Armable(decks, op, arg)
      modifies this`st, this`fd, this`wire
      ensures Snap() == M.IpcBody(old(Snap()), op, arg, val)
    {
      hide M.Arm, M.Disarm, M.Rewind, M.Eject, M.SetParam, M.Go, M.Core;
      if op == M.IPC_ARM {
        Arm(arg % 2);
      } else if op == M.IPC_DISARM {
        Disarm();
      } else if op == M.IPC_REWIND {
        Rewind();
      } else if op == M.IPC_EJECT {
        Eject();
      } else if op == M.IPC_SET_PARAM {
        SetParam(arg, val);
      } else if op == M.IPC_INJECT_ERROR {
        wire := wire.(luren := true);
        st := st.(state := M.Error);
      } else if op == M.IPC_GO {
        Go(val);
      }
    }

    method Arm(slot: nat)
      requires M.Core(Snap()) && slot < 2 && M.GoodDeck(decks[slot])
      modifies this`st, this`fd, this`wire
      ensures Snap() == M.Arm(old(Snap()), slot)
    {
      hide M.GoodDeck;
      fd := fd.(deck := Some(decks[slot]));
      fd := fd.(latchedMode := Hex);
      CursorReset();
      st := st.(nCmds := 0, nFeeds := 0);
      st := st.(nAutofeeds := 0, nNibbles := 0);
      st := st.(nUnknownCmd := 0);
      st := st.(mode := Hex);
      st := st.(state := M.ArmedWait);
      wire := wire.(fiden := false);
      wire := wire.(pom01 := false);
      TxRestart();
    }

    method Disarm()
      requires M.Core(Snap())
      modifies this`st, this`fd, this`wire
      ensures Snap() == M.Disarm(old(Snap()))
    {
      hide M.Core;
      fd := fd.(deck := None);
      CursorReset();
      st := st.(state := M.Disarmed);
      wire := wire.(fiden := false);
      wire := wire.(pom01 := false);
      TxRestart();
    }

    method Rewind()
      requires M.Safe(Snap())
      modifies this`st, this`fd, this`wire
      ensures Snap() == M.Rewind(old(Snap()))
    {
      CursorReset();
      if fd.deck.Some? {
        st := st.(state := M.ArmedWait);
        wire := wire.(fiden := false);
        TxRestart();
      }
    }

    method Eject()
      requires M.Safe(Snap())
      modifies this`st
      ensures Snap() == M.Eject(old(Snap()))
    {
      if fd.deck.Some? && st.card + 1 < |fd.deck.value.idx| {
        st := st.(card := st.card + 1);
        st := st.(col := 0, half := 0);
      }
    }

    method SetParam(param: nat, val: Word16)
      modifies this`fd
      ensures Snap() == M.SetParam(old(Snap()), param, val)
    {
      if param == M.PARAM_W_TICKS {
        fd := fd.(wTicks := val);
      } else if param == M.PARAM_G_TICKS {
        fd := fd.(gTicks := val);
      } else if param == M.PARAM_S_TICKS {
        fd := fd.(sTicks := val);
      } else if param == M.PARAM_D_US {
        fd := fd.(dUs := val);
      } else if param == M.PARAM_FININ_TO_US {
        fd := fd.(fininToUs := val);
      } else if param == M.PARAM_POLICY {
        fd := fd.(postLoaderColbin := val % 2 == 1);
        fd := fd.(autoRewind := val / 2 % 2 == 1);
      }
    }

    method Go(val: Word16)
      requires M.Safe(Snap())
      modifies this`st, this`fd, this`wire
      ensures Snap() == M.Go(old(Snap()), val)
    {
      if fd.deck.None? {
        return;
      }
      var start := if fd.deck.value.loaderCard > 0 then fd.deck.value.loaderCard else 0;
      var tgt := (start + val - 1) % TWO32;
      if val < 1 || tgt >= |fd.deck.value.idx| {
        return;
      }
      CursorReset();
      st := st.(card := tgt);
      st := st.(state := M.ArmedWait);
      wire := wire.(fiden := false);
      TxRestart();
    }

    method Poll(now0: Word32, now1: Word32, now2: Word32, drains: seq<nat>) returns (busy: bool)
      requires M.Safe(Snap())
      modifies this`st, this`fd, this`wire, this`trace
      ensures (Snap(), busy) == M.OnPoll(old(Snap()), now0, now1, now2, drains) && M.Safe(Snap())
    {
      hide M.TriggerPresent, M.GoodDeck;
      if fd.cmdPending {
        if M.Expired(now0, fd.cmdDeadline) {
          TriggerPresent(false, now1, drains);
        } else {
          return true;
        }
      }
      if fd.fininPending {
        if M.Expired(now2, fd.fininDeadline) {
          FininRelease();
          LupobUpdate();
        } else {
          return true;
        }
      }
      return false;
    }
  }
}
