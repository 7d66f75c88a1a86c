/** From a binary to the machine's memory: encoder, feeder, channel and loader composed. */
module EndToEnd {
  import opened Wrappers
  import opened Bits
  import opened Transcode
  import opened Columns
  import opened DeckImages
  import opened PresenterWord
  import opened Bin2Deck
  import opened Machine
  import BinEncoder
  import M = FeederModel
  import F = FeederFlags
  import S = FeederSession
  import W = FeederWords

  // ---- Transfers of a card trace ------------------------------------------------------------------------------

  /** The characters of one card. */
  function CardChars(d: DeckImage, card: nat, mode: TcMode): seq<Char>
    requires Indexed(d) && card < |d.idx|
  {
    W.CharsOf(S.Stream(d, card, mode))
  }

  lemma {:induction false} AllPushes(t: seq<M.TraceEvent>)
    requires forall i :: 0 <= i < |t| ==> t[i].Push?
    ensures |W.CharsOf(t)| == |t|
    ensures forall i :: 0 <= i < |t| ==> W.CharsOf(t)[i] == Char(t[i].present % 16, t[i].fini)
    decreases |t|
  {
    if t != [] {
      AllPushes(t[1..]);
    }
  }

  /** Character k of a card, with FININ on the last one only. */
  lemma CardCharAt(d: DeckImage, card: nat, mode: TcMode)
    requires Indexed(d) && card < |d.idx|
    ensures var cs, n := CardChars(d, card, mode), S.StreamLen(d, card, mode);
            && |cs| == n
            && (forall k :: 0 <= k < n ==> cs[k].fini == (k == n - 1))
            && (forall k :: 0 <= k < n ==> cs[k].nibble == S.StreamAt(d, card, mode, k).present % 16)
  {
    hide Transcoded, W.CharsOf;
    var t := S.Stream(d, card, mode);
    assert forall k :: 0 <= k < |t| ==> t[k] == S.StreamAt(d, card, mode, k);
    AllPushes(t);
  }

  lemma OpenAndEndAreSilent(d: DeckImage, card: nat, mode: TcMode)
    requires Indexed(d) && card < |d.idx|
    ensures W.CharsOf(S.CardTrace(d, card, mode)) == CardChars(d, card, mode)
  {
    hide W.CharsOf, S.Stream;
    var t := S.Stream(d, card, mode);
    var open := [M.Start(card, mode, false)];
    W.CharsOfConcat(open, t);
    W.CharsOfConcat(open + t, [M.End(card)]);
    assert t[..|t|] == t;
    SilentAlone(M.Start(card, mode, false));
    SilentAlone(M.End(card));
    assert [] + W.CharsOf(t) + [] == W.CharsOf(t);
  }

  lemma SilentAlone(e: M.TraceEvent)
    requires !e.Push?
    ensures W.CharsOf([e]) == []
  {
  }

  /** The transfers the machine sees for cards first, first+1, ... */
  function Transfers(d: DeckImage, first: nat, modes: seq<TcMode>): (ts: seq<seq<nat>>)
    requires Indexed(d) && first + |modes| <= |d.idx|
    ensures |ts| == |modes|
  {
    seq(|modes|, i requires 0 <= i < |modes| => Nibbles(CardChars(d, first + i, modes[i])))
  }

  lemma {:induction false} FullTraceTransfers(d: DeckImage, first: nat, modes: seq<TcMode>, rest: seq<Char>)
    requires Indexed(d) && M.GoodDeck(d) && first + |modes| <= |d.idx|
    ensures Receive(W.CharsOf(S.FullTrace(d, first, modes)) + rest, [])
         == Transfers(d, first, modes) + Receive(rest, [])
    decreases |modes|
  {
    hide W.CharsOf, Receive, M.GoodDeck, S.CardTrace, CardChars;
    if modes == [] {
      assert W.CharsOf([]) == [] by { W.CharsOfConcat([], []); EmptyChars(); }
      assert [] + rest == rest;
    } else {
      var n := |modes| - 1;
      var init, card := S.FullTrace(d, first, modes[..n]), S.CardTrace(d, first + n, modes[n]);
      var cs := CardChars(d, first + n, modes[n]);
      W.CharsOfConcat(init, card);
      OpenAndEndAreSilent(d, first + n, modes[n]);
      assert (W.CharsOf(init) + cs) + rest == W.CharsOf(init) + (cs + rest);
      FullTraceTransfers(d, first, modes[..n], cs + rest);
      CardComplete(d, first + n, modes[n]);
      ReceiveComplete(cs, rest, []);
      assert [] + Nibbles(cs) == Nibbles(cs);
      assert Transfers(d, first, modes) == Transfers(d, first, modes[..n]) + [Nibbles(cs)];
    }
  }

  lemma EmptyChars()
    ensures W.CharsOf([]) == []
  {
  }

  lemma CardComplete(d: DeckImage, card: nat, mode: TcMode)
    requires M.GoodDeck(d) && card < |d.idx|
    ensures Complete(CardChars(d, card, mode))
  {
    CardCharAt(d, card, mode);
  }

  /** The channel's packing of a column-binary card: one byte per column. */
  lemma PackedCard(d: DeckImage, card: nat, bytes: seq<Byte>)
    requires Indexed(d) && card < |d.idx| && |bytes| == d.idx[card].ncols
    requires forall j :: 0 <= j < |bytes| ==> CardOf(d, card)[j] == ByteToCol(bytes[j])
    ensures PackBytes(Nibbles(CardChars(d, card, Colbin))) == bytes
  {
    hide CardChars, CardOf;
    var cs := CardChars(d, card, Colbin);
    CardLength(d, card);
    forall j | 0 <= j < |bytes| ensures cs[2 * j].nibble == bytes[j] / 16 && cs[2 * j + 1].nibble == bytes[j] % 16 {
      CardNibbles(d, card, cs, bytes[j], j);
    }
    PackPairs(cs, bytes);
  }

  lemma CardLength(d: DeckImage, card: nat)
    requires Indexed(d) && card < |d.idx|
    ensures |CardChars(d, card, Colbin)| == 2 * d.idx[card].ncols
  {
    CardCharAt(d, card, Colbin);
  }

  lemma CardNibbles(d: DeckImage, card: nat, cs: seq<Char>, byte: Byte, j: nat)
    requires Indexed(d) && card < |d.idx| && cs == CardChars(d, card, Colbin)
    requires j < d.idx[card].ncols && CardOf(d, card)[j] == ByteToCol(byte)
    ensures |cs| == 2 * d.idx[card].ncols
    ensures cs[2 * j].nibble == byte / 16 && cs[2 * j + 1].nibble == byte % 16
  {
    hide CardChars, ByteToCol, S.StreamAt, CardOf;
    CardCharAt(d, card, Colbin);
    PackedByte(d, card, byte, j);
  }

  lemma PackPairs(cs: seq<Char>, bytes: seq<Byte>)
    requires |cs| == 2 * |bytes|
    requires forall j :: 0 <= j < |bytes| ==> cs[2 * j].nibble == bytes[j] / 16 && cs[2 * j + 1].nibble == bytes[j] % 16
    ensures PackBytes(Nibbles(cs)) == bytes
  {
  }

  lemma PackedByte(d: DeckImage, card: nat, byte: Byte, j: nat)
    requires Indexed(d) && card < |d.idx| && j < d.idx[card].ncols && CardOf(d, card)[j] == ByteToCol(byte)
    ensures S.StreamAt(d, card, Colbin, 2 * j).present % 16 == byte / 16
    ensures S.StreamAt(d, card, Colbin, 2 * j + 1).present % 16 == byte % 16
  {
    hide Transcoded, ByteToCol;
    ColbinRoundTrip(byte);
    assert (2 * j + 1) / 2 == j;
  }

  // ---- The loader on a synthesized deck -----------------------------------------------------------------------

  function ScatterBytes(addr: Word16, payload: seq<Byte>): (bs: seq<Byte>)
    requires 0 < |payload| <= CHUNK
    ensures |bs| == CARD_COLS
  {
    seq(CARD_COLS, i requires 0 <= i < CARD_COLS => ScatterByte(addr, payload, i))
  }

  /** Bytes of the cards after the loader. */
  function BodyBytes(base: Word16, data: seq<Byte>, entry: Word16): (cs: seq<seq<Byte>>)
    requires base + |data| <= TWO16
    ensures |cs| == CardCount(|data|) + 1 && FullCards(cs)
  {
    ChunkBytes(base, data, CardCount(|data|)) + [ScatterBytes(0, Termination(entry))]
  }

  function ChunkBytes(base: Word16, data: seq<Byte>, k: nat): (cs: seq<seq<Byte>>)
    requires CHUNK * k < |data| + CHUNK && base + |data| <= TWO16
    ensures |cs| == k && FullCards(cs)
  {
    seq(k, i requires 0 <= i < k => ScatterBytes(base + CHUNK * i, Chunk(data, i)))
  }

  /** Location a, outside the card buffer, after the first k payload cards. */
  lemma {:induction false} ChunksLoad(mem: Memory, base: Word16, data: seq<Byte>, k: nat, a: nat)
    requires IsMemory(mem) && LOAD_FLOOR <= base && base + |data| <= TWO16 && CHUNK * k < |data| + CHUNK
    requires a < TWO16 && !(CARD_BUFFER <= a < LOAD_FLOOR)
    ensures LoadCards(mem, ChunkBytes(base, data, k))[a]
         == if base <= a < base + |data| && a < base + CHUNK * k then data[a - base] else mem[a]
    decreases k
  {
    hide LoadCard, ScatterBytes;
    if k > 0 {
      var at, chunk := base + CHUNK * (k - 1), Chunk(data, k - 1);
      ChunksLoad(mem, base, data, k - 1, a);
      LoadStep(mem, base, data, k);
      LoadScatter(LoadCards(mem, ChunkBytes(base, data, k - 1)), at, chunk, a);
    }
  }

  lemma LoadStep(mem: Memory, base: Word16, data: seq<Byte>, k: nat)
    requires IsMemory(mem) && base + |data| <= TWO16 && k > 0 && CHUNK * k < |data| + CHUNK
    ensures LoadCards(mem, ChunkBytes(base, data, k))
         == LoadCard(LoadCards(mem, ChunkBytes(base, data, k - 1)),
                     ScatterBytes(base + CHUNK * (k - 1), Chunk(data, k - 1)))
  {
    hide LoadCard, LoadCards, ScatterBytes, Chunk, ChunkBytes;
    ChunkBytesNext(base, data, k);
    LoadLast(mem, ChunkBytes(base, data, k - 1), ScatterBytes(base + CHUNK * (k - 1), Chunk(data, k - 1)));
  }

  lemma ChunkBytesNext(base: Word16, data: seq<Byte>, k: nat)
    requires base + |data| <= TWO16 && k > 0 && CHUNK * k < |data| + CHUNK
    ensures ChunkBytes(base, data, k)
         == ChunkBytes(base, data, k - 1) + [ScatterBytes(base + CHUNK * (k - 1), Chunk(data, k - 1))]
  {
    hide ScatterBytes, Chunk, FullCards;
  }

  /** Loading one scatter card stores its payload and, outside the card buffer, nothing else. */
  lemma LoadScatter(m: Memory, at: Word16, payload: seq<Byte>, a: nat)
    requires IsMemory(m) && 0 < |payload| <= CHUNK
    requires at + |payload| <= CARD_BUFFER || (LOAD_FLOOR <= at && at + |payload| <= TWO16)
    requires a < TWO16 && !(CARD_BUFFER <= a < LOAD_FLOOR)
    ensures LoadCard(m, ScatterBytes(at, payload))[a] == if at <= a < at + |payload| then payload[a - at] else m[a]
  {
    hide LoadCard, ScatterBytes, Word;
    ScatterHeader(at, payload);
    if at <= a < at + |payload| { ScatterPayload(at, payload, a - at); }
    LoadCardStores(m, ScatterBytes(at, payload), at, |payload|, a);
  }

  lemma ScatterHeader(at: Word16, payload: seq<Byte>)
    requires 0 < |payload| <= CHUNK
    ensures var card := ScatterBytes(at, payload); card[8] == |payload| - 1 && Word(card[9], card[10]) == at
  {
  }

  lemma ScatterPayload(at: Word16, payload: seq<Byte>, j: nat)
    requires j < |payload| <= CHUNK
    ensures ScatterBytes(at, payload)[11 + j] == payload[j]
  {
  }

  /** The binary at its address, at 0 two no-operations and a jump that lead to the entry point, and nothing else
      changed outside the card buffer. */
  predicate ProgramInMemory(before: Memory, after: Memory, base: nat, data: seq<Byte>, entry: Word16) {
    && IsMemory(before) && IsMemory(after)
    && after[..6] == [0x07, 0x00, 0x07, 0x00, 0x43, 0xF0] && after[6] as nat * 0x100 + after[7] == entry
    && After(after, 0, 3) == Some(entry)
    && forall a :: 8 <= a < TWO16 && !(CARD_BUFFER <= a < LOAD_FLOOR) ==>
         after[a] == if base <= a < base + |data| then data[a - base] else before[a]
  }

  lemma JumpsToEntry(after: Memory, entry: Word16)
    requires IsMemory(after) && forall a :: 0 <= a < 8 ==> after[a] == Termination(entry)[a]
    ensures after[..6] == [0x07, 0x00, 0x07, 0x00, 0x43, 0xF0] && after[6] as nat * 0x100 + after[7] == entry
    ensures After(after, 0, 3) == Some(entry)
  {
    assert After(after, 0, 1) == Executed(after, 0) == Some(2);
    assert After(after, 0, 2) == Executed(after, 2) == Some(4);
  }

  /** The scatter loader undoes the encoder. */

  lemma LoaderUndoesEncoder(mem: Memory, base: Word16, data: seq<Byte>, entry: Word16)
    requires IsMemory(mem) && LOAD_FLOOR <= base && base + |data| <= TWO16
    ensures ProgramInMemory(mem, LoadCards(mem, BodyBytes(base, data, entry)), base, data, entry)
  {
    hide LoadCards, BodyBytes, Termination, After;
    forall a | 0 <= a < TWO16 && !(CARD_BUFFER <= a < LOAD_FLOOR)
      ensures LoadCards(mem, BodyBytes(base, data, entry))[a]
           == if a < 8 then Termination(entry)[a] else if base <= a < base + |data| then data[a - base] else mem[a]
    {
      LoadedAt(mem, base, data, entry, a);
    }
    JumpsToEntry(LoadCards(mem, BodyBytes(base, data, entry)), entry);
  }

  lemma LoadedAt(mem: Memory, base: Word16, data: seq<Byte>, entry: Word16, a: nat)
    requires IsMemory(mem) && LOAD_FLOOR <= base && base + |data| <= TWO16
    requires a < TWO16 && !(CARD_BUFFER <= a < LOAD_FLOOR)
    ensures LoadCards(mem, BodyBytes(base, data, entry))[a]
         == if a < 8 then Termination(entry)[a] else if base <= a < base + |data| then data[a - base] else mem[a]
  {
    hide LoadCard, LoadCards, ScatterBytes, ChunkBytes, Termination;
    var k, term := CardCount(|data|), Termination(entry);
    LoadLast(mem, ChunkBytes(base, data, k), ScatterBytes(0, term));
    ChunksLoad(mem, base, data, k, a);
    LoadScatter(LoadCards(mem, ChunkBytes(base, data, k)), 0, term, a);
  }

  lemma LoadLast(mem: Memory, cards: seq<seq<Byte>>, last: seq<Byte>)
    requires IsMemory(mem) && FullCards(cards) && |last| == CARD_COLS
    ensures FullCards(cards + [last]) && LoadCards(mem, cards + [last]) == LoadCard(LoadCards(mem, cards), last)
  {
    hide LoadCard;
    assert (cards + [last])[..|cards|] == cards;
  }

  // ---- The whole path -----------------------------------------------------------------------------------------

  /** The deck image holds the deck synthesized from a binary. */
  predicate IsBinDeck(d: DeckImage, base: Word16, data: seq<Byte>, entry: Word16) {
    Accepts(base, |data|) && Indexed(d) && d.loaderCard == 0 && CardsOf(d) == BinDeck(base, data, entry)
  }

  lemma BinDeckIsGood(d: DeckImage, base: Word16, data: seq<Byte>, entry: Word16)
    requires IsBinDeck(d, base, data, entry)
    ensures M.GoodDeck(d) && S.ShortCards(d) && |d.idx| == CardCount(|data|) + 2
    ensures forall i :: 0 <= i < |d.idx| ==> d.idx[i].ncols == CARD_COLS
  {
    hide ScatterCard;
    var cs := BinDeck(base, data, entry);
    forall i | 0 <= i < |cs| ensures |cs[i]| == CARD_COLS {
    }
    forall i | 0 <= i < |d.idx| ensures d.idx[i].ncols == CARD_COLS {
      assert |CardsOf(d)[i]| == d.idx[i].ncols;
    }
  }

  /** After the loader card, transfer i packs to the bytes of card i. */
  lemma BodyTransfers(d: DeckImage, base: Word16, data: seq<Byte>, entry: Word16, i: nat)
    requires IsBinDeck(d, base, data, entry) && |d.idx| == CardCount(|data|) + 2 && 1 <= i < |d.idx|
    ensures PackBytes(Nibbles(CardChars(d, i, Colbin))) == BodyBytes(base, data, entry)[i - 1]
  {
    hide CardChars, ByteToCol, Termination, ScatterByte;
    var bytes := BodyBytes(base, data, entry)[i - 1];
    assert CardOf(d, i) == CardsOf(d)[i] == BinDeck(base, data, entry)[i];
    var k := CardCount(|data|);
    if i <= k {
      assert BinDeck(base, data, entry)[i] == ChunkCards(base, data, k)[i - 1] == ChunkCard(base, data, i - 1);
    } else {
      assert BinDeck(base, data, entry)[i] == ScatterCard(0, Termination(entry));
    }
    assert |CardOf(d, i)| == d.idx[i].ncols;
    PackedCard(d, i, bytes);
  }

  /** Packed transfers after the first. */
  function Body(ts: seq<seq<nat>>): (cs: seq<seq<Byte>>)
    ensures |ts| > 0 ==> |cs| == |ts| - 1
  {
    if ts == [] then [] else seq(|ts| - 1, i requires 0 <= i < |ts| - 1 => PackBytes(ts[i + 1]))
  }

  lemma DeckTransfers(d: DeckImage, base: Word16, data: seq<Byte>, entry: Word16)
    requires IsBinDeck(d, base, data, entry)
    ensures M.GoodDeck(d) && Body(Transfers(d, 0, S.DefaultModes(d, 0, |d.idx|))) == BodyBytes(base, data, entry)
  {
    hide M.GoodDeck, CardsOf, BinDeck, BodyBytes, CardChars, ScatterCard;
    BinDeckIsGood(d, base, data, entry);
    var modes := S.DefaultModes(d, 0, |d.idx|);
    var ts := Transfers(d, 0, modes);
    forall i | 0 <= i < |d.idx| - 1 ensures Body(ts)[i] == BodyBytes(base, data, entry)[i] {
      assert modes[i + 1] == Colbin;
      BodyTransfers(d, base, data, entry, i + 1);
    }
  }

  /** Characters of a session that has reached the end of the deck. */
  lemma DoneTransfers(r: M.Feeder, d: DeckImage, first: nat, before: seq<M.TraceEvent>, n: nat)
    requires M.GoodDeck(d) && first + n <= |d.idx| && r.st.state == M.Done
    requires S.Shape(r, d, first, before, S.DefaultModes(d, first, n)) && W.WordsAgree(r, W.CharsOf(before))
    ensures first + n == |d.idx|
    ensures Receive(W.Sent(r.wire), []) == Transfers(d, first, S.DefaultModes(d, first, n))
  {
    hide Receive, Transfers, W.CharsOf, S.ShortCards, W.Sent, S.FullTrace;
    var modes := S.DefaultModes(d, first, n);
    var full, fiden := S.FullTrace(d, first, modes), [M.Fiden(|d.idx| - 1)];
    assert r.trace == before + (full + fiden);
    W.CharsOfConcat(before, full + fiden);
    W.CharsOfConcat(full, fiden);
    FidenIsSilent(|d.idx| - 1);
    CancelPrefix(W.CharsOf(before), W.Sent(r.wire), W.CharsOf(full) + []);
    FullTraceTransfers(d, first, modes, []);
    ReceiveNothing();
  }

  lemma CancelPrefix(a: seq<Char>, b: seq<Char>, c: seq<Char>)
    requires a + b == a + c
    ensures b == c
  {
    assert b == (a + b)[|a|..] && c == (a + c)[|a|..];
  }

  lemma FidenIsSilent(card: nat)
    ensures W.CharsOf([M.Fiden(card)]) == []
  {
  }

  lemma ReceiveNothing()
    ensures Receive([], []) == []
  {
  }

  /** End to end.  Arm the deck synthesized from any binary the encoder accepts at a base clear of the loader; let the
      machine, the presenter and the clock do anything but card-reject; once the end-of-deck line rises, packing the
      nibbles that went to the presenter and running the scatter loader on the cards after the first leaves the binary
      at its base, the jump card at 0, and every other location outside the card buffer as it was. */
  lemma BinaryReachesMemory(s: M.Feeder, arm: Word32, es: seq<M.Event>,
                            base: Word16, data: seq<Byte>, entry: Word16, mem: Memory)
    requires M.Safe(s) && s.fd.postLoaderColbin && M.IpcOp(arm) == M.IPC_ARM
    requires IsBinDeck(s.decks[M.IpcArg(arm) % 2], base, data, entry)
    requires LOAD_FLOOR <= base && IsMemory(mem)
    requires forall i :: 0 <= i < |es| ==> S.LoadEvent(es[i])
    ensures var r := M.Run(M.Step(s, M.Ipc(arm)), es);
            r.st.state == M.Done ==>
              var body := Body(Receive(W.Sent(r.wire), []));
              FullCards(body) && ProgramInMemory(mem, LoadCards(mem, body), base, data, entry)
  {
    hide M.Step, IsBinDeck, S.Shape, W.WordsAgree, M.Run, W.Sent, ProgramInMemory, Body, S.AtStart;
    var d, s1 := s.decks[M.IpcArg(arm) % 2], M.Step(s, M.Ipc(arm));
    BinDeckIsGood(d, base, data, entry);
    S.ArmStarts(s, arm);
    StartsAtLoader(d, base, data, entry);
    var n := LoadSession(s1, es, d);
    if M.Run(s1, es).st.state == M.Done {
      SessionLoads(M.Run(s1, es), d, s1.trace, n, base, data, entry, mem);
    }
  }

  /** Trace and words of a load session, together. */
  lemma LoadSession(s: M.Feeder, es: seq<M.Event>, d: DeckImage) returns (n: nat)
    requires S.AtStart(s, d) && S.ShortCards(d) && s.fd.postLoaderColbin
    requires forall i :: 0 <= i < |es| ==> S.LoadEvent(es[i])
    ensures s.st.card + n <= |d.idx|
    ensures S.Shape(M.Run(s, es), d, s.st.card, s.trace, S.DefaultModes(d, s.st.card, n))
    ensures W.WordsAgree(M.Run(s, es), W.CharsOf(s.trace))
  {
    hide M.Step, M.Run, S.Shape, W.WordsAgree;
    FreshWords(s, d);
    n := S.LoadTrace(s, es, d);
    forall i | 0 <= i < |es| ensures !W.Restarts(es[i]) {
      assert S.LoadEvent(es[i]);
    }
    W.WordsAgreeThroughout(s, es, W.CharsOf(s.trace));
  }

  lemma SessionLoads(r: M.Feeder, d: DeckImage, before: seq<M.TraceEvent>, n: nat,
                     base: Word16, data: seq<Byte>, entry: Word16, mem: Memory)
    requires IsBinDeck(d, base, data, entry) && n <= |d.idx| && r.st.state == M.Done
    requires S.Shape(r, d, 0, before, S.DefaultModes(d, 0, n)) && W.WordsAgree(r, W.CharsOf(before))
    requires LOAD_FLOOR <= base && IsMemory(mem)
    ensures var body := Body(Receive(W.Sent(r.wire), []));
            FullCards(body) && ProgramInMemory(mem, LoadCards(mem, body), base, data, entry)
  {
    hide S.Shape, W.WordsAgree, W.Sent, ProgramInMemory, Transfers, Body, BodyBytes, Receive, LoadCards, CardsOf,
         BinDeck;
    DeckTransfers(d, base, data, entry);
    DoneTransfers(r, d, 0, before, n);
    LoaderUndoesEncoder(mem, base, data, entry);
  }

  lemma StartsAtLoader(d: DeckImage, base: Word16, data: seq<Byte>, entry: Word16)
    requires IsBinDeck(d, base, data, entry)
    ensures M.StartCard(d) == 0
  {
  }

  lemma FreshWords(s: M.Feeder, d: DeckImage)
    requires S.AtStart(s, d)
    ensures W.WordsAgree(s, W.CharsOf(s.trace))
  {
  }

  // ---- A program of one card ----------------------------------------------------------------------------------

  /** The deck image holds the one hex card made of a short program. */
  predicate IsIplDeck(d: DeckImage, data: seq<Byte>) {
    1 <= |data| <= IPL_MAX && Indexed(d) && d.loaderCard == 0 && CardsOf(d) == [BinEncoder.IplCard(data)]
  }

  /** The program, then zero bytes to the end of the card. */
  function IplBytes(data: seq<Byte>): (bs: seq<Byte>)
    requires |data| <= IPL_MAX
    ensures |bs| == CARD_COLS / 2
  {
    data + seq<Byte>(CARD_COLS / 2 - |data|, i => 0)
  }

  lemma IplDeckIsGood(d: DeckImage, data: seq<Byte>)
    requires IsIplDeck(d, data)
    ensures M.GoodDeck(d) && S.ShortCards(d) && |d.idx| == 1 && d.idx[0].ncols == CARD_COLS
    ensures CardOf(d, 0) == BinEncoder.IplCard(data)
  {
    hide BinEncoder.IplCard;
    assert CardsOf(d)[0] == CardOf(d, 0);
  }

  /** Hex mode presents one nibble per column, and the channel packs two of them per byte. */
  lemma IplPacked(d: DeckImage, data: seq<Byte>)
    requires IsIplDeck(d, data) && |d.idx| == 1
    ensures PackBytes(Nibbles(CardChars(d, 0, Hex))) == IplBytes(data)
  {
    hide CardChars, CardOf, BinEncoder.IplCard, Transcoded;
    IplDeckIsGood(d, data);
    CardCharAt(d, 0, Hex);
    var cs, c := CardChars(d, 0, Hex), BinEncoder.IplCard(data);
    var l, r := PackBytes(Nibbles(cs)), IplBytes(data);
    forall j | 0 <= j < CARD_COLS / 2 ensures l[j] == r[j] {
      assert cs[2 * j].nibble == Transcoded(c[2 * j], Hex) % 16;
      assert cs[2 * j + 1].nibble == Transcoded(c[2 * j + 1], Hex) % 16;
      IplByte(data, j);
    }
  }

  lemma IplByte(data: seq<Byte>, j: nat)
    requires |data| <= IPL_MAX && j < CARD_COLS / 2
    ensures var c := BinEncoder.IplCard(data);
            Transcoded(c[2 * j], Hex) % 16 * 16 + Transcoded(c[2 * j + 1], Hex) % 16 == IplBytes(data)[j]
  {
    hide BinEncoder.IplCard, Transcoded;
    BinEncoder.IplRoundTrip(data, j);
    BinEncoder.LowIsNibble(data, j);
    Halves(Transcoded(BinEncoder.IplCard(data)[2 * j], Hex), Transcoded(BinEncoder.IplCard(data)[2 * j + 1], Hex));
  }

  lemma Halves(hi: Byte, lo: Byte)
    requires hi * 16 + lo < 256 && lo < 16
    ensures hi % 16 == hi && lo % 16 == lo
  {
  }

  /** The same end to end for a program of one card: the machine receives exactly one transfer, which packs to the
      program followed by zero bytes. */
  lemma IplReachesMachine(s: M.Feeder, arm: Word32, es: seq<M.Event>, data: seq<Byte>)
    requires M.Safe(s) && s.fd.postLoaderColbin && M.IpcOp(arm) == M.IPC_ARM
    requires IsIplDeck(s.decks[M.IpcArg(arm) % 2], data)
    requires forall i :: 0 <= i < |es| ==> S.LoadEvent(es[i])
    ensures var r := M.Run(M.Step(s, M.Ipc(arm)), es);
            r.st.state == M.Done ==>
              var ts := Receive(W.Sent(r.wire), []);
              |ts| == 1 && PackBytes(ts[0]) == IplBytes(data)
  {
    hide M.Step, IsIplDeck, S.Shape, W.WordsAgree, M.Run, W.Sent, S.AtStart, M.GoodDeck, Receive, Transfers,
         S.DefaultModes;
    var d, s1 := s.decks[M.IpcArg(arm) % 2], M.Step(s, M.Ipc(arm));
    IplDeckIsGood(d, data);
    S.ArmStarts(s, arm);
    IplStartsAtZero(d, data);
    var n := LoadSession(s1, es, d);
    if M.Run(s1, es).st.state == M.Done {
      DoneTransfers(M.Run(s1, es), d, 0, s1.trace, n);
      IplTransfers(d, data);
    }
  }

  lemma IplStartsAtZero(d: DeckImage, data: seq<Byte>)
    requires IsIplDeck(d, data)
    ensures M.StartCard(d) == 0
  {
  }

  lemma IplTransfers(d: DeckImage, data: seq<Byte>)
    requires IsIplDeck(d, data) && |d.idx| == 1
    ensures var ts := Transfers(d, 0, S.DefaultModes(d, 0, 1)); |ts| == 1 && PackBytes(ts[0]) == IplBytes(data)
  {
    hide PackBytes, Nibbles, CardChars, IplBytes;
    IplPacked(d, data);
    assert S.DefaultModes(d, 0, 1)[0] == Hex;
  }

  // ---- Any deck -----------------------------------------------------------------------------------------------

  /** A card as the machine reads it column by column in column binary, two nibbles packed per byte. */
  function Decoded(card: Card): (bs: seq<Byte>)
    ensures |bs| == |card|
  {
    seq<Byte>(|card|, j requires 0 <= j < |card| => Transcoded(card[j], Colbin))
  }

  /** A card as it reads it in hex, one nibble per column. */
  function HexNibbles(card: Card): (ns: seq<nat>)
    ensures |ns| == |card|
  {
    seq<nat>(|card|, j requires 0 <= j < |card| => Transcoded(card[j], Hex) % 16)
  }

  /** What a deck that starts at its loader sends: the loader card in hex, every later card in column binary. */
  predicate IsDeckSent(cs: seq<Card>, loader: nat, ts: seq<seq<nat>>) {
    && loader < |cs| && |ts| == |cs| - loader && ts[0] == HexNibbles(cs[loader])
    && forall i :: 1 <= i < |ts| ==> PackBytes(ts[i]) == Decoded(cs[loader + i])
  }

  lemma HexCard(d: DeckImage, card: nat)
    requires Indexed(d) && card < |d.idx|
    ensures Nibbles(CardChars(d, card, Hex)) == HexNibbles(CardOf(d, card))
  {
    hide CardChars, CardOf, Transcoded;
    CardCharAt(d, card, Hex);
    CardWidth(d, card);
  }

  lemma CardWidth(d: DeckImage, card: nat)
    requires Indexed(d) && card < |d.idx|
    ensures |CardOf(d, card)| == d.idx[card].ncols
  {
  }

  lemma ColbinCard(d: DeckImage, card: nat)
    requires Indexed(d) && card < |d.idx|
    ensures PackBytes(Nibbles(CardChars(d, card, Colbin))) == Decoded(CardOf(d, card))
  {
    hide CardChars, CardOf, Transcoded;
    var cs, bytes := CardChars(d, card, Colbin), Decoded(CardOf(d, card));
    CardWidth(d, card);
    CardLength(d, card);
    forall j | 0 <= j < |bytes| ensures cs[2 * j].nibble == bytes[j] / 16 && cs[2 * j + 1].nibble == bytes[j] % 16 {
      ColbinNibbles(d, card, cs, j);
    }
    PackPairs(cs, bytes);
  }

  lemma ColbinNibbles(d: DeckImage, card: nat, cs: seq<Char>, j: nat)
    requires Indexed(d) && card < |d.idx| && cs == CardChars(d, card, Colbin)
    requires j < d.idx[card].ncols == |CardOf(d, card)|
    ensures |cs| == 2 * d.idx[card].ncols
    ensures var byte := Decoded(CardOf(d, card))[j]; cs[2 * j].nibble == byte / 16 && cs[2 * j + 1].nibble == byte % 16
  {
    hide CardChars, CardOf, Transcoded;
    CardCharAt(d, card, Colbin);
    assert (2 * j) / 2 == j && (2 * j + 1) / 2 == j;
  }

  lemma SentTransfers(d: DeckImage, n: nat)
    requires M.GoodDeck(d) && d.loaderCard >= 0 && d.loaderCard + n == |d.idx|
    ensures IsDeckSent(CardsOf(d), d.loaderCard, Transfers(d, d.loaderCard, S.DefaultModes(d, d.loaderCard, n)))
  {
    hide CardChars, CardOf, HexNibbles, Decoded, PackBytes, Nibbles;
    var l := d.loaderCard;
    var modes := S.DefaultModes(d, l, n);
    HexCard(d, l);
    ModeAt(d, n, 0);
    forall i | 1 <= i < n ensures PackBytes(Transfers(d, l, modes)[i]) == Decoded(CardsOf(d)[l + i]) {
      ColbinCard(d, l + i);
      ModeAt(d, n, i);
    }
  }

  lemma ModeAt(d: DeckImage, n: nat, i: nat)
    requires d.loaderCard >= 0 && i < n
    ensures S.DefaultModes(d, d.loaderCard, n)[i] == if i == 0 then Hex else Colbin
  {
    var l: nat := d.loaderCard;
    assert S.DefaultModes(d, l, n)[i] == S.DefaultMode(d, l + i);
    assert S.DefaultMode(d, l + i) == M.EffectiveMode(d, l + i, true, Hex);
  }

  /** End to end for any deck of cards of at most 256 columns: when the end-of-deck line rises, the machine has received
      the loader card in hex and every later card in column binary, one transfer each, in order. */
  lemma DeckReachesMachine(s: M.Feeder, arm: Word32, es: seq<M.Event>)
    requires M.Safe(s) && s.fd.postLoaderColbin && M.IpcOp(arm) == M.IPC_ARM
    requires var d := s.decks[M.IpcArg(arm) % 2]; M.GoodDeck(d) && S.ShortCards(d) && d.loaderCard >= 0
    requires forall i :: 0 <= i < |es| ==> S.LoadEvent(es[i])
    ensures var d := s.decks[M.IpcArg(arm) % 2];
            var r := M.Run(M.Step(s, M.Ipc(arm)), es);
            r.st.state == M.Done ==> IsDeckSent(CardsOf(d), d.loaderCard, Receive(W.Sent(r.wire), []))
  {
    hide M.Step, S.Shape, W.WordsAgree, M.Run, W.Sent, S.AtStart, S.ShortCards, Receive, Transfers, S.DefaultModes,
         CardsOf, IsDeckSent;
    var d, s1 := s.decks[M.IpcArg(arm) % 2], M.Step(s, M.Ipc(arm));
    S.ArmStarts(s, arm);
    var n := LoadSession(s1, es, d);
    if M.Run(s1, es).st.state == M.Done {
      DoneTransfers(M.Run(s1, es), d, s1.st.card, s1.trace, n);
      SentTransfers(d, n);
    }
  }

  // ---- The cards of a synthesized deck, byte by byte ----------------------------------------------------------

  function Blanks(n: nat): (bs: seq<Byte>)
    ensures |bs| == n
  {
    seq<Byte>(n, i => 0)
  }

  /** A payload card decodes to eight blanks, the length less one, the address most significant byte first, the payload,
      and blanks. */
  lemma ScatterDecodes(addr: Word16, payload: seq<Byte>)
    requires 0 < |payload| <= CHUNK
    ensures Decoded(ScatterCard(addr, payload))
         == Blanks(8) + [|payload| - 1, addr / 256, addr % 256] + payload + Blanks(69 - |payload|)
  {
    hide Transcoded, ByteToCol;
    var l, r := Decoded(ScatterCard(addr, payload)),
                Blanks(8) + [|payload| - 1, addr / 256, addr % 256] + payload + Blanks(69 - |payload|);
    assert |l| == |r| == 80;
    forall j | 0 <= j < 80 ensures l[j] == r[j] {
      ColbinRoundTrip(ScatterByte(addr, payload, j));
    }
  }

  /** The whole deck: a marked loader card; the binary in cards of 66 bytes, the last one shorter, each with its own
      address; and a last card that puts two no-operations and the jump at address 0. */
  lemma DeckDecodes(base: Word16, data: seq<Byte>, entry: Word16)
    requires Accepts(base, |data|)
    ensures var deck, n := BinDeck(base, data, entry), (|data| + 65) / 66;
            && |deck| == n + 2 && |deck[0]| == 80 && deck[0][2] == 0x0100
            && (forall i :: 1 <= i <= n ==> PayloadDecodes(base, data, i, deck[i]))
            && Decoded(deck[n + 1]) == Blanks(8) + [7, 0, 0] +
                                       [0x07, 0x00, 0x07, 0x00, 0x43, 0xF0, entry / 256, entry % 256]
                                       + Blanks(61)
  {
    hide Decoded, ScatterCard, Blanks, PayloadDecodes;
    var deck, n := BinDeck(base, data, entry), (|data| + 65) / 66;
    forall i | 1 <= i <= n ensures PayloadDecodes(base, data, i, deck[i]) {
      PayloadIs(base, data, i);
      assert deck[i] == ChunkCards(base, data, n)[i - 1] == ChunkCard(base, data, i - 1);
    }
    ScatterDecodes(0, Termination(entry));
  }

  predicate PayloadDecodes(base: Word16, data: seq<Byte>, i: nat, card: Card)
    requires base + |data| <= TWO16 && i >= 1
  {
    var at := 66 * (i - 1);
    at < |data| &&
    var part := if |data| - at < 66 then data[at..] else data[at..at + 66];
    Decoded(card) == Blanks(8) + [|part| - 1, (base + at) / 256, (base + at) % 256] + part + Blanks(69 - |part|)
  }

  lemma PayloadIs(base: Word16, data: seq<Byte>, i: nat)
    requires base + |data| <= TWO16 && 1 <= i && 66 * (i - 1) < |data|
    ensures PayloadDecodes(base, data, i, ChunkCard(base, data, i - 1))
  {
    hide Decoded, ScatterCard, Blanks;
    ScatterDecodes(base + CHUNK * (i - 1), Chunk(data, i - 1));
  }

  /** The loader card decodes in hex to the forty bytes of the loader program for unit 0x80. */
  lemma LoaderDecodes()
    ensures HexBytes(LOADER_COLS) ==
            [0x9E, 0x80, 0x00, 0x22] +
            [0x9E, 0x80, 0x00, 0x20] +
            [0x9E, 0x80, 0x00, 0x26] +
            [0x43, 0x10, 0x00, 0x15] +
            [0xD2, 0x02, 0x00, 0x17] +
            [0x00, 0x3E, 0xD2, 0x00] +
            [0x00, 0x00, 0x00, 0x41] +
            [0x43, 0xF0, 0x00, 0x04] +
            [0x00, 0x40, 0x80, 0xA0] +
            [0x00, 0x36, 0xC0, 0x4A]
  {
    hide HexBytes, DigitOf;
    DigitTable();
    var r0: Card := [0x200, 0x140, 0x100, 0x1, 0x1, 0x1, 0x4, 0x4];
    var r1: Card := [0x200, 0x140, 0x100, 0x1, 0x1, 0x1, 0x4, 0x1];
    var r2: Card := [0x200, 0x140, 0x100, 0x1, 0x1, 0x1, 0x4, 0x40];
    var r3: Card := [0x10, 0x1008, 0x2, 0x1, 0x1, 0x1, 0x2, 0x20];
    var r4: Card := [0x120, 0x4, 0x1, 0x4, 0x1, 0x1, 0x2, 0x80];
    var r5: Card := [0x1, 0x1, 0x8, 0x140, 0x120, 0x4, 0x1, 0x1];
    var r6: Card := [0x1, 0x1, 0x1, 0x1, 0x1, 0x1, 0x10, 0x2];
    var r7: Card := [0x10, 0x8, 0x180, 0x1, 0x1, 0x1, 0x1, 0x10];
    var r8: Card := [0x1, 0x1, 0x10, 0x1, 0x100, 0x1, 0x104, 0x1];
    var r9: Card := [0x1, 0x1, 0x8, 0x40, 0x110, 0x1, 0x10, 0x104];
    HexRow(0x200, 0x140, 0x100, 0x1, 0x1, 0x1, 0x4, 0x4, [0x9E, 0x80, 0x00, 0x22]);
    HexRow(0x200, 0x140, 0x100, 0x1, 0x1, 0x1, 0x4, 0x1, [0x9E, 0x80, 0x00, 0x20]);
    HexRow(0x200, 0x140, 0x100, 0x1, 0x1, 0x1, 0x4, 0x40, [0x9E, 0x80, 0x00, 0x26]);
    HexRow(0x10, 0x1008, 0x2, 0x1, 0x1, 0x1, 0x2, 0x20, [0x43, 0x10, 0x00, 0x15]);
    HexRow(0x120, 0x4, 0x1, 0x4, 0x1, 0x1, 0x2, 0x80, [0xD2, 0x02, 0x00, 0x17]);
    HexRow(0x1, 0x1, 0x8, 0x140, 0x120, 0x4, 0x1, 0x1, [0x00, 0x3E, 0xD2, 0x00]);
    HexRow(0x1, 0x1, 0x1, 0x1, 0x1, 0x1, 0x10, 0x2, [0x00, 0x00, 0x00, 0x41]);
    HexRow(0x10, 0x8, 0x180, 0x1, 0x1, 0x1, 0x1, 0x10, [0x43, 0xF0, 0x00, 0x04]);
    HexRow(0x1, 0x1, 0x10, 0x1, 0x100, 0x1, 0x104, 0x1, [0x00, 0x40, 0x80, 0xA0]);
    HexRow(0x1, 0x1, 0x8, 0x40, 0x110, 0x1, 0x10, 0x104, [0x00, 0x36, 0xC0, 0x4A]);
    TenRows(r0, r1, r2, r3, r4, r5, r6, r7, r8, r9);
  }

  function HexBytes(card: Card): (bs: seq<Byte>)
    ensures |bs| == |card| / 2
  {
    PackBytes(HexNibbles(card))
  }

  /** Rows of columns decode one after the other. */
  lemma TenRows(r0: Card, r1: Card, r2: Card, r3: Card, r4: Card, r5: Card, r6: Card, r7: Card, r8: Card, r9: Card)
    requires |r0| == |r1| == |r2| == |r3| == |r4| == |r5| == |r6| == |r7| == |r8| == 8
    ensures HexBytes(r0 + r1 + r2 + r3 + r4 + r5 + r6 + r7 + r8 + r9)
         == HexBytes(r0) + HexBytes(r1) + HexBytes(r2) + HexBytes(r3) + HexBytes(r4)
            + HexBytes(r5) + HexBytes(r6) + HexBytes(r7) + HexBytes(r8) + HexBytes(r9)
  {
    hide HexBytes;
    HexBytesJoin(r0, r1);
    HexBytesJoin(r0 + r1, r2);
    HexBytesJoin(r0 + r1 + r2, r3);
    HexBytesJoin(r0 + r1 + r2 + r3, r4);
    HexBytesJoin(r0 + r1 + r2 + r3 + r4, r5);
    HexBytesJoin(r0 + r1 + r2 + r3 + r4 + r5, r6);
    HexBytesJoin(r0 + r1 + r2 + r3 + r4 + r5 + r6, r7);
    HexBytesJoin(r0 + r1 + r2 + r3 + r4 + r5 + r6 + r7, r8);
    HexBytesJoin(r0 + r1 + r2 + r3 + r4 + r5 + r6 + r7 + r8, r9);
  }

  lemma HexBytesJoin(a: Card, b: Card)
    requires |a| % 2 == 0
    ensures HexBytes(a + b) == HexBytes(a) + HexBytes(b)
  {
    hide Transcoded;
    assert HexNibbles(a + b) == HexNibbles(a) + HexNibbles(b);
  }

  /** Eight columns are four bytes, two digits each. */
  lemma HexRow(c0: Word16, c1: Word16, c2: Word16, c3: Word16, c4: Word16, c5: Word16, c6: Word16, c7: Word16,
               bytes: seq<Byte>)
    requires DigitOf(c0) < 16 && DigitOf(c1) < 16 && DigitOf(c2) < 16 && DigitOf(c3) < 16
    requires DigitOf(c4) < 16 && DigitOf(c5) < 16 && DigitOf(c6) < 16 && DigitOf(c7) < 16
    requires |bytes| == 4 && bytes[0] == 16 * DigitOf(c0) + DigitOf(c1) && bytes[1] == 16 * DigitOf(c2) + DigitOf(c3)
    requires bytes[2] == 16 * DigitOf(c4) + DigitOf(c5) && bytes[3] == 16 * DigitOf(c6) + DigitOf(c7)
    ensures HexBytes([c0, c1, c2, c3, c4, c5, c6, c7]) == bytes
  {
    hide DigitOf, HexBytes;
    var card: Card := [c0, c1, c2, c3, c4, c5, c6, c7];
    HexByte(card, 0, c0, c1);
    HexByte(card, 1, c2, c3);
    HexByte(card, 2, c4, c5);
    HexByte(card, 3, c6, c7);
    assert |HexBytes(card)| == 4;
  }

  lemma HexByte(card: Card, k: nat, high: Word16, low: Word16)
    requires 2 * k + 1 < |card| && card[2 * k] == high && card[2 * k + 1] == low
    requires DigitOf(high) < 16 && DigitOf(low) < 16
    ensures HexBytes(card)[k] == 16 * DigitOf(high) + DigitOf(low)
  {
    hide DigitOf, Transcoded;
    PunchedDigit(high);
    PunchedDigit(low);
  }

  /** The digits the columns of the loader card are read as. */
  lemma PunchedDigit(c: Word16)
    requires DigitOf(c) < 16
    ensures Transcoded(c, Hex) == DigitOf(c)
  {
    hide Pow2, HexSum;
    Rows();
    if c == 0x104 { TwoDigits(8, 2); }
    else if c == 0x110 { TwoDigits(8, 4); }
    else if c == 0x120 { TwoDigits(8, 5); }
    else if c == 0x140 { TwoDigits(8, 6); }
    else if c == 0x180 { TwoDigits(8, 7); }
    else if c == 0x1008 { TwoDigits(12, 3); }
    else if c != 0x1008 {
      forall r: nat | r < 10 ensures HexSum(Pow2(r), 10) == r { OneDigit(r); }
    }
  }

  lemma Rows()
    ensures Pow2(0) == 0x1 && Pow2(1) == 0x2 && Pow2(2) == 0x4 && Pow2(3) == 0x8 && Pow2(4) == 0x10
    ensures Pow2(5) == 0x20 && Pow2(6) == 0x40 && Pow2(7) == 0x80 && Pow2(8) == 0x100 && Pow2(9) == 0x200
    ensures Pow2(12) == 0x1000
  {
  }

  lemma DigitTable()
    ensures DigitOf(0x1) == 0 && DigitOf(0x2) == 1 && DigitOf(0x4) == 2 && DigitOf(0x8) == DigitOf(0x1008) == 3
    ensures DigitOf(0x10) == 4 && DigitOf(0x20) == 5 && DigitOf(0x40) == 6 && DigitOf(0x80) == 7
    ensures DigitOf(0x100) == 8 && DigitOf(0x200) == 9 && DigitOf(0x104) == 10 && DigitOf(0x110) == 12
    ensures DigitOf(0x120) == 13 && DigitOf(0x140) == 14 && DigitOf(0x180) == 15
  {
  }

  function DigitOf(c: Word16): nat {
    match c
    case 0x1 => 0
    case 0x2 => 1
    case 0x4 => 2
    case 0x8 => 3
    case 0x1008 => 3
    case 0x10 => 4
    case 0x20 => 5
    case 0x40 => 6
    case 0x80 => 7
    case 0x100 => 8
    case 0x200 => 9
    case 0x104 => 10
    case 0x110 => 12
    case 0x120 => 13
    case 0x140 => 14
    case 0x180 => 15
    case _ => 16
  }
}
