/** Every stage composed: host files, image, reader, deck, feeder, presenter waveform, machine memory. */
module WholePath {
  import opened Wrappers
  import opened Bits
  import opened DeckImages
  import opened Bin2Deck
  import opened Machine
  import opened EndToEnd
  import BinEncoder
  import FatModel
  import FatDir
  import R = FatRead
  import Img = FatImage
  import RT = FatRoundTrip
  import D = Deckload
  import Surgery
  import T = CapText
  import CP = CapPrinter
  import M = FeederModel
  import F = FeederFlags
  import S = FeederSession
  import FP = FeederProgress
  import W = FeederWords
  import P = Presenter
  import PW = PresenterWord
  import St = StorageModel

  // ---- The device under the reader ----------------------------------------------------------------------------

  /** Reading blocks through the write-back cache is reading the device whose bytes are the cache's contents: whatever
      the host wrote is what the driver sees, flushed or not. */
  lemma DriverSeesContents(c: St.Cache, lba: nat)
    requires St.Valid(c)
    ensures St.ReadBlocks(c, lba, 1) == FatModel.ReadBlock(St.Contents(c), lba)
  {
    hide St.ReadBlocks, St.Contents;
    St.ReadSeesContents(c, lba, 1);
  }

  /** An image the size of the flash region, written by the host in any pieces, in any order and with any repeats, among
      reads, syncs, idle polls and flash failures: once the last write to every address has been accepted with the
      image's byte, it is what the driver reads.  `StorageModel.BlockWritesLand` is the host that writes block after
      block. */
  lemma HostImageStays(c: St.Cache, b: Img.Build, ops: seq<St.Op>)
    requires Img.Laid(b) && St.Valid(c) && St.AllWellFormed(ops) && St.WritesImage(c, ops, Img.Dev(b))
    ensures var e := St.Run(c, ops).0;
            && St.Contents(e) == Img.Dev(b)
            && forall lba: nat :: St.ReadBlocks(e, lba, 1) == FatModel.ReadBlock(Img.Dev(b), lba)
  {
    hide St.Contents, St.Run, St.ReadBlocks, Img.Dev, Img.Laid, FatModel.ReadBlock, St.WritesImage, St.AllWellFormed;
    St.WrittenImage(c, ops, Img.Dev(b));
    forall lba: nat ensures St.ReadBlocks(St.Run(c, ops).0, lba, 1) == FatModel.ReadBlock(Img.Dev(b), lba) {
      DriverSeesContents(St.Run(c, ops).0, lba);
    }
  }

  /** At the size of the flash region the table sizing settles, so an accepted image is exactly that long. */
  lemma FlashImageSize(b: Img.Build)
    requires Img.Built(b) && Img.Laid(b) && Img.FitsRoot(b) && b.size == St.FLASH_SIZE
    ensures |Img.Dev(b)| == St.FLASH_SIZE
  {
    hide Img.Dev, Img.Built, Img.Laid, Img.FitsRoot;
    RT.ImageKeepsSizeIff(b);
  }

  // ---- Files of a built image ---------------------------------------------------------------------------------

  /** File i of an image the builder accepts can be opened as `want` and read to its end. */
  predicate Stored(b: Img.Build, i: nat, want: FatDir.Name) {
    && Img.Built(b) && Img.Laid(b) && Img.FitsRoot(b) && RT.Distinct(b) && i < |b.files|
    && FatDir.SameName(RT.Seen(b.files[i].name), want) && RT.Followable(b, i)
  }

  /** The driver finds the file and reads exactly the bytes that were stored. */
  lemma StoredFileReads(b: Img.Build, i: nat, want: FatDir.Name)
    requires Stored(b, i, want)
    ensures i < |b.files| && b.size / FatModel.BS >= 33 + 2 * b.fatsz
    ensures FatModel.Mount(Img.Dev(b)) == Ok(RT.Vol(b))
    ensures D.Opens(Img.Dev(b), RT.Vol(b), want).Some?
    ensures var p := D.Opens(Img.Dev(b), RT.Vol(b), want).value;
            D.FileBytes(Img.Dev(b), RT.Vol(b), p) == b.files[i].data && !D.Breaks(Img.Dev(b), RT.Vol(b), p)
  {
    hide Img.Built, Img.Laid, Img.FitsRoot, RT.Distinct, RT.Followable, Img.Dev, FatDir.Open, R.Reach, Img.First,
         FatModel.Mount, FatDir.SameName, R.Successive, R.FileByte;
    RT.BuiltIsLaid(b);
    var n := |b.files[i].data|;
    RT.BuildReadRoundTrip(b, i, want, [n]);
    RT.WholeFileIff(b, i);
    var first := Img.First(b.files, i);
    R.ReadsConcatenate(Img.Dev(b), RT.Vol(b), first, n, 0, [n]);
    assert R.Sum([n]) == n by { assert [n][1..] == []; }
    assert b.files[i].data[..n] == b.files[i].data;
  }

  /** What becomes of a binary: with base 0 one hex card if it has 1 to 40 bytes, otherwise the encoder's deck if it
      fits the addresses and the cards. */
  function BinaryDeck(base: Word16, data: seq<Byte>, entry: Word16): T.Outcome {
    if base == 0 then if 1 <= |data| <= IPL_MAX then T.Parsed([BinEncoder.IplCard(data)]) else T.Failed(-2)
    else if Accepts(base, |data|) then T.Parsed(BinDeck(base, data, entry))
    else T.Failed(-2)
  }

  /** A binary stored on the volume becomes exactly that. */
  lemma StoredBinaryIff(b: Img.Build, i: nat, want: FatDir.Name, base: Word16, entry: Word16)
    requires Stored(b, i, want)
    ensures i < |b.files| && b.size / FatModel.BS >= 33 + 2 * b.fatsz
    ensures D.BinFile(Img.Dev(b), RT.Vol(b), want, base, entry) == BinaryDeck(base, b.files[i].data, entry)
  {
    hide Img.Dev, D.Opens, D.FileBytes, D.Breaks, Stored, BinDeck, BinEncoder.IplCard;
    StoredFileReads(b, i, want);
    BuildIff(base, b.files[i].data, entry);
  }

  /** A printed deck stored on the volume is loaded back card for card, exactly when the parser can hold it. */
  lemma {:induction false} StoredTextIff(b: Img.Build, i: nat, want: FatDir.Name, cards: seq<CP.Numbered>)
    requires Stored(b, i, want) && CP.Punched(cards) && D.Text(b.files[i].data) == CP.Emit(cards)
    ensures b.size / FatModel.BS >= 33 + 2 * b.fatsz
    ensures D.TextFile(Img.Dev(b), RT.Vol(b), want) == T.Parsed(CP.Plain(cards))
       <==> 1 <= |cards| <= DECK_MAX_CARDS && TotalCols(CP.Plain(cards)) <= DECK_MAX_COLS && CP.Narrow(cards)
  {
    hide Img.Dev, D.Opens, D.FileBytes, D.Breaks, Stored, T.Batch, CP.Emit, CP.Narrow, CP.Plain, TotalCols, D.Text,
         T.Finish, T.Chunks;
    StoredFileReads(b, i, want);
    var text := CP.Emit(cards);
    assert T.Joined([text]) == text by { OneText(text); }
    CP.RoundTripIff(cards, [text]);
    T.StreamingIsBatch([text]);
  }

  lemma OneText(text: string)
    ensures T.Joined([text]) == text
  {
    assert text + "" == text;
  }

  // ---- Decks the feeder can run -------------------------------------------------------------------------------

  predicate NoneWide(cs: seq<Card>) { forall i :: 0 <= i < |cs| ==> |cs[i]| <= 256 }

  /** Cards a loader may hand over: at least one, none empty, no more than the image holds. */
  predicate Full(cs: seq<Card>) { 1 <= |cs| <= DECK_MAX_CARDS && T.NoneEmpty(cs) }

  /** A marked deck of such cards is one the feeder's guarantees hold for; the session theorems also need every card to
      have at most 256 columns. */
  lemma FullDeckIsGood(d: DeckImage, cs: seq<Card>)
    requires Indexed(d) && CardsOf(d) == cs && Full(cs) && d.loaderCard == LoaderIndex(cs)
    ensures M.GoodDeck(d) && (S.ShortCards(d) <==> NoneWide(cs))
  {
    hide LoaderIndex, CardOf;
    forall i | 0 <= i < |d.idx| ensures d.idx[i].ncols > 0 && |cs[i]| == d.idx[i].ncols {
      assert cs[i] != [] && cs[i] == CardOf(d, i);
    }
  }

  lemma TextIsFull(dev: FatModel.Device, v: FatModel.Volume, name: FatDir.Name)
    requires v.secPerClus > 0 && D.TextFile(dev, v, name).Parsed?
    ensures Full(D.TextFile(dev, v, name).cards)
  {
    hide D.FileBytes, D.Breaks, D.Located, T.Batch, TotalCols;
    T.ParsedFits(D.Text(D.FileBytes(dev, v, D.Located(dev, v, name).value)), D.TextFile(dev, v, name).cards);
  }

  /** Every recipe keeps some of the cards. */
  lemma RecipeIsFull(cs: seq<Card>, op: Surgery.Op)
    requires Full(cs) && Surgery.Recipe(cs, op).Some?
    ensures Full(Surgery.Recipe(cs, op).value)
    ensures NoneWide(cs) ==> NoneWide(Surgery.Recipe(cs, op).value)
  {
    hide LoaderIndex;
  }

  /** A text deck off the volume, as is or prepared, and marked. */
  lemma LoadedDeckIsGood(dev: FatModel.Device, v: FatModel.Volume, name: FatDir.Name, raw: bool, d: DeckImage)
    requires v.secPerClus > 0 && D.TextFile(dev, v, name).Parsed?
    requires Indexed(d) && d.loaderCard == LoaderIndex(CardsOf(d))
    requires var cs := D.TextFile(dev, v, name).cards; CardsOf(d) == cs || CardsOf(d) == D.Prepared(cs, raw)
    ensures M.GoodDeck(d) && (S.ShortCards(d) <==> NoneWide(CardsOf(d)))
    ensures NoneWide(D.TextFile(dev, v, name).cards) ==> S.ShortCards(d)
  {
    hide D.TextFile, LoaderIndex, CardsOf, M.GoodDeck, S.ShortCards, Full, NoneWide;
    var cs := D.TextFile(dev, v, name).cards;
    TextIsFull(dev, v, name);
    RecipeIsFull(cs, D.PrepareOp(cs, raw));
    FullDeckIsGood(d, CardsOf(d));
  }

  /** A batch of sources. */
  lemma BatchDeckIsGood(dev: FatModel.Device, v: FatModel.Volume, sources: seq<D.Source>, d: DeckImage)
    requires Indexed(d) && d.loaderCard == LoaderIndex(CardsOf(d))
    requires v.secPerClus > 0 && sources != [] && D.BatchTo(dev, v, sources, |sources|) == T.Parsed(CardsOf(d))
    ensures M.GoodDeck(d) && (S.ShortCards(d) <==> NoneWide(CardsOf(d)))
  {
    hide D.BatchTo, LoaderIndex, CardsOf, M.GoodDeck, S.ShortCards, Full, NoneWide;
    BatchIsFull(dev, v, sources, |sources|);
    FullDeckIsGood(d, CardsOf(d));
  }

  lemma {:induction false} BatchIsFull(dev: FatModel.Device, v: FatModel.Volume, sources: seq<D.Source>, k: nat)
    requires v.secPerClus > 0 && 1 <= k <= |sources| && D.BatchTo(dev, v, sources, k).Parsed?
    ensures Full(D.BatchTo(dev, v, sources, k).cards)
  {
    hide D.TextFile, Surgery.Recipe, TotalCols;
    TextIsFull(dev, v, sources[k - 1].file);
    RecipeIsFull(D.TextFile(dev, v, sources[k - 1].file).cards, sources[k - 1].op);
    if k > 1 {
      BatchIsFull(dev, v, sources, k - 1);
    } else {
      assert D.BatchTo(dev, v, sources, 0) == T.Parsed([]);
    }
  }

  // ---- From the words to the wire -----------------------------------------------------------------------------

  /** A presenter that has run dry after being given all the feeder's words. */
  predicate Drained(m: P.Machine, arrivals: seq<seq<Word32>>, wire: M.Wire) {
    && P.Armed(m) && m.fifo == [] && P.Flat(arrivals) == wire.pulled + wire.fifo
    && var f := P.Run(m, arrivals).0;
       f.fifo == [] && P.InFlight(f.core) == []
  }

  /** What the machine samples at the strobes: the characters the feeder sent. */
  lemma SampledIsSent(m: P.Machine, arrivals: seq<seq<Word32>>, wire: M.Wire)
    requires Drained(m, arrivals, wire)
    ensures P.Sampled(false, P.Run(m, arrivals).1) == W.Sent(wire)
  {
    hide P.Run, P.Sampled, P.Flat;
    P.EveryWordReachesTheWire(m, arrivals);
    assert PW.Samples([]) == [] && P.InFlight(m.core) == [];
    var f, levels := P.Run(m, arrivals).0, P.Run(m, arrivals).1;
    assert P.Sampled(false, levels) + [] + [] == P.Sampled(false, levels);
    assert [] + [] + W.Sent(wire) == W.Sent(wire);
  }

  // ---- The main theorem ---------------------------------------------------------------------------------------

  /** The state after boot and a load into slot 0, whatever the slots held: the main theorems' hypotheses hold. */
  lemma BootedAndLoaded(decks: seq<DeckImage>, d: DeckImage)
    requires M.TwoSlots(decks)
    ensures M.Safe(M.Init(decks))
    ensures var s := M.Step(M.Init(decks), M.Load(0, d));
            M.Safe(s) && F.FlagsAgree(s) && s.fd.postLoaderColbin && s.decks == [d, decks[1]]
  {
    hide M.GoodDeck, M.NoPushWhileReady;
    F.InitHolds(decks);
    F.StepFlags(M.Init(decks), M.Load(0, d));
    assert decks[0 := d] == [d, decks[1]];
  }

  /** So do they after any run at all that leaves the feeder disarmed, injected errors and ejects included: a load into
      slot 0 then puts the deck there, and the default policy is all that the run must not have changed. */
  lemma LoadedAfterAnyRun(decks: seq<DeckImage>, es: seq<M.Event>, d: DeckImage)
    requires M.TwoSlots(decks)
    ensures M.Safe(M.Init(decks))
    ensures var r := M.Run(M.Init(decks), es);
            var s := M.Step(r, M.Load(0, d));
            r.st.state == M.Disarmed ==>
              M.Safe(s) && s.fd.postLoaderColbin == r.fd.postLoaderColbin && |s.decks| == 2 && s.decks[0] == d
  {
    hide M.GoodDeck, M.NoPushWhileReady, M.Run;
    F.InitHolds(decks);
  }

  /** From a file on the volume to the machine's memory.  The sector cache holds an image the builder accepts, flushed
      or not (`HostImageStays`), with a binary in it; the deck loader makes a deck of it; the deck is armed; the
      machine, the presenter and the clock do anything but reject a card.  Once the end-of-deck line is up and the
      presenter has run dry, sampling its waveform at the strobes, packing the nibbles, and running the scatter loader
      on the cards after the first leaves the file's bytes at their base, the jump card at 0, and every other location
      outside the card buffer as it was. */
  lemma FileReachesMemory(c: St.Cache, b: Img.Build, i: nat, want: FatDir.Name, base: Word16, entry: Word16,
                          s: M.Feeder, arm: Word32, es: seq<M.Event>, mem: Memory,
                          m: P.Machine, arrivals: seq<seq<Word32>>)
    requires Stored(b, i, want) && b.size / FatModel.BS >= 33 + 2 * b.fatsz && LOAD_FLOOR <= base && IsMemory(mem)
    requires St.Valid(c) && St.Contents(c) == Img.Dev(b)
    requires M.Safe(s) && s.fd.postLoaderColbin && M.IpcOp(arm) == M.IPC_ARM
    requires LoadedAs(s.decks[M.IpcArg(arm) % 2], D.BinFile(St.Contents(c), RT.Vol(b), want, base, entry))
    requires forall k :: 0 <= k < |es| ==> S.LoadEvent(es[k])
    ensures var r := M.Run(M.Step(s, M.Ipc(arm)), es);
            r.st.state == M.Done && Drained(m, arrivals, r.wire) ==>
              var body := Body(Receive(P.Sampled(false, P.Run(m, arrivals).1), []));
              FullCards(body) && ProgramInMemory(mem, LoadCards(mem, body), base, b.files[i].data, entry)
  {
    hide Stored, M.Run, M.Step, M.Safe, Drained, D.BinFile, BinDeck, ProgramInMemory, Body, Receive, LoadCards, P.Run,
         P.Sampled, W.Sent, Img.Dev, CardsOf, Indexed, St.Contents;
    StoredBinaryIff(b, i, want, base, entry);
    BinaryReachesMemory(s, arm, es, base, b.files[i].data, entry, mem);
    var r := M.Run(M.Step(s, M.Ipc(arm)), es);
    if r.st.state == M.Done && Drained(m, arrivals, r.wire) {
      SampledIsSent(m, arrivals, r.wire);
    }
  }

  /** The deck image holds what the binary loader made, its first card marked as the loader. */
  predicate LoadedAs(d: DeckImage, made: T.Outcome) {
    Indexed(d) && d.loaderCard == 0 && made == T.Parsed(CardsOf(d))
  }

  /** The same for a short program loaded with base 0: the waveform carries one transfer, and it packs to the file's
      bytes followed by zeros. */
  lemma FileReachesMachine(c: St.Cache, b: Img.Build, i: nat, want: FatDir.Name, entry: Word16,
                           s: M.Feeder, arm: Word32, es: seq<M.Event>,
                           m: P.Machine, arrivals: seq<seq<Word32>>)
    requires Stored(b, i, want) && b.size / FatModel.BS >= 33 + 2 * b.fatsz
    requires St.Valid(c) && St.Contents(c) == Img.Dev(b)
    requires M.Safe(s) && s.fd.postLoaderColbin && M.IpcOp(arm) == M.IPC_ARM
    requires LoadedAs(s.decks[M.IpcArg(arm) % 2], D.BinFile(St.Contents(c), RT.Vol(b), want, 0, entry))
    requires forall k :: 0 <= k < |es| ==> S.LoadEvent(es[k])
    ensures |b.files[i].data| <= IPL_MAX
    ensures var r := M.Run(M.Step(s, M.Ipc(arm)), es);
            r.st.state == M.Done && Drained(m, arrivals, r.wire) ==>
              var ts := Receive(P.Sampled(false, P.Run(m, arrivals).1), []);
              |ts| == 1 && PackBytes(ts[0]) == IplBytes(b.files[i].data)
  {
    hide Stored, M.Run, M.Step, M.Safe, Drained, D.BinFile, BinDeck, Receive, PackBytes, P.Run, P.Sampled, W.Sent,
         Img.Dev, CardsOf, Indexed, St.Contents, BinEncoder.IplCard, IplBytes;
    StoredBinaryIff(b, i, want, 0, entry);
    IplReachesMachine(s, arm, es, b.files[i].data);
    var r := M.Run(M.Step(s, M.Ipc(arm)), es);
    if r.st.state == M.Done && Drained(m, arrivals, r.wire) {
      SampledIsSent(m, arrivals, r.wire);
    }
  }

  /** A text the parser accepts, and a card the feeder never finishes: three lines of 100 columns make a card of 300.
      Its deck loaded after boot, armed, read and fed, the card is presented for ever. */
  lemma WideCardFromText(decks: seq<DeckImage>, d: DeckImage, es: seq<M.Event>)
    requires M.TwoSlots(decks) && Indexed(d) && d.loaderCard == LoaderIndex(CardsOf(d))
    requires T.Batch(CP.SpreadText(1, CP.WideRows())) == T.Parsed(CardsOf(d)) && FP.AllUninterrupted(es)
    ensures M.Safe(M.Init(decks)) && d.idx != [] && d.idx[0].ncols == 300
    ensures var s := M.Step(M.Step(M.Init(decks), M.Load(0, d)), M.Ipc(M.IPC_ARM));
            M.Run(s, [FP.READ, FP.FEED] + es).st.state == M.Presenting
  {
    hide M.Step, M.Run, T.Batch, CP.SpreadText, CP.WideRows, LoaderIndex, FP.AllUninterrupted, M.Init, CardsOf;
    CP.WideTextParses();
    var c: Card :| |c| == 300 && T.Batch(CP.SpreadText(1, CP.WideRows())) == T.Parsed([c]);
    WideDeck(d, c);
    BootedAndLoaded(decks, d);
    var s := M.Step(M.Init(decks), M.Load(0, d));
    assert M.IpcOp(M.IPC_ARM) == M.IPC_ARM && M.IpcArg(M.IPC_ARM) == 0;
    S.ArmStarts(s, M.IPC_ARM);
    FP.WideCardStalls(M.Step(s, M.Ipc(M.IPC_ARM)), d, es);
  }

  lemma WideDeck(d: DeckImage, c: Card)
    requires Indexed(d) && CardsOf(d) == [c] && |c| == 300 && d.loaderCard == LoaderIndex([c])
    ensures |d.idx| == 1 && d.idx[0].ncols == 300 && M.GoodDeck(d) && M.StartCard(d) == 0
  {
    assert CardsOf(d)[0] == CardOf(d, 0);
  }

  /** From a printed deck on the volume to the machine.  The text loads back card for card, the deck is prepared or left
      as it is, loaded and armed; once the end-of-deck line is up and the presenter has run dry, the waveform carries
      the loader card in hex and every card after it in column binary. */
  lemma PrintedDeckReachesMachine(c: St.Cache, b: Img.Build, i: nat, want: FatDir.Name, cards: seq<CP.Numbered>,
                                  raw: bool, s: M.Feeder, arm: Word32, es: seq<M.Event>,
                                  m: P.Machine, arrivals: seq<seq<Word32>>)
    requires Stored(b, i, want) && CP.Punched(cards) && D.Text(b.files[i].data) == CP.Emit(cards)
    requires 1 <= |cards| <= DECK_MAX_CARDS && TotalCols(CP.Plain(cards)) <= DECK_MAX_COLS && CP.Narrow(cards)
    requires St.Valid(c) && St.Contents(c) == Img.Dev(b)
    requires M.Safe(s) && s.fd.postLoaderColbin && M.IpcOp(arm) == M.IPC_ARM
    requires b.size / FatModel.BS >= 33 + 2 * b.fatsz
    requires TextLoadedAs(s.decks[M.IpcArg(arm) % 2], D.TextFile(St.Contents(c), RT.Vol(b), want), raw)
    requires forall k :: 0 <= k < |es| ==> S.LoadEvent(es[k])
    ensures var cs := D.Prepared(CP.Plain(cards), raw);
            var r := M.Run(M.Step(s, M.Ipc(arm)), es);
            r.st.state == M.Done && Drained(m, arrivals, r.wire) ==>
              IsDeckSent(cs, LoaderIndex(cs), Receive(P.Sampled(false, P.Run(m, arrivals).1), []))
  {
    hide Stored, M.Run, M.Step, M.Safe, Drained, Receive, P.Run, P.Sampled, W.Sent, Img.Dev, CardsOf, Indexed,
         St.Contents, D.TextFile, D.Prepared, LoaderIndex, CP.Plain, CP.Emit, CP.Punched, CP.Narrow, TotalCols,
         IsDeckSent, M.GoodDeck, S.ShortCards, NoneWide, D.Text;
    TwoSlotsWhenSafe(s);
    StoredIsLaid(b, i, want);
    var d := s.decks[M.IpcArg(arm) % 2];
    StoredTextIff(b, i, want, cards);
    LoadedDeckIsGood(Img.Dev(b), RT.Vol(b), want, raw, d);
    NarrowIsNotWide(cards);
    DeckReachesMachine(s, arm, es);
    var r := M.Run(M.Step(s, M.Ipc(arm)), es);
    if r.st.state == M.Done && Drained(m, arrivals, r.wire) {
      SampledIsSent(m, arrivals, r.wire);
    }
  }

  lemma TwoSlotsWhenSafe(s: M.Feeder)
    requires M.Safe(s)
    ensures |s.decks| == 2
  {
  }

  lemma StoredIsLaid(b: Img.Build, i: nat, want: FatDir.Name)
    requires Stored(b, i, want)
    ensures Img.Laid(b)
  {
  }

  /** The deck image holds what the text loader made, prepared or as it is, with its loader marked. */
  predicate TextLoadedAs(d: DeckImage, made: T.Outcome, raw: bool) {
    made.Parsed? && Indexed(d) && CardsOf(d) == D.Prepared(made.cards, raw) && d.loaderCard == LoaderIndex(CardsOf(d))
  }

  lemma {:induction false} NarrowIsNotWide(cards: seq<CP.Numbered>)
    requires CP.Narrow(cards)
    ensures NoneWide(CP.Plain(cards))
  {
    if cards != [] { NarrowIsNotWide(cards[1..]); }
  }
}
