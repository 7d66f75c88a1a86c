/** From a file on the volume to a deck image: text decks, prepared decks, batches and binaries. */
module Deckload {
  import opened Wrappers
  import opened Bits
  import opened DeckImages
  import opened FatModel
  import FatDir
  import R = FatRead
  import T = CapText
  import CapParser
  import Surgery
  import B = Bin2Deck
  import BinEncoder

  // ---- Finding the file ---------------------------------------------------------------------------------------

  /** Where a file's bytes are. */
  datatype Place = Place(size: nat, first: nat)

  /** `.cap` and `.hex.cap`. */
  const CAP: FatDir.Name := [0x2E, 0x63, 0x61, 0x70]
  const HEX_CAP: FatDir.Name := [0x2E, 0x68, 0x65, 0x78, 0x2E, 0x63, 0x61, 0x70]

  predicate HasFallback(name: FatDir.Name) { 4 < |name| < FatDir.NAME_MAX - 4 && name[|name| - 4..] == CAP }

  function Opens(dev: Device, v: Volume, name: FatDir.Name): (r: Option<Place>)
    ensures r.Some? ==> r.value.first < TWO16
  {
    match FatDir.Open(dev, v, name) case Found(size, first) => Some(Place(size, first)) case _ => None
  }

  /** `x.cap` falls back to `x.hex.cap`. */
  function Located(dev: Device, v: Volume, name: FatDir.Name): (r: Option<Place>)
    ensures r.Some? ==> r.value.first < TWO16
  {
    if Opens(dev, v, name).Some? then Opens(dev, v, name)
    else if HasFallback(name) then Opens(dev, v, name[..|name| - 4] + HEX_CAP)
    else None
  }

  // ---- Reading it to the end ----------------------------------------------------------------------------------

  /** All the bytes that reads deliver before they end. */
  function FileBytes(dev: Device, v: Volume, p: Place): (bs: seq<Byte>)
    requires v.secPerClus > 0
  {
    R.Slice(dev, v, p.first, 0, R.Reach(dev, v, p.first, p.size))
  }

  /** The reads end in a sector that cannot be read. */
  predicate Breaks(dev: Device, v: Volume, p: Place)
    requires v.secPerClus > 0
  {
    var m := R.Reach(dev, v, p.first, p.size);
    m < p.size && R.FileByte(dev, v, p.first, m) == R.Fails
  }

  /** What a read at `pos` tells about the rest of the file. */
  lemma ReadTells(dev: Device, v: Volume, p: Place, pos: nat, len: nat)
    requires v.secPerClus > 0 && pos <= R.Reach(dev, v, p.first, p.size) && len > 0
    ensures var r := R.ReadResult(dev, v, p.first, p.size, pos, len);
            var m := R.Available(dev, v, p.first, pos, R.Wanted(p.size, pos, len));
            && pos + m <= R.Reach(dev, v, p.first, p.size)
            && (r > 0 ==> r == m && (m < len ==> pos + m == R.Reach(dev, v, p.first, p.size) && !Breaks(dev, v, p)))
            && (r == 0 ==> m == 0 && pos == R.Reach(dev, v, p.first, p.size) && !Breaks(dev, v, p))
            && (r < 0 ==> r == -1 && Breaks(dev, v, p))
  {
    hide R.FileByte, R.Reach;
    var want := R.Wanted(p.size, pos, len);
    R.AvailableBefore(dev, v, p.first, p.size, pos, want);
  }

  function PlaceOf(f: R.FatFile): Place { Place(f.size, f.firstClus) }

  /** One read of the loading loops, in terms of the file's bytes. */
  method NextChunk(f: R.FatFile, buf: array<Byte>, len: nat) returns (n: int)
    requires f.Valid() && 0 < len <= buf.Length && buf != f.drv.fsec
    requires f.pos <= R.Reach(f.drv.dev, f.v, f.firstClus, f.size)
    modifies f`pos, f`curClus, f`clusPos, f.drv`fsecLba, f.drv.fsec, buf
    ensures f.Valid() && f.pos <= R.Reach(f.drv.dev, f.v, f.firstClus, f.size)
    ensures n > 0 ==> f.pos == old(f.pos) + n && n <= len
                      && buf[..n] == R.Slice(f.drv.dev, f.v, f.firstClus, old(f.pos), n)
    ensures 0 < n < len ==> f.pos == R.Reach(f.drv.dev, f.v, f.firstClus, f.size) && !Breaks(f.drv.dev, f.v, PlaceOf(f))
    ensures n == 0 ==> f.pos == old(f.pos) == R.Reach(f.drv.dev, f.v, f.firstClus, f.size)
                       && !Breaks(f.drv.dev, f.v, PlaceOf(f))
    ensures n < 0 ==> old(f.pos) <= f.pos && Breaks(f.drv.dev, f.v, PlaceOf(f))
  {
    hide R.FileByte, R.Reach, R.FatFile.Valid, R.ReadResult, R.Available, Breaks;
    assert f.v.secPerClus > 0 by { Whole(f); }
    ghost var p := f.pos;
    ReadTells(f.drv.dev, f.v, PlaceOf(f), p, len);
    n := f.Read(buf, len);
    if n > 0 {
      var l, r := buf[..n], R.Slice(f.drv.dev, f.v, f.firstClus, p, n);
      forall j | 0 <= j < n ensures l[j] == r[j] {
        var q := p + j;
        assert R.FileByte(f.drv.dev, f.v, f.firstClus, q) == R.Got(buf[q - p]) && q - p == j;
        assert r[j] == R.ByteOf(R.FileByte(f.drv.dev, f.v, f.firstClus, q));
      }
    }
  }

  lemma Whole(f: R.FatFile)
    requires f.Valid()
    ensures f.v.secPerClus > 0
  {
  }

  /** The bytes up to the next position. */
  lemma NextSlice(dev: Device, v: Volume, first: nat, pos: nat, n: nat)
    requires v.secPerClus > 0
    ensures R.Slice(dev, v, first, 0, pos) + R.Slice(dev, v, first, pos, n) == R.Slice(dev, v, first, 0, pos + n)
  {
    R.SliceJoin(dev, v, first, 0, pos, n);
  }

  // ---- Text decks ---------------------------------------------------------------------------------------------

  function Text(bs: seq<Byte>): (t: string)
    ensures |t| == |bs|
  {
    seq<char>(|bs|, i requires 0 <= i < |bs| => bs[i] as char)
  }

  lemma TextConcat(a: seq<Byte>, b: seq<Byte>)
    ensures Text(a + b) == Text(a) + Text(b)
  {
    var l, r := Text(a + b), Text(a) + Text(b);
    assert forall i :: 0 <= i < |l| ==> l[i] == r[i];
  }

  /** What the loader makes of a file: its cards, or an error code. */
  function TextDeck(dev: Device, v: Volume, p: Place): T.Outcome
    requires v.secPerClus > 0
  {
    if Breaks(dev, v, p) then T.Failed(-2)
    else match T.Batch(Text(FileBytes(dev, v, p))) case Failed(_) => T.Failed(-2) case Parsed(cs) => T.Parsed(cs)
  }

  lemma StreamOfText(text: string)
    ensures T.Sound(T.Start) && T.Finish(T.Chunk(T.Fresh, text)) == T.Batch(text)
  {
    T.StartSound();
    assert T.Joined([text]) == text by { assert text + "" == text; }
    T.StreamingIsBatch([text]);
    assert T.Chunks(T.Fresh, [text]) == T.Chunk(T.Fresh, text) by {
      assert T.Chunks(T.Chunk(T.Fresh, text), []) == T.Chunk(T.Fresh, text);
    }
  }

  /** An error in a beginning of the text is an error of the whole. */
  lemma EarlyError(a: string, b: string)
    requires T.Sound(T.Start) && T.Chunk(T.Fresh, a).parse.error != 0 && T.Chunk(T.Fresh, a).line == ""
    ensures T.Batch(a + b).Failed?
  {
    hide T.Chunk, T.Batch;
    T.ChunkConcat(T.Fresh, a, b);
    T.ErrorSticks(T.Chunk(T.Fresh, a), b);
    StreamOfText(a + b);
  }

  /** Parse what the reads deliver, chunk by chunk. */
  method ParseFile(f: R.FatFile, p: CapParser.Parser) returns (code: int)
    requires f.Valid() && f.pos == 0 && p.Valid() && p.Snap() == T.Fresh
    modifies f`pos, f`curClus, f`clusPos, f.drv`fsecLba, f.drv.fsec
    modifies p`inCard, p`error, p`linelen, p.linebuf, p.img`nCards, p.img.idx, p.img.cols
    ensures f.drv.Valid() && p.img.Valid() && f.v.secPerClus > 0
    ensures match TextDeck(f.drv.dev, f.v, PlaceOf(f))
            case Failed(c) => code == c
            case Parsed(cs) => code == 0 && p.img.Cards() == cs
  {
    hide R.FileByte, R.Reach, R.Slice, T.Chunk, T.Batch, T.Finish, Text, Deck, WellFormed, Breaks, R.CursorAt;
    ghost var place := PlaceOf(f);
    ghost var reach := R.Reach(f.drv.dev, f.v, f.firstClus, f.size);
    NoBytes(f.drv.dev, f.v, f.firstClus);
    var buf := new Byte[512];
    var n := 1;
    while n > 0
      invariant f.Valid() && p.Valid() && p.error == 0 && f.pos <= reach
      invariant n >= 0 ==> p.Snap() == T.Chunk(T.Fresh, Text(R.Slice(f.drv.dev, f.v, f.firstClus, 0, f.pos)))
      invariant n == 0 ==> f.pos == reach && !Breaks(f.drv.dev, f.v, place)
      invariant n < 0 ==> Breaks(f.drv.dev, f.v, place)
      decreases reach - f.pos, n > 0
    {
      n := NextChunk(f, buf, 512);
      if n > 0 {
        var ok := ParseOne(f, p, buf, n);
        if !ok {
          return -2;
        }
      }
    }
    if n < 0 {
      return -2;
    }
    code := FinishFile(f, p);
  }

  method FinishFile(f: R.FatFile, p: CapParser.Parser) returns (code: int)
    requires f.Valid() && p.Valid() && T.Sound(T.Start) && !Breaks(f.drv.dev, f.v, PlaceOf(f))
    requires p.Snap() == T.Chunk(T.Fresh, Text(FileBytes(f.drv.dev, f.v, PlaceOf(f))))
    modifies p`inCard, p`error, p.img`nCards, p.img.idx, p.img.cols
    ensures p.img.Valid()
    ensures match TextDeck(f.drv.dev, f.v, PlaceOf(f))
            case Failed(c) => code == c
            case Parsed(cs) => code == 0 && p.img.Cards() == cs
  {
    hide FileBytes, T.Chunk, T.Batch, T.Finish, Text, Deck, WellFormed, Breaks, R.CursorAt;
    ghost var text := Text(FileBytes(f.drv.dev, f.v, PlaceOf(f)));
    StreamOfText(text);
    BatchCodes(text);
    code := p.ParseFinish();
    if code != 0 {
      code := -2;
    }
  }

  /** A failed parse never has code 0. */
  lemma BatchCodes(text: string)
    ensures T.Batch(text).Failed? ==> T.Batch(text).code != 0
  {
    hide T.ProcessLines, T.NonEmpty, T.Lines;
    T.StartSound();
  }

  lemma NoBytes(dev: Device, v: Volume, first: nat)
    requires v.secPerClus > 0
    ensures T.Sound(T.Start) && T.Chunk(T.Fresh, Text(R.Slice(dev, v, first, 0, 0))) == T.Fresh
  {
    T.StartSound();
  }

  /** One chunk of n bytes that ends at the file's position; an error here is an error of the whole file. */
  method ParseOne(f: R.FatFile, p: CapParser.Parser, buf: array<Byte>, n: nat) returns (ok: bool)
    requires f.Valid() && p.Valid() && p.error == 0 && 0 < n <= f.pos <= R.Reach(f.drv.dev, f.v, f.firstClus, f.size)
    requires n <= buf.Length && buf[..n] == R.Slice(f.drv.dev, f.v, f.firstClus, f.pos - n, n)
    requires T.Sound(T.Start) && p.Snap() == T.Chunk(T.Fresh, Text(R.Slice(f.drv.dev, f.v, f.firstClus, 0, f.pos - n)))
    modifies p`inCard, p`error, p`linelen, p.linebuf, p.img`nCards, p.img.idx, p.img.cols
    ensures p.Valid() && ok == (p.error == 0)
    ensures p.Snap() == T.Chunk(T.Fresh, Text(R.Slice(f.drv.dev, f.v, f.firstClus, 0, f.pos)))
    ensures !ok ==> T.Batch(Text(FileBytes(f.drv.dev, f.v, PlaceOf(f)))).Failed?
  {
    hide R.FileByte, R.Reach, R.Slice, T.Chunk, T.Batch, Text, Deck, WellFormed, R.CursorAt;
    ghost var v, first, dev, pos := f.v, f.firstClus, f.drv.dev, f.pos;
    NextSlice(dev, v, first, pos - n, n);
    TextConcat(R.Slice(dev, v, first, 0, pos - n), R.Slice(dev, v, first, pos - n, n));
    T.ChunkConcat(T.Fresh, Text(R.Slice(dev, v, first, 0, pos - n)), Text(buf[..n]));
    var code := p.ParseChunk(Text(buf[..n]));
    ok := code == 0;
    if !ok {
      ghost var rest := R.Reach(dev, v, first, f.size) - pos;
      NextSlice(dev, v, first, pos, rest);
      TextConcat(R.Slice(dev, v, first, 0, pos), R.Slice(dev, v, first, pos, rest));
      EarlyError(Text(R.Slice(dev, v, first, 0, pos)), Text(R.Slice(dev, v, first, pos, rest)));
    }
  }

  /** The cards of a text file on the volume, or -1 if there is no such file and -2 if it does not parse. */
  function TextFile(dev: Device, v: Volume, name: FatDir.Name): T.Outcome
    requires v.secPerClus > 0
  {
    match Located(dev, v, name) case None => T.Failed(-1) case Some(p) => TextDeck(dev, v, p)
  }

  method Locate(drv: FatDriver, v: Volume, name: FatDir.Name) returns (p: Option<Place>)
    requires drv.Valid()
    ensures p == Located(drv.dev, v, name)
  {
    hide FatDir.Open;
    var o := FatDir.OpenFile(drv, v, name);
    if o.Found? {
      return Some(Place(o.size, o.first));
    }
    var n := |name|;
    if n > 4 && n < FatDir.NAME_MAX - 4 && name[n - 4..] == CAP {
      o := FatDir.OpenFile(drv, v, name[..n - 4] + HEX_CAP);
      if o.Found? {
        return Some(Place(o.size, o.first));
      }
    }
    return None;
  }

  /** Parse a text deck off the volume and mark its loader card. */
  method LoadFile(drv: FatDriver, v: Volume, name: FatDir.Name, img: DeckBuffer) returns (code: int)
    requires drv.Valid() && Mounted(v) && img.Valid()
    modifies drv`fsecLba, drv.fsec, img, img.idx, img.cols
    ensures drv.Valid() && img.Valid()
    ensures match TextFile(drv.dev, v, name)
            case Failed(c) => code == c < 0
            case Parsed(cs) => code == 0 && img.Cards() == cs && img.loaderCard == LoaderIndex(cs)
  {
    hide Located, TextDeck, Deck, WellFormed, LoaderIndex, R.CursorAt;
    var p := Locate(drv, v, name);
    if p.None? {
      return -1;
    }
    img.Reset(-1);
    assert img.nCards == 0 by { NoCards(img); }
    var parser := new CapParser.Parser(img);
    var f := new R.FatFile(drv, v, p.value.size, p.value.first);
    code := ParseFile(f, parser);
    FailedCode(drv.dev, v, p.value);
    if code == 0 {
      var found := img.FindLoaderCard();
    }
  }

  lemma NoCards(img: DeckBuffer)
    requires img.Valid() && img.Cards() == []
    ensures img.nCards == 0
  {
  }

  lemma FailedCode(dev: Device, v: Volume, p: Place)
    requires v.secPerClus > 0
    ensures TextDeck(dev, v, p).Failed? ==> TextDeck(dev, v, p).code == -2
  {
  }

  // ---- Prepared decks -----------------------------------------------------------------------------------------

  /** A deck in box order, with its loader behind a title card, is cut to loader and body unless asked for raw. */
  function PrepareOp(cs: seq<Card>, raw: bool): Surgery.Op {
    if !raw && LoaderIndex(cs) > 0 && |cs| >= 7 then Surgery.SerialLoader else Surgery.AsIs
  }

  function Prepared(cs: seq<Card>, raw: bool): seq<Card> { Surgery.Recipe(cs, PrepareOp(cs, raw)).value }

  /** Cutting cards out never makes a deck too big. */
  lemma PreparedFits(cs: seq<Card>, raw: bool)
    requires |cs| <= DECK_MAX_CARDS && TotalCols(cs) <= DECK_MAX_COLS
    ensures Surgery.Appended([], Prepared(cs, raw)) == [] + Prepared(cs, raw)
  {
    hide TotalCols, LoaderIndex, Surgery.Appended, SearchLimit;
    var r := Prepared(cs, raw);
    assert TotalCols([]) == 0 by { NoColumns(); }
    assert [] + r == r;
    if PrepareOp(cs, raw) == Surgery.SerialLoader {
      LoaderAmongFive(cs);
      LoaderAndBody(cs, LoaderIndex(cs));
    }
    Surgery.AppendedIff([], r);
  }

  lemma NoColumns()
    ensures TotalCols([]) == 0
  {
  }

  lemma LoaderAmongFive(cs: seq<Card>)
    requires |cs| >= 5
    ensures LoaderIndex(cs) < 5
  {
  }

  lemma LoaderAndBody(cs: seq<Card>, l: nat)
    requires |cs| >= 7 && l < 5
    ensures TotalCols([cs[l]] + cs[5..|cs| - 1]) <= TotalCols(cs)
  {
    hide TotalCols;
    var a, b, c, d := cs[..l], cs[l + 1..5], cs[5..|cs| - 1], cs[|cs| - 1..];
    assert cs == a + [cs[l]] + b + c + d;
    TotalConcat(a + [cs[l]] + b + c, d);
    TotalConcat(a + [cs[l]] + b, c);
    TotalConcat(a + [cs[l]], b);
    TotalConcat(a, [cs[l]]);
    TotalConcat([cs[l]], c);
  }

  /** Load a text deck and put the deck the operator would feed into `dst`. */
  method Prepare(drv: FatDriver, v: Volume, name: FatDir.Name, raw: bool, dst: DeckBuffer, tmp: DeckBuffer)
    returns (code: int)
    requires drv.Valid() && Mounted(v) && Surgery.Apart(dst, tmp)
    modifies drv`fsecLba, drv.fsec, dst, dst.idx, dst.cols, tmp, tmp.idx, tmp.cols
    ensures drv.Valid() && Surgery.Apart(dst, tmp)
    ensures match TextFile(drv.dev, v, name)
            case Failed(_) => code == -1
            case Parsed(cs) =>
              code == 0 && dst.Cards() == Prepared(cs, raw) && dst.loaderCard == LoaderIndex(dst.Cards())
  {
    hide TextFile, Deck, WellFormed, LoaderIndex, Surgery.Appended;
    code := LoadFile(drv, v, name, tmp);
    if code != 0 {
      return -1;
    }
    ghost var cs := tmp.Cards();
    dst.Reset(-1);
    var op := if !raw && tmp.loaderCard > 0 && tmp.nCards >= 7 then Surgery.SerialLoader else Surgery.AsIs;
    DeckFits(tmp.Image());
    PreparedFits(cs, raw);
    var ok := Surgery.Apply(dst, tmp, op);
    if !ok {
      return -2;
    }
    assert [] + Prepared(cs, raw) == Prepared(cs, raw);
    var found := dst.FindLoaderCard();
  }

  lemma DeckFits(d: DeckImage)
    requires WellFormed(d)
    ensures |Deck(d)| <= DECK_MAX_CARDS && TotalCols(Deck(d)) <= DECK_MAX_COLS
  {
    DeckTotal(d);
  }

  /** A deck whose loader stands behind a title card is fed from that loader: the prepared deck starts at card 0. */
  lemma PreparedStartsAtLoader(cs: seq<Card>)
    requires |cs| >= 7 && LoaderIndex(cs) > 0 && Surgery.HasLoader(cs)
    ensures LoaderIndex(Prepared(cs, false)) == 0 && Marked(Prepared(cs, false)[0])
  {
    hide LoaderIndex, Marked, Surgery.HasLoader;
    Surgery.SerialStartsAtZeroIff(cs, []);
    Surgery.LoaderIsMarkedIff(cs);
    assert Prepared(cs, false) + [] == Prepared(cs, false);
  }

  // ---- Batches ------------------------------------------------------------------------------------------------

  datatype Source = Source(file: FatDir.Name, op: Surgery.Op)

  /** The cards after the first k sources, or the error of the first one that fails. */
  function BatchTo(dev: Device, v: Volume, sources: seq<Source>, k: nat): T.Outcome
    requires v.secPerClus > 0 && k <= |sources|
  {
    if k == 0 then T.Parsed([])
    else
      match BatchTo(dev, v, sources, k - 1)
      case Failed(c) => T.Failed(c)
      case Parsed(cards) => Extended(cards, TextFile(dev, v, sources[k - 1].file), sources[k - 1].op)
  }

  function Extended(cards: seq<Card>, source: T.Outcome, op: Surgery.Op): T.Outcome {
    match source
    case Failed(_) => T.Failed(-1)
    case Parsed(cs) =>
      match Surgery.Recipe(cs, op)
      case None => T.Failed(-2)
      case Some(r) =>
        if |cards| + |r| <= DECK_MAX_CARDS && TotalCols(cards + r) <= DECK_MAX_COLS then T.Parsed(cards + r)
        else T.Failed(-2)
  }

  lemma {:induction false} BatchStops(dev: Device, v: Volume, sources: seq<Source>, j: nat, k: nat)
    requires v.secPerClus > 0 && j <= k <= |sources| && BatchTo(dev, v, sources, j).Failed?
    ensures BatchTo(dev, v, sources, k) == BatchTo(dev, v, sources, j)
  {
    hide Extended, TextFile;
    if j < k { BatchStops(dev, v, sources, j, k - 1); }
  }

  /** Append one source to the deck under construction. */
  method AddSource(drv: FatDriver, v: Volume, source: Source, dst: DeckBuffer, tmp: DeckBuffer) returns (code: int)
    requires drv.Valid() && Mounted(v) && Surgery.Apart(dst, tmp)
    modifies drv`fsecLba, drv.fsec, dst`nCards, dst.idx, dst.cols, tmp, tmp.idx, tmp.cols
    ensures drv.Valid() && Surgery.Apart(dst, tmp)
    ensures match Extended(old(dst.Cards()), TextFile(drv.dev, v, source.file), source.op)
            case Failed(c) => code == c < 0
            case Parsed(cs) => code == 0 && dst.Cards() == cs
  {
    hide TextFile, Deck, WellFormed, LoaderIndex, Surgery.Appended, Surgery.Recipe, TotalCols;
    code := LoadFile(drv, v, source.file, tmp);
    if code != 0 {
      return -1;
    }
    DeckFits(dst.Image());
    ghost var before, r := dst.Cards(), Surgery.Recipe(tmp.Cards(), source.op);
    if r.Some? { Surgery.AppendedIff(before, r.value); }
    var ok := Surgery.Apply(dst, tmp, source.op);
    if !ok {
      return -2;
    }
  }

  /** Load every source of a batch into one deck. */
  method LoadBatch(drv: FatDriver, v: Volume, sources: seq<Source>, dst: DeckBuffer, tmp: DeckBuffer)
    returns (code: int)
    requires drv.Valid() && Mounted(v) && Surgery.Apart(dst, tmp)
    modifies drv`fsecLba, drv.fsec, dst, dst.idx, dst.cols, tmp, tmp.idx, tmp.cols
    ensures drv.Valid() && Surgery.Apart(dst, tmp)
    ensures match BatchTo(drv.dev, v, sources, |sources|)
            case Failed(c) => code == c
            case Parsed(cs) => code == 0 && dst.Cards() == cs && dst.loaderCard == LoaderIndex(cs)
  {
    hide TextFile, Deck, WellFormed, LoaderIndex, Extended;
    dst.Reset(-1);
    for i := 0 to |sources|
      invariant drv.Valid() && Surgery.Apart(dst, tmp)
      invariant BatchTo(drv.dev, v, sources, i) == T.Parsed(dst.Cards())
    {
      code := AddSource(drv, v, sources[i], dst, tmp);
      if code != 0 {
        BatchStops(drv.dev, v, sources, i + 1, |sources|);
        return;
      }
    }
    var found := dst.FindLoaderCard();
    code := 0;
  }

  lemma {:induction false} BatchBegins(dev: Device, v: Volume, sources: seq<Source>, k: nat, cs: seq<Card>)
    requires v.secPerClus > 0 && 1 <= k <= |sources| && sources[0].op == Surgery.SerialLoader
    requires TextFile(dev, v, sources[0].file) == T.Parsed(cs) && BatchTo(dev, v, sources, k).Parsed?
    ensures |cs| >= 7
    ensures var r := Surgery.Recipe(cs, Surgery.SerialLoader).value;
            var deck := BatchTo(dev, v, sources, k).cards;
            |r| <= |deck| && deck[..|r|] == r
  {
    hide TextFile, LoaderIndex, TotalCols;
    if k == 1 {
      assert BatchTo(dev, v, sources, 0) == T.Parsed([]);
      var r := Surgery.Recipe(cs, Surgery.SerialLoader).value;
      assert [] + r == r;
    } else {
      BatchBegins(dev, v, sources, k - 1, cs);
    }
  }

  /** A batch whose first source is cut to its serial loader is fed from card 0 exactly when that source has a marked
      loader among its first five cards. */
  lemma BatchStartsAtLoaderIff(dev: Device, v: Volume, sources: seq<Source>, cs: seq<Card>)
    requires v.secPerClus > 0 && sources != [] && sources[0].op == Surgery.SerialLoader
    requires TextFile(dev, v, sources[0].file) == T.Parsed(cs) && BatchTo(dev, v, sources, |sources|).Parsed?
    ensures LoaderIndex(BatchTo(dev, v, sources, |sources|).cards) == 0 <==> Surgery.HasLoader(cs)
  {
    hide TextFile, LoaderIndex, BatchTo, Surgery.HasLoader;
    BatchBegins(dev, v, sources, |sources|, cs);
    var r, deck := Surgery.Recipe(cs, Surgery.SerialLoader).value, BatchTo(dev, v, sources, |sources|).cards;
    assert deck == r + deck[|r|..];
    Surgery.SerialStartsAtZeroIff(cs, deck[|r|..]);
  }

  // ---- Binaries -----------------------------------------------------------------------------------------------

  /** The deck synthesized from a binary file: one hex card for base 0, a scatter-loader deck otherwise. */
  function BinFile(dev: Device, v: Volume, name: FatDir.Name, base: Word16, entry: Word16): T.Outcome
    requires v.secPerClus > 0
  {
    match Opens(dev, v, name)
    case None => T.Failed(-1)
    case Some(p) =>
      var bytes := FileBytes(dev, v, p);
      if Breaks(dev, v, p) then T.Failed(-2)
      else if base == 0 then
        if 1 <= |bytes| <= B.IPL_MAX then T.Parsed([BinEncoder.IplCard(bytes)]) else T.Failed(-2)
      else match B.Build(base, bytes, entry) case None => T.Failed(-2) case Some(cs) => T.Parsed(cs)
  }

  /** Feed what the reads deliver to the encoder, chunk by chunk. */
  method EncodeFile(f: R.FatFile, dst: DeckBuffer, base: Word16, entry: Word16) returns (code: int)
    requires f.Valid() && f.pos == 0 && dst.Valid()
    modifies f`pos, f`curClus, f`clusPos, f.drv`fsecLba, f.drv.fsec, dst, dst.idx, dst.cols
    ensures f.drv.Valid() && dst.Valid() && f.v.secPerClus > 0
    ensures var built := B.Build(base, FileBytes(f.drv.dev, f.v, PlaceOf(f)), entry);
            if Breaks(f.drv.dev, f.v, PlaceOf(f)) || built.None? then code == -2
            else code == 0 && dst.Cards() == built.value && dst.loaderCard == 0
  {
    hide R.FileByte, R.Reach, R.Slice, B.Feed, B.End, Deck, WellFormed, Breaks, R.CursorAt;
    ghost var place := PlaceOf(f);
    ghost var reach := R.Reach(f.drv.dev, f.v, f.firstClus, f.size);
    var enc := new BinEncoder.Encoder(dst, base);
    FeedNothing(f.drv.dev, f.v, f.firstClus, base);
    var buf := new Byte[512];
    var n := 1;
    while n > 0
      invariant f.Valid() && enc.Valid() && dst.loaderCard == 0 && f.pos <= reach
      invariant n >= 0 ==> B.Feed(B.Begin(base), R.Slice(f.drv.dev, f.v, f.firstClus, 0, f.pos)) == Some(enc.Snap())
      invariant n == 0 ==> f.pos == reach && !Breaks(f.drv.dev, f.v, place)
      invariant n < 0 ==> Breaks(f.drv.dev, f.v, place)
      decreases reach - f.pos, n > 0
    {
      n := NextChunk(f, buf, 512);
      if n > 0 {
        var ok := EncodeOne(f, enc, base, buf, n);
        if !ok {
          FeedFails(f.drv.dev, f.v, place, f.pos, base, entry);
          return -2;
        }
      }
    }
    if n < 0 {
      return -2;
    }
    var ok := enc.Finish(entry);
    code := if ok then 0 else -2;
  }

  lemma FeedNothing(dev: Device, v: Volume, first: nat, base: Word16)
    requires v.secPerClus > 0
    ensures B.Feed(B.Begin(base), R.Slice(dev, v, first, 0, 0)) == Some(B.Begin(base))
  {
  }

  /** A beginning that cannot be encoded cannot be completed. */
  lemma FeedFails(dev: Device, v: Volume, p: Place, pos: nat, base: Word16, entry: Word16)
    requires v.secPerClus > 0 && pos <= R.Reach(dev, v, p.first, p.size)
    requires B.Feed(B.Begin(base), R.Slice(dev, v, p.first, 0, pos)).None?
    ensures B.Build(base, FileBytes(dev, v, p), entry).None?
  {
    hide R.FileByte, R.Reach, R.Slice, B.Feed, B.End;
    var rest := R.Reach(dev, v, p.first, p.size) - pos;
    NextSlice(dev, v, p.first, pos, rest);
    B.FeedConcat(B.Begin(base), R.Slice(dev, v, p.first, 0, pos), R.Slice(dev, v, p.first, pos, rest));
  }

  method EncodeOne(f: R.FatFile, enc: BinEncoder.Encoder, base: Word16, buf: array<Byte>, n: nat) returns (ok: bool)
    requires f.Valid() && enc.Valid() && 0 < n <= f.pos && n <= buf.Length && buf != enc.buf
    requires buf[..n] == R.Slice(f.drv.dev, f.v, f.firstClus, f.pos - n, n)
    requires B.Feed(B.Begin(base), R.Slice(f.drv.dev, f.v, f.firstClus, 0, f.pos - n)) == Some(enc.Snap())
    modifies enc`addr, enc`fill, enc.buf, enc.img`nCards, enc.img.idx, enc.img.cols
    ensures enc.img.Valid() && enc.img.loaderCard == old(enc.img.loaderCard) && f.v.secPerClus > 0
    ensures ok ==>
              enc.Valid() && B.Feed(B.Begin(base), R.Slice(f.drv.dev, f.v, f.firstClus, 0, f.pos)) == Some(enc.Snap())
    ensures !ok ==> B.Feed(B.Begin(base), R.Slice(f.drv.dev, f.v, f.firstClus, 0, f.pos)).None?
  {
    hide R.FileByte, R.Slice, B.Feed, Deck, WellFormed, R.CursorAt;
    NextSlice(f.drv.dev, f.v, f.firstClus, f.pos - n, n);
    B.FeedConcat(B.Begin(base), R.Slice(f.drv.dev, f.v, f.firstClus, 0, f.pos - n), buf[..n]);
    ok := enc.FeedData(buf, n);
  }

  /** One read of at most 41 bytes decides the single-card form. */
  method EncodeIpl(f: R.FatFile, dst: DeckBuffer) returns (code: int)
    requires f.Valid() && f.pos == 0 && dst.Valid()
    modifies f`pos, f`curClus, f`clusPos, f.drv`fsecLba, f.drv.fsec, dst, dst.idx, dst.cols
    ensures f.drv.Valid() && dst.Valid() && f.v.secPerClus > 0
    ensures var bytes := FileBytes(f.drv.dev, f.v, PlaceOf(f));
            if Breaks(f.drv.dev, f.v, PlaceOf(f)) || !(1 <= |bytes| <= B.IPL_MAX) then code == -2
            else code == 0 && dst.Cards() == [BinEncoder.IplCard(bytes)] && dst.loaderCard == 0
  {
    hide R.FileByte, R.Reach, R.Slice, Deck, WellFormed, Breaks, R.CursorAt, BinEncoder.IplCard;
    Whole(f);
    var buf := new Byte[B.IPL_MAX + 1];
    var n := NextChunk(f, buf, B.IPL_MAX + 1);
    if n <= 0 {
      return -2;
    }
    var ok := BinEncoder.BuildIpl(dst, buf, n);
    code := if ok then 0 else -2;
  }

  /** Synthesize a deck from a binary file. */
  method LoadBin(drv: FatDriver, v: Volume, name: FatDir.Name, base: Word16, entry: Word16, dst: DeckBuffer)
    returns (code: int)
    requires drv.Valid() && Mounted(v) && dst.Valid()
    modifies drv`fsecLba, drv.fsec, dst, dst.idx, dst.cols
    ensures drv.Valid() && dst.Valid()
    ensures match BinFile(drv.dev, v, name, base, entry)
            case Failed(c) => code == c
            case Parsed(cs) => code == 0 && dst.Cards() == cs && dst.loaderCard == 0
  {
    hide FatDir.Open, Breaks, FileBytes, Deck, WellFormed, B.Build, R.CursorAt, BinEncoder.IplCard;
    var o := FatDir.OpenFile(drv, v, name);
    if !o.Found? {
      return -1;
    }
    assert o.first < TWO16 by { FoundIsWord(drv.dev, v, name); }
    var f := new R.FatFile(drv, v, o.size, o.first);
    if base == 0 {
      code := EncodeIpl(f, dst);
    } else {
      code := EncodeFile(f, dst, base, entry);
    }
  }

  lemma FoundIsWord(dev: Device, v: Volume, name: FatDir.Name)
    ensures FatDir.Open(dev, v, name).Found? ==> FatDir.Open(dev, v, name).first < TWO16
  {
  }

  // ---- What is located, prepared and batched ------------------------------------------------------------------

  /** A name `stem.cap` that is not there stands for `stem.hex.cap`, if it leaves room for the longer one. */
  lemma CapFallsBack(dev: Device, v: Volume, stem: FatDir.Name)
    requires 0 < |stem| < 56
    ensures var name := stem + [0x2E, 0x63, 0x61, 0x70];
            Located(dev, v, name)
            == if Opens(dev, v, name).Some? then Opens(dev, v, name)
               else Opens(dev, v, stem + [0x2E, 0x68, 0x65, 0x78, 0x2E, 0x63, 0x61, 0x70])
  {
    hide Opens;
    var name := stem + [0x2E, 0x63, 0x61, 0x70];
    assert name[|name| - 4..] == CAP && name[..|name| - 4] == stem;
  }

  /** No other name does. */
  lemma OthersDoNot(dev: Device, v: Volume, name: FatDir.Name)
    requires |name| <= 4 || |name| >= 60 || name[|name| - 4..] != [0x2E, 0x63, 0x61, 0x70]
    ensures Located(dev, v, name) == Opens(dev, v, name)
  {
    hide Opens;
  }

  /** Preparing a deck: as it is if that is asked for, if its loader is card 0, or if it has no more than six cards;
      otherwise the loader card and then everything between the box head of five cards and the summary. */
  lemma PreparedIs(cs: seq<Card>, raw: bool)
    ensures Prepared(cs, raw)
         == if raw || LoaderIndex(cs) == 0 || |cs| <= 6 then cs
            else [cs[LoaderIndex(cs)]] + cs[5..|cs| - 1]
  {
    hide LoaderIndex;
  }

  /** The cards each of the first k sources gives. */
  function Parts(dev: Device, v: Volume, sources: seq<Source>, k: nat): (ps: seq<seq<Card>>)
    requires v.secPerClus > 0 && k <= |sources|
    ensures |ps| == k
  {
    seq(k, i requires 0 <= i < k => PartOf(TextFile(dev, v, sources[i].file), sources[i].op))
  }

  function PartOf(source: T.Outcome, op: Surgery.Op): seq<Card> {
    match source
    case Failed(_) => []
    case Parsed(cs) => match Surgery.Recipe(cs, op) case None => [] case Some(r) => r
  }

  function Concatenated(parts: seq<seq<Card>>): seq<Card> {
    if parts == [] then [] else Concatenated(parts[..|parts| - 1]) + parts[|parts| - 1]
  }

  /** A batch is the parts of all its sources, one after another, and they fit the image together. */
  lemma {:induction false} BatchIsJoined(dev: Device, v: Volume, sources: seq<Source>, k: nat)
    requires v.secPerClus > 0 && k <= |sources| && BatchTo(dev, v, sources, k).Parsed?
    ensures BatchTo(dev, v, sources, k).cards == Concatenated(Parts(dev, v, sources, k))
    ensures k > 0 ==> var cs := Concatenated(Parts(dev, v, sources, k)); |cs| <= 512 && TotalCols(cs) <= 40960
    ensures forall i :: 0 <= i < k ==>
              var source := TextFile(dev, v, sources[i].file);
              source.Parsed? && Surgery.Recipe(source.cards, sources[i].op).Some?
  {
    hide TextFile, Surgery.Recipe, TotalCols;
    if k > 0 {
      BatchIsJoined(dev, v, sources, k - 1);
      assert Parts(dev, v, sources, k)[..k - 1] == Parts(dev, v, sources, k - 1);
    }
  }

  /** A batch fails at its first source that cannot be loaded, with -1, or whose cards are too few for the recipe or too
      many for the image, with -2. */
  lemma {:induction false} BatchFailsAt(dev: Device, v: Volume, sources: seq<Source>, k: nat) returns (i: nat)
    requires v.secPerClus > 0 && k <= |sources| && BatchTo(dev, v, sources, k).Failed?
    ensures i < k && BatchTo(dev, v, sources, i).Parsed?
    ensures var source, cards := TextFile(dev, v, sources[i].file), BatchTo(dev, v, sources, i).cards;
            if source.Failed? then BatchTo(dev, v, sources, k) == T.Failed(-1)
            else
              && BatchTo(dev, v, sources, k) == T.Failed(-2)
              && (Surgery.Recipe(source.cards, sources[i].op).None?
                  || |cards| + |PartOf(source, sources[i].op)| > 512
                  || TotalCols(cards + PartOf(source, sources[i].op)) > 40960)
  {
    hide TextFile, Surgery.Recipe, TotalCols;
    if BatchTo(dev, v, sources, k - 1).Failed? {
      i := BatchFailsAt(dev, v, sources, k - 1);
    } else {
      i := k - 1;
    }
  }

  /** The codes of the two single loaders: -1 for a file that is not there, -2 for one that breaks off half-way. */
  lemma LoadCodes(dev: Device, v: Volume, name: FatDir.Name, base: Word16, entry: Word16)
    requires v.secPerClus > 0
    ensures Located(dev, v, name).None? ==> TextFile(dev, v, name) == T.Failed(-1)
    ensures Located(dev, v, name).Some? && Breaks(dev, v, Located(dev, v, name).value) ==>
              TextFile(dev, v, name) == T.Failed(-2)
    ensures Opens(dev, v, name).None? ==> BinFile(dev, v, name, base, entry) == T.Failed(-1)
    ensures Opens(dev, v, name).Some? && Breaks(dev, v, Opens(dev, v, name).value) ==>
              BinFile(dev, v, name, base, entry) == T.Failed(-2)
  {
    hide Opens, Breaks, FileBytes, B.Build, T.Batch;
  }
}
