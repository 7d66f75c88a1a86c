/** Synthesis of a scatter-loader deck from a raw binary image. */
module Bin2Deck {
  import opened Wrappers
  import opened Bits
  import opened Columns
  import opened DeckImages

  const CHUNK: nat := 66
  const IPL_MAX: nat := 40

  /** The embedded loader card for unit 0x80. */
  const LOADER_COLS: Card :=
    [0x0200, 0x0140, 0x0100, 0x0001, 0x0001, 0x0001, 0x0004, 0x0004] +
    [0x0200, 0x0140, 0x0100, 0x0001, 0x0001, 0x0001, 0x0004, 0x0001] +
    [0x0200, 0x0140, 0x0100, 0x0001, 0x0001, 0x0001, 0x0004, 0x0040] +
    [0x0010, 0x1008, 0x0002, 0x0001, 0x0001, 0x0001, 0x0002, 0x0020] +
    [0x0120, 0x0004, 0x0001, 0x0004, 0x0001, 0x0001, 0x0002, 0x0080] +
    [0x0001, 0x0001, 0x0008, 0x0140, 0x0120, 0x0004, 0x0001, 0x0001] +
    [0x0001, 0x0001, 0x0001, 0x0001, 0x0001, 0x0001, 0x0010, 0x0002] +
    [0x0010, 0x0008, 0x0180, 0x0001, 0x0001, 0x0001, 0x0001, 0x0010] +
    [0x0001, 0x0001, 0x0010, 0x0001, 0x0100, 0x0001, 0x0104, 0x0001] +
    [0x0001, 0x0001, 0x0008, 0x0040, 0x0110, 0x0001, 0x0010, 0x0104]

  /** The 80 bytes of a scatter card: blank label, LL, II big-endian, payload, blank tail. */
  function ScatterByte(addr: Word16, payload: seq<Byte>, i: nat): Byte
    requires 0 < |payload| <= CHUNK && i < CARD_COLS
  {
    if i == 8 then |payload| - 1
    else if i == 9 then addr / 256
    else if i == 10 then addr % 256
    else if 11 <= i < 11 + |payload| then payload[i - 11]
    else 0
  }

  function ScatterCard(addr: Word16, payload: seq<Byte>): (c: Card)
    requires 0 < |payload| <= CHUNK
    ensures |c| == CARD_COLS
  {
    seq(CARD_COLS, i requires 0 <= i < CARD_COLS => ByteToCol(ScatterByte(addr, payload, i)))
  }

  /** NOP2, NOP2, jump-always to the entry point. */
  function Termination(entry: Word16): (t: seq<Byte>)
    ensures |t| == 8
  {
    [0x07, 0x00, 0x07, 0x00, 0x43, 0xF0, entry / 256, entry % 256]
  }

  // ---- The streaming encoder ----------------------------------------------------------------------------------

  datatype Enc = Enc(addr: nat, buf: seq<Byte>, cards: seq<Card>)

  function Begin(base: Word16): Enc { Enc(base, [], [LOADER_COLS]) }

  function Flush(e: Enc): Option<Enc>
    requires |e.buf| <= CHUNK
  {
    if e.buf == [] then Some(e)
    else if e.addr + |e.buf| > TWO16 then None
    else if !Fits(e.cards, CARD_COLS) then None
    else Some(Enc(e.addr + |e.buf|, [], e.cards + [ScatterCard(e.addr, e.buf)]))
  }

  function Take(e: Enc, data: seq<Byte>): (k: nat)
    requires |e.buf| < CHUNK
    ensures k <= |data| && k <= CHUNK - |e.buf| && (data != [] ==> k > 0)
  {
    if CHUNK - |e.buf| < |data| then CHUNK - |e.buf| else |data|
  }

  function Feed(e: Enc, data: seq<Byte>): (r: Option<Enc>)
    requires |e.buf| < CHUNK
    ensures r.Some? ==> |r.value.buf| < CHUNK
    decreases |data|
  {
    if data == [] then Some(e)
    else
      var k := Take(e, data);
      var f := e.(buf := e.buf + data[..k]);
      if |f.buf| == CHUNK then
        match Flush(f)
        case None => None
        case Some(g) => Feed(g, data[k..])
      else Feed(f, data[k..])
  }

  function End(e: Enc, entry: Word16): Option<seq<Card>>
    requires |e.buf| < CHUNK
  {
    match Flush(e)
    case None => None
    case Some(f) => if !Fits(f.cards, CARD_COLS) then None else Some(f.cards + [ScatterCard(0, Termination(entry))])
  }

  function AndThen(r: Option<Enc>, data: seq<Byte>): Option<Enc>
    requires r.Some? ==> |r.value.buf| < CHUNK
  {
    match r case None => None case Some(e) => Feed(e, data)
  }

  /** Feeding a then b is feeding a + b, failures included. */
  lemma {:induction false} FeedConcat(e: Enc, a: seq<Byte>, b: seq<Byte>)
    requires |e.buf| < CHUNK
    ensures Feed(e, a + b) == AndThen(Feed(e, a), b)
    decreases |a|
  {
    hide Flush, Fits, ScatterCard;
    if a == [] {
      assert a + b == b;
    } else if b == [] {
      assert a + b == a;
    } else if CHUNK - |e.buf| <= |a| {
      var k := CHUNK - |e.buf|;
      assert (a + b)[..k] == a[..k] && (a + b)[k..] == a[k..] + b;
      var r := Flush(e.(buf := e.buf + a[..k]));
      if r.Some? {
        FlushEmpties(e.(buf := e.buf + a[..k]));
        FeedConcat(r.value, a[k..], b);
      }
    } else {
      FeedShort(e, a, b);
    }
  }

  lemma FlushEmpties(e: Enc)
    requires |e.buf| <= CHUNK
    ensures Flush(e).Some? ==> Flush(e).value.buf == []
  {
  }

  /** A piece that does not fill the buffer is just buffered. */
  lemma FeedShort(e: Enc, a: seq<Byte>, b: seq<Byte>)
    requires |a| + |e.buf| < CHUNK && a != [] && b != []
    ensures Feed(e, a) == Some(e.(buf := e.buf + a))
    ensures Feed(e, a + b) == Feed(e.(buf := e.buf + a), b)
  {
    hide Flush;
    var f := e.(buf := e.buf + a);
    assert a[|a|..] == [] && a[..|a|] == a;
    var k := Take(e, a + b);
    var j := Take(f, b);
    assert k == |a| + j;
    assert (a + b)[..k] == a + b[..j] && (a + b)[k..] == b[j..];
    assert e.buf + (a + b)[..k] == f.buf + b[..j];
  }

  // ---- Closed form of the deck --------------------------------------------------------------------------------

  function ChunkEnd(n: nat, i: nat): nat { if CHUNK * i + CHUNK < n then CHUNK * i + CHUNK else n }

  /** Payload of card i of a binary. */
  function Chunk(data: seq<Byte>, i: nat): (c: seq<Byte>)
    requires CHUNK * i < |data|
    ensures 0 < |c| <= CHUNK
  {
    data[CHUNK * i..ChunkEnd(|data|, i)]
  }

  function ChunkCard(base: Word16, data: seq<Byte>, i: nat): Card
    requires CHUNK * i < |data| && base + CHUNK * i < TWO16
  {
    ScatterCard(base + CHUNK * i, Chunk(data, i))
  }

  /** The first k payload cards. */
  function ChunkCards(base: Word16, data: seq<Byte>, k: nat): seq<Card>
    requires CHUNK * k < |data| + CHUNK && base + |data| <= TWO16
  {
    seq(k, i requires 0 <= i < k => ChunkCard(base, data, i))
  }

  function CardCount(n: nat): nat { (n + CHUNK - 1) / CHUNK }

  /** The whole deck: loader, payload cards, termination. */
  function BinDeck(base: Word16, data: seq<Byte>, entry: Word16): seq<Card>
    requires base + |data| <= TWO16
  {
    [LOADER_COLS] + ChunkCards(base, data, CardCount(|data|)) + [ScatterCard(0, Termination(entry))]
  }

  predicate Accepts(base: Word16, n: nat) {
    base + n <= TWO16 && CardCount(n) <= 510
  }

  /** Encoder state after `data`, when every full card so far was accepted. */
  function StateOf(base: Word16, data: seq<Byte>): Enc
    requires base + CHUNK * (|data| / CHUNK) <= TWO16
  {
    var k := |data| / CHUNK;
    Enc(base + CHUNK * k, data[CHUNK * k..], [LOADER_COLS] + ChunkCards(base, data[..CHUNK * k], k))
  }

  predicate AcceptsFull(base: Word16, n: nat) {
    base + CHUNK * (n / CHUNK) <= TWO16 && n / CHUNK <= 511
  }

  lemma {:induction false} UniformTotal(cs: seq<Card>)
    requires forall i :: 0 <= i < |cs| ==> |cs[i]| == CARD_COLS
    ensures TotalCols(cs) == CARD_COLS * |cs|
  {
    if cs != [] {
      UniformTotal(cs[..|cs| - 1]);
    }
  }

  lemma UniformFits(cs: seq<Card>)
    requires forall i :: 0 <= i < |cs| ==> |cs[i]| == CARD_COLS
    ensures Fits(cs, CARD_COLS) <==> |cs| < DECK_MAX_CARDS
  {
    UniformTotal(cs);
  }

  lemma FeedByte(e: Enc, x: Byte)
    requires |e.buf| < CHUNK
    ensures Feed(e, [x]) == if |e.buf| + 1 == CHUNK then Flush(e.(buf := e.buf + [x])) else Some(e.(buf := e.buf + [x]))
  {
    hide Flush;
    assert [x][..1] == [x] && [x][1..] == [];
    FlushEmpties(e.(buf := e.buf + [x]));
  }

  lemma ChunkCardsNext(base: Word16, data: seq<Byte>, more: seq<Byte>, k: nat)
    requires |data| == CHUNK * k && |more| == CHUNK && base + |data| + CHUNK <= TWO16
    ensures ChunkCards(base, data + more, k + 1) == ChunkCards(base, data, k) + [ScatterCard(base + CHUNK * k, more)]
  {
    hide ScatterCard;
    var all := data + more;
    forall i | 0 <= i < k ensures Chunk(all, i) == Chunk(data, i) {
    }
    assert Chunk(all, k) == more;
  }

  lemma StateUniform(base: Word16, data: seq<Byte>)
    requires base + CHUNK * (|data| / CHUNK) <= TWO16
    ensures Fits(StateOf(base, data).cards, CARD_COLS) <==> |data| / CHUNK < 511
  {
    hide ScatterCard;
    UniformFits(StateOf(base, data).cards);
  }

  /** One more byte: either it is buffered, or it completes a card. */
  lemma StateNext(base: Word16, data: seq<Byte>, x: Byte)
    requires AcceptsFull(base, |data|)
    ensures Feed(StateOf(base, data), [x])
         == if AcceptsFull(base, |data| + 1) then Some(StateOf(base, data + [x])) else None
  {
    hide ScatterCard, Fits, ChunkCards;
    var k, e, all := |data| / CHUNK, StateOf(base, data), data + [x];
    FeedByte(e, x);
    if |e.buf| + 1 == CHUNK {
      assert |all| == CHUNK * (k + 1) && |all| / CHUNK == k + 1;
      StateUniform(base, data);
      if base + |all| <= TWO16 {
        ChunkCardsNext(base, data[..CHUNK * k], e.buf + [x], k);
        assert all[..|all|] == all == data[..CHUNK * k] + (e.buf + [x]);
        var prefix := ChunkCards(base, data[..CHUNK * k], k);
        assert [LOADER_COLS] + (prefix + [ScatterCard(e.addr, e.buf + [x])])
            == ([LOADER_COLS] + prefix) + [ScatterCard(e.addr, e.buf + [x])];
        assert all[|all|..] == [];
      }
    } else {
      assert |all| / CHUNK == k;
      assert all[CHUNK * k..] == e.buf + [x] && all[..CHUNK * k] == data[..CHUNK * k];
    }
  }

  /** The encoder, fed any data from the start: exactly when it accepts, and its exact state. */
  lemma {:induction false} FeedClosedForm(base: Word16, data: seq<Byte>)
    ensures Feed(Begin(base), data) == if AcceptsFull(base, |data|) then Some(StateOf(base, data)) else None
  {
    hide Feed, ChunkCards;
    if data == [] {
      NothingFed(base);
    } else {
      var n := |data| - 1;
      FeedClosedForm(base, data[..n]);
      FeedConcat(Begin(base), data[..n], [data[n]]);
      assert data == data[..n] + [data[n]];
      if AcceptsFull(base, n) {
        StateNext(base, data[..n], data[n]);
      }
    }
  }

  lemma NothingFed(base: Word16)
    ensures AcceptsFull(base, 0) && Feed(Begin(base), []) == Some(StateOf(base, []))
  {
    assert StateOf(base, []) == Begin(base);
  }

  function Build(base: Word16, data: seq<Byte>, entry: Word16): Option<seq<Card>> {
    match Feed(Begin(base), data)
    case None => None
    case Some(e) => End(e, entry)
  }

  /** Exact capacity: the build succeeds if and only if the binary fits the 16-bit address space and 510 payload
      cards, and then yields exactly the specified deck. */
  lemma BuildIff(base: Word16, data: seq<Byte>, entry: Word16)
    ensures Build(base, data, entry) == if Accepts(base, |data|) then Some(BinDeck(base, data, entry)) else None
  {
    hide Feed, ScatterCard, Fits, StateOf;
    FeedClosedForm(base, data);
    var n := |data|;
    if AcceptsFull(base, n) {
      EndClosedForm(base, data, entry);
    } else {
      assert !Accepts(base, n);
    }
  }

  lemma EndClosedForm(base: Word16, data: seq<Byte>, entry: Word16)
    requires AcceptsFull(base, |data|)
    ensures End(StateOf(base, data), entry)
         == if Accepts(base, |data|) then Some(BinDeck(base, data, entry)) else None
  {
    hide ScatterCard, Fits;
    var n, k, e := |data|, |data| / CHUNK, StateOf(base, data);
    StateUniform(base, data);
    if e.buf == [] {
      assert CardCount(n) == k && data[..CHUNK * k] == data;
    } else {
      assert CardCount(n) == k + 1;
      if base + n <= TWO16 {
        LastChunk(base, data);
        var cards := e.cards + [ScatterCard(e.addr, e.buf)];
        UniformFits(cards);
        var prefix := ChunkCards(base, data[..CHUNK * k], k);
        assert [LOADER_COLS] + (prefix + [ScatterCard(e.addr, e.buf)])
            == ([LOADER_COLS] + prefix) + [ScatterCard(e.addr, e.buf)];
      }
    }
  }

  lemma LastChunk(base: Word16, data: seq<Byte>)
    requires |data| % CHUNK != 0 && base + |data| <= TWO16
    ensures var k := |data| / CHUNK;
            ChunkCards(base, data, k + 1) ==
            ChunkCards(base, data[..CHUNK * k], k) + [ScatterCard(base + CHUNK * k, data[CHUNK * k..])]
  {
    hide ScatterCard;
    var k := |data| / CHUNK;
    forall i | 0 <= i < k ensures Chunk(data, i) == Chunk(data[..CHUNK * k], i) {
    }
    assert Chunk(data, k) == data[CHUNK * k..];
  }
}
