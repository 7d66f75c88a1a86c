/** The streaming .cap parser: one line buffer, and a deck image that grows column by column. */
module CapParser {
  import opened Bits
  import opened DeckImages
  import opened CapText

  // ---- Growing and compacting the image -----------------------------------------------------------------------

  lemma DeckInit(d: DeckImage)
    requires WellFormed(d) && d.idx != []
    ensures var e := d.(idx := d.idx[..|d.idx| - 1]);
            WellFormed(e) && Deck(e) == Deck(d)[..|d.idx| - 1] && EndOf(e.idx) == d.idx[|d.idx| - 1].off
  {
    var e := d.(idx := d.idx[..|d.idx| - 1]);
    OffsetsGrow(d.idx, |d.idx| - 1);
    WellFormedIndexed(d);
    WellFormedIndexed(e);
    assert forall i :: 0 <= i < |e.idx| ==> CardOf(e, i) == CardOf(d, i);
    var l, r := Deck(e), Deck(d)[..|d.idx| - 1];
    assert forall i :: 0 <= i < |l| ==> l[i] == r[i];
  }

  lemma DeckGrow(d: DeckImage, v: Word16)
    requires WellFormed(d) && d.idx != [] && EndOf(d.idx) < DECK_MAX_COLS
    ensures var last := d.idx[|d.idx| - 1];
            var e := d.(idx := d.idx[|d.idx| - 1 := last.(ncols := last.ncols + 1)], cols := d.cols[EndOf(d.idx) := v]);
            WellFormed(e) && Deck(e) == AddToLast(Deck(d), v)
  {
    hide Contiguous, Deck, EndOf;
    DeckInit(d);
    LastCard(d);
    var n := |d.idx| - 1;
    var last, init := d.idx[n], d.(idx := d.idx[..n]);
    var e := d.(idx := d.idx[n := last.(ncols := last.ncols + 1)], cols := d.cols[EndOf(d.idx) := v]);
    assert e.idx == init.idx + [DeckCard(EndOf(init.idx), last.ncols + 1)];
    assert e.cols[last.off..last.off + last.ncols + 1] == Deck(d)[n] + [v];
    DeckAppend(init, e, Deck(d)[n] + [v]);
  }

  method OpenCardInPlace(img: DeckBuffer) returns (ok: bool)
    requires img.Valid()
    modifies img`nCards, img.idx
    ensures img.Valid() && ok == (|old(img.Cards())| < DECK_MAX_CARDS)
    ensures img.Cards() == old(img.Cards()) + if ok then [[]] else []
    ensures ok ==> img.nCards > 0
  {
    hide Contiguous, Deck;
    ghost var d := img.Image();
    if img.nCards >= DECK_MAX_CARDS {
      return false;
    }
    var off := if img.nCards > 0 then img.idx[img.nCards - 1].off + img.idx[img.nCards - 1].ncols else 0;
    img.idx[img.nCards] := DeckCard(off, 0);
    img.nCards := img.nCards + 1;
    assert img.idx[..img.nCards] == d.idx + [DeckCard(off, 0)];
    DeckAppend(d, img.Image(), []);
    return true;
  }

  method AddColumnInPlace(img: DeckBuffer, v: Word16) returns (ok: bool)
    requires img.Valid() && img.nCards > 0
    modifies img.idx, img.cols
    ensures img.Valid() && ok == (TotalCols(old(img.Cards())) < DECK_MAX_COLS)
    ensures img.Cards() == if ok then AddToLast(old(img.Cards()), v) else old(img.Cards())
  {
    hide Contiguous, Deck, TotalCols, AddToLast;
    ghost var d := img.Image();
    DeckTotal(d);
    var n := img.nCards - 1;
    var card := img.idx[n];
    if card.off + card.ncols >= DECK_MAX_COLS {
      return false;
    }
    DeckGrow(d, v);
    img.cols[card.off + card.ncols] := v;
    img.idx[n] := card.(ncols := card.ncols + 1);
    assert img.Image() == d.(idx := d.idx[n := card.(ncols := card.ncols + 1)], cols := d.cols[EndOf(d.idx) := v]);
    return true;
  }

  function Compacted(idx: seq<DeckCard>): (k: seq<DeckCard>)
    ensures |k| <= |idx|
  {
    if idx == [] then []
    else Compacted(idx[..|idx| - 1]) + if idx[|idx| - 1].ncols == 0 then [] else [idx[|idx| - 1]]
  }

  lemma CompactedSnoc(idx: seq<DeckCard>, c: DeckCard)
    ensures Compacted(idx + [c]) == Compacted(idx) + if c.ncols == 0 then [] else [c]
  {
    assert (idx + [c])[..|idx|] == idx;
  }

  /** Dropping empty cards keeps the index a gapless partition of the same columns, and every other card. */
  lemma {:induction false} DeckKept(d: DeckImage)
    requires WellFormed(d)
    ensures var e := d.(idx := Compacted(d.idx));
            WellFormed(e) && EndOf(e.idx) == EndOf(d.idx) && Deck(e) == NonEmpty(Deck(d))
    decreases |d.idx|
  {
    hide Contiguous, Deck, EndOf, Compacted, NonEmpty;
    if d.idx == [] {
      KeepEmpty(d);
    } else {
      var n := |d.idx| - 1;
      DeckInit(d);
      LastCard(d);
      DeckKept(d.(idx := d.idx[..n]));
      if d.idx[n].ncols == 0 {
        KeepNone(d.idx, Deck(d));
      } else {
        KeepOne(d.idx, Deck(d));
        AppendInPlace(d.(idx := Compacted(d.idx[..n])), Deck(d)[n]);
      }
    }
  }

  lemma KeepEmpty(d: DeckImage)
    requires WellFormed(d) && d.idx == []
    ensures d.(idx := Compacted(d.idx)) == d && Deck(d) == NonEmpty(Deck(d))
  {
  }

  lemma KeepNone(idx: seq<DeckCard>, cards: seq<Card>)
    requires 0 < |idx| == |cards| && idx[|idx| - 1].ncols == 0 && cards[|idx| - 1] == []
    ensures Compacted(idx) == Compacted(idx[..|idx| - 1]) && NonEmpty(cards) == NonEmpty(cards[..|idx| - 1])
  {
  }

  lemma KeepOne(idx: seq<DeckCard>, cards: seq<Card>)
    requires 0 < |idx| == |cards| && idx[|idx| - 1].ncols > 0 && cards[|idx| - 1] != []
    ensures Compacted(idx) == Compacted(idx[..|idx| - 1]) + [idx[|idx| - 1]]
    ensures NonEmpty(cards) == NonEmpty(cards[..|idx| - 1]) + [cards[|idx| - 1]]
  {
  }

  /** A card whose columns already stand after the last one. */
  lemma AppendInPlace(d: DeckImage, card: Card)
    requires WellFormed(d) && |d.idx| < DECK_MAX_CARDS && EndOf(d.idx) + |card| <= DECK_MAX_COLS
    requires d.cols[EndOf(d.idx)..EndOf(d.idx) + |card|] == card
    ensures var e := d.(idx := d.idx + [DeckCard(EndOf(d.idx), |card|)]);
            WellFormed(e) && Deck(e) == Deck(d) + [card] && EndOf(e.idx) == EndOf(d.idx) + |card|
  {
    hide Contiguous, Deck;
    DeckAppend(d, d.(idx := d.idx + [DeckCard(EndOf(d.idx), |card|)]), card);
  }

  lemma LastCard(d: DeckImage)
    requires WellFormed(d) && d.idx != []
    ensures var n := |d.idx| - 1;
            var c := d.idx[n];
            && c == DeckCard(EndOf(d.idx[..n]), |Deck(d)[n]|) && EndOf(d.idx) == c.off + c.ncols <= DECK_MAX_COLS
            && Deck(d)[n] == d.cols[c.off..c.off + c.ncols]
  {
    var n := |d.idx| - 1;
    WellFormedIndexed(d);
    OffsetsGrow(d.idx, n);
    assert Deck(d)[n] == CardOf(d, n);
  }

  method DropEmpty(img: DeckBuffer)
    requires img.Valid()
    modifies img`nCards, img.idx
    ensures img.Valid() && img.Cards() == NonEmpty(old(img.Cards()))
  {
    hide Contiguous, Deck, NonEmpty, Compacted;
    ghost var d := img.Image();
    DeckKept(d);
    var w := Compact(img.idx, img.nCards);
    img.nCards := w;
    assert img.Image() == d.(idx := Compacted(d.idx));
  }

  method Compact(idx: array<DeckCard>, n: nat) returns (w: nat)
    requires n <= idx.Length
    modifies idx
    ensures w <= n && idx[..w] == Compacted(old(idx[..n]))
  {
    ghost var was := idx[..n];
    w := 0;
    for r := 0 to n
      invariant w <= r && idx[..w] == Compacted(was[..r])
      invariant forall k :: r <= k < n ==> idx[k] == was[k]
    {
      CompactedSnoc(was[..r], was[r]);
      assert was[..r + 1] == was[..r] + [was[r]];
      ghost var kept := idx[..w];
      if idx[r].ncols > 0 {
        idx[w] := idx[r];
        w := w + 1;
        assert idx[..w] == kept + [was[r]];
      }
    }
    assert was[..n] == was;
  }

  // ---- Scanning a line in the buffer --------------------------------------------------------------------------

  /** The digits after the prefix, then only blanks. */
  method ParseCardHeader(line: string) returns (hit: bool)
    ensures hit == IsHeader(line)
  {
    if |line| < 9 || line[..8] != PREFIX {
      return false;
    }
    var i := 8;
    while i < |line| && Digit(line[i])
      invariant 8 <= i <= |line|
      invariant DigitRun(line[8..]) == i - 8 + DigitRun(line[i..])
    {
      assert line[i..][1..] == line[i + 1..];
      i := i + 1;
    }
    assert DigitRun(line[i..]) == 0;
    if i == 8 {
      return false;
    }
    ghost var tail := line[i..];
    ghost var n := i;
    while i < |line|
      invariant n <= i <= |line|
      invariant forall k :: 0 <= k < i - n ==> Blank(tail[k])
    {
      if !Blank(line[i]) {
        assert tail[i - n] == line[i];
        return false;
      }
      i := i + 1;
    }
    return true;
  }

  /** A token of exactly four hex digits. */
  method ScanHex4(w: string) returns (hit: bool, v: Word16)
    ensures hit == IsHex4(w) && (hit ==> v == Hex4(w))
  {
    if |w| != 4 {
      return false, 0;
    }
    var acc: nat := 0;
    for i := 0 to 4
      invariant forall k :: 0 <= k < i ==> HexValue(w[k]) < 16
      invariant i == 0 ==> acc == 0
      invariant i == 1 ==> acc == HexValue(w[0])
      invariant i == 2 ==> acc == HexValue(w[0]) * 0x10 + HexValue(w[1])
      invariant i == 3 ==> acc == HexValue(w[0]) * 0x100 + HexValue(w[1]) * 0x10 + HexValue(w[2])
      invariant i == 4 ==>
          acc == HexValue(w[0]) * 0x1000 + HexValue(w[1]) * 0x100 + HexValue(w[2]) * 0x10 + HexValue(w[3])
    {
      var d := HexValue(w[i]);
      if d == 16 {
        return false, 0;
      }
      acc := acc * 0x10 + d;
    }
    return true, acc % 0x2000;
  }

  lemma WordLengthIs(s: string, n: nat)
    requires n <= |s| && (forall i :: 0 <= i < n ==> !Blank(s[i])) && (n < |s| ==> Blank(s[n]))
    ensures WordLength(s) == n
  {
    if n > 0 { WordLengthIs(s[1..], n - 1); }
  }

  function AddWord(p: Parse, w: string): (q: Parse)
    requires Sound(p) && p.cards != []
    ensures Sound(q) && |q.cards| == |p.cards|
  {
    if IsHex4(w) then AddColumn(p, Hex4(w)) else p
  }

  // ---- The parser ---------------------------------------------------------------------------------------------

  class Parser {
    const img: DeckBuffer
    const linebuf: array<char>
    var linelen: nat
    var inCard: bool
    var error: int

    ghost predicate Valid()
      reads this, img, img.idx, img.cols
    {
      Ready() && (error != 0 ==> linelen == 0)
    }

    ghost predicate Ready()
      reads this, img, img.idx, img.cols
    {
      img.Valid() && linebuf.Length == LINE_MAX && linelen <= LINE_MAX && Sound(Parsing())
    }

    /** The deck so far. */
    ghost function Parsing(): Parse
      reads this, img, img.idx, img.cols
      requires img.Valid()
    {
      Parse(img.Cards(), inCard, error)
    }

    ghost function Snap(): Stream
      reads this, img, img.idx, img.cols, linebuf
      requires Ready()
    {
      Stream(Parsing(), linebuf[..linelen])
    }

    constructor (image: DeckBuffer)
      requires image.Valid() && image.nCards == 0
      ensures Valid() && img == image && fresh(linebuf) && Snap() == Fresh
    {
      img := image;
      linebuf := new char[LINE_MAX];
      linelen := 0;
      inCard := false;
      error := 0;
      new;
      assert image.Cards() == [];
      assert TotalCols([]) == 0;
    }

    method Header()
      requires Ready()
      modifies this`inCard, this`error, img`nCards, img.idx
      ensures Ready() && Parsing() == OpenCard(old(Parsing()))
    {
      hide Deck, TotalCols;
      var ok := OpenCardInPlace(img);
      if ok {
        inCard := true;
      } else {
        error := -1;
      }
      assert Parsing() == OpenCard(old(Parsing()));
    }

    method Column(v: Word16)
      requires Ready() && img.nCards > 0
      modifies this`error, img.idx, img.cols
      ensures Ready() && img.nCards > 0 && Parsing() == AddColumn(old(Parsing()), v)
    {
      hide Deck, TotalCols;
      var ok := AddColumnInPlace(img, v);
      if !ok {
        error := -2;
      }
      assert Parsing() == AddColumn(old(Parsing()), v);
    }

    method ProcessLine(line: string)
      requires Ready() && error == 0
      modifies this`inCard, this`error, img`nCards, img.idx, img.cols
      ensures Ready() && Parsing() == CapText.ProcessLine(old(Parsing()), line)
    {
      hide Deck, TotalCols, IsHeader, Columns, AddColumns, OpenCard;
      var header := ParseCardHeader(line);
      if header {
        Header();
      } else if inCard {
        Tokens(line);
      }
    }

    method Tokens(line: string)
      requires Ready() && img.nCards > 0 && error == 0
      modifies this`error, img.idx, img.cols
      ensures Ready() && Parsing() == AddColumns(old(Parsing()), Columns(line))
    {
      hide Deck, TotalCols, AddColumns, Columns, WordLength, Remaining, Blank, WellFormed;
      ghost var goal := Remaining(Parsing(), line, 0);
      var tok := 0;
      for i := 0 to |line| + 1
        invariant tok <= i && Ready() && img.nCards > 0 && error == 0
        invariant tok > |line| <==> i > |line|
        invariant forall k :: tok <= k < i && k < |line| ==> !Blank(line[k])
        invariant goal == Remaining(Parsing(), line, tok)
      {
        if i == |line| || Blank(line[i]) {
          Token(line, tok, i);
          if error != 0 {
            RemainingStop(Parsing(), line, i + 1);
            return;
          }
          tok := i + 1;
        }
      }
      RemainingStop(Parsing(), line, tok);
    }

    /** The word between two delimiters. */
    method Token(line: string, tok: nat, i: nat)
      requires Ready() && img.nCards > 0 && error == 0 && tok <= i <= |line|
      requires (forall k :: tok <= k < i ==> !Blank(line[k])) && (i < |line| ==> Blank(line[i]))
      modifies this`error, img.idx, img.cols
      ensures Ready() && img.nCards > 0
      ensures Remaining(old(Parsing()), line, tok) == Remaining(Parsing(), line, i + 1)
    {
      hide Deck, TotalCols, AddColumn, Remaining;
      RemainingStep(Parsing(), line, tok, i);
      var hit, v := ScanHex4(line[tok..i]);
      if hit {
        Column(v);
      }
    }

    method PutChar(c: char)
      requires Valid() && error == 0
      modifies this`inCard, this`error, this`linelen, linebuf, img`nCards, img.idx, img.cols
      ensures Valid() && Snap() == Char(old(Snap()), c)
    {
      hide Deck, TotalCols, WellFormed, CapText.ProcessLine, Sound;
      ghost var line := linebuf[..linelen];
      if c == '\n' {
        ProcessLine(linebuf[..linelen]);
        linelen := 0;
      } else if linelen < LINE_MAX {
        linebuf[linelen] := c;
        linelen := linelen + 1;
        assert linebuf[..linelen] == line + [c];
      }
    }

    method ParseChunk(text: string) returns (code: int)
      requires Valid()
      modifies this`inCard, this`error, this`linelen, linebuf, img`nCards, img.idx, img.cols
      ensures Valid() && Snap() == Chunk(old(Snap()), text) && code == error
    {
      hide Deck, TotalCols, WellFormed, Sound, Char;
      ghost var goal := Chunk(Snap(), text);
      assert text[0..] == text;
      var i := 0;
      while i < |text| && error == 0
        invariant i <= |text| && Valid() && goal == Chunk(Snap(), text[i..])
      {
        assert text[i..][1..] == text[i + 1..];
        PutChar(text[i]);
        i := i + 1;
      }
      if error != 0 {
        ErrorSticks(Snap(), text[i..]);
      }
      return error;
    }

    /** Process a last line without its newline, then drop the cards that own no columns. */
    method ParseFinish() returns (code: int)
      requires Valid()
      modifies this`inCard, this`error, img`nCards, img.idx, img.cols
      ensures img.Valid()
      ensures code == match Finish(old(Snap())) case Failed(c) => c case Parsed(_) => 0
      ensures match Finish(old(Snap())) case Failed(_) => true case Parsed(cards) => img.Cards() == cards
    {
      hide Deck, TotalCols, WellFormed, Sound, CapText.ProcessLine, NonEmpty;
      if linelen > 0 {
        ProcessLine(linebuf[..linelen]);
      }
      assert Parsing() == LastLine(old(Snap()));
      if error != 0 {
        return error;
      }
      DropEmpty(img);
      return if img.nCards > 0 then 0 else -3;
    }
  }

  /** What the columns from `tok` on will make of `p`. */
  ghost function Remaining(p: Parse, line: string, tok: nat): (q: Parse)
    ensures tok == 0 && Sound(p) && p.cards != [] ==> q == AddColumns(p, Columns(line))
  {
    assert line[0..] == line;
    if Sound(p) && p.cards != [] && tok <= |line| then AddColumns(p, Columns(line[tok..])) else p
  }

  lemma RemainingStop(p: Parse, line: string, tok: nat)
    requires p.error != 0 || tok > |line|
    ensures Remaining(p, line, tok) == p
  {
  }

  /** The word at `tok` is used up, and the rest of the line follows. */
  lemma RemainingStep(p: Parse, line: string, tok: nat, i: nat)
    requires Sound(p) && p.cards != [] && p.error == 0 && tok <= i <= |line|
    requires (forall k :: tok <= k < i ==> !Blank(line[k])) && (i < |line| ==> Blank(line[i]))
    ensures Remaining(p, line, tok) == Remaining(AddWord(p, line[tok..i]), line, i + 1)
  {
    hide AddColumns, AddWord, Columns;
    var rest := if i == |line| then [] else Columns(line[i + 1..]);
    WordFirst(line, tok, i);
    AddWordFirst(p, line[tok..i], rest);
    if i == |line| {
      AddNone(AddWord(p, line[tok..i]));
    }
  }

  lemma AddNone(p: Parse)
    requires Sound(p) && p.cards != []
    ensures AddColumns(p, []) == p
  {
  }

  lemma AddWordFirst(p: Parse, w: string, rest: seq<Word16>)
    requires Sound(p) && p.cards != [] && p.error == 0
    ensures AddColumns(p, CapText.Column(w) + rest) == AddColumns(AddWord(p, w), rest)
  {
    hide AddColumn, Hex4, IsHex4;
    if IsHex4(w) {
      assert ([Hex4(w)] + rest)[1..] == rest;
    } else {
      assert [] + rest == rest;
    }
  }

  lemma WordFirst(line: string, tok: nat, i: nat)
    requires tok <= i <= |line|
    requires (forall k :: tok <= k < i ==> !Blank(line[k])) && (i < |line| ==> Blank(line[i]))
    ensures Columns(line[tok..])
         == CapText.Column(line[tok..i]) + if i == |line| then [] else Columns(line[i + 1..])
  {
    var s := line[tok..];
    WordLengthIs(s, i - tok);
    assert s[..i - tok] == line[tok..i];
    if i < |line| { assert s[i - tok + 1..] == line[i + 1..]; }
  }
}
