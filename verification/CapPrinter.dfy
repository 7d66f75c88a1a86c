/** The printer of reduced .cap files, and what the firmware's parser reads back from its output. */
module CapPrinter {
  import opened Bits
  import opened DeckImages
  import opened CapText

  datatype Numbered = Numbered(num: nat, cols: Card)

  // ---- Printing -----------------------------------------------------------------------------------------------

  function Dec(n: nat): (s: string)
    ensures |s| > 0 && forall i :: 0 <= i < |s| ==> Digit(s[i])
  {
    if n < 10 then [('0' as int + n) as char] else Dec(n / 10) + [('0' as int + n % 10) as char]
  }

  function HexDigit(d: nat): (c: char)
    requires d < 16
    ensures HexValue(c) == d && (Digit(c) || 'A' <= c <= 'F')
  {
    if d < 10 then ('0' as int + d) as char else ('A' as int + (d - 10)) as char
  }

  /** `%04X`. */
  function HexWord(v: Word16): (s: string)
    ensures |s| == 4 && forall i :: 0 <= i < 4 ==> Digit(s[i]) || 'A' <= s[i] <= 'F'
  {
    [HexDigit(v / 0x1000), HexDigit(v / 0x100 % 16), HexDigit(v / 0x10 % 16), HexDigit(v % 16)]
  }

  function HexLine(cols: Card): (s: string)
    ensures |s| == 5 * |cols|
  {
    if cols == [] then "" else HexWord(cols[0]) + " " + HexLine(cols[1..])
  }

  function HeaderLine(num: nat): string { "Card n. " + Dec(num) }
  function TotalLine(n: nat): string { "Total cards: " + Dec(n) }

  function CardLines(cards: seq<Numbered>): (ls: seq<string>)
    ensures |ls| == 2 * |cards|
  {
    if cards == [] then [] else [HeaderLine(cards[0].num), HexLine(cards[0].cols)] + CardLines(cards[1..])
  }

  function EmittedLines(cards: seq<Numbered>): seq<string> { CardLines(cards) + [TotalLine(|cards|)] }

  /** Lines joined by newlines, and a last newline. */
  function JoinLines(lines: seq<string>): string {
    if lines == [] then "" else lines[0] + "\n" + JoinLines(lines[1..])
  }

  function Emit(cards: seq<Numbered>): string { JoinLines(EmittedLines(cards)) }

  method EmitCards(cards: seq<Numbered>) returns (text: string)
    ensures text == Emit(cards)
  {
    hide HeaderLine, HexLine, TotalLine, JoinLines;
    var lines: seq<string> := [];
    assert cards[0..] == cards;
    for i := 0 to |cards|
      invariant lines + CardLines(cards[i..]) == CardLines(cards)
    {
      assert cards[i..][1..] == cards[i + 1..];
      lines := lines + [HeaderLine(cards[i].num), HexLine(cards[i].cols)];
    }
    assert cards[|cards|..] == [] && lines == CardLines(cards);
    text := Join(lines + [TotalLine(|cards|)]);
  }

  method Join(lines: seq<string>) returns (text: string)
    ensures text == JoinLines(lines)
  {
    text := "";
    assert lines[0..] == lines;
    for i := 0 to |lines|
      invariant text + JoinLines(lines[i..]) == JoinLines(lines)
    {
      assert lines[i..][1..] == lines[i + 1..];
      text := text + (lines[i] + "\n");
    }
  }

  // ---- Reading one printed line -------------------------------------------------------------------------------

  lemma HexWordReads(v: Word16)
    ensures IsHex4(HexWord(v)) && Hex4(HexWord(v)) == v % 0x2000
  {
    hide HexDigit, HexValue;
    Nibbles(v);
  }

  lemma Nibbles(v: Word16)
    ensures v / 0x1000 * 0x1000 + v / 0x100 % 16 * 0x100 + v / 0x10 % 16 * 0x10 + v % 16 == v
    ensures v / 0x1000 < 16
  {
    var p, q, r := v / 0x10, v / 0x100, v / 0x1000;
    assert p / 16 == q && q / 16 == r;
  }

  /** The 13-bit columns of a card, as the parser masks them. */
  function Masked(cols: Card): (r: Card)
    ensures |r| == |cols|
  {
    seq(|cols|, i requires 0 <= i < |cols| => cols[i] % 0x2000)
  }

  lemma {:induction false} WordLengthOf(w: string, rest: string)
    requires (forall i :: 0 <= i < |w| ==> !Blank(w[i])) && (rest == "" || Blank(rest[0]))
    ensures WordLength(w + rest) == |w|
  {
    if w == "" {
      assert w + rest == rest;
    } else {
      assert (w + rest)[1..] == w[1..] + rest;
      WordLengthOf(w[1..], rest);
    }
  }

  lemma ColumnsOfWord(w: string, rest: string)
    requires forall i :: 0 <= i < |w| ==> !Blank(w[i])
    ensures Columns(w + " " + rest) == Column(w) + Columns(rest)
  {
    var s := w + " " + rest;
    assert s == w + (" " + rest);
    WordLengthOf(w, " " + rest);
    assert s[..|w|] == w && s[|w| + 1..] == rest;
  }

  lemma {:induction false} HexLineReads(cols: Card)
    ensures Columns(HexLine(cols)) == Masked(cols)
  {
    hide HexWord, Columns, IsHex4, Hex4, HexLine;
    if cols == [] {
      EmptyLine();
    } else {
      var v := cols[0];
      HexLineReads(cols[1..]);
      HexWordReads(v);
      ColumnsOfWord(HexWord(v), HexLine(cols[1..]));
      HexLineStarts(cols);
      assert Masked(cols) == [v % 0x2000] + Masked(cols[1..]);
    }
  }

  lemma EmptyLine()
    ensures HexLine([]) == "" && Columns("") == []
  {
    assert WordLength("") == 0;
  }

  lemma HexLineStarts(cols: Card)
    requires cols != []
    ensures HexLine(cols) == HexWord(cols[0]) + " " + HexLine(cols[1..])
  {
  }

  /** At most 120 columns of a card survive the 600-character line buffer. */
  const MAX_READ: nat := 120

  function Readable(cols: Card): Card { if |cols| > MAX_READ then cols[..MAX_READ] else cols }

  lemma {:induction false} HexLineCut(cols: Card, k: nat)
    requires k <= |cols|
    ensures HexLine(cols)[..5 * k] == HexLine(cols[..k])
  {
    hide HexWord;
    if k > 0 {
      HexLineCut(cols[1..], k - 1);
      assert cols[..k][1..] == cols[1..][..k - 1];
      var l := HexWord(cols[0]) + " ";
      assert HexLine(cols)[..5 * k] == l + HexLine(cols[1..])[..5 * (k - 1)];
    }
  }

  lemma CutHexLineReads(cols: Card)
    ensures Columns(Cut(HexLine(cols))) == Masked(Readable(cols))
  {
    HexLineReads(Readable(cols));
    if |cols| > MAX_READ { HexLineCut(cols, MAX_READ); }
  }

  lemma HexLineIsNoHeader(cols: Card)
    ensures !IsHeader(Cut(HexLine(cols)))
  {
    if cols != [] {
      var s := HexLine(cols);
      assert s[1] == HexWord(cols[0])[1];
      assert PREFIX[1] == 'a';
      assert |s| > 600 ==> s[..600][1] == s[1];
      if |Cut(s)| >= 9 { assert Cut(s)[..8][1] == s[1]; }
    }
  }

  lemma {:induction false} DigitRunOf(s: string)
    requires forall i :: 0 <= i < |s| ==> Digit(s[i])
    ensures DigitRun(s) == |s|
  {
    if s != "" { DigitRunOf(s[1..]); }
  }

  /** A header stays a header even when its number is longer than the line buffer. */
  lemma HeaderLineIsHeader(num: nat)
    ensures IsHeader(Cut(HeaderLine(num)))
  {
    var s := Cut(HeaderLine(num));
    assert s[..8] == PREFIX;
    DigitRunOf(s[8..]);
    assert s[8 + |s[8..]|..] == [];
  }

  lemma DecLength(n: nat)
    ensures |Dec(n)| == 4 <==> 1000 <= n < 10000
  {
    hide Dec;
    DecStep(n);
    DecStep(n / 10);
    DecStep(n / 10 / 10);
    DecStep(n / 10 / 10 / 10);
  }

  lemma DecStep(n: nat)
    ensures |Dec(n)| == if n < 10 then 1 else 1 + |Dec(n / 10)|
  {
  }

  lemma DecIsHex(n: nat)
    ensures Column(Dec(n)) == [] <==> !(1000 <= n < 10000)
  {
    hide Dec;
    DecLength(n);
  }

  /** The trailer is no header, and it is read as a column exactly when the count has four digits. */
  lemma TotalLineReads(n: nat)
    ensures !IsHeader(Cut(TotalLine(n)))
    ensures Columns(TotalLine(n)) == Column(Dec(n))
    ensures |Columns(TotalLine(n))| == if 1000 <= n < 10000 then 1 else 0
  {
    hide Columns, Column, Dec, WordLength, IsHeader;
    TotalLineWords(n);
    DecIsHex(n);
    NoCard(Cut(TotalLine(n)));
  }

  lemma NoCard(s: string)
    requires s != "" && s[0] != 'C'
    ensures !IsHeader(s)
  {
    if |s| >= 9 { assert s[..8][0] != PREFIX[0]; }
  }

  lemma TotalLineWords(n: nat)
    ensures Columns(TotalLine(n)) == Column(Dec(n))
  {
    hide Columns, Dec, WordLength;
    var d := Dec(n);
    assert TotalLine(n) == "Total" + " " + ("cards:" + " " + d);
    ColumnsOfWord("Total", "cards:" + " " + d);
    ColumnsOfWord("cards:", d);
    OneWord(d);
  }

  lemma OneWord(w: string)
    requires forall i :: 0 <= i < |w| ==> !Blank(w[i])
    ensures Columns(w) == Column(w)
  {
    assert w + "" == w && w[..|w|] == w;
    WordLengthOf(w, "");
  }

  // ---- The round trip -----------------------------------------------------------------------------------------

  predicate OneLine(s: string) { forall i :: 0 <= i < |s| ==> s[i] != '\n' }

  predicate AllOneLine(lines: seq<string>) { forall i :: 0 <= i < |lines| ==> OneLine(lines[i]) }

  lemma {:induction false} LineLengthOf(line: string, rest: string)
    requires OneLine(line)
    ensures LineLength(line + "\n" + rest) == |line|
  {
    var s := line + "\n" + rest;
    if line != "" {
      LineLengthOf(line[1..], rest);
      assert s[1..] == line[1..] + "\n" + rest;
    }
  }

  /** Splitting undoes joining. */
  lemma {:induction false} SplitUndoesJoin(lines: seq<string>)
    requires AllOneLine(lines)
    ensures Lines(JoinLines(lines)) == lines
  {
    hide LineLength;
    if lines != [] {
      var rest := JoinLines(lines[1..]);
      assert OneLine(lines[0]);
      SplitUndoesJoin(lines[1..]);
      LineLengthOf(lines[0], rest);
      assert JoinLines(lines)[..|lines[0]|] == lines[0];
      assert JoinLines(lines)[|lines[0]| + 1..] == rest;
    }
  }

  lemma {:induction false} HexLineIsOneLine(cols: Card)
    ensures OneLine(HexLine(cols))
  {
    if cols != [] { HexLineIsOneLine(cols[1..]); }
  }

  lemma {:induction false} EmittedAreOneLine(cards: seq<Numbered>)
    ensures AllOneLine(CardLines(cards)) && OneLine(TotalLine(|cards|))
  {
    hide HexLine, Dec;
    if cards != [] {
      EmittedAreOneLine(cards[1..]);
      HexLineIsOneLine(cards[0].cols);
    }
  }

  /** What the parser keeps of each printed card. */
  function ReadBack(cards: seq<Numbered>): (cs: seq<Card>)
    ensures |cs| == |cards|
  {
    if cards == [] then [] else [Masked(Readable(cards[0].cols))] + ReadBack(cards[1..])
  }

  /** Columns that fit are appended to the open card. */
  lemma {:induction false} AddedColumns(cs: seq<Card>, card: Card, vs: seq<Word16>)
    requires |cs| < DECK_MAX_CARDS && TotalCols(cs) + |card| + |vs| <= DECK_MAX_COLS
    ensures TotalCols(cs + [card]) == TotalCols(cs) + |card|
    ensures AddColumns(Parse(cs + [card], true, 0), vs) == Parse(cs + [card + vs], true, 0)
    decreases |vs|
  {
    hide TotalCols;
    TotalSnoc(cs, card);
    var p := Parse(cs + [card], true, 0);
    if vs == [] {
      assert card + vs == card;
    } else {
      assert AddColumn(p, vs[0]).cards == cs + [card + [vs[0]]];
      AddedColumns(cs, card + [vs[0]], vs[1..]);
      assert card + [vs[0]] + vs[1..] == card + vs;
    }
  }

  /** The two lines of a card give back the card. */
  lemma CardReads(p: Parse, card: Numbered)
    requires Sound(p) && p.error == 0 && |p.cards| < DECK_MAX_CARDS
    requires TotalCols(p.cards) + |Readable(card.cols)| <= DECK_MAX_COLS
    ensures var h := ProcessLine(p, Cut(HeaderLine(card.num)));
            && h.error == 0
            && ProcessLine(h, Cut(HexLine(card.cols))) == Parse(p.cards + [Masked(Readable(card.cols))], true, 0)
  {
    hide HeaderLine, HexLine, IsHeader, Columns, TotalCols, AddColumns;
    HeaderLineIsHeader(card.num);
    HexLineIsNoHeader(card.cols);
    CutHexLineReads(card.cols);
    var vs := Masked(Readable(card.cols));
    AddedColumns(p.cards, [], vs);
    assert [] + vs == vs;
  }

  lemma TwoLines(p: Parse, a: string, b: string, rest: seq<string>)
    requires Sound(p) && p.error == 0 && ProcessLine(p, Cut(a)).error == 0
    ensures ProcessLines(p, [a, b] + rest) == ProcessLines(ProcessLine(ProcessLine(p, Cut(a)), Cut(b)), rest)
  {
    hide ProcessLine, Cut;
    var ls := [a, b] + rest;
    assert ls[1..] == [b] + rest && ls[1..][1..] == rest;
  }

  lemma {:induction false} CardsRead(p: Parse, cards: seq<Numbered>, rest: seq<string>)
    requires Sound(p) && p.error == 0 && |p.cards| + |cards| <= DECK_MAX_CARDS
    requires TotalCols(p.cards) + TotalCols(ReadBack(cards)) <= DECK_MAX_COLS
    ensures TotalCols(p.cards + ReadBack(cards)) <= DECK_MAX_COLS
    ensures var q := Parse(p.cards + ReadBack(cards), p.inCard || cards != [], 0);
            Sound(q) && ProcessLines(p, CardLines(cards) + rest) == ProcessLines(q, rest)
    decreases |cards|
  {
    hide ProcessLine, ProcessLines, CardLines, ReadBack, Masked, Readable, TotalCols;
    TotalConcat(p.cards, ReadBack(cards));
    if cards == [] {
      NoCards(p.cards, rest);
    } else {
      FirstCardRead(p, cards, rest);
      CardsRead(Parse(p.cards + [Masked(Readable(cards[0].cols))], true, 0), cards[1..], rest);
    }
  }

  lemma NoCards(cs: seq<Card>, rest: seq<string>)
    ensures cs + ReadBack([]) == cs && CardLines([]) + rest == rest
  {
  }

  lemma FirstCardRead(p: Parse, cards: seq<Numbered>, rest: seq<string>)
    requires Sound(p) && p.error == 0 && |p.cards| + |cards| <= DECK_MAX_CARDS && cards != []
    requires TotalCols(p.cards) + TotalCols(ReadBack(cards)) <= DECK_MAX_COLS
    ensures var q := Parse(p.cards + [Masked(Readable(cards[0].cols))], true, 0);
            && Sound(q) && TotalCols(q.cards) + TotalCols(ReadBack(cards[1..])) <= DECK_MAX_COLS
            && ProcessLines(p, CardLines(cards) + rest) == ProcessLines(q, CardLines(cards[1..]) + rest)
            && q.cards + ReadBack(cards[1..]) == p.cards + ReadBack(cards)
  {
    hide ProcessLine, ProcessLines, HeaderLine, HexLine, Cut, Masked, Readable, TotalCols, ReadBack, CardLines;
    var c := cards[0];
    FirstCardTotals(p.cards, cards);
    CardReads(p, c);
    TwoLines(p, HeaderLine(c.num), HexLine(c.cols), CardLines(cards[1..]) + rest);
    FirstCardLines(cards, rest);
  }

  lemma FirstCardTotals(cs: seq<Card>, cards: seq<Numbered>)
    requires cards != []
    ensures var first := Masked(Readable(cards[0].cols));
            && TotalCols(cs + [first]) == TotalCols(cs) + |first|
            && TotalCols(ReadBack(cards)) == |first| + TotalCols(ReadBack(cards[1..]))
            && cs + [first] + ReadBack(cards[1..]) == cs + ReadBack(cards)
  {
    hide Masked, Readable, TotalCols;
    var first := Masked(Readable(cards[0].cols));
    TotalSnoc(cs, first);
    OneCard(first);
    TotalConcat([first], ReadBack(cards[1..]));
  }

  lemma FirstCardLines(cards: seq<Numbered>, rest: seq<string>)
    requires cards != []
    ensures CardLines(cards) + rest
         == [HeaderLine(cards[0].num), HexLine(cards[0].cols)] + (CardLines(cards[1..]) + rest)
  {
    hide HeaderLine, HexLine;
  }

  /** Whatever is printed, the parser reads back each card masked to 13 bits and cut to 120 columns, without empties. */
  lemma ReadsBack(cards: seq<Numbered>)
    requires |cards| <= DECK_MAX_CARDS && TotalCols(ReadBack(cards)) <= DECK_MAX_COLS
    ensures var cs := NonEmpty(ReadBack(cards));
            Batch(Emit(cards)) == if cs == [] then Failed(-3) else Parsed(cs)
  {
    hide CardLines, Emit, ProcessLines, TotalLine, Lines, ReadBack, NonEmpty;
    LinesOfEmit(cards);
    CardsRead(Start, cards, [TotalLine(|cards|)]);
    assert [] + ReadBack(cards) == ReadBack(cards);
    TrailerIgnored(Parse(ReadBack(cards), cards != [], 0), |cards|);
  }

  lemma LinesOfEmit(cards: seq<Numbered>)
    ensures Lines(Emit(cards)) == CardLines(cards) + [TotalLine(|cards|)]
  {
    hide CardLines, TotalLine, Lines, JoinLines;
    EmittedAreOneLine(cards);
    SplitUndoesJoin(CardLines(cards) + [TotalLine(|cards|)]);
  }

  lemma TrailerIgnored(p: Parse, n: nat)
    requires Sound(p) && p.error == 0 && n < 1000
    ensures ProcessLines(p, [TotalLine(n)]) == p
  {
    hide Columns, IsHeader;
    TotalLineReads(n);
    DecShort(n);
    assert Cut(TotalLine(n)) == TotalLine(n);
    var ls := [TotalLine(n)];
    assert ls[1..] == [];
    assert ProcessLine(p, TotalLine(n)) == p;
  }

  lemma DecShort(n: nat)
    requires n < 10000
    ensures |Dec(n)| <= 4
  {
    hide Dec;
    DecStep(n);
    DecStep(n / 10);
    DecStep(n / 10 / 10);
    DecStep(n / 10 / 10 / 10);
  }

  // ---- Exactly when the round trip holds ----------------------------------------------------------------------

  function Plain(cards: seq<Numbered>): (cs: seq<Card>)
    ensures |cs| == |cards|
  {
    if cards == [] then [] else [cards[0].cols] + Plain(cards[1..])
  }

  /** Cards a reader could have produced: at least one column each, 13 bits a column. */
  predicate Punched(cards: seq<Numbered>) {
    forall i :: 0 <= i < |cards| ==>
      cards[i].cols != [] && forall k :: 0 <= k < |cards[i].cols| ==> cards[i].cols[k] < 0x2000
  }

  predicate Narrow(cards: seq<Numbered>) { forall i :: 0 <= i < |cards| ==> |cards[i].cols| <= MAX_READ }

  lemma {:induction false} ReadBackIff(cards: seq<Numbered>)
    requires Punched(cards)
    ensures ReadBack(cards) == Plain(cards) <==> Narrow(cards)
    ensures NonEmpty(ReadBack(cards)) == ReadBack(cards)
  {
    hide Masked, Readable, NonEmpty;
    if cards == [] {
      NothingToDrop();
    } else {
      ReadBackIff(cards[1..]);
      var c := cards[0].cols;
      MaskedSame(c);
      ReadableIff(c);
      if !Narrow(cards[1..]) {
        assert ReadBack(cards)[1..] != Plain(cards)[1..];
      } else if |c| > MAX_READ {
        assert |ReadBack(cards)[0]| != |Plain(cards)[0]|;
      } else {
        assert forall i :: 0 < i < |cards| ==> cards[i] == cards[1..][i - 1];
      }
      NonEmptyFront(Masked(Readable(c)), ReadBack(cards[1..]));
    }
  }

  lemma NothingToDrop()
    ensures NonEmpty([]) == []
  {
  }

  lemma ReadableIff(c: Card)
    ensures Readable(c) == c <==> |c| <= MAX_READ
    ensures |c| > MAX_READ ==> |Readable(c)| == MAX_READ
  {
  }

  lemma MaskedSame(c: Card)
    requires c != [] && forall k :: 0 <= k < |c| ==> c[k] < 0x2000
    ensures Masked(Readable(c)) == Readable(c) && Readable(c) != []
  {
  }

  lemma {:induction false} NonEmptyFront(card: Card, rest: seq<Card>)
    requires card != []
    ensures NonEmpty([card] + rest) == [card] + NonEmpty(rest)
    decreases |rest|
  {
    var all := [card] + rest;
    if rest == [] {
      assert all[..0] == [] && all == [card];
    } else {
      NonEmptyFront(card, rest[..|rest| - 1]);
      assert all[..|all| - 1] == [card] + rest[..|rest| - 1];
    }
  }

  /** Printing a punched deck and parsing it, in any chunks, returns exactly its cards if and only if they number 1 to
      512, hold at most 40960 columns, and none is wider than 120. */
  lemma RoundTripIff(cards: seq<Numbered>, chunks: seq<string>)
    requires Punched(cards) && Joined(chunks) == Emit(cards)
    ensures Finish(Chunks(Fresh, chunks)) == Parsed(Plain(cards))
       <==> 1 <= |cards| <= DECK_MAX_CARDS && TotalCols(Plain(cards)) <= DECK_MAX_COLS && Narrow(cards)
  {
    hide Emit, Batch, Finish, Chunks, Joined, ReadBack, Plain, NonEmpty, TotalCols;
    StreamingIsBatch(chunks);
    ReadBackIff(cards);
    if Batch(Emit(cards)) == Parsed(Plain(cards)) {
      ParsedFits(Emit(cards), Plain(cards));
      CutFits(cards);
      ReadsBack(cards);
    } else if Narrow(cards) && 1 <= |cards| <= DECK_MAX_CARDS && TotalCols(Plain(cards)) <= DECK_MAX_COLS {
      ReadsBack(cards);
    }
  }

  lemma {:induction false} CutFits(cards: seq<Numbered>)
    ensures TotalCols(ReadBack(cards)) <= TotalCols(Plain(cards))
  {
    if cards != [] {
      CutFits(cards[1..]);
      TotalConcat([Masked(Readable(cards[0].cols))], ReadBack(cards[1..]));
      TotalConcat([cards[0].cols], Plain(cards[1..]));
      TotalSnoc([], cards[0].cols);
      TotalSnoc([], Masked(Readable(cards[0].cols)));
      assert [] + [cards[0].cols] == [cards[0].cols];
      assert [] + [Masked(Readable(cards[0].cols))] == [Masked(Readable(cards[0].cols))];
    }
  }

  // ---- Cards that no printer makes, and cards that do not survive ---------------------------------------------

  /** A header, and the columns of its card over any number of lines. */
  function SpreadLines(rows: seq<Card>): (ls: seq<string>)
    ensures |ls| == |rows|
  {
    if rows == [] then [] else [HexLine(rows[0])] + SpreadLines(rows[1..])
  }

  function SpreadText(num: nat, rows: seq<Card>): string { JoinLines([HeaderLine(num)] + SpreadLines(rows)) }

  function Gathered(rows: seq<Card>): (c: Card) {
    if rows == [] then [] else Masked(Readable(rows[0])) + Gathered(rows[1..])
  }

  lemma {:induction false} SpreadReads(card: Card, rows: seq<Card>)
    requires |card| + |Gathered(rows)| <= DECK_MAX_COLS
    ensures Sound(Parse([card], true, 0))
    ensures ProcessLines(Parse([card], true, 0), SpreadLines(rows)) == Parse([card + Gathered(rows)], true, 0)
    decreases |rows|
  {
    hide HexLine, IsHeader, Columns, TotalCols, AddColumns, Masked, Readable, Cut;
    OneCard(card);
    if rows == [] {
      assert card + [] == card;
    } else {
      var vs := Masked(Readable(rows[0]));
      HexLineIsNoHeader(rows[0]);
      CutHexLineReads(rows[0]);
      NoTotal();
      AddedColumns([], card, vs);
      assert [] + [card] == [card] && [] + [card + vs] == [card + vs];
      OneMoreLine(Parse([card], true, 0), HexLine(rows[0]), SpreadLines(rows[1..]));
      SpreadReads(card + vs, rows[1..]);
      assert card + vs + Gathered(rows[1..]) == card + (vs + Gathered(rows[1..]));
    }
  }

  lemma OneCard(card: Card)
    ensures TotalCols([card]) == |card|
  {
    TotalSnoc([], card);
    assert [] + [card] == [card];
  }

  lemma NoTotal()
    ensures TotalCols([]) == 0
  {
  }

  lemma {:induction false} SpreadAreOneLine(rows: seq<Card>)
    ensures AllOneLine(SpreadLines(rows))
  {
    hide HexLine;
    if rows != [] {
      HexLineIsOneLine(rows[0]);
      SpreadAreOneLine(rows[1..]);
    }
  }

  /** The parser gathers a card's columns over as many lines as come, so a text can hold a card of any width. */
  lemma SpreadCardParses(num: nat, rows: seq<Card>)
    requires 1 <= |Gathered(rows)| <= DECK_MAX_COLS
    ensures Batch(SpreadText(num, rows)) == Parsed([Gathered(rows)])
  {
    hide HeaderLine, Lines, JoinLines, SpreadLines, Gathered, TotalCols, Cut, IsHeader;
    var lines := [HeaderLine(num)] + SpreadLines(rows);
    HeaderIsOneLine(num);
    SpreadAreOneLine(rows);
    SplitUndoesJoin(lines);
    HeaderLineIsHeader(num);
    StartSound();
    OneMoreLine(Start, HeaderLine(num), SpreadLines(rows));
    var none: Card := [];
    assert [] + [none] == [none];
    SpreadReads(none, rows);
    assert [] + Gathered(rows) == Gathered(rows);
    OneNonEmpty(Gathered(rows));
  }

  lemma HeaderIsOneLine(num: nat)
    ensures OneLine(HeaderLine(num))
  {
  }

  lemma OneNonEmpty(card: Card)
    requires card != []
    ensures NonEmpty([card]) == [card]
  {
    assert [card][..0] == [];
    assert NonEmpty([card]) == NonEmpty([]) + [card];
  }

  /** Three lines of 100 columns: a card of 300. */
  function WideRows(): seq<Card> {
    var row := seq(100, _ => 0x1000);
    [row, row, row]
  }

  lemma WideTextParses()
    ensures exists c: Card :: |c| == 300 && Batch(SpreadText(1, WideRows())) == Parsed([c])
  {
    hide Masked, Batch, SpreadText;
    var rows := WideRows();
    assert Gathered(rows) == Masked(Readable(rows[0])) + Gathered(rows[1..]);
    assert Gathered(rows[1..]) == Masked(Readable(rows[1])) + Gathered(rows[2..]);
    assert Gathered(rows[2..]) == Masked(Readable(rows[2])) + Gathered(rows[3..]);
    SpreadCardParses(1, rows);
  }

  /** A printed card of 121 columns does not come back. */
  lemma TooWideToPrint() returns (cards: seq<Numbered>)
    ensures Punched(cards) && Finish(Chunks(Fresh, [Emit(cards)])) != Parsed(Plain(cards))
  {
    hide Emit, Chunks, Finish, Plain, TotalCols;
    cards := [Numbered(1, seq(MAX_READ + 1, _ => 1))];
    assert Joined([Emit(cards)]) == Emit(cards) by { assert Emit(cards) + "" == Emit(cards); }
    assert !Narrow(cards) by { assert |cards[0].cols| > MAX_READ; }
    RoundTripIff(cards, [Emit(cards)]);
  }

  /** A printed number is its decimal digits. */
  lemma {:induction false} DecValue(n: nat)
    ensures Value(Dec(n)) == n
  {
    if n >= 10 {
      var s := Dec(n);
      assert s[..|s| - 1] == Dec(n / 10);
      DecValue(n / 10);
    }
  }

  /** The number a decimal numeral stands for. */
  function Value(s: string): int
  {
    if s == "" then 0 else 10 * Value(s[..|s| - 1]) + (s[|s| - 1] as int - '0' as int)
  }

  /** The lines of a small deck in print. */
  lemma PrintedLines()
    ensures EmittedLines([Numbered(7, [0x1ABC, 0x0005]), Numbered(12, [])])
         == ["Card n. 7", "1ABC 0005 ", "Card n. 12", "", "Total cards: 2"]
  {
    hide HexLine, CardLines, Dec;
    var a, b := Numbered(7, [0x1ABC, 0x0005]), Numbered(12, []);
    TwoCards(a, b);
    TwoColumns(0x1ABC, 0x0005);
    SmallNumbers();
    assert HeaderLine(7) == "Card n. 7" && HeaderLine(12) == "Card n. 12" && TotalLine(2) == "Total cards: 2";
    assert HexWord(0x1ABC) == "1ABC" && HexWord(0x0005) == "0005";
    assert "1ABC" + " " + "0005" + " " == "1ABC 0005 ";
  }

  lemma TwoCards(a: Numbered, b: Numbered)
    ensures CardLines([a, b]) == [HeaderLine(a.num), HexLine(a.cols), HeaderLine(b.num), HexLine(b.cols)]
  {
    hide HexLine, HeaderLine;
    assert [a, b][1..] == [b] && [b][1..] == [];
    assert CardLines([b]) == [HeaderLine(b.num), HexLine(b.cols)];
  }

  lemma TwoColumns(v: Word16, w: Word16)
    ensures HexLine([v, w]) == HexWord(v) + " " + HexWord(w) + " " && HexLine([]) == ""
  {
    hide HexWord;
    assert [v, w][1..] == [w] && [w][1..] == [];
    assert HexLine([w]) == HexWord(w) + " ";
  }

  lemma SmallNumbers()
    ensures Dec(2) == "2" && Dec(7) == "7" && Dec(12) == "12"
  {
    assert Dec(1) == "1";
  }
}
