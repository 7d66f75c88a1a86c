/** What a .cap text means: the batch reading of its lines, and the streaming reading of its characters. */
module CapText {
  import opened Bits
  import opened DeckImages

  const LINE_MAX: nat := 600

  // ---- One line -----------------------------------------------------------------------------------------------

  predicate Blank(c: char) { c == ' ' || c == '\t' || c == '\r' }
  predicate Digit(c: char) { '0' <= c <= '9' }

  /** Value of a hex digit, either case; 16 for anything else. */
  function HexValue(c: char): (v: nat)
    ensures v <= 16
  {
    if '0' <= c <= '9' then c as int - '0' as int
    else if 'A' <= c <= 'F' then c as int - 'A' as int + 10
    else if 'a' <= c <= 'f' then c as int - 'a' as int + 10
    else 16
  }

  predicate IsHex4(w: string) {
    |w| == 4 && HexValue(w[0]) < 16 && HexValue(w[1]) < 16 && HexValue(w[2]) < 16 && HexValue(w[3]) < 16
  }

  /** A strict 4-digit token, masked to 13 bits. */
  function Hex4(w: string): (v: Word16)
    requires IsHex4(w)
    ensures v < 0x2000
  {
    (HexValue(w[0]) * 0x1000 + HexValue(w[1]) * 0x100 + HexValue(w[2]) * 0x10 + HexValue(w[3])) % 0x2000
  }

  function WordLength(s: string): (n: nat)
    ensures n <= |s|
    ensures forall i :: 0 <= i < n ==> !Blank(s[i])
    ensures n < |s| ==> Blank(s[n])
  {
    if s == "" || Blank(s[0]) then 0 else 1 + WordLength(s[1..])
  }

  function Column(word: string): (vs: seq<Word16>)
    ensures |vs| <= 1
  {
    if IsHex4(word) then [Hex4(word)] else []
  }

  /** The column values of a line: its blank-separated words that are strict 4-digit hex. */
  function Columns(s: string): seq<Word16>
    decreases |s|
  {
    var n := WordLength(s);
    Column(s[..n]) + if n == |s| then [] else Columns(s[n + 1..])
  }

  const PREFIX: string := "Card n. "

  function DigitRun(s: string): (n: nat)
    ensures n <= |s|
  {
    if s == "" || !Digit(s[0]) then 0 else 1 + DigitRun(s[1..])
  }

  predicate AllBlank(s: string) { forall i :: 0 <= i < |s| ==> Blank(s[i]) }

  /** `Card n. ` and at least one digit, with nothing but blanks after the digits. */
  predicate IsHeader(line: string) {
    && |line| >= 9 && line[..8] == PREFIX
    && var n := DigitRun(line[8..]); n > 0 && AllBlank(line[8 + n..])
  }

  // ---- The deck under construction ----------------------------------------------------------------------------

  /** Every card opened so far, the visual section's empty ones included. */
  datatype Parse = Parse(cards: seq<Card>, inCard: bool, error: int)

  predicate Sound(p: Parse) {
    |p.cards| <= DECK_MAX_CARDS && TotalCols(p.cards) <= DECK_MAX_COLS && (p.inCard ==> p.cards != [])
  }

  const Start: Parse := Parse([], false, 0)

  lemma StartSound()
    ensures Sound(Start)
  {
  }

  function AddToLast(cards: seq<Card>, v: Word16): seq<Card>
    requires cards != []
  {
    cards[..|cards| - 1] + [cards[|cards| - 1] + [v]]
  }

  function AddColumn(p: Parse, v: Word16): (q: Parse)
    requires Sound(p) && p.cards != []
    ensures Sound(q) && q.cards != [] && |q.cards| == |p.cards|
  {
    if TotalCols(p.cards) >= DECK_MAX_COLS then p.(error := -2)
    else
      TotalSnoc(p.cards[..|p.cards| - 1], p.cards[|p.cards| - 1] + [v]);
      p.(cards := AddToLast(p.cards, v))
  }

  /** Column by column, up to the first that does not fit. */
  function AddColumns(p: Parse, vs: seq<Word16>): (q: Parse)
    requires Sound(p) && p.cards != []
    ensures Sound(q) && q.cards != [] && |q.cards| == |p.cards|
    decreases |vs|
  {
    if vs == [] || p.error != 0 then p else AddColumns(AddColumn(p, vs[0]), vs[1..])
  }

  function OpenCard(p: Parse): (q: Parse)
    requires Sound(p)
    ensures Sound(q)
  {
    if |p.cards| >= DECK_MAX_CARDS then p.(error := -1)
    else
      TotalSnoc(p.cards, []);
      Parse(p.cards + [[]], true, p.error)
  }

  function ProcessLine(p: Parse, line: string): (q: Parse)
    requires Sound(p)
    ensures Sound(q)
  {
    if IsHeader(line) then OpenCard(p)
    else if !p.inCard then p
    else AddColumns(p, Columns(line))
  }

  /** The cards that own columns. */
  function NonEmpty(cards: seq<Card>): seq<Card> {
    if cards == [] then []
    else NonEmpty(cards[..|cards| - 1]) + if cards[|cards| - 1] == [] then [] else [cards[|cards| - 1]]
  }

  datatype Outcome = Parsed(cards: seq<Card>) | Failed(code: int)

  function Conclude(p: Parse): Outcome {
    if p.error != 0 then Failed(p.error)
    else if NonEmpty(p.cards) == [] then Failed(-3)
    else Parsed(NonEmpty(p.cards))
  }

  // ---- Batch: the lines of the text, in order, to the first error ---------------------------------------------

  function LineLength(s: string): (n: nat)
    ensures n <= |s|
    ensures forall i :: 0 <= i < n ==> s[i] != '\n'
    ensures n < |s| ==> s[n] == '\n'
  {
    if s == "" || s[0] == '\n' then 0 else 1 + LineLength(s[1..])
  }

  /** Lines end at a newline; a last line without one counts if it is not empty. */
  function Lines(s: string): seq<string>
    decreases |s|
  {
    var n := LineLength(s);
    if s == "" then [] else [s[..n]] + if n == |s| then [] else Lines(s[n + 1..])
  }

  function Cut(line: string): string { if |line| > LINE_MAX then line[..LINE_MAX] else line }

  function ProcessLines(p: Parse, lines: seq<string>): (q: Parse)
    requires Sound(p)
    ensures Sound(q)
    decreases |lines|
  {
    if lines == [] || p.error != 0 then p else ProcessLines(ProcessLine(p, Cut(lines[0])), lines[1..])
  }

  function Batch(text: string): Outcome { Conclude(ProcessLines(Start, Lines(text))) }

  // ---- Streaming: one character at a time ---------------------------------------------------------------------

  datatype Stream = Stream(parse: Parse, line: string)

  function Char(s: Stream, c: char): (t: Stream)
    requires Sound(s.parse)
    ensures Sound(t.parse)
  {
    if s.parse.error != 0 then s
    else if c == '\n' then Stream(ProcessLine(s.parse, s.line), "")
    else if |s.line| < LINE_MAX then s.(line := s.line + [c])
    else s
  }

  function Chunk(s: Stream, text: string): (t: Stream)
    requires Sound(s.parse)
    ensures Sound(t.parse)
    decreases |text|
  {
    if text == "" then s else Chunk(Char(s, text[0]), text[1..])
  }

  function Chunks(s: Stream, texts: seq<string>): (t: Stream)
    requires Sound(s.parse)
    ensures Sound(t.parse)
    decreases |texts|
  {
    if texts == [] then s else Chunks(Chunk(s, texts[0]), texts[1..])
  }

  function LastLine(s: Stream): (p: Parse)
    requires Sound(s.parse)
    ensures Sound(p)
  {
    if s.line != "" then ProcessLine(s.parse, s.line) else s.parse
  }

  function Finish(s: Stream): Outcome
    requires Sound(s.parse)
  {
    Conclude(LastLine(s))
  }

  const Fresh: Stream := Stream(Start, "")

  function Joined(texts: seq<string>): string {
    if texts == [] then "" else texts[0] + Joined(texts[1..])
  }

  lemma {:induction false} ChunkConcat(s: Stream, a: string, b: string)
    requires Sound(s.parse)
    ensures Chunk(s, a + b) == Chunk(Chunk(s, a), b)
    decreases |a|
  {
    hide Char;
    if a == "" {
      assert a + b == b;
    } else {
      ChunkConcat(Char(s, a[0]), a[1..], b);
      assert (a + b)[1..] == a[1..] + b;
    }
  }

  lemma {:induction false} ChunksJoin(s: Stream, texts: seq<string>)
    requires Sound(s.parse)
    ensures Chunks(s, texts) == Chunk(s, Joined(texts))
    decreases |texts|
  {
    if texts != [] {
      ChunksJoin(Chunk(s, texts[0]), texts[1..]);
      ChunkConcat(s, texts[0], Joined(texts[1..]));
    } else {
      assert Chunk(s, "") == s;
    }
  }

  /** Characters of one line pile up in the buffer, cut at 600. */
  lemma {:induction false} LineFills(s: Stream, text: string)
    requires Sound(s.parse) && s.parse.error == 0 && |s.line| <= LINE_MAX
    requires forall i :: 0 <= i < |text| ==> text[i] != '\n'
    ensures Chunk(s, text) == s.(line := Cut(s.line + text))
    decreases |text|
  {
    if text != "" {
      var t := Char(s, text[0]);
      LineFills(t, text[1..]);
      assert s.line + [text[0]] + text[1..] == s.line + text;
      if |s.line| == LINE_MAX {
        assert (s.line + text)[..LINE_MAX] == s.line;
        assert Cut(s.line + text[1..]) == s.line;
      }
    } else {
      assert s.line + text == s.line;
    }
  }

  lemma {:induction false} ErrorSticks(s: Stream, text: string)
    requires Sound(s.parse) && s.parse.error != 0
    ensures Chunk(s, text) == s
    decreases |text|
  {
    if text != "" { ErrorSticks(s, text[1..]); }
  }

  /** One line of text, with or without its newline. */
  lemma StreamReadsLine(p: Parse, text: string)
    requires Sound(p) && p.error == 0
    ensures var n := LineLength(text);
            Chunk(Stream(p, ""), text)
            == if n == |text| then Stream(p, Cut(text))
               else Chunk(Stream(ProcessLine(p, Cut(text[..n])), ""), text[n + 1..])
  {
    hide ProcessLine;
    var n := LineLength(text);
    var s, line := Stream(p, ""), text[..n];
    assert text == line + text[n..] && "" + line == line;
    LineFills(s, line);
    ChunkConcat(s, line, text[n..]);
    if n < |text| { assert text[n..][1..] == text[n + 1..]; }
  }

  lemma {:induction false} StreamReadsLines(p: Parse, text: string)
    requires Sound(p)
    ensures LastLine(Chunk(Stream(p, ""), text)) == ProcessLines(p, Lines(text))
    decreases |text|
  {
    hide ProcessLine, ProcessLines, Chunk, Sound, Cut, Lines;
    var n := LineLength(text);
    if p.error != 0 {
      ErrorSticks(Stream(p, ""), text);
      NoLines(p, Lines(text));
    } else if text == "" {
      NoText(Stream(p, ""));
      NoLines(p, Lines(text));
    } else {
      StreamReadsLine(p, text);
      if n < |text| {
        FirstOfLines(p, text);
        StreamReadsLines(ProcessLine(p, Cut(text[..n])), text[n + 1..]);
      } else {
        OnlyLine(p, text);
      }
    }
  }

  lemma NoLines(p: Parse, lines: seq<string>)
    requires Sound(p) && (p.error != 0 || lines == Lines(""))
    ensures ProcessLines(p, lines) == p
  {
  }

  lemma FirstOfLines(p: Parse, text: string)
    requires Sound(p) && p.error == 0 && LineLength(text) < |text|
    ensures var n := LineLength(text);
            ProcessLines(p, Lines(text)) == ProcessLines(ProcessLine(p, Cut(text[..n])), Lines(text[n + 1..]))
  {
    hide ProcessLine, ProcessLines, Cut, LineLength;
    var n := LineLength(text);
    assert Lines(text) == [text[..n]] + Lines(text[n + 1..]);
    OneMoreLine(p, text[..n], Lines(text[n + 1..]));
  }

  lemma OneMoreLine(p: Parse, line: string, rest: seq<string>)
    requires Sound(p) && p.error == 0
    ensures ProcessLines(p, [line] + rest) == ProcessLines(ProcessLine(p, Cut(line)), rest)
  {
    hide ProcessLine, Cut;
    assert ([line] + rest)[1..] == rest;
  }

  /** A line without a newline is the last one. */
  lemma OnlyLine(p: Parse, text: string)
    requires Sound(p) && p.error == 0 && text != "" && LineLength(text) == |text|
    ensures ProcessLines(p, Lines(text)) == LastLine(Stream(p, Cut(text)))
  {
    hide ProcessLine;
    assert text[..|text|] == text && Lines(text) == [text] && Lines(text)[1..] == [];
    assert ProcessLines(ProcessLine(p, Cut(text)), []) == ProcessLine(p, Cut(text));
  }

  lemma NoText(s: Stream)
    requires Sound(s.parse)
    ensures Chunk(s, "") == s
  {
  }

  /** The streaming parser is the batch reading of the text, however the text is cut into chunks. */
  lemma StreamingIsBatch(texts: seq<string>)
    ensures Finish(Chunks(Fresh, texts)) == Batch(Joined(texts))
  {
    ChunksJoin(Fresh, texts);
    StreamReadsLines(Start, Joined(texts));
  }

  // ---- What a parsed deck is like -----------------------------------------------------------------------------

  lemma {:induction false} TotalNonEmpty(cs: seq<Card>)
    ensures TotalCols(NonEmpty(cs)) == TotalCols(cs) && |NonEmpty(cs)| <= |cs|
  {
    hide NonEmpty, TotalCols;
    NonEmptyInit(cs);
    if cs != [] {
      var init, last := cs[..|cs| - 1], cs[|cs| - 1];
      TotalNonEmpty(init);
      TotalSnoc(init, last);
      assert init + [last] == cs;
      TotalSnoc(NonEmpty(init), last);
    }
  }

  lemma NonEmptyInit(cs: seq<Card>)
    ensures cs == [] ==> NonEmpty(cs) == cs
    ensures cs != [] ==> NonEmpty(cs) == (var init, last := cs[..|cs| - 1], cs[|cs| - 1];
      if last == [] then NonEmpty(init) else NonEmpty(init) + [last])
  {
  }

  predicate NoneEmpty(cs: seq<Card>) { forall i :: 0 <= i < |cs| ==> cs[i] != [] }

  lemma {:induction false} KeptAreFull(cs: seq<Card>)
    ensures NoneEmpty(NonEmpty(cs))
  {
    hide NonEmpty;
    NonEmptyInit(cs);
    if cs != [] { KeptAreFull(cs[..|cs| - 1]); }
  }

  /** Whatever the text, what is parsed is at least one card, none of them empty, and fits a deck image. */
  lemma ParsedFits(text: string, cs: seq<Card>)
    requires Batch(text) == Parsed(cs)
    ensures 0 < |cs| <= DECK_MAX_CARDS && TotalCols(cs) <= DECK_MAX_COLS && NoneEmpty(cs)
  {
    hide ProcessLines, NonEmpty, TotalCols, Lines;
    StartSound();
    KeptAreFull(ProcessLines(Start, Lines(text)).cards);
    TotalNonEmpty(ProcessLines(Start, Lines(text)).cards);
  }

  // ---- What the characters mean -------------------------------------------------------------------------------

  /** A line is a header exactly when it is the prefix, one or more decimal digits, and then nothing but spaces, tabs
      and carriage returns. */
  lemma HeaderIff(line: string)
    ensures IsHeader(line) <==> exists digits: string, blanks: string :: IsHeaderOf(line, digits, blanks)
  {
    hide DigitRun;
    if IsHeader(line) {
      var n := DigitRun(line[8..]);
      var digits, blanks := line[8..][..n], line[8 + n..];
      RunIsDigits(line[8..]);
      assert line == line[..8] + line[8..] == "Card n. " + (digits + blanks);
      assert IsHeaderOf(line, digits, blanks);
    }
    if exists digits: string, blanks: string :: IsHeaderOf(line, digits, blanks) {
      var digits: string, blanks: string :| IsHeaderOf(line, digits, blanks);
      assert line[..8] == "Card n. " && line[8..] == digits + blanks;
      RunEnds(digits, blanks);
    }
  }

  predicate IsHeaderOf(line: string, digits: string, blanks: string) {
    && line == "Card n. " + (digits + blanks) && digits != ""
    && (forall i :: 0 <= i < |digits| ==> '0' <= digits[i] <= '9')
    && (forall i :: 0 <= i < |blanks| ==> blanks[i] in " \t\r")
  }

  lemma {:induction false} RunIsDigits(s: string)
    ensures forall i :: 0 <= i < DigitRun(s) ==> '0' <= s[i] <= '9'
  {
    if s != "" && Digit(s[0]) {
      RunIsDigits(s[1..]);
      assert forall i :: 0 < i < DigitRun(s) ==> s[i] == s[1..][i - 1];
    }
  }

  lemma {:induction false} RunEnds(digits: string, rest: string)
    requires (forall i :: 0 <= i < |digits| ==> '0' <= digits[i] <= '9') && (rest == "" || rest[0] in " \t\r")
    ensures DigitRun(digits + rest) == |digits|
  {
    if digits == "" {
      assert digits + rest == rest;
    } else {
      assert (digits + rest)[1..] == digits[1..] + rest;
      RunEnds(digits[1..], rest);
    }
  }

  predicate HexDigit(c: char) { c in "0123456789ABCDEFabcdef" }

  /** Hex digits of either case, and nothing else. */
  lemma HexValueIs(c: char)
    ensures forall i: nat :: i < 16 ==> HexValue("0123456789ABCDEF"[i]) == i && HexValue("0123456789abcdef"[i]) == i
    ensures HexValue(c) < 16 <==> HexDigit(c)
  {
    if HexValue(c) < 16 {
      assert c == "0123456789ABCDEF"[HexValue(c)] || c == "0123456789abcdef"[HexValue(c)];
    }
  }

  /** A tab or a carriage return separates columns as a space does. */
  function Spaced(s: string): (t: string)
    ensures |t| == |s|
  {
    seq<char>(|s|, i requires 0 <= i < |s| => if s[i] in "\t\r" then ' ' else s[i])
  }

  lemma {:induction false} BlanksAreAlike(s: string)
    ensures Columns(Spaced(s)) == Columns(s)
    decreases |s|
  {
    hide Column, WordLength, Columns;
    var n := WordLength(s);
    SpacedWord(s);
    assert Spaced(s)[..n] == s[..n];
    ColumnsUnfold(s);
    ColumnsUnfold(Spaced(s));
    if n < |s| {
      assert Spaced(s)[n + 1..] == Spaced(s[n + 1..]);
      BlanksAreAlike(s[n + 1..]);
    }
  }

  lemma ColumnsUnfold(s: string)
    ensures var n := WordLength(s);
            Columns(s) == Column(s[..n]) + if n == |s| then [] else Columns(s[n + 1..])
  {
    hide Column, WordLength;
  }

  lemma {:induction false} SpacedWord(s: string)
    ensures WordLength(Spaced(s)) == WordLength(s)
    ensures forall i :: 0 <= i < WordLength(s) ==> s[i] !in " \t\r"
  {
    if s != "" && !Blank(s[0]) {
      SpacedWord(s[1..]);
      assert Spaced(s)[1..] == Spaced(s[1..]);
      assert forall i :: 0 < i < WordLength(s) ==> s[i] == s[1..][i - 1];
    }
  }

  /** Other characters do not separate: a word of them is a column exactly when it is four hex digits. */
  lemma WordIs(w: string)
    requires forall i :: 0 <= i < |w| ==> w[i] !in " \t\r"
    ensures Columns(w) == if |w| == 4 && HexDigit(w[0]) && HexDigit(w[1]) && HexDigit(w[2]) && HexDigit(w[3])
                          then [(0x1000 * HexValue(w[0]) + 0x100 * HexValue(w[1]) + 0x10 * HexValue(w[2])
                                 + HexValue(w[3])) % 0x2000]
                          else []
  {
    hide HexValue, HexDigit, Columns, WordLength;
    WholeWord(w);
    ColumnsUnfold(w);
    assert w[..|w|] == w;
    if |w| == 4 {
      HexValueIs(w[0]);
      HexValueIs(w[1]);
      HexValueIs(w[2]);
      HexValueIs(w[3]);
    }
  }

  lemma {:induction false} WholeWord(w: string)
    requires forall i :: 0 <= i < |w| ==> w[i] !in " \t\r"
    ensures WordLength(w) == |w|
  {
    if w != "" {
      assert w[0] !in " \t\r";
      WholeWord(w[1..]);
    }
  }

  // ---- What a line does, and where a text fails ---------------------------------------------------------------

  /** A column goes in exactly when fewer than 40960 are there; the first that does not ends the parse. */
  lemma {:induction false} ColumnsGoIn(p: Parse, vs: seq<Word16>)
    requires Sound(p) && p.cards != [] && p.error == 0
    ensures var n, total := |p.cards|, TotalCols(p.cards) + |vs|;
            AddColumns(p, vs) == if total <= 40960
                                 then p.(cards := p.cards[..n - 1] + [p.cards[n - 1] + vs])
                                 else AddColumns(p, vs[..40960 - TotalCols(p.cards)]).(error := -2)
    decreases |vs|
  {
    hide TotalCols;
    var n := |p.cards|;
    if vs == [] {
      assert p.cards[n - 1] + vs == p.cards[n - 1];
      assert p.cards == p.cards[..n - 1] + [p.cards[n - 1]];
    } else if TotalCols(p.cards) < 40960 {
      var q, k := AddColumn(p, vs[0]), 40960 - TotalCols(p.cards);
      TotalSnoc(p.cards[..n - 1], p.cards[n - 1]);
      TotalSnoc(p.cards[..n - 1], p.cards[n - 1] + [vs[0]]);
      assert p.cards == p.cards[..n - 1] + [p.cards[n - 1]];
      assert q.cards[..n - 1] == p.cards[..n - 1] && TotalCols(q.cards) == TotalCols(p.cards) + 1;
      ColumnsGoIn(q, vs[1..]);
      if TotalCols(p.cards) + |vs| <= 40960 {
        assert q.cards[n - 1] + vs[1..] == p.cards[n - 1] + vs;
      } else {
        assert vs[..k][1..] == vs[1..][..k - 1];
      }
    } else {
      assert vs[..0] == [];
    }
  }

  /** What one line does: a header opens an empty card unless 512 are open, which is error -1; another line goes to the
      open card, if there is one, unless it takes the deck past 40960 columns, which is error -2. */
  lemma LineMeans(p: Parse, line: string)
    requires Sound(p) && p.error == 0
    ensures var q, n, vs := ProcessLine(p, line), |p.cards|, Columns(line);
            if IsHeader(line) then
              q == if n < 512 then Parse(p.cards + [[]], true, 0) else p.(error := -1)
            else if !p.inCard then
              q == p
            else if TotalCols(p.cards) + |vs| <= 40960 then
              q == p.(cards := p.cards[..n - 1] + [p.cards[n - 1] + vs])
            else
              q.error == -2
  {
    hide TotalCols, Columns, IsHeader;
    if p.inCard { ColumnsGoIn(p, Columns(line)); }
  }

  /** Lines are read one after the other, and the first error is the answer. */
  lemma {:induction false} LinesInOrder(p: Parse, before: seq<string>, line: string, after: seq<string>)
    requires Sound(p) && p.error == 0
    ensures var q := ProcessLines(p, before);
            ProcessLines(p, before + [line] + after)
            == if q.error != 0 then q else ProcessLines(ProcessLine(q, Cut(line)), after)
    decreases |before|
  {
    hide ProcessLine, Cut;
    var all := before + [line] + after;
    if before == [] {
      assert all[0] == line && all[1..] == after;
    } else {
      assert all[0] == before[0] && all[1..] == before[1..] + [line] + after;
      var q := ProcessLine(p, Cut(before[0]));
      if q.error == 0 { LinesInOrder(q, before[1..], line, after); }
    }
  }

  /** Line k is a header, and 512 cards are open before it. */
  predicate FullAt(p: Parse, lines: seq<string>, k: nat)
    requires Sound(p) && k < |lines|
  {
    var q := ProcessLines(p, lines[..k]);
    q.error == 0 && |q.cards| == 512 && IsHeader(Cut(lines[k]))
  }

  /** Line k is in a card, and has more columns than there is room for. */
  predicate OverflowsAt(p: Parse, lines: seq<string>, k: nat)
    requires Sound(p) && k < |lines|
  {
    var q, line := ProcessLines(p, lines[..k]), Cut(lines[k]);
    q.error == 0 && q.inCard && !IsHeader(line) && TotalCols(q.cards) + |Columns(line)| > 40960
  }

  /** Where lines fail: with -1 at the 513th header, with -2 at the line past 40960 columns, whichever is first. */
  lemma {:induction false} LinesFailAt(p: Parse, lines: seq<string>)
    requires Sound(p) && p.error == 0
    ensures var e := ProcessLines(p, lines).error;
            && e in {0, -1, -2}
            && (e == -1 <==> exists k: nat :: k < |lines| && FullAt(p, lines, k))
            && (e == -2 <==> exists k: nat :: k < |lines| && OverflowsAt(p, lines, k))
    decreases |lines|
  {
    hide TotalCols, Columns, IsHeader, Cut, ProcessLine;
    if lines != [] {
      var n := |lines| - 1;
      var init, q := lines[..n], ProcessLines(p, lines[..n]);
      LinesFailAt(p, init);
      assert lines == init + [lines[n]] + [];
      LinesInOrder(p, init, lines[n], []);
      if q.error == 0 {
        LineMeans(q, Cut(lines[n]));
        ReadAlone(q, Cut(lines[n]));
      }
      forall k: nat | k < n
        ensures FullAt(p, lines, k) == FullAt(p, init, k) && OverflowsAt(p, lines, k) == OverflowsAt(p, init, k)
      {
        assert init[..k] == lines[..k] && init[k] == lines[k];
      }
      assert OverflowsAt(p, lines, n) || !OverflowsAt(p, lines, n);
      assert FullAt(p, lines, n) == (q.error == 0 && |q.cards| == 512 && IsHeader(Cut(lines[n])));
    }
  }

  lemma ReadAlone(p: Parse, line: string)
    requires Sound(p)
    ensures ProcessLines(ProcessLine(p, line), []) == ProcessLine(p, line)
  {
  }

  ghost predicate Fills(lines: seq<string>) { exists k: nat :: k < |lines| && FullAt(Start, lines, k) }
  ghost predicate Overflows(lines: seq<string>) { exists k: nat :: k < |lines| && OverflowsAt(Start, lines, k) }

  /** Which texts fail, and with what: -1 for a 513th header, -2 for a line past 40960 columns, whichever comes first,
      and otherwise -3 for no column at all. */
  lemma FailsIff(text: string)
    ensures Batch(text) == Failed(-1) <==> Fills(Lines(text))
    ensures Batch(text) == Failed(-2) <==> Overflows(Lines(text))
    ensures Batch(text) == Failed(-3) <==>
            && !Fills(Lines(text)) && !Overflows(Lines(text))
            && forall card :: card in ProcessLines(Start, Lines(text)).cards ==> card == []
  {
    hide Lines, FullAt, OverflowsAt, NonEmpty, ProcessLines;
    StartSound();
    var lines := Lines(text);
    LinesFailAt(Start, lines);
    NothingKept(ProcessLines(Start, lines).cards);
  }

  lemma {:induction false} NothingKept(cards: seq<Card>)
    ensures NonEmpty(cards) == [] <==> forall card :: card in cards ==> card == []
  {
    if cards != [] {
      var init, last := cards[..|cards| - 1], cards[|cards| - 1];
      NothingKept(init);
      assert last in cards && forall card :: card in cards <==> card in init || card == last;
    }
  }
}
