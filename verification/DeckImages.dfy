/** RAM image of a card deck: an index of cards over one flat array of 13-bit columns. */
module DeckImages {
  import opened Bits

  const DECK_MAX_CARDS: nat := 512
  const DECK_MAX_COLS: nat := 40960
  const CARD_COLS: nat := 80

  datatype DeckCard = DeckCard(off: nat, ncols: nat)

  type Card = seq<Word16>

  /** A snapshot of the image: what the feeder reads while a deck is armed. */
  datatype DeckImage = DeckImage(loaderCard: int, idx: seq<DeckCard>, cols: seq<Word16>)

  /** Every card lies inside the column array. */
  predicate Indexed(d: DeckImage) {
    forall i :: 0 <= i < |d.idx| ==> d.idx[i].off + d.idx[i].ncols <= |d.cols|
  }

  function CardOf(d: DeckImage, i: nat): Card
    requires Indexed(d) && i < |d.idx|
  {
    d.cols[d.idx[i].off .. d.idx[i].off + d.idx[i].ncols]
  }

  function CardsOf(d: DeckImage): (cs: seq<Card>)
    requires Indexed(d)
    ensures |cs| == |d.idx| && forall i :: 0 <= i < |cs| ==> |cs[i]| == d.idx[i].ncols
  {
    seq(|d.idx|, i requires 0 <= i < |d.idx| => CardOf(d, i))
  }

  /** Offset at which the next card goes. */
  function EndOf(idx: seq<DeckCard>): nat {
    if idx == [] then 0 else idx[|idx| - 1].off + idx[|idx| - 1].ncols
  }

  /** The index partitions a prefix of the columns, in order and without gaps. */
  predicate Contiguous(idx: seq<DeckCard>) {
    idx == [] ||
    var init := idx[..|idx| - 1];
    Contiguous(init) && idx[|idx| - 1].off == EndOf(init)
  }

  lemma {:induction false} OffsetsGrow(idx: seq<DeckCard>, i: nat)
    requires Contiguous(idx) && i < |idx|
    ensures idx[i].off + idx[i].ncols <= EndOf(idx)
    ensures idx[i].off == EndOf(idx[..i])
  {
    var init := idx[..|idx| - 1];
    if i < |init| {
      OffsetsGrow(init, i);
      assert init[..i] == idx[..i];
    }
  }

  lemma ContiguousAppend(idx: seq<DeckCard>, n: nat)
    requires Contiguous(idx)
    ensures Contiguous(idx + [DeckCard(EndOf(idx), n)])
    ensures EndOf(idx + [DeckCard(EndOf(idx), n)]) == EndOf(idx) + n
  {
    var more := idx + [DeckCard(EndOf(idx), n)];
    assert more[..|more| - 1] == idx;
  }

  predicate WellFormed(d: DeckImage) {
    |d.idx| <= DECK_MAX_CARDS && |d.cols| == DECK_MAX_COLS && Contiguous(d.idx) && EndOf(d.idx) <= DECK_MAX_COLS
  }

  lemma WellFormedIndexed(d: DeckImage)
    requires WellFormed(d)
    ensures Indexed(d)
  {
    forall i | 0 <= i < |d.idx| ensures d.idx[i].off + d.idx[i].ncols <= |d.cols| {
      OffsetsGrow(d.idx, i);
    }
  }

  ghost function Deck(d: DeckImage): (cs: seq<Card>)
    requires WellFormed(d)
    ensures |cs| == |d.idx|
  {
    WellFormedIndexed(d);
    CardsOf(d)
  }

  lemma SameSlice(s: seq<Word16>, t: seq<Word16>, m: nat, a: nat, b: nat)
    requires a <= b <= m <= |s| && m <= |t| && s[..m] == t[..m]
    ensures s[a..b] == t[a..b]
  {
    assert s[a..b] == s[..m][a..b] && t[a..b] == t[..m][a..b];
  }

  /** Writing a card after the last one leaves the earlier cards alone. */
  lemma DeckAppend(d: DeckImage, e: DeckImage, card: Card)
    requires WellFormed(d) && |d.idx| < DECK_MAX_CARDS && EndOf(d.idx) + |card| <= DECK_MAX_COLS
    requires e.idx == d.idx + [DeckCard(EndOf(d.idx), |card|)]
    requires |e.cols| == DECK_MAX_COLS && e.cols[..EndOf(d.idx)] == d.cols[..EndOf(d.idx)]
    requires e.cols[EndOf(d.idx)..EndOf(d.idx) + |card|] == card
    ensures WellFormed(e) && Deck(e) == Deck(d) + [card]
  {
    hide Contiguous;
    ContiguousAppend(d.idx, |card|);
    WellFormedIndexed(d);
    WellFormedIndexed(e);
    forall i | 0 <= i < |d.idx| ensures CardOf(e, i) == CardOf(d, i) {
      OffsetsGrow(d.idx, i);
      SameSlice(e.cols, d.cols, EndOf(d.idx), d.idx[i].off, d.idx[i].off + d.idx[i].ncols);
    }
    assert CardOf(e, |d.idx|) == card;
  }

  lemma DeckTotal(d: DeckImage)
    requires WellFormed(d)
    ensures TotalCols(Deck(d)) == EndOf(d.idx)
  {
    TotalIsEnd(d, |d.idx|);
    assert d.idx[..|d.idx|] == d.idx && Deck(d)[..|d.idx|] == Deck(d);
  }

  /** Total number of columns of a list of cards. */
  function TotalCols(cs: seq<Card>): nat {
    if cs == [] then 0 else TotalCols(cs[..|cs| - 1]) + |cs[|cs| - 1]|
  }

  lemma TotalSnoc(cards: seq<Card>, card: Card)
    ensures TotalCols(cards + [card]) == TotalCols(cards) + |card|
  {
    assert (cards + [card])[..|cards|] == cards;
  }

  lemma {:induction false} TotalConcat(a: seq<Card>, b: seq<Card>)
    ensures TotalCols(a + b) == TotalCols(a) + TotalCols(b)
  {
    if b == [] {
      assert a + b == a;
    } else {
      var init, last := b[..|b| - 1], b[|b| - 1];
      TotalConcat(a, init);
      assert a + b == (a + init) + [last];
      TotalSnoc(a + init, last);
    }
  }

  lemma {:induction false} TotalIsEnd(d: DeckImage, n: nat)
    requires WellFormed(d) && n <= |d.idx|
    ensures TotalCols(Deck(d)[..n]) == EndOf(d.idx[..n])
    decreases n
  {
    if n > 0 {
      TotalIsEnd(d, n - 1);
      OffsetsGrow(d.idx, n - 1);
      assert Deck(d)[..n][..n - 1] == Deck(d)[..n - 1];
      assert d.idx[..n][..n - 1] == d.idx[..n - 1];
    }
  }

  /** The image is full exactly when the card count or the column count would overflow. */
  predicate Fits(cs: seq<Card>, n: nat) {
    |cs| < DECK_MAX_CARDS && TotalCols(cs) + n <= DECK_MAX_COLS
  }

  /** Row-8 punch in column 3. */
  predicate Marked(card: Card) {
    |card| >= 3 && card[2] == 0x0100
  }

  /** First marked card among indices from..limit-1, or the fallback. */
  function FirstMarked(cs: seq<Card>, from: nat, limit: nat, fallback: nat): (r: nat)
    requires from <= limit <= |cs|
    ensures r == fallback || from <= r < limit
    decreases limit - from
  {
    if from == limit then fallback
    else if Marked(cs[from]) then from
    else FirstMarked(cs, from + 1, limit, fallback)
  }

  function SearchLimit(cs: seq<Card>): nat {
    if |cs| < 5 then |cs| else 5
  }

  function LoaderIndex(cs: seq<Card>): (r: nat)
    ensures cs != [] ==> r < |cs|
  {
    FirstMarked(cs, 0, SearchLimit(cs), if |cs| > 1 then 1 else 0)
  }

  /** What the search for the loader card answers: the least of the first five cards that has at least three columns and
      0x0100 in the third; if there is none, card 1, or 0 in a deck without a second card. */
  lemma LoaderIs(cs: seq<Card>)
    ensures var l := LoaderIndex(cs);
            if exists i :: 0 <= i < |cs| && i < 5 && |cs[i]| >= 3 && cs[i][2] == 0x0100 then
              && l < |cs| && l < 5 && |cs[l]| >= 3 && cs[l][2] == 0x0100
              && forall i :: 0 <= i < l ==> !(|cs[i]| >= 3 && cs[i][2] == 0x0100)
            else l == if |cs| > 1 then 1 else 0
  {
    hide Marked;
    var limit := SearchLimit(cs);
    FirstMarkedIs(cs, 0, limit, if |cs| > 1 then 1 else 0);
    forall i | 0 <= i < |cs| ensures Marked(cs[i]) <==> |cs[i]| >= 3 && cs[i][2] == 0x0100 {
      MarkedIs(cs[i]);
    }
  }

  lemma MarkedIs(card: Card)
    ensures Marked(card) <==> |card| >= 3 && card[2] == 0x0100
  {
  }

  lemma {:induction false} FirstMarkedIs(cs: seq<Card>, from: nat, limit: nat, fallback: nat)
    requires from <= limit <= |cs|
    ensures var r := FirstMarked(cs, from, limit, fallback);
            if exists i :: from <= i < limit && Marked(cs[i])
            then from <= r < limit && Marked(cs[r]) && forall i :: from <= i < r ==> !Marked(cs[i])
            else r == fallback
    decreases limit - from
  {
    hide Marked;
    if from < limit && !Marked(cs[from]) { FirstMarkedIs(cs, from + 1, limit, fallback); }
  }

  /** memcpy between two column arrays. */
  method CopyCols(dst: array<Word16>, at: nat, src: array<Word16>, from: nat, n: nat)
    requires dst != src && at + n <= dst.Length && from + n <= src.Length
    modifies dst
    ensures dst[..at] == old(dst[..at]) && dst[at..at + n] == src[from..from + n]
  {
    for i := 0 to n
      invariant dst[..at] == old(dst[..at])
      invariant dst[at..at + i] == src[from..from + i]
    {
      dst[at + i] := src[from + i];
      assert dst[at..at + (i + 1)] == dst[at..at + i] + [src[from + i]];
      assert src[from..from + (i + 1)] == src[from..from + i] + [src[from + i]];
    }
  }

  lemma MarkedAt(d: DeckImage, i: nat)
    requires WellFormed(d) && i < |d.idx|
    ensures d.idx[i].off + d.idx[i].ncols <= DECK_MAX_COLS
    ensures Marked(Deck(d)[i]) <==> d.idx[i].ncols >= 3 && d.cols[d.idx[i].off + 2] == 0x0100
  {
    WellFormedIndexed(d);
    assert Deck(d)[i] == CardOf(d, i);
  }

  lemma DeckIgnoresLoader(d: DeckImage, e: DeckImage)
    requires WellFormed(d) && e == d.(loaderCard := e.loaderCard)
    ensures WellFormed(e) && Deck(e) == Deck(d)
  {
    forall i | 0 <= i < |d.idx| ensures Deck(e)[i] == Deck(d)[i] {
      WellFormedIndexed(d);
      WellFormedIndexed(e);
      assert Deck(e)[i] == CardOf(e, i) == CardOf(d, i);
    }
  }

  class DeckBuffer {
    const idx: array<DeckCard>
    const cols: array<Word16>
    var nCards: nat
    var loaderCard: int

    ghost predicate Valid()
      reads this, idx, cols
    {
      idx.Length == DECK_MAX_CARDS && cols.Length == DECK_MAX_COLS && nCards <= DECK_MAX_CARDS && WellFormed(Image())
    }

    ghost function Image(): DeckImage
      reads this, idx, cols
      requires nCards <= idx.Length
    {
      DeckImage(loaderCard, idx[..nCards], cols[..])
    }

    ghost function Cards(): seq<Card>
      reads this, idx, cols
      requires Valid()
    {
      Deck(Image())
    }

    constructor ()
      ensures Valid() && Cards() == [] && loaderCard == -1 && fresh(idx) && fresh(cols)
    {
      idx := new DeckCard[DECK_MAX_CARDS](_ => DeckCard(0, 0));
      cols := new Word16[DECK_MAX_COLS](_ => 0);
      nCards := 0;
      loaderCard := -1;
    }

    /** The memset that precedes every build; `loader` is the caller's initial loader_card. */
    method Reset(loader: int)
      requires Valid()
      modifies this, cols, idx
      ensures Valid() && Cards() == [] && loaderCard == loader
    {
      nCards := 0;
      loaderCard := loader;
    }

    /** Append n columns of another array as the next card. */
    method Append(src: array<Word16>, from: nat, n: nat) returns (ok: bool)
      requires Valid() && src != cols && from + n <= src.Length
      modifies this`nCards, idx, cols
      ensures Valid()
      ensures ok == Fits(old(Cards()), n)
      ensures ok ==> Cards() == old(Cards()) + [src[from..from + n]]
      ensures !ok ==> Image() == old(Image())
    {
      hide Contiguous, Deck, TotalCols, FirstMarked;
      ghost var before := Image();
      DeckTotal(before);
      if nCards >= DECK_MAX_CARDS {
        return false;
      }
      var off := if nCards > 0 then idx[nCards - 1].off + idx[nCards - 1].ncols else 0;
      if off + n > DECK_MAX_COLS {
        return false;
      }
      CopyCols(cols, off, src, from, n);
      idx[nCards] := DeckCard(off, n);
      nCards := nCards + 1;
      assert idx[..nCards] == before.idx + [DeckCard(off, n)];
      DeckAppend(before, Image(), src[from..from + n]);
      return true;
    }

    /** Search cards 0..4 for the row-8 mark; fall back to card 1 (or 0 in a one-card deck). */
    method FindLoaderCard() returns (found: nat)
      requires Valid()
      modifies this`loaderCard
      ensures Valid() && Image() == old(Image()).(loaderCard := found)
      ensures Cards() == old(Cards()) && found == LoaderIndex(Cards())
    {
      ghost var d := Image();
      found := SearchMark();
      loaderCard := found;
      DeckIgnoresLoader(d, Image());
    }

    method SearchMark() returns (found: nat)
      requires Valid()
      ensures found == LoaderIndex(Cards())
    {
      hide Contiguous, WellFormed, Deck, Marked;
      ghost var d := Image();
      found := if nCards > 1 then 1 else 0;
      var limit := if nCards < 5 then nCards else 5;
      for i := 0 to limit
        invariant FirstMarked(Deck(d), i, limit, found) == LoaderIndex(Deck(d))
      {
        MarkedAt(d, i);
        assert d.idx[i] == idx[i];
        if idx[i].ncols >= 3 && cols[idx[i].off + 2] == 0x0100 {
          return i;
        }
      }
    }
  }
}
