/** Deck-preparation recipes: which cards of a source deck go to the hopper, and where the feed will start. */
module Surgery {
  import opened Wrappers
  import opened DeckImages

  datatype Op = AsIs | TrimTitleSummary | SerialLoader

  /** The cards a recipe takes, or nothing if the deck is too short for it. */
  function Recipe(cs: seq<Card>, op: Op): Option<seq<Card>> {
    match op
    case AsIs => Some(cs)
    case TrimTitleSummary => if |cs| >= 3 then Some(cs[1..|cs| - 1]) else None
    case SerialLoader => if |cs| >= 7 then Some([cs[LoaderIndex(cs)]] + cs[5..|cs| - 1]) else None
  }

  /** Cards are appended one by one as long as they fit. */
  function Appended(dst: seq<Card>, cs: seq<Card>): (r: seq<Card>)
    ensures |dst| <= |r| <= |dst| + |cs| && r[..|dst|] == dst
    decreases |cs|
  {
    if cs == [] || !Fits(dst, |cs[0]|) then dst
    else
      var r := Appended(dst + [cs[0]], cs[1..]);
      assert r[..|dst|] == r[..|dst| + 1][..|dst|] == dst;
      r
  }

  lemma AppendedStep(dst: seq<Card>, cs: seq<Card>)
    requires cs != []
    ensures Appended(dst, cs) == if Fits(dst, |cs[0]|) then Appended(dst + [cs[0]], cs[1..]) else dst
  {
    hide Fits;
  }

  /** All of them fit exactly when the whole sequence does. */
  lemma {:induction false} AppendedIff(dst: seq<Card>, cs: seq<Card>)
    requires |dst| <= DECK_MAX_CARDS && TotalCols(dst) <= DECK_MAX_COLS
    ensures Appended(dst, cs) == dst + cs
       <==> |dst| + |cs| <= DECK_MAX_CARDS && TotalCols(dst + cs) <= DECK_MAX_COLS
    decreases |cs|
  {
    hide Appended, TotalCols;
    if cs == [] {
      assert dst + cs == dst;
      NothingAppended(dst);
    } else {
      AppendedStep(dst, cs);
      var one := dst + [cs[0]];
      assert one + cs[1..] == dst + cs;
      TotalSnoc(dst, cs[0]);
      TotalConcat(one, cs[1..]);
      if Fits(dst, |cs[0]|) {
        AppendedIff(one, cs[1..]);
      } else {
        assert |dst| != |dst + cs|;
      }
    }
  }

  lemma NothingAppended(dst: seq<Card>)
    ensures Appended(dst, []) == dst
  {
  }

  // ---- In place -----------------------------------------------------------------------------------------------

  ghost predicate Apart(dst: DeckBuffer, src: DeckBuffer)
    reads dst, dst.idx, dst.cols, src, src.idx, src.cols
  {
    dst.Valid() && src.Valid() && dst != src && dst.idx != src.idx && dst.cols != src.cols
  }

  method AppendCard(dst: DeckBuffer, src: DeckBuffer, card: nat) returns (ok: bool)
    requires Apart(dst, src)
    modifies dst`nCards, dst.idx, dst.cols
    ensures Apart(dst, src) && src.Cards() == old(src.Cards()) && dst.loaderCard == old(dst.loaderCard)
    ensures ok == (card < |src.Cards()| && Fits(old(dst.Cards()), |src.Cards()[card]|))
    ensures dst.Cards() == old(dst.Cards()) + if ok then [src.Cards()[card]] else []
  {
    hide Contiguous, Deck, TotalCols, Fits;
    if card >= src.nCards {
      return false;
    }
    CardColumns(src.Image(), card);
    var c := src.idx[card];
    ok := dst.Append(src.cols, c.off, c.ncols);
  }

  /** Card k of an image is its slice of the columns. */
  lemma CardColumns(d: DeckImage, k: nat)
    requires WellFormed(d) && k < |d.idx|
    ensures d.idx[k].off + d.idx[k].ncols <= DECK_MAX_COLS
    ensures Deck(d)[k] == d.cols[d.idx[k].off..d.idx[k].off + d.idx[k].ncols]
  {
    WellFormedIndexed(d);
    assert Deck(d)[k] == CardOf(d, k);
  }

  lemma RangeGrows(before: seq<Card>, cs: seq<Card>, first: nat, i: nat, end: nat)
    requires first <= i < end <= |cs|
    ensures before + cs[first..i] + [cs[i]] == before + cs[first..i + 1] && cs[i..end][1..] == cs[i + 1..end]
  {
  }

  /** Cards first..last, up to the first that does not fit. */
  method AppendRange(dst: DeckBuffer, src: DeckBuffer, first: nat, last: int) returns (ok: bool)
    requires Apart(dst, src) && first <= last + 1 && last < |src.Cards()|
    modifies dst`nCards, dst.idx, dst.cols
    ensures Apart(dst, src) && src.Cards() == old(src.Cards()) && dst.loaderCard == old(dst.loaderCard)
    ensures dst.Cards() == Appended(old(dst.Cards()), src.Cards()[first..last + 1])
    ensures ok <==> dst.Cards() == old(dst.Cards()) + src.Cards()[first..last + 1]
  {
    hide Contiguous, Deck, TotalCols, Fits, Appended;
    ghost var before, cs := dst.Cards(), src.Cards();
    var i := first;
    assert cs[first..first] == [] && before + [] == before;
    while i <= last
      invariant first <= i <= last + 1 && Apart(dst, src) && src.Cards() == cs && dst.loaderCard == old(dst.loaderCard)
      invariant dst.Cards() == before + cs[first..i]
      invariant Appended(before, cs[first..last + 1]) == Appended(dst.Cards(), cs[i..last + 1])
    {
      AppendedStep(dst.Cards(), cs[i..last + 1]);
      var added := AppendCard(dst, src, i);
      if !added {
        assert |cs[first..i]| < |cs[first..last + 1]|;
        return false;
      }
      RangeGrows(before, cs, first, i, last + 1);
      i := i + 1;
    }
    assert cs[i..last + 1] == [];
    NothingAppended(dst.Cards());
    return true;
  }

  /** Append the source deck, cut by the recipe. */
  method Apply(dst: DeckBuffer, src: DeckBuffer, op: Op) returns (ok: bool)
    requires Apart(dst, src)
    modifies dst`nCards, dst.idx, dst.cols, src`loaderCard
    ensures Apart(dst, src) && src.Cards() == old(src.Cards()) && dst.loaderCard == old(dst.loaderCard)
    ensures match Recipe(src.Cards(), op)
            case None => !ok && dst.Cards() == old(dst.Cards())
            case Some(r) =>
              dst.Cards() == Appended(old(dst.Cards()), r) && (ok <==> dst.Cards() == old(dst.Cards()) + r)
    ensures src.loaderCard
         == if op == SerialLoader && |src.Cards()| >= 7 then LoaderIndex(src.Cards()) else old(src.loaderCard)
  {
    hide Contiguous, Deck, TotalCols, Fits, Appended, LoaderIndex;
    ghost var cs := src.Cards();
    var n: int := src.nCards;
    match op
    case AsIs =>
      assert cs[0..n] == cs;
      ok := AppendRange(dst, src, 0, n - 1);
    case TrimTitleSummary =>
      if n < 3 {
        return false;
      }
      ok := AppendRange(dst, src, 1, n - 2);
    case SerialLoader =>
      if n < 7 {
        return false;
      }
      ok := ApplySerial(dst, src);
  }

  method ApplySerial(dst: DeckBuffer, src: DeckBuffer) returns (ok: bool)
    requires Apart(dst, src) && |src.Cards()| >= 7
    modifies dst`nCards, dst.idx, dst.cols, src`loaderCard
    ensures Apart(dst, src) && src.Cards() == old(src.Cards()) && dst.loaderCard == old(dst.loaderCard)
    ensures var r := [src.Cards()[LoaderIndex(src.Cards())]] + src.Cards()[5..|src.Cards()| - 1];
            dst.Cards() == Appended(old(dst.Cards()), r) && (ok <==> dst.Cards() == old(dst.Cards()) + r)
    ensures src.loaderCard == LoaderIndex(src.Cards())
  {
    hide Contiguous, Deck, TotalCols, Fits, Appended, LoaderIndex;
    ghost var before, cs := dst.Cards(), src.Cards();
    ghost var body := cs[5..|cs| - 1];
    var loader := src.FindLoaderCard();
    ghost var r := [cs[loader]] + body;
    AppendedStep(before, r);
    FirstAndRest(before, cs[loader], body);
    ok := AppendCard(dst, src, loader);
    if !ok {
      assert |before| < |before + r|;
      return;
    }
    ok := AppendRange(dst, src, 5, src.nCards - 2);
  }

  lemma FirstAndRest(before: seq<Card>, c: Card, body: seq<Card>)
    ensures ([c] + body)[1..] == body && before + [c] + body == before + ([c] + body)
  {
  }

  // ---- The finished deck --------------------------------------------------------------------------------------

  /** Some card among the first five carries the loader mark. */
  predicate HasLoader(cs: seq<Card>) {
    exists i :: 0 <= i < |cs| && i < 5 && |cs[i]| >= 3 && cs[i][2] == 0x0100
  }

  lemma LoaderIsMarkedIff(cs: seq<Card>)
    requires |cs| >= 2
    ensures Marked(cs[LoaderIndex(cs)]) <==> HasLoader(cs)
  {
    hide LoaderIndex;
    LoaderIs(cs);
  }

  /** A deck that starts with a recipe's serial loader is fed from its first card exactly when the source had a marked
      loader among its first five cards. */
  lemma SerialStartsAtZeroIff(cs: seq<Card>, rest: seq<Card>)
    requires |cs| >= 7
    ensures LoaderIndex(Recipe(cs, SerialLoader).value + rest) == 0 <==> HasLoader(cs)
  {
    hide LoaderIndex;
    var deck := Recipe(cs, SerialLoader).value + rest;
    LoaderIs(cs);
    assert deck[0] == cs[LoaderIndex(cs)];
    LoaderIs(deck);
  }

  // ---- What the recipes take ----------------------------------------------------------------------------------

  /** Trimming takes off the first and the last card and nothing else, and refuses only decks without a card between. */
  lemma TrimmedIs(cs: seq<Card>)
    ensures Recipe(cs, TrimTitleSummary).None? <==> |cs| < 3
    ensures |cs| >= 3 ==> [cs[0]] + Recipe(cs, TrimTitleSummary).value + [cs[|cs| - 1]] == cs
  {
  }

  /** The serial recipe takes the loader card, drops the box head of five cards and the summary card, and keeps all that
      is between, in order. */
  lemma SerialIs(cs: seq<Card>)
    ensures Recipe(cs, SerialLoader).None? <==> |cs| < 7
    ensures |cs| >= 7 ==>
              var r := Recipe(cs, SerialLoader).value;
              r != [] && r[0] == cs[LoaderIndex(cs)] && cs[..5] + r[1..] + [cs[|cs| - 1]] == cs
  {
    hide LoaderIndex;
    if |cs| >= 7 {
      var body := cs[5..|cs| - 1];
      assert ([cs[LoaderIndex(cs)]] + body)[1..] == body;
      assert cs[..5] + body + [cs[|cs| - 1]] == cs;
    }
  }

  lemma AsIsIs(cs: seq<Card>)
    ensures Recipe(cs, AsIs) == Some(cs)
  {
  }
}
