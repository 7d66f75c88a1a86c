/** The binary-to-deck encoder in its imperative form. */
module BinEncoder {
  import opened Bits
  import opened Transcode
  import opened Columns
  import opened DeckImages
  import opened Bin2Deck

  class Encoder {
    const img: DeckBuffer
    const buf: array<Byte>
    var addr: nat
    var fill: nat

    ghost predicate Valid()
      reads this, img, img.idx, img.cols, buf
    {
      img.Valid() && buf.Length == CHUNK && fill < CHUNK
    }

    ghost function Snap(): Enc
      reads this, img, img.idx, img.cols, buf
      requires Valid()
    {
      Enc(addr, buf[..fill], img.Cards())
    }

    /** Resets the image, appends the loader card and sets the load base; this cannot fail on an empty image. */
    constructor (image: DeckBuffer, base: Word16)
      requires image.Valid()
      modifies image, image.idx, image.cols
      ensures img == image && fresh(buf) && Valid() && Snap() == Begin(base) && image.loaderCard == 0
    {
      hide WellFormed, Deck, Fits;
      img := image;
      addr := base;
      fill := 0;
      buf := new Byte[CHUNK](_ => 0);
      new;
      image.Reset(0);
      var cols := new Word16[CARD_COLS](i requires 0 <= i < CARD_COLS => LOADER_COLS[i]);
      assert cols[0..0 + CARD_COLS] == LOADER_COLS;
      FirstCardFits();
      var ok := image.Append(cols, 0, CARD_COLS);
      assert [] + [LOADER_COLS] == [LOADER_COLS];
    }

    /** One scatter card: header and payload, column-binary encoded. */
    method AppendScatterCard(at: Word16, payload: array<Byte>, len: nat) returns (ok: bool)
      requires img.Valid() && 0 < len <= CHUNK && len <= payload.Length
      modifies img`nCards, img.idx, img.cols
      ensures img.Valid() && img.loaderCard == old(img.loaderCard)
      ensures ok == Fits(old(img.Cards()), CARD_COLS)
      ensures ok ==> img.Cards() == old(img.Cards()) + [ScatterCard(at, old(payload[..len]))]
      ensures !ok ==> img.Cards() == old(img.Cards())
    {
      ghost var bytes := payload[..len];
      var cols := ScatterColumns(at, payload, len);
      assert cols[0..0 + CARD_COLS] == cols[..];
      ok := img.Append(cols, 0, CARD_COLS);
    }

    method ScatterColumns(at: Word16, payload: array<Byte>, len: nat) returns (cols: array<Word16>)
      requires 0 < len <= CHUNK && len <= payload.Length
      ensures fresh(cols) && cols.Length == CARD_COLS && cols[..] == ScatterCard(at, payload[..len])
    {
      hide ByteToCol;
      ghost var bytes := payload[..len];
      cols := new Word16[CARD_COLS](_ => 0);
      BlankColumn();
      cols[8] := EncodeByte(len - 1);
      cols[9] := EncodeByte(at / 256);
      cols[10] := EncodeByte(at % 256);
      for i := 0 to len
        invariant forall j :: 0 <= j < 11 + i ==> cols[j] == ByteToCol(ScatterByte(at, bytes, j))
        invariant forall j :: 11 + i <= j < CARD_COLS ==> cols[j] == 0
      {
        cols[11 + i] := EncodeByte(payload[i]);
      }
    }

    method FlushCard() returns (ok: bool)
      requires img.Valid() && buf.Length == CHUNK && fill <= CHUNK
      modifies this`addr, this`fill, img`nCards, img.idx, img.cols
      ensures img.Valid() && img.loaderCard == old(img.loaderCard) && fill <= CHUNK
      ensures ok == Flush(Enc(old(addr), old(buf[..fill]), old(img.Cards()))).Some?
      ensures ok ==>
                Enc(addr, buf[..fill], img.Cards()) == Flush(Enc(old(addr), old(buf[..fill]), old(img.Cards()))).value
      ensures !ok ==> fill == old(fill)
    {
      hide ScatterCard, Fits, WellFormed, Deck;
      if fill == 0 {
        return true;
      }
      if addr + fill > TWO16 {
        return false;
      }
      ok := AppendScatterCard(addr, buf, fill);
      if !ok {
        return false;
      }
      addr := addr + fill;
      fill := 0;
      return true;
    }

    /** Copy n bytes to the end of the buffer. */
    method Buffer(data: array<Byte>, pos: nat, n: nat, ghost all: seq<Byte>)
      requires buf.Length == CHUNK && data != buf && fill + n <= CHUNK
      requires pos + n <= |all| <= data.Length && data[..|all|] == all
      modifies this`fill, buf
      ensures fill == old(fill) + n && buf[..fill] == old(buf[..fill]) + all[pos..pos + n]
    {
      ghost var l, r := data[pos..pos + n], all[pos..pos + n];
      forall i | 0 <= i < n ensures l[i] == r[i] {
        assert data[..|all|][pos + i] == data[pos + i];
      }
      assert l == r;
      CopyBytes(buf, fill, data, pos, n);
      fill := fill + n;
    }

    /** Append binary data, in any chunking. */
    method FeedData(data: array<Byte>, len: nat) returns (ok: bool)
      requires Valid() && len <= data.Length && data != buf
      modifies this`addr, this`fill, buf, img`nCards, img.idx, img.cols
      ensures img.Valid() && img.loaderCard == old(img.loaderCard)
      ensures ok == Feed(old(Snap()), data[..len]).Some?
      ensures ok ==> Valid() && Snap() == Feed(old(Snap()), data[..len]).value
    {
      hide Flush, Fits, WellFormed, Deck;
      ghost var all := data[..len];
      ghost var target := Feed(Snap(), all);
      var pos := 0;
      assert all[0..] == all;
      while pos < len
        invariant 0 <= pos <= len && Valid() && img.loaderCard == old(img.loaderCard) && data[..len] == all
        invariant Feed(Snap(), all[pos..]) == target
      {
        ghost var e, rest := Snap(), all[pos..];
        var take := CHUNK - fill;
        if take > len - pos {
          take := len - pos;
        }
        Buffer(data, pos, take, all);
        FeedTurn(e, rest, take);
        Pieces(all, pos, take);
        pos := pos + take;
        if fill == CHUNK {
          var flushed := FlushCard();
          if !flushed {
            return false;
          }
          FlushEmpties(e.(buf := e.buf + rest[..take]));
        }
      }
      assert all[len..] == [];
      return true;
    }

    /** What is left in the buffer becomes a last payload card, and the jump card closes the deck. */
    method Finish(entry: Word16) returns (ok: bool)
      requires Valid()
      modifies this`addr, this`fill, img`nCards, img.idx, img.cols
      ensures img.Valid() && img.loaderCard == old(img.loaderCard)
      ensures ok == End(old(Snap()), entry).Some?
      ensures ok ==> img.Cards() == End(old(Snap()), entry).value
    {
      hide Flush, Fits, ScatterCard, WellFormed, Deck, Termination;
      ok := FlushCard();
      if ok {
        ok := AppendTermination(entry);
      }
    }

    method AppendTermination(entry: Word16) returns (ok: bool)
      requires img.Valid()
      modifies img`nCards, img.idx, img.cols
      ensures img.Valid() && img.loaderCard == old(img.loaderCard)
      ensures ok == Fits(old(img.Cards()), CARD_COLS)
      ensures ok ==> img.Cards() == old(img.Cards()) + [ScatterCard(0, Termination(entry))]
    {
      hide Fits, ScatterCard, WellFormed, Deck;
      var term := new Byte[8](i requires 0 <= i < 8 => Termination(entry)[i]);
      assert term[..8] == Termination(entry);
      ok := AppendScatterCard(0, term, 8);
    }
  }

  lemma FeedTurn(e: Enc, data: seq<Byte>, k: nat)
    requires |e.buf| < CHUNK && data != [] && k == Take(e, data)
    ensures var f := e.(buf := e.buf + data[..k]);
            Feed(e, data) == if |f.buf| == CHUNK then AndThen(Flush(f), data[k..]) else Feed(f, data[k..])
  {
    hide Flush;
    FlushEmpties(e.(buf := e.buf + data[..k]));
  }

  lemma FirstCardFits()
    ensures Fits([], CARD_COLS)
  {
  }

  lemma Pieces(s: seq<Byte>, at: nat, n: nat)
    requires at + n <= |s|
    ensures s[at..][..n] == s[at..at + n] && s[at..][n..] == s[at + n..]
  {
  }

  lemma BlankColumn()
    ensures ByteToCol(0) == 0
  {
    BlankBits(8);
  }

  lemma {:induction false} BlankBits(i: nat)
    requires i <= 8
    ensures ByteToColBits(0, i) == 0
  {
    if i > 0 {
      BlankBits(i - 1);
      ZeroBit(i - 1);
    }
  }

  method CopyBytes(dst: array<Byte>, at: nat, src: array<Byte>, from: nat, n: nat)
    requires dst != src && at + n <= dst.Length && from + n <= src.Length
    modifies dst
    ensures dst[..at] == old(dst[..at]) && dst[..at + n] == old(dst[..at]) + src[from..from + n]
  {
    for i := 0 to n
      invariant dst[..at] == old(dst[..at])
      invariant dst[at..at + i] == src[from..from + i]
    {
      dst[at + i] := src[from + i];
      assert dst[at..at + (i + 1)] == dst[at..at + i] + [src[from + i]];
      assert src[from..from + (i + 1)] == src[from..from + i] + [src[from + i]];
    }
    assert dst[..at + n] == dst[..at] + dst[at..at + n];
  }

  // ---- The whole program as one hex card ----------------------------------------------------------------------

  function IplCard(data: seq<Byte>): (c: Card)
    requires |data| <= IPL_MAX
    ensures |c| == CARD_COLS
  {
    seq(CARD_COLS, i requires 0 <= i < CARD_COLS =>
      if i / 2 >= |data| then 0
      else if i % 2 == 0 then NibbleToHexCol(data[i / 2] / 16)
      else NibbleToHexCol(data[i / 2] % 16))
  }

  method BuildIpl(img: DeckBuffer, data: array<Byte>, len: nat) returns (ok: bool)
    requires img.Valid() && len <= data.Length
    modifies img, img.idx, img.cols
    ensures img.Valid() && ok == (1 <= len <= IPL_MAX)
    ensures ok ==> img.loaderCard == 0 && img.Cards() == [IplCard(old(data[..len]))]
    ensures !ok ==> img.Image() == old(img.Image())
  {
    if len == 0 || len > IPL_MAX {
      return false;
    }
    var cols := IplColumns(data, len);
    img.Reset(0);
    assert cols[0..0 + CARD_COLS] == cols[..];
    ok := img.Append(cols, 0, CARD_COLS);
  }

  method IplColumns(data: array<Byte>, len: nat) returns (cols: array<Word16>)
    requires 1 <= len <= IPL_MAX && len <= data.Length
    ensures fresh(cols) && cols.Length == CARD_COLS && cols[..] == IplCard(data[..len])
  {
    hide NibbleToHexCol;
    ghost var bytes := data[..len];
    cols := new Word16[CARD_COLS](_ => 0);
    for i := 0 to len
      invariant forall j :: 0 <= j < 2 * i ==> cols[j] == IplCard(bytes)[j]
      invariant forall j :: 2 * i <= j < CARD_COLS ==> cols[j] == 0
    {
      cols[2 * i] := NibbleToHexCol(data[i] / 16);
      cols[2 * i + 1] := NibbleToHexCol(data[i] % 16);
    }
  }

  /** The IPL packs the hex-decoded nibbles two per byte: the program, then zero bytes. */
  lemma IplRoundTrip(data: seq<Byte>, j: nat)
    requires |data| <= IPL_MAX && j < CARD_COLS / 2
    ensures var c := IplCard(data);
            Transcoded(c[2 * j], Hex) * 16 + Transcoded(c[2 * j + 1], Hex) == if j < |data| then data[j] else 0
  {
    hide Transcoded, NibbleToHexCol;
    HexRoundTrip(0);
    ZeroPunches();
    if j < |data| {
      HexRoundTrip(data[j] / 16);
      HexRoundTrip(data[j] % 16);
    }
  }

  lemma LowIsNibble(data: seq<Byte>, j: nat)
    requires |data| <= IPL_MAX && j < CARD_COLS / 2
    ensures Transcoded(IplCard(data)[2 * j + 1], Hex) < 16
  {
    hide Transcoded, NibbleToHexCol;
    HexRoundTrip(if j < |data| then data[j] % 16 else 0);
    ZeroPunches();
  }

  lemma ZeroPunches()
    ensures NibbleToHexCol(0) == 0
  {
  }
}
