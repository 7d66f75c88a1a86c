/** The 32-bit word that carries one presented nibble to the presenter's TX FIFO. */
module PresenterWord {
  import opened Bits

  /** What the machine samples at one character strobe: data pins LU00-LU03 and FININ. */
  datatype Char = Char(nibble: nat, fini: bool)

  /** Bits 8:0 pins, 16:9 strobe width, 31:17 gap. */
  function Pack(nibble: Byte, fini: bool, wTicks: Word16, gTicks: Word16): Word32 {
    nibble % 16 + (if fini then 0x100 else 0) + (wTicks % 0x100) * 0x200 + (gTicks % 0x8000) * 0x2_0000
  }

  /** Read the pins GP0..GP8 as the machine does: LU04-LU07 carry no data. */
  function Sample(pins: nat): Char {
    Char(pins % 16, pins / 0x100 % 2 == 1)
  }

  function Samples(words: seq<Word32>): (cs: seq<Char>)
    ensures |cs| == |words|
  {
    seq(|words|, i requires 0 <= i < |words| => Sample(words[i] % 0x200))
  }

  /** The three OUT instructions of the presenter, shifting right by 9, 8 and 15 bits, recover the fields. */
  lemma FieldsRecovered(nibble: Byte, fini: bool, wTicks: Word16, gTicks: Word16)
    ensures var w := Pack(nibble, fini, wTicks, gTicks);
            && Sample(w % 0x200) == Char(nibble % 16, fini)
            && w % 0x200 / 16 % 16 == 0
            && w / 0x200 % 0x100 == wTicks % 0x100
            && w / 0x200 / 0x100 % 0x8000 == gTicks % 0x8000
  {
    var n, f, w, g := nibble % 16, (if fini then 1 else 0), wTicks % 0x100, gTicks % 0x8000;
    var word := Pack(nibble, fini, wTicks, gTicks);
    assert word == (n + 0x100 * f) + 0x200 * (w + 0x100 * g);
    assert word % 0x200 == n + 0x100 * f && word / 0x200 == w + 0x100 * g;
    assert (w + 0x100 * g) % 0x100 == w && (w + 0x100 * g) / 0x100 == g;
    assert (n + 0x100 * f) % 16 == n && (n + 0x100 * f) / 0x100 == f;
    assert (n + 0x100 * f) / 16 == 16 * f;
  }
}
