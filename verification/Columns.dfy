/** Bytes and nibbles to card columns, and back through the reader's decoders. */
module Columns {
  import opened Bits
  import opened Transcode

  /** Punches for bits 0..i-1 of a byte. */
  function ByteToColBits(byte: Byte, i: nat): (col: nat)
    requires i <= 8
    ensures col < Pow2(10)
  {
    if i == 0 then 0
    else
      var low := ByteToColBits(byte, i - 1);
      if Bit(byte, i - 1) then
        SetBitBound(low, B2R[i - 1], 10);
        SetBit(low, B2R[i - 1])
      else low
  }

  lemma RowsDiffer(j: nat, k: nat)
    requires j < 8 && k < 8
    ensures B2R[j] == B2R[k] <==> j == k
  {
  }

  /** Bit k of the byte is punched in row B2R[k]. */
  lemma {:induction false} PunchAt(byte: Byte, i: nat, k: nat)
    requires i <= 8 && k < 8
    ensures Bit(ByteToColBits(byte, i), B2R[k]) == (k < i && Bit(byte, k))
  {
    if i == 0 {
      ZeroBit(B2R[k]);
    } else {
      PunchAt(byte, i - 1, k);
      RowsDiffer(i - 1, k);
      if Bit(byte, i - 1) {
        SetBitBit(ByteToColBits(byte, i - 1), B2R[i - 1], B2R[k]);
      }
    }
  }

  function ByteToCol(byte: Byte): Word16 {
    assert Pow2(10) == 1024;
    ByteToColBits(byte, 8)
  }

  method EncodeByte(byte: Byte) returns (col: Word16)
    ensures col == ByteToCol(byte)
  {
    col := 0;
    for i := 0 to 8
      invariant col == ByteToColBits(byte, i)
    {
      if Bit(byte, i) {
        assert ByteToColBits(byte, i + 1) == SetBit(col, B2R[i]) < Pow2(10) == 1024;
        col := SetBit(col, B2R[i]);
      }
    }
  }

  /** The column-binary decoder undoes the encoder, for every byte. */
  lemma ColbinRoundTrip(byte: Byte)
    ensures Transcoded(ByteToCol(byte), Colbin) == byte
  {
    var col := ByteToCol(byte);
    assert Pow2(8) == 256;
    forall k: nat | k < 8 ensures Bit(ColbinBits(col, 8), k) == Bit(byte, k) {
      assert Bit(ColbinBits(col, 8), k) == Bit(col, B2R[k]);
      PunchAt(byte, 8, k);
    }
    BitsDetermine(ColbinBits(col, 8), byte, 8);
  }

  /** Canonical punches of one hex digit. */
  function NibbleToHexCol(n: nat): Word16
    requires n < 16
  {
    if n == 0 then 0
    else if n <= 9 then assert Pow2(n) <= Pow2(9) by { Pow2Monotone(n, 9); } assert Pow2(9) == 512; Pow2(n)
    else assert Pow2(9) == 512; assert Pow2(n - 9) <= Pow2(9) by { Pow2Monotone(n - 9, 9); } Pow2(9) + Pow2(n - 9)
  }

  lemma {:induction false} Pow2Monotone(a: nat, b: nat)
    requires a <= b
    ensures Pow2(a) <= Pow2(b)
    decreases b
  {
    if a < b {
      Pow2Monotone(a, b - 1);
    }
  }

  lemma {:induction false} Pow2Bit(n: nat, k: nat)
    ensures Bit(Pow2(n), k) == (k == n)
    decreases n
  {
    if n == 0 {
      if k > 0 {
        ZeroBit(k - 1);
      }
    } else {
      assert Pow2(n) / 2 == Pow2(n - 1);
      if k > 0 {
        Pow2Bit(n - 1, k - 1);
      }
    }
  }

  /** Adding a lower power of two to a higher one sets its bit. */
  lemma {:induction false} TwoPunches(hi: nat, lo: nat, k: nat)
    requires lo < hi
    ensures Bit(Pow2(hi) + Pow2(lo), k) == (k == hi || k == lo)
    decreases lo
  {
    assert Pow2(hi) == 2 * Pow2(hi - 1);
    if lo == 0 {
      assert (Pow2(hi) + 1) / 2 == Pow2(hi - 1);
      if k > 0 {
        Pow2Bit(hi - 1, k - 1);
      }
    } else {
      assert (Pow2(hi) + Pow2(lo)) / 2 == Pow2(hi - 1) + Pow2(lo - 1);
      if k > 0 {
        TwoPunches(hi - 1, lo - 1, k - 1);
      }
    }
  }

  /** Digit sum of a column with the given punches, row by row. */
  function PunchSum(rows: set<nat>, b: nat): nat {
    if b == 0 then 0 else PunchSum(rows, b - 1) + (if b - 1 in rows then b - 1 else 0)
  }

  lemma {:induction false} HexSumIsPunchSum(col: nat, rows: set<nat>, b: nat)
    requires forall k: nat :: k < b ==> Bit(col, k) == (k in rows)
    ensures HexSum(col, b) == PunchSum(rows, b)
  {
    if b > 0 {
      HexSumIsPunchSum(col, rows, b - 1);
      assert Bit(col, b - 1) == (b - 1 in rows);
    }
  }

  lemma {:induction false} PunchSumNone(rows: set<nat>, b: nat)
    requires rows == {}
    ensures PunchSum(rows, b) == 0
  {
    if b > 0 {
      PunchSumNone(rows, b - 1);
    }
  }

  lemma {:induction false} PunchSumOne(rows: set<nat>, r: nat, b: nat)
    requires rows == {r}
    ensures PunchSum(rows, b) == if r < b then r else 0
  {
    if b > 0 {
      PunchSumOne(rows, r, b - 1);
    }
  }

  lemma {:induction false} PunchSumTwo(rows: set<nat>, q: nat, r: nat, b: nat)
    requires rows == {q, r} && q < r
    ensures PunchSum(rows, b) == (if q < b then q else 0) + (if r < b then r else 0)
  {
    if b > 0 {
      PunchSumTwo(rows, q, r, b - 1);
    }
  }

  /** The hex decoder (sum of the punched digit rows) undoes the canonical punches. */
  lemma HexRoundTrip(n: nat)
    requires n < 16
    ensures Transcoded(NibbleToHexCol(n), Hex) == n
  {
    hide PunchSum, Pow2, Bit, HexSum;
    if n == 0 {
      forall k: nat | k < 10 ensures !Bit(0, k) { ZeroBit(k); }
      HexSumIsPunchSum(0, {}, 10);
      PunchSumNone({}, 10);
    } else if n <= 9 {
      OneDigit(n);
    } else {
      TwoDigits(9, n - 9);
    }
  }

  /** A column with one punch is the digit of its row. */
  lemma OneDigit(r: nat)
    ensures HexSum(Pow2(r), 10) == if r < 10 then r else 0
  {
    hide PunchSum, Pow2, Bit, HexSum;
    forall k: nat | k < 10 ensures Bit(Pow2(r), k) == (k in {r}) { Pow2Bit(r, k); }
    HexSumIsPunchSum(Pow2(r), {r}, 10);
    PunchSumOne({r}, r, 10);
  }

  /** A column with two punches is the sum of the digits of their rows. */
  lemma TwoDigits(hi: nat, lo: nat)
    requires lo < hi
    ensures HexSum(Pow2(hi) + Pow2(lo), 10) == (if lo < 10 then lo else 0) + if hi < 10 then hi else 0
  {
    hide PunchSum, Pow2, Bit, HexSum;
    var col := Pow2(hi) + Pow2(lo);
    forall k: nat | k < 10 ensures Bit(col, k) == (k in {lo, hi}) { TwoPunches(hi, lo, k); }
    HexSumIsPunchSum(col, {lo, hi}, 10);
    PunchSumTwo({lo, hi}, lo, hi, 10);
  }

  // ---- The punches, row by row --------------------------------------------------------------------------------

  /** Bits 0 to 7 of a byte are punched in rows 9, 8, 7, 6, 3, 2, 1 and 0, and nothing else is. */
  lemma ByteRows(byte: Byte)
    ensures var c := ByteToCol(byte);
            && c < 0x400 && !Bit(c, 4) && !Bit(c, 5)
            && Bit(c, 9) == Bit(byte, 0) && Bit(c, 8) == Bit(byte, 1) && Bit(c, 7) == Bit(byte, 2)
            && Bit(c, 6) == Bit(byte, 3) && Bit(c, 3) == Bit(byte, 4) && Bit(c, 2) == Bit(byte, 5)
            && Bit(c, 1) == Bit(byte, 6) && Bit(c, 0) == Bit(byte, 7)
  {
    hide Bit, ByteToColBits, Pow2;
    TenRows();
    NoPunch(byte, 8, 4);
    NoPunch(byte, 8, 5);
    forall k: nat | k < 8 ensures Bit(ByteToCol(byte), B2R[k]) == Bit(byte, k) {
      PunchAt(byte, 8, k);
    }
    assert B2R[0] == 9 && B2R[1] == 8 && B2R[2] == 7 && B2R[3] == 6;
    assert B2R[4] == 3 && B2R[5] == 2 && B2R[6] == 1 && B2R[7] == 0;
  }

  lemma TenRows()
    ensures Pow2(10) == 0x400
  {
    assert Pow2(5) == 32;
  }

  lemma {:induction false} NoPunch(byte: Byte, i: nat, row: nat)
    requires i <= 8 && row !in B2R
    ensures !Bit(ByteToColBits(byte, i), row)
  {
    hide Bit, SetBit;
    if i == 0 {
      ZeroBit(row);
    } else {
      NoPunch(byte, i - 1, row);
      assert B2R[i - 1] in B2R;
      SetBitBit(ByteToColBits(byte, i - 1), B2R[i - 1], row);
    }
  }

  /** Value of a punch in a digit row. */
  function Punch(column: nat, row: nat): nat { if Bit(column, row) then row else 0 }

  /** What the decoder reads in each mode from any column: the sum of the punched digits, one bit per row, the low eight
      rows as they are, or a blank. */
  lemma DecodedIs(column: nat)
    ensures Transcoded(column, Hex) == (Punch(column, 1) + Punch(column, 2) + Punch(column, 3) + Punch(column, 4)
                                        + Punch(column, 5) + Punch(column, 6) + Punch(column, 7) + Punch(column, 8)
                                        + Punch(column, 9)) % 16
    ensures var b := Transcoded(column, Colbin);
            && Bit(b, 0) == Bit(column, 9) && Bit(b, 1) == Bit(column, 8) && Bit(b, 2) == Bit(column, 7)
            && Bit(b, 3) == Bit(column, 6) && Bit(b, 4) == Bit(column, 3) && Bit(b, 5) == Bit(column, 2)
            && Bit(b, 6) == Bit(column, 1) && Bit(b, 7) == Bit(column, 0)
    ensures Transcoded(column, Binary) == column % 256 && Transcoded(column, Normal) == 0x20
  {
    hide Bit, ColbinBits, HexSum;
    FiveDigits(column);
    TenDigits(column);
    assert B2R[0] == 9 && B2R[1] == 8 && B2R[2] == 7 && B2R[3] == 6;
    assert B2R[4] == 3 && B2R[5] == 2 && B2R[6] == 1 && B2R[7] == 0;
  }

  lemma FiveDigits(column: nat)
    ensures HexSum(column, 5) == Punch(column, 1) + Punch(column, 2) + Punch(column, 3) + Punch(column, 4)
  {
    hide Bit;
    assert HexSum(column, 1) == 0;
    assert HexSum(column, 3) == Punch(column, 1) + Punch(column, 2);
  }

  lemma TenDigits(column: nat)
    ensures HexSum(column, 10) == HexSum(column, 5) + Punch(column, 5) + Punch(column, 6) + Punch(column, 7)
                                  + Punch(column, 8) + Punch(column, 9)
  {
    hide Bit;
    assert HexSum(column, 7) == HexSum(column, 5) + Punch(column, 5) + Punch(column, 6);
    assert HexSum(column, 9) == HexSum(column, 7) + Punch(column, 7) + Punch(column, 8);
  }
}
