/** What a column of punched holes means, as a byte, in each reading mode. */
module Transcode {
  import opened Bits

  datatype TcMode = Normal | Binary | Hex | Colbin

  const B2R: seq<nat> := [9, 8, 7, 6, 3, 2, 1, 0]

  /** Sum of the punched digit rows below `b`. */
  function HexSum(column: nat, b: nat): nat {
    if b == 0 then 0 else HexSum(column, b - 1) + (if Bit(column, b - 1) then b - 1 else 0)
  }

  /** Bits 0..i-1 of the column-binary byte. */
  function ColbinBits(column: nat, i: nat): (r: nat)
    requires i <= 8
    ensures r < 256
    ensures forall k: nat :: k < 8 ==> Bit(r, k) == (k < i && Bit(column, B2R[k]))
  {
    hide Bit, SetBit;
    if i == 0 then
      NoBits();
      0
    else
      var low := ColbinBits(column, i - 1);
      OneMoreBit(low, i - 1);
      if Bit(column, B2R[i - 1]) then SetBit(low, i - 1) else low
  }

  lemma NoBits()
    ensures forall k: nat :: k < 8 ==> !Bit(0, k)
  {
    hide Bit;
    forall k: nat | k < 8 ensures !Bit(0, k) {
      ZeroBit(k);
    }
  }

  lemma OneMoreBit(low: nat, i: nat)
    requires low < 256 && i < 8
    ensures SetBit(low, i) < 256
    ensures forall k: nat :: k < 8 ==> Bit(SetBit(low, i), k) == (k == i || Bit(low, k))
  {
    hide Bit, SetBit, Pow2;
    EightBits();
    SetBitBound(low, i, 8);
    forall k: nat | k < 8 ensures Bit(SetBit(low, i), k) == (k == i || Bit(low, k)) {
      SetBitBit(low, i, k);
    }
  }

  lemma EightBits()
    ensures Pow2(8) == 256
  {
    assert Pow2(4) == 16;
  }

  function Transcoded(column: nat, mode: TcMode): Byte {
    match mode
    case Binary => column % 256
    case Hex => HexSum(column, 10) % 16
    case Colbin => ColbinBits(column, 8)
    case Normal => 0x20
  }

  method TranscodeColumn(column: nat, mode: TcMode) returns (r: Byte)
    ensures r == Transcoded(column, mode)
  {
    if mode == Binary {
      return column % 256;
    }
    if mode == Hex {
      var n := 0;
      for b := 0 to 10
        invariant n == HexSum(column, b)
      {
        if Bit(column, b) {
          n := n + b;
        }
      }
      return n % 16;
    }
    if mode == Colbin {
      var out: nat := 0;
      for i := 0 to 8
        invariant out == ColbinBits(column, i)
      {
        if Bit(column, B2R[i]) {
          out := SetBit(out, i);
        }
      }
      return out;
    }
    return 0x20;
  }
}
