/** How the image builder sizes the allocation table: eight rounds towards a fixed point it does not always reach. */
module FatSizing {

  const BS: int := 512
  const ROOT_SECS: int := 32
  const ROUNDS: nat := 8

  /** Data sectors left beside a reserved sector, two tables of `fatsz` sectors and the root directory. */
  function Data(total: int, fatsz: int): int { total - 1 - 2 * fatsz - ROOT_SECS }

  /** Table sectors for that many clusters. */
  function Need(total: int, fatsz: int): int { ((Data(total, fatsz) + 2) * 2 + BS - 1) / BS }

  datatype Sizing = Sizing(fatsz: int, clusters: int)

  /** At most `rounds` rounds: stop at a fixed point, otherwise try what was needed. */
  function Settle(total: int, fatsz: int, rounds: nat): Sizing
    requires rounds > 0
    decreases rounds
  {
    var need := Need(total, fatsz);
    if need == fatsz || rounds == 1 then Sizing(need, Data(total, fatsz)) else Settle(total, need, rounds - 1)
  }

  function SizeOf(total: int): Sizing { Settle(total, (total * 2 + BS - 1) / BS, ROUNDS) }

  method SizeTable(total: nat) returns (fatsz: int, clusters: int)
    ensures Sizing(fatsz, clusters) == SizeOf(total)
  {
    fatsz, clusters := (total * 2 + BS - 1) / BS, 0;
    for i := 0 to ROUNDS
      invariant i < ROUNDS ==> SizeOf(total) == Settle(total, fatsz, ROUNDS - i)
      invariant i == ROUNDS ==> SizeOf(total) == Sizing(fatsz, clusters)
    {
      clusters := Data(total, fatsz);
      var need := Need(total, fatsz);
      if need == fatsz {
        break;
      }
      fatsz := need;
    }
  }

  /** The sizes at which the rounds swing between two values for ever. */
  predicate Swings(total: int) { (total - 31) % 258 == 1 || (total - 31) % 258 == 2 }

  function Quotient(total: int): int { (2 * total - 62) / 516 }
  function Remainder(total: int): int { (2 * total - 62) % 516 }

  /** One round, as a distance from the quotient. */
  function Round(r: int, d: int): int { (r - 4 * d + BS - 1) / BS }

  lemma NeedIsRound(total: int, d: int)
    ensures Need(total, Quotient(total) + d) == Quotient(total) + Round(Remainder(total), d)
  {
    var q, r := Quotient(total), Remainder(total);
    assert 2 * total - 62 == 516 * q + r;
    assert (Data(total, q + d) + 2) * 2 + BS - 1 == 512 * q + (r - 4 * d + BS - 1);
  }

  lemma RemainderFacts(total: int)
    ensures 0 <= Remainder(total) <= 514 && Remainder(total) % 2 == 0
    ensures Swings(total) <==> Remainder(total) == 2 || Remainder(total) == 4
  {
    var q, r := Quotient(total), Remainder(total);
    assert 2 * (total - 31) == 516 * q + r;
    assert total - 31 == 258 * q + r / 2;
    assert (total - 31) % 258 == r / 2;
  }

  /** Where the rounds end, as a distance from the quotient: the last need, and the last size tried. */
  function Final(r: int, d: int, rounds: nat): (int, int)
    requires rounds > 0
    decreases rounds
  {
    var n := Round(r, d);
    if n == d || rounds == 1 then (n, d) else Final(r, n, rounds - 1)
  }

  lemma {:induction false} SettleIsFinal(total: int, d: int, rounds: nat)
    requires rounds > 0
    ensures var (n, t) := Final(Remainder(total), d, rounds);
            Settle(total, Quotient(total) + d, rounds)
            == Sizing(Quotient(total) + n, Data(total, Quotient(total) + t))
    decreases rounds
  {
    hide Need, Round, Quotient, Remainder, Data;
    NeedIsRound(total, d);
    if rounds > 1 { SettleIsFinal(total, Round(Remainder(total), d), rounds - 1); }
  }

  lemma FinalStep(r: int, d: int, rounds: nat)
    requires rounds > 1
    ensures Final(r, d, rounds) == if Round(r, d) == d then (d, d) else Final(r, Round(r, d), rounds - 1)
  {
  }

  /** Close to the quotient, four rounds decide. */
  lemma NearEnd(r: int, d: int, rounds: nat)
    requires 0 <= r <= 514 && r % 2 == 0 && r != 2 && r != 4 && 0 <= d <= 10 && rounds >= 5
    ensures Final(r, d, rounds) == if r == 0 then (0, 0) else (1, 1)
  {
    hide Final;
    FinalStep(r, d, rounds);
    var a := Round(r, d);
    FinalStep(r, a, rounds - 1);
    var b := Round(r, a);
    FinalStep(r, b, rounds - 2);
    FinalStep(r, Round(r, b), rounds - 3);
  }

  lemma {:induction false} Swinging(r: int, d: int, rounds: nat)
    requires (r == 2 || r == 4) && 0 <= d <= 1 && rounds > 0
    ensures Final(r, d, rounds) == if (d + rounds) % 2 == 0 then (0, 1) else (1, 0)
    decreases rounds
  {
    if rounds > 1 { Swinging(r, 1 - d, rounds - 1); }
  }

  /** From the first estimate, the eight rounds end at the quotient or one above it. */
  lemma FarEnd(r: int, d: int)
    requires 0 <= r <= 514 && r % 2 == 0 && 1 <= d <= 0x2_0000
    ensures Final(r, d, ROUNDS) == if r == 2 || r == 4 then (1, 0) else if r == 0 then (0, 0) else (1, 1)
  {
    hide Final;
    FinalStep(r, d, 8);
    var a := Round(r, d);
    assert -1024 <= a <= 1;
    FinalStep(r, a, 7);
    var b := Round(r, a);
    assert 0 <= b <= 10;
    if r == 2 || r == 4 {
      FinalStep(r, b, 6);
      var c := Round(r, b);
      assert b == 0 ==> c == 1;
      assert b > 0 ==> c == 0;
      Swinging(r, c, 5);
    } else {
      NearEnd(r, b, 6);
      if a == d { NearEnd(r, a, 5); }
      if b == a { NearEnd(r, a, 5); }
    }
  }

  /** The table size the builder arrives at is a fixed point exactly at the sizes that do not swing; at the others it is
      one sector more than the size its cluster count was computed for, so it counts two clusters that do not exist. */
  lemma SettlesIff(total: nat)
    requires 31 <= total < 0x1_0000_0000
    ensures var s := SizeOf(total);
            && (Need(total, s.fatsz) == s.fatsz <==> !Swings(total))
            && s.clusters == Data(total, s.fatsz) + (if Swings(total) then 2 else 0)
            && s.fatsz == Quotient(total) + (if Remainder(total) == 0 then 0 else 1)
            && s.fatsz * 256 >= s.clusters + 2
  {
    hide Settle, Final, Swings, Round, Need;
    var q, r := Quotient(total), Remainder(total);
    RemainderFacts(total);
    Divided(total);
    var d := (total * 2 + BS - 1) / BS - q;
    FirstEstimate(total, q, r, d);
    SettleIsFinal(total, d, ROUNDS);
    FarEnd(r, d);
    NeedIsRound(total, 0);
    NeedIsRound(total, 1);
    RoundFromZeroAndOne(r);
    EnoughTable(total, q, r);
  }

  /** The default 3 MiB settles.  2080 KiB does not: its 17-sector table needs 16, and 4095 clusters are counted where
      there is room for 4093. */
  lemma SizesThatSettleAndSwing()
    ensures SizeOf(6144) == Sizing(24, 6063) && Need(6144, 24) == 24
    ensures SizeOf(4160) == Sizing(17, 4095) && Need(4160, 17) == 16 && Data(4160, 17) == 4093
  {
    hide SizeOf;
    SettlesIff(6144);
    SettlesIff(4160);
  }

  /** 66304 sectors: a table of 257, and more clusters than 16 bits can number. */
  lemma SizeThatFillsTheTable()
    ensures SizeOf(66304) == Sizing(257, 65757)
  {
    hide SizeOf;
    SettlesIff(66304);
  }

  lemma Divided(total: nat)
    ensures 2 * total - 62 == 516 * Quotient(total) + Remainder(total)
  {
  }

  lemma RoundFromZeroAndOne(r: int)
    requires 0 <= r <= 514 && r % 2 == 0
    ensures Round(r, 0) == 0 <==> r == 0
    ensures Round(r, 1) == 1 <==> r > 4
  {
  }

  lemma EnoughTable(total: nat, q: int, r: int)
    requires 0 <= r <= 514 && r % 2 == 0 && 2 * total - 62 == 516 * q + r
    ensures Data(total, q) == Data(total, q + 1) + 2
    ensures r == 0 ==> q * 256 >= Data(total, q) + 2
    ensures (q + 1) * 256 >= Data(total, q + 1) + 2
    ensures r <= 4 ==> (q + 1) * 256 >= Data(total, q) + 2
  {
  }

  /** Even when it counts two clusters too many, a volume big enough for the builder is big enough for FAT16. */
  lemma StaysFat16(total: nat)
    requires 31 <= total < 0x1_0000_0000 && SizeOf(total).clusters >= 4085
    ensures Data(total, SizeOf(total).fatsz) >= 4085 && SizeOf(total).fatsz > 0
  {
    hide SizeOf;
    SettlesIff(total);
    RemainderFacts(total);
    Divided(total);
  }

  lemma FirstEstimate(total: nat, q: int, r: int, d: int)
    requires 31 <= total < 0x1_0000_0000 && 0 <= r <= 514
    requires 2 * total - 62 == 516 * q + r && d == (total * 2 + BS - 1) / BS - q
    ensures 1 <= d <= 0x2_0000
  {
    assert d == (4 * q + r + 62 + BS - 1) / BS;
  }

  lemma SmallIsRefused(total: nat)
    requires total < 31
    ensures SizeOf(total).clusters < 4085
  {
    hide Settle, Need, Data;
    SettleSmall(total, (total * 2 + 511) / 512, ROUNDS);
  }

  lemma {:induction false} SettleSmall(total: nat, fatsz: int, rounds: nat)
    requires total < 31 && 0 <= fatsz <= 1 && rounds > 0
    ensures Settle(total, fatsz, rounds).clusters < 4085
    decreases rounds
  {
    if rounds > 1 && Need(total, fatsz) != fatsz { SettleSmall(total, Need(total, fatsz), rounds - 1); }
  }
}
