/** The machine's side of a load: the channel's packing of presented nibbles and the documented scatter loader. */
module Machine {
  import opened Wrappers
  import opened Bits
  import opened DeckImages
  import opened PresenterWord

  const CARD_BUFFER: nat := 0x36
  const LOAD_FLOOR: nat := 0x86   // first address past the card buffer

  // ---- Channel ------------------------------------------------------------------------------------------------

  /** The transfers seen on the data lines: FININ closes one.  An unfinished transfer yields nothing yet. */
  function Receive(cs: seq<Char>, pending: seq<nat>): seq<seq<nat>>
    decreases |cs|
  {
    if cs == [] then []
    else
      var cur := pending + [cs[0].nibble];
      if cs[0].fini then [cur] + Receive(cs[1..], []) else Receive(cs[1..], cur)
  }

  function Nibbles(cs: seq<Char>): (ns: seq<nat>)
    ensures |ns| == |cs|
  {
    seq(|cs|, i requires 0 <= i < |cs| => cs[i].nibble)
  }

  /** A complete transfer: FININ on the last character and on no other. */
  predicate Complete(cs: seq<Char>) {
    cs != [] && forall i :: 0 <= i < |cs| ==> cs[i].fini == (i == |cs| - 1)
  }

  lemma {:induction false} ReceiveComplete(cs: seq<Char>, rest: seq<Char>, pending: seq<nat>)
    requires Complete(cs)
    ensures Receive(cs + rest, pending) == [pending + Nibbles(cs)] + Receive(rest, [])
    decreases |cs|
  {
    var all := cs + rest;
    var cur := pending + [cs[0].nibble];
    assert all[1..] == cs[1..] + rest;
    if |cs| == 1 {
      assert cs[1..] + rest == rest;
      assert cur == pending + Nibbles(cs);
    } else {
      forall i | 0 <= i < |cs[1..]| ensures cs[1..][i].fini == (i == |cs[1..]| - 1) {
        assert cs[1..][i] == cs[i + 1];
      }
      ReceiveComplete(cs[1..], rest, cur);
      assert cur + Nibbles(cs[1..]) == pending + Nibbles(cs);
    }
  }

  /** The channel keeps the low nibble of each presented value and packs two per byte, high first. */
  function PackBytes(ns: seq<nat>): (bs: seq<Byte>)
    ensures |bs| == |ns| / 2
  {
    seq(|ns| / 2, i requires 0 <= i < |ns| / 2 => ns[2 * i] % 16 * 16 + ns[2 * i + 1] % 16)
  }

  // ---- Memory and loader --------------------------------------------------------------------------------------

  type Memory = seq<Byte>

  predicate IsMemory(mem: Memory) { |mem| == TWO16 }

  /** A card read into consecutive locations. */
  function Store(mem: Memory, at: nat, bs: seq<Byte>): (r: Memory)
    requires IsMemory(mem) && at + |bs| <= TWO16
    ensures IsMemory(r)
    ensures forall a :: 0 <= a < TWO16 ==> r[a] == if at <= a < at + |bs| then bs[a - at] else mem[a]
  {
    mem[..at] + bs + mem[at + |bs|..]
  }

  /** Move characters: n bytes one at a time, ascending, with 16-bit addresses. */
  function Mvc(mem: Memory, dst: nat, src: nat, n: nat): (r: Memory)
    requires IsMemory(mem) && dst < TWO16 && src < TWO16
    ensures IsMemory(r)
    decreases n
  {
    if n == 0 then mem
    else Mvc(mem[dst := mem[src]], (dst + 1) % TWO16, (src + 1) % TWO16, n - 1)
  }

  function Word(hi: nat, lo: nat): nat { hi * 256 + lo }

  /** One turn of the loader: read a card at 0x36, take LL and II from offset 8, move LL+1 bytes from offset 11. */
  function LoadCard(mem: Memory, card: seq<Byte>): (r: Memory)
    requires IsMemory(mem) && |card| == CARD_COLS
    ensures IsMemory(r)
  {
    var m := Store(mem, CARD_BUFFER, card);
    var ll: nat := m[CARD_BUFFER + 8];
    var ii: nat := Word(m[CARD_BUFFER + 9], m[CARD_BUFFER + 10]);
    Mvc(m, ii, CARD_BUFFER + 11, ll + 1)
  }

  predicate FullCards(cards: seq<seq<Byte>>) {
    forall i :: 0 <= i < |cards| ==> |cards[i]| == CARD_COLS
  }

  function LoadCards(mem: Memory, cards: seq<seq<Byte>>): (r: Memory)
    requires IsMemory(mem) && FullCards(cards)
    ensures IsMemory(r)
  {
    if cards == [] then mem
    else LoadCard(LoadCards(mem, cards[..|cards| - 1]), cards[|cards| - 1])
  }

  /** A move between disjoint areas copies. */
  lemma {:induction false} MvcDisjoint(mem: Memory, dst: nat, src: nat, n: nat, a: nat)
    requires IsMemory(mem) && dst + n <= TWO16 && src + n <= TWO16 && dst < TWO16 && src < TWO16
    requires (dst + n <= src || src + n <= dst) && a < TWO16
    ensures Mvc(mem, dst, src, n)[a] == if dst <= a < dst + n then mem[src + (a - dst)] else mem[a]
    decreases n
  {
    hide Mvc;
    if n == 0 {
      MvcStep(mem, dst, src, 0);
    } else {
      var m := mem[dst := mem[src]];
      MvcStep(mem, dst, src, n);
      if n == 1 {
        MvcStep(m, (dst + 1) % TWO16, (src + 1) % TWO16, 0);
      } else {
        MvcDisjoint(m, dst + 1, src + 1, n - 1, a);
      }
    }
  }

  lemma MvcStep(mem: Memory, dst: nat, src: nat, n: nat)
    requires IsMemory(mem) && dst < TWO16 && src < TWO16
    ensures Mvc(mem, dst, src, n)
         == if n == 0 then mem else Mvc(mem[dst := mem[src]], (dst + 1) % TWO16, (src + 1) % TWO16, n - 1)
  {
  }

  /** A card whose header names `n` bytes at `at`, clear of the buffer: those bytes arrive, and besides them only the
      card buffer changes. */
  lemma LoadCardStores(mem: Memory, card: seq<Byte>, at: nat, n: nat, a: nat)
    requires IsMemory(mem) && |card| == CARD_COLS && 1 <= n <= 66
    requires card[8] == n - 1 && Word(card[9], card[10]) == at
    requires at + n <= CARD_BUFFER || (LOAD_FLOOR <= at && at + n <= TWO16)
    requires a < TWO16 && !(CARD_BUFFER <= a < LOAD_FLOOR)
    ensures LoadCard(mem, card)[a] == if at <= a < at + n then card[11 + (a - at)] else mem[a]
  {
    hide Mvc, Store, Word;
    var m := Store(mem, CARD_BUFFER, card);
    StoreAt(mem, card, CARD_BUFFER + 8);
    StoreAt(mem, card, CARD_BUFFER + 9);
    StoreAt(mem, card, CARD_BUFFER + 10);
    MvcDisjoint(m, at, CARD_BUFFER + 11, n, a);
    StoreAt(mem, card, a);
    if at <= a < at + n { StoreAt(mem, card, CARD_BUFFER + 11 + (a - at)); }
  }

  lemma StoreAt(mem: Memory, card: seq<Byte>, a: nat)
    requires IsMemory(mem) && |card| == CARD_COLS && a < TWO16
    ensures Store(mem, CARD_BUFFER, card)[a]
         == if CARD_BUFFER <= a < LOAD_FLOOR then card[a - CARD_BUFFER] else mem[a]
  {
  }

  // ---- The instructions of the jump card ----------------------------------------------------------------------

  /** The instruction at pc, if it is one of the two the jump card is made of: a two-byte no-operation, or the
      unconditional jump to the address in the two bytes after its opcode, most significant first. */
  function Executed(mem: Memory, pc: nat): (next: Option<nat>)
    requires IsMemory(mem)
  {
    if pc + 4 > TWO16 then None
    else if mem[pc] == 0x07 && mem[pc + 1] == 0x00 then Some(pc + 2)
    else if mem[pc] == 0x43 && mem[pc + 1] == 0xF0 then Some(mem[pc + 2] as nat * 0x100 + mem[pc + 3])
    else None
  }

  /** Where n instructions lead. */
  function After(mem: Memory, pc: nat, n: nat): Option<nat>
    requires IsMemory(mem)
  {
    if n == 0 then Some(pc)
    else match After(mem, pc, n - 1) case None => None case Some(p) => Executed(mem, p)
  }
}
