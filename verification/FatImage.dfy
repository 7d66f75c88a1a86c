/** The layout of a built FAT16 image: boot sector, two tables, root directory, and the files one after another. */
module FatImage {
  import opened Bits
  import opened FatModel
  import opened FatDir
  import opened FatAlias
  import Sz = FatSizing

  /** Names are the characters a host file name can hold: at most 255 of them, ASCII and not zero. */
  datatype File = File(name: Name, data: seq<Byte>)

  predicate PlainName(name: Name) { 1 <= |name| <= 255 && forall i :: 0 <= i < |name| ==> 1 <= name[i] < 0x80 }

  predicate Plain(f: File) { PlainName(f.name) }

  predicate AllPlain(files: seq<File>) { forall i :: 0 <= i < |files| ==> Plain(files[i]) }

  /** One 11-byte alias per file, whose first byte is a letter, digit, underscore or hyphen. */
  predicate Aliased(files: seq<File>, aliases: seq<Alias>) {
    |aliases| == |files| && forall i :: 0 <= i < |aliases| ==> |aliases[i]| == 11 && AliasChar(aliases[i][0])
  }

  // ---- Allocation: contiguous clusters, from 2 up -------------------------------------------------------------

  function Clusters(data: seq<Byte>): (n: nat)
    ensures n >= 1 && n * BS >= |data|
  {
    if |data| == 0 then 1 else (|data| + BS - 1) / BS
  }

  function First(files: seq<File>, k: nat): (c: nat)
    requires k <= |files|
    ensures c >= 2
  {
    if k == 0 then 2 else First(files, k - 1) + Clusters(files[k - 1].data)
  }

  function ChainWords(first: nat, n: nat): (ws: seq<nat>)
    ensures |ws| == n
  {
    seq<nat>(n, i => if i == n - 1 then 0xFFFF else first + i + 1)
  }

  function LinksTo(files: seq<File>, k: nat): (ws: seq<nat>)
    requires k <= |files|
    ensures |ws| == First(files, k) - 2
  {
    if k == 0 then [] else LinksTo(files, k - 1) + ChainWords(First(files, k - 1), Clusters(files[k - 1].data))
  }

  /** The entry of cluster First(k) + i. */
  lemma {:induction false} LinkAt(files: seq<File>, n: nat, k: nat, i: nat)
    requires k < n <= |files| && i < Clusters(files[k].data)
    ensures First(files, k) - 2 + i < |LinksTo(files, n)|
    ensures LinksTo(files, n)[First(files, k) - 2 + i]
         == if i == Clusters(files[k].data) - 1 then 0xFFFF else First(files, k) + i + 1
  {
    hide Clusters;
    if k < n - 1 { LinkAt(files, n - 1, k, i); }
  }

  const RESERVED_WORDS: seq<nat> := [0xFFF8, 0xFFFF]

  function Words(files: seq<File>, fatsz: nat): (ws: seq<nat>)
    requires First(files, |files|) <= fatsz * 256
    ensures |ws| == fatsz * 256
  {
    RESERVED_WORDS + LinksTo(files, |files|) + seq<nat>(fatsz * 256 - First(files, |files|), i => 0)
  }

  function Lo(w: nat): Byte { w % 256 }
  function Hi(w: nat): Byte { w / 256 % 256 }

  /** Little-endian 16-bit words. */
  function Packed(ws: seq<nat>): (bs: seq<Byte>)
    ensures |bs| == 2 * |ws|
  {
    seq<Byte>(2 * |ws|, i requires 0 <= i < 2 * |ws| => if i % 2 == 0 then Lo(ws[i / 2]) else Hi(ws[i / 2]))
  }

  lemma PackedAt(ws: seq<nat>, c: nat)
    requires c < |ws| && ws[c] < TWO16
    ensures Le16(Packed(ws)[2 * c], Packed(ws)[2 * c + 1]) == ws[c]
  {
    assert (2 * c) / 2 == c && (2 * c + 1) / 2 == c;
  }

  // ---- Directory entries --------------------------------------------------------------------------------------

  type Entry = e: seq<Byte> | |e| == ENTRY witness Zeros(ENTRY)

  /** Character j of a long name: the name, a zero, then all ones. */
  function Code(name: Name, j: nat): (c: nat)
    ensures c < TWO16
  {
    if j < |name| then name[j] else if j == |name| then 0 else 0xFFFF
  }

  function Parts(name: Name): nat { |name| / PART + 1 }

  function Two(c: nat): seq<Byte> { [Lo(c), Hi(c)] }

  function Checksum(short: seq<Byte>): (s: Byte)
    decreases |short|
  {
    if short == [] then 0
    else
      var s := Checksum(short[..|short| - 1]);
      (s / 2 + s % 2 * 128 + short[|short| - 1]) % 256
  }

  function Codes(name: Name, i: nat): (c: seq<nat>)
    requires i >= 1
    ensures |c| == PART && forall t :: 0 <= t < PART ==> c[t] == Code(name, (i - 1) * PART + t)
    ensures forall t :: 0 <= t < PART ==> c[t] < TWO16
  {
    seq<nat>(PART, t requires 0 <= t < PART => Code(name, (i - 1) * PART + t))
  }

  /** Thirteen characters at their places around the attribute, the checksum and the reserved bytes. */
  function PartBytes(ord: Byte, sum: Byte, c: seq<nat>): (e: Entry)
    requires |c| == PART
  {
    [ord, Lo(c[0]), Hi(c[0]), Lo(c[1]), Hi(c[1]), Lo(c[2]), Hi(c[2]), Lo(c[3]), Hi(c[3]), Lo(c[4]), Hi(c[4]),
     0x0F, 0, sum,
     Lo(c[5]), Hi(c[5]), Lo(c[6]), Hi(c[6]), Lo(c[7]), Hi(c[7]), Lo(c[8]), Hi(c[8]),
     Lo(c[9]), Hi(c[9]), Lo(c[10]), Hi(c[10]),
     0, 0, Lo(c[11]), Hi(c[11]), Lo(c[12]), Hi(c[12])]
  }

  lemma PartBytesRead(ord: Byte, sum: Byte, c: seq<nat>, t: nat)
    requires |c| == PART && t < PART && c[t] < TWO16
    ensures Rd16(PartBytes(ord, sum, c), LFN_OFF[t]) == c[t]
  {
    hide Lo, Hi, Le16;
    WordSplits(c[t]);
    var e := PartBytes(ord, sum, c);
    var o := LFN_OFF[t];
    assert e[o] == Lo(c[t]) && e[o + 1] == Hi(c[t]) by { PartByteAt(ord, sum, c, t); }
  }

  lemma PartByteAt(ord: Byte, sum: Byte, c: seq<nat>, t: nat)
    requires |c| == PART && t < PART
    ensures PartBytes(ord, sum, c)[LFN_OFF[t]] == Lo(c[t]) && PartBytes(ord, sum, c)[LFN_OFF[t] + 1] == Hi(c[t])
  {
    hide Lo, Hi;
    if t < 5 {
      assert LFN_OFF[t] == 1 + 2 * t;
    } else if t < 11 {
      assert LFN_OFF[t] == 14 + 2 * (t - 5);
    } else {
      assert LFN_OFF[t] == 28 + 2 * (t - 11);
    }
  }

  /** Part i of a long name, counted from 1; the last part is flagged. */
  function LfnPart(name: Name, i: nat, sum: Byte): (e: Entry)
    requires 1 <= i <= Parts(name) && |name| <= 255
  {
    PartBytes(if i == Parts(name) then i + 0x40 else i, sum, Codes(name, i))
  }

  lemma LfnPartReads(name: Name, i: nat, sum: Byte, t: nat)
    requires 1 <= i <= Parts(name) && |name| <= 255 && t < PART
    ensures var e := LfnPart(name, i, sum);
            && Rd16(e, LFN_OFF[t]) == Code(name, (i - 1) * PART + t)
            && e[0] % 32 == i && e[0] != 0 && e[0] != 0xE5 && e[11] == 0x0F
  {
    hide Lo, Hi, Le16, Rd16, Code;
    PartBytesRead(if i == Parts(name) then i + 0x40 else i, sum, Codes(name, i), t);
  }

  lemma WordSplits(w: nat)
    requires w < TWO16
    ensures Le16(Lo(w), Hi(w)) == w
  {
  }

  /** Parts i down to 1, the order on disk. */
  function LfnDown(name: Name, i: nat, sum: Byte): (es: seq<Entry>)
    requires i <= Parts(name) && |name| <= 255
    ensures |es| == i
  {
    if i == 0 then [] else [LfnPart(name, i, sum)] + LfnDown(name, i - 1, sum)
  }

  lemma {:induction false} LfnDownAt(name: Name, i: nat, sum: Byte, t: nat)
    requires t < i <= Parts(name) && |name| <= 255
    ensures LfnDown(name, i, sum)[t] == LfnPart(name, i - t, sum)
  {
    hide LfnPart;
    if t > 0 { LfnDownAt(name, i - 1, sum, t - 1); }
  }

  function ShortEntry(alias: Alias, first: nat, size: nat): (e: Entry)
    requires |alias| == 11
  {
    alias + [0x20] + Zeros(14) + Two(first) + Two(size) + Two(size / TWO16)
  }

  lemma ShortEntryReads(alias: Alias, first: nat, size: nat)
    requires |alias| == 11 && first < TWO16 && size < TWO32
    ensures var e := ShortEntry(alias, first, size);
            e[0] == alias[0] && e[11] == 0x20 && Rd16(e, 26) == first && Rd32(e, 28) == size
  {
    hide Lo, Hi, Le16;
    WordSplits(first);
    TwoWords(size);
    var e := ShortEntry(alias, first, size);
    assert e[26] == Lo(first) && e[27] == Hi(first) && e[28] == Lo(size) && e[29] == Hi(size);
    assert e[30] == Lo(size / TWO16) && e[31] == Hi(size / TWO16);
  }

  lemma TwoWords(size: nat)
    requires size < TWO32
    ensures Le16(Lo(size), Hi(size)) + TWO16 * Le16(Lo(size / TWO16), Hi(size / TWO16)) == size
  {
    hide Lo, Hi, Le16;
    assert size % TWO16 + TWO16 * (size / TWO16) == size;
    LowWord(size);
    WordSplits(size % TWO16);
    WordSplits(size / TWO16);
  }

  lemma LowWord(n: nat)
    ensures Lo(n) == Lo(n % TWO16) && Hi(n) == Hi(n % TWO16)
  {
    var q, r := n / TWO16, n % TWO16;
    assert n == 256 * (256 * q) + r;
    assert n / 256 == 256 * q + r / 256;
  }

  /** `GE120 DECKS`. */
  const LABEL: seq<Byte> := [0x47, 0x45, 0x31, 0x32, 0x30, 0x20, 0x44, 0x45, 0x43, 0x4B, 0x53]

  const LABEL_ENTRY: Entry := LABEL + [0x08] + Zeros(20)

  function FileEntries(f: File, alias: Alias, first: nat): (es: seq<Entry>)
    requires Plain(f) && |alias| == 11
    ensures |es| == Parts(f.name) + 1
  {
    LfnDown(f.name, Parts(f.name), Checksum(alias)) + [ShortEntry(alias, first, |f.data|)]
  }

  function EntriesTo(files: seq<File>, aliases: seq<Alias>, k: nat): (es: seq<Entry>)
    requires AllPlain(files) && Aliased(files, aliases) && k <= |files|
    ensures es != []
  {
    if k == 0 then [LABEL_ENTRY]
    else EntriesTo(files, aliases, k - 1) + FileEntries(files[k - 1], aliases[k - 1], First(files, k - 1))
  }

  function Flat(es: seq<Entry>): (bs: seq<Byte>)
    ensures |bs| == ENTRY * |es|
  {
    seq<Byte>(ENTRY * |es|, i requires 0 <= i < ENTRY * |es| => es[i / ENTRY][i % ENTRY])
  }

  lemma FlatAt(es: seq<Entry>, k: nat)
    requires k < |es|
    ensures Flat(es)[k * ENTRY..k * ENTRY + ENTRY] == es[k]
  {
    var l, r := Flat(es)[k * ENTRY..k * ENTRY + ENTRY], es[k];
    forall j | 0 <= j < ENTRY ensures l[j] == r[j] {
      assert (k * ENTRY + j) / ENTRY == k && (k * ENTRY + j) % ENTRY == j;
    }
  }

  const ROOT_ENTRIES: nat := 512
  const ROOT_BYTES: nat := 16384

  /** The directory area: 16384 bytes, or more if more than 512 entries were written. */
  function Root(es: seq<Entry>): (r: seq<Byte>)
    ensures |r| == if |es| <= ROOT_ENTRIES then ROOT_BYTES else ENTRY * |es|
  {
    Flat(es) + if |es| <= ROOT_ENTRIES then Zeros(ROOT_BYTES - ENTRY * |es|) else []
  }

  // ---- Data and the whole image -------------------------------------------------------------------------------

  function PaddedData(data: seq<Byte>): (d: seq<Byte>)
    ensures |d| == Clusters(data) * BS && d[..|data|] == data
  {
    data + Zeros(Clusters(data) * BS - |data|)
  }

  function DataTo(files: seq<File>, k: nat): (d: seq<Byte>)
    requires k <= |files|
    ensures |d| == (First(files, k) - 2) * BS
  {
    if k == 0 then [] else DataTo(files, k - 1) + PaddedData(files[k - 1].data)
  }

  /** File k's bytes in the data area. */
  lemma {:induction false} DataAt(files: seq<File>, n: nat, k: nat, p: nat)
    requires k < n <= |files| && p < |files[k].data|
    ensures (First(files, k) - 2) * BS + p < |DataTo(files, n)|
    ensures DataTo(files, n)[(First(files, k) - 2) * BS + p] == files[k].data[p]
  {
    hide Clusters;
    if k < n - 1 {
      DataAt(files, n - 1, k, p);
    } else {
      assert PaddedData(files[k].data)[..|files[k].data|][p] == files[k].data[p];
    }
  }

  /** Bytes 0..61: jump, system name, geometry, label and type; `t16` and `t32` are the two total-sector fields. */
  function BootHead(t16: nat, t32: nat, fatsz: nat): (h: seq<Byte>)
    ensures |h| == 62
  {
    [0xEB, 0x3C, 0x90, 0x4D, 0x53, 0x44, 0x4F, 0x53, 0x35, 0x2E, 0x30]
    + [Lo(BS), Hi(BS), 1, Lo(1), Hi(1), 2, Lo(ROOT_ENTRIES), Hi(ROOT_ENTRIES), Lo(t16), Hi(t16), 0xF8,
       Lo(fatsz), Hi(fatsz), 63, 0, 255, 0, 0, 0, 0, 0, Lo(t32), Hi(t32), Lo(t32 / TWO16), Hi(t32 / TWO16)]
    + [0, 0, 0x29, 0x32, 0x31, 0x45, 0x47, 0x47, 0x45, 0x31, 0x32, 0x30, 0x20, 0x44, 0x45, 0x43, 0x4B, 0x53,
       0x46, 0x41, 0x54, 0x31, 0x36, 0x20, 0x20, 0x20]
  }

  /** The head, zeros, and the signature; a total below 65536 goes to the 16-bit field, any other to the 32-bit one. */
  function Boot(total: nat, fatsz: nat): (b: seq<Byte>)
    ensures |b| == BS
  {
    (if total < TWO16 then BootHead(total, 0, fatsz) else BootHead(0, total, fatsz)) + Zeros(448) + [0x55, 0xAA]
  }

  function Prefix(files: seq<File>, aliases: seq<Alias>, total: nat, fatsz: nat): (p: seq<Byte>)
    requires AllPlain(files) && Aliased(files, aliases) && First(files, |files|) <= fatsz * 256
  {
    var fat := Packed(Words(files, fatsz));
    Boot(total, fatsz) + fat + fat + Root(EntriesTo(files, aliases, |files|)) + DataTo(files, |files|)
  }

  /** The zeroed image of `size` bytes overwritten from the start; it grows if the content is longer. */
  function Image(files: seq<File>, aliases: seq<Alias>, size: nat, fatsz: nat): (img: seq<Byte>)
    requires AllPlain(files) && Aliased(files, aliases) && First(files, |files|) <= fatsz * 256
  {
    var p := Prefix(files, aliases, size / BS, fatsz);
    p + if |p| <= size then Zeros(size - |p|) else []
  }

  /** Everything the layout of an image depends on. */
  datatype Build = Build(files: seq<File>, aliases: seq<Alias>, size: nat, fatsz: nat)

  predicate Laid(b: Build) {
    && AllPlain(b.files) && Aliased(b.files, b.aliases)
    && First(b.files, |b.files|) <= b.fatsz * 256
  }

  function Entries(b: Build): (es: seq<Entry>)
    requires Laid(b)
    ensures es != []
  {
    EntriesTo(b.files, b.aliases, |b.files|)
  }

  function Dev(b: Build): Device
    requires Laid(b)
  {
    Image(b.files, b.aliases, b.size, b.fatsz)
  }

  predicate FitsRoot(b: Build)
    requires Laid(b)
  {
    |Entries(b)| <= ROOT_ENTRIES
  }

  // ---- What the builder accepts -------------------------------------------------------------------------------

  /** Everything `build` checks, or that packing the fields would refuse. */
  predicate Accepts(files: seq<File>, size: nat) {
    var s := Sz.SizeOf(size / BS);
    && s.clusters >= 4085 && size / BS < TWO32 && s.fatsz < TWO16
    && First(files, |files|) - 2 <= s.clusters && First(files, |files|) <= TWO16
    && forall j :: 0 <= j < |files| ==> |files[j].data| < TWO32
  }

  /** An accepted list of files, with any aliases the builder may have chosen. */
  predicate Built(b: Build) {
    AllPlain(b.files) && Aliased(b.files, b.aliases) && Accepts(b.files, b.size)
    && b.fatsz == Sz.SizeOf(b.size / BS).fatsz
  }

  // ---- Laws of the layout that the reader does not need -------------------------------------------------------

  /** The checksum of a longer alias: the eight bits of the one before move down by one place, the lowest to the top,
      and the character is added. */
  lemma ChecksumRotates(short: seq<Byte>, c: Byte)
    ensures Checksum([]) == 0
    ensures exists r: Byte :: Checksum(short + [c]) == (r + c) % 256 && Rotated(Checksum(short), r)
  {
    assert (short + [c])[..|short|] == short;
    var s := Checksum(short);
    var r: Byte := s / 2 + s % 2 * 128;
    RotationBits(s, r);
    assert Checksum(short + [c]) == (r + c) % 256;
  }

  /** Bit k of the new byte is bit k + 1 of the old one, and bit 7 is bit 0. */
  predicate Rotated(s: Byte, r: Byte) { forall k: nat :: k < 8 ==> Bit(r, k) == Bit(s, (k + 1) % 8) }

  lemma RotationBits(s: Byte, r: Byte)
    requires r == s / 2 + s % 2 * 128
    ensures Rotated(s, r)
  {
    hide Bit;
    var h: nat := s / 2;
    forall k: nat | k < 8 ensures Bit(r, k) == Bit(s, (k + 1) % 8) {
      BitUp(s, k);
      if s % 2 == 0 {
        HighBitsClear(h, 7);
        LowBit(s);
      } else {
        HighBitsClear(h, 7);
        LowBit(s);
        AddTop(h, k);
      }
    }
  }

  lemma BitUp(s: nat, k: nat)
    ensures Bit(s, k + 1) == Bit(s / 2, k)
  {
  }

  lemma LowBit(s: nat)
    ensures Bit(s, 0) == (s % 2 == 1)
  {
  }

  lemma {:induction false} HighBitsClear(h: nat, k: nat)
    requires h < Pow2(k)
    ensures !Bit(h, k)
    decreases k
  {
    if k > 0 { HighBitsClear(h / 2, k - 1); }
  }

  lemma AddTop(h: nat, k: nat)
    requires h < 128 && k < 8
    ensures Bit(h + 128, k) == (k == 7 || Bit(h, k))
  {
    AddPower(h, 7, k);
    assert Pow2(7) == 128 by { assert Pow2(4) == 16; }
  }

  /** A power above a number sets its own bit and no other. */
  lemma {:induction false} AddPower(h: nat, n: nat, k: nat)
    requires h < Pow2(n) && k <= n
    ensures Bit(h + Pow2(n), k) == (k == n || Bit(h, k))
    decreases n
  {
    if n > 0 {
      assert Pow2(n) == 2 * Pow2(n - 1);
      assert (h + Pow2(n)) / 2 == h / 2 + Pow2(n - 1);
      if k > 0 { AddPower(h / 2, n - 1, k - 1); }
    }
  }

  /** The table starts with the media byte and all ones. */
  lemma TableHead(files: seq<File>, fatsz: nat)
    requires First(files, |files|) <= fatsz * 256
    ensures Packed(Words(files, fatsz))[..4] == [0xF8, 0xFF, 0xFF, 0xFF]
  {
    hide LinksTo, First, Lo, Hi;
    var ws := Words(files, fatsz);
    assert ws[0] == 0xFFF8 && ws[1] == 0xFFFF;
    FirstBytes(ws);
    ReservedBytes();
  }

  lemma FirstBytes(ws: seq<nat>)
    requires |ws| >= 2
    ensures Packed(ws)[..4] == [Lo(ws[0]), Hi(ws[0]), Lo(ws[1]), Hi(ws[1])]
  {
    hide Lo, Hi;
  }

  lemma ReservedBytes()
    ensures Lo(0xFFF8) == 0xF8 && Hi(0xFFF8) == 0xFF && Lo(0xFFFF) == 0xFF && Hi(0xFFFF) == 0xFF
  {
  }

  /** Clusters that belong to no file are free. */
  lemma FreeEntries(files: seq<File>, fatsz: nat, c: nat)
    requires First(files, |files|) <= c < fatsz * 256
    ensures Words(files, fatsz)[c] == 0
  {
    hide First, LinksTo;
  }

  /** A string literal in bytes. */
  predicate Spells(bytes: seq<Byte>, text: string) {
    |bytes| == |text| && forall i :: 0 <= i < |bytes| ==> bytes[i] == text[i] as int
  }

  /** The texts and marks of the boot sector: the jump and the maker's name, the media byte, the geometry, ... */
  lemma BootMarks(total: nat, fatsz: nat)
    ensures var b := Boot(total, fatsz);
            && b[..3] == [0xEB, 0x3C, 0x90] && Spells(b[3..11], "MSDOS5.0")
            && b[21] == 0xF8 && b[24..28] == [63, 0, 255, 0] && b[28..32] == [0, 0, 0, 0]
  {
    hide Lo, Hi, BootHead;
    var t16, t32 := if total < TWO16 then total else 0, if total < TWO16 then 0 else total;
    HeadMarks(t16, t32, fatsz);
    assert Boot(total, fatsz)[..62] == BootHead(t16, t32, fatsz);
    Inside(Boot(total, fatsz), BootHead(t16, t32, fatsz));
  }

  /** ... the serial number, label and type, and zeros up to the signature. */
  lemma BootText(total: nat, fatsz: nat)
    ensures var b := Boot(total, fatsz);
            && b[36..39] == [0, 0, 0x29] && Spells(b[39..43], "21EG") && Spells(b[43..54], "GE120 DECKS")
            && Spells(b[54..62], "FAT16   ") && forall i :: 62 <= i < 510 ==> b[i] == 0
  {
    hide Lo, Hi, BootHead;
    var t16, t32 := if total < TWO16 then total else 0, if total < TWO16 then 0 else total;
    HeadText(t16, t32, fatsz);
    assert Boot(total, fatsz)[..62] == BootHead(t16, t32, fatsz);
    Inside(Boot(total, fatsz), BootHead(t16, t32, fatsz));
  }

  lemma Inside(b: seq<Byte>, h: seq<Byte>)
    requires |h| <= |b| && b[..|h|] == h
    ensures forall i, j :: 0 <= i <= j <= |h| ==> b[i..j] == h[i..j]
  {
    forall i, j | 0 <= i <= j <= |h| ensures b[i..j] == h[i..j] {
      assert b[..|h|][i..j] == b[i..j];
    }
  }

  lemma HeadMarks(t16: nat, t32: nat, fatsz: nat)
    ensures var h := BootHead(t16, t32, fatsz);
            && h[..3] == [0xEB, 0x3C, 0x90] && Spells(h[3..11], "MSDOS5.0")
            && h[21] == 0xF8 && h[24..28] == [63, 0, 255, 0] && h[28..32] == [0, 0, 0, 0]
  {
    hide Lo, Hi;
  }

  lemma HeadText(t16: nat, t32: nat, fatsz: nat)
    ensures var h := BootHead(t16, t32, fatsz);
            && h[36..39] == [0, 0, 0x29] && Spells(h[39..43], "21EG") && Spells(h[43..54], "GE120 DECKS")
            && Spells(h[54..62], "FAT16   ")
  {
    hide Lo, Hi;
    var h := BootHead(t16, t32, fatsz);
    assert h[36] == 0 && h[37] == 0 && h[38] == 0x29;
    assert h[39] == '2' as int && h[40] == '1' as int && h[41] == 'E' as int && h[42] == 'G' as int;
  }

  /** The volume label of the directory has the same text. */
  lemma LabelText()
    ensures Spells(LABEL_ENTRY[..11], "GE120 DECKS") && LABEL_ENTRY[11..] == [0x08] + Zeros(20)
  {
  }

  /** The short entry starts with the alias and is zero between the attribute and the first cluster. */
  lemma ShortEntryRest(alias: Alias, first: nat, size: nat)
    requires |alias| == 11
    ensures var e := ShortEntry(alias, first, size); e[..11] == alias && forall i :: 12 <= i < 26 ==> e[i] == 0
  {
    hide Lo, Hi;
  }

  /** A name part is marked as the last one or not, carries the checksum, and is zero where it has no characters. */
  lemma LfnPartRest(name: Name, i: nat, sum: Byte)
    requires 1 <= i <= Parts(name) && |name| <= 255
    ensures var e := LfnPart(name, i, sum);
            e[0] / 0x40 == (if i == Parts(name) then 1 else 0) && e[12] == 0 && e[13] == sum && e[26] == e[27] == 0
  {
    hide Lo, Hi, Code;
  }
}
