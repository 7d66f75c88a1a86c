/** Volumes with a 12-bit table: two entries packed into three bytes, chains of any clusters, clusters of any size. */
module Fat12 {
  import opened Wrappers
  import opened Bits
  import opened FatModel
  import opened FatRead

  // ---- The packing --------------------------------------------------------------------------------------------

  /** Two 12-bit words in three bytes. */
  function Packed(a: nat, b: nat): (bs: seq<Byte>)
    requires a < 0x1000 && b < 0x1000
    ensures |bs| == 3
  {
    [a % 256, a / 256 + 16 * (b % 16), b / 16]
  }

  predicate Words12(ws: seq<nat>) { forall i :: 0 <= i < |ws| ==> ws[i] < 0x1000 }

  /** A table of 12-bit words; a last word without a partner takes a byte and a half. */
  function Table12(ws: seq<nat>): (bs: seq<Byte>)
    requires Words12(ws)
    ensures |bs| == (3 * |ws| + 1) / 2
    decreases |ws|
  {
    if ws == [] then []
    else if |ws| == 1 then Packed(ws[0], 0)[..2]
    else Packed(ws[0], ws[1]) + Table12(ws[2..])
  }

  /** The two bytes of word c are neighbours, and which of their digits are its own depends on c being even or odd. */
  lemma {:induction false} WordInTable(ws: seq<nat>, c: nat)
    requires Words12(ws) && c < |ws|
    ensures c + c / 2 + 1 < |Table12(ws)|
    ensures var (lo, hi) := (Table12(ws)[c + c / 2], Table12(ws)[c + c / 2 + 1]);
            if c % 2 == 0 then lo == ws[c] % 256 && hi % 16 == ws[c] / 256
            else lo / 16 == ws[c] % 16 && hi == ws[c] / 16
    decreases |ws|
  {
    hide Packed;
    if |ws| >= 2 {
      PairBytes(ws[0], ws[1]);
      if c >= 2 {
        WordInTable(ws[2..], c - 2);
        assert c + c / 2 == 3 + ((c - 2) + (c - 2) / 2);
      }
    } else {
      PairBytes(ws[0], 0);
    }
  }

  lemma PairBytes(a: nat, b: nat)
    requires a < 0x1000 && b < 0x1000
    ensures var p := Packed(a, b);
            p[0] == a % 256 && p[1] % 16 == a / 256 && p[1] / 16 == b % 16 && p[2] == b / 16
  {
  }

  lemma EvenWord(lo: Byte, hi: Byte, w: nat)
    requires w < 0x1000 && lo == w % 256 && hi % 16 == w / 256
    ensures (lo + 0x100 * hi as nat) % 0x1000 == w
  {
    assert hi == 16 * (hi / 16) + hi % 16;
    assert lo + 0x100 * hi as nat == 0x1000 * (hi / 16) + w;
  }

  lemma OddWord(lo: Byte, hi: Byte, w: nat)
    requires w < 0x1000 && lo / 16 == w % 16 && hi == w / 16
    ensures (lo + 0x100 * hi as nat) / 16 == w
  {
    assert lo == 16 * (lo / 16) + lo % 16;
    assert lo + 0x100 * hi as nat == 16 * w + lo % 16;
  }

  // ---- The lookup ---------------------------------------------------------------------------------------------

  /** The volume's table is `ws`, on sectors that can be read. */
  predicate Tabled(dev: Device, v: Volume, ws: seq<nat>) {
    && v.fatType == 12 && Words12(ws)
    && var at := v.fatStart * 512;
       at + |Table12(ws)| + 512 <= |dev| && dev[at..at + |Table12(ws)|] == Table12(ws)
  }

  /** The driver finds every word, in either half of its bytes, inside a sector or astride two. */
  lemma LookupFindsWord(dev: Device, v: Volume, ws: seq<nat>, c: nat)
    requires Tabled(dev, v, ws) && c < |ws|
    ensures NextCluster(dev, v, c) == ws[c]
  {
    hide Table12, ByteAt, Decode;
    var at, bytes := v.fatStart * 512, Table12(ws);
    WordInTable(ws, c);
    TableByte(dev, at, bytes, c + c / 2);
    TableByte(dev, at, bytes, c + c / 2 + 1);
    assert (at + (c + c / 2)) + 1 == at + (c + c / 2 + 1);
    WordDecodes(v, c, bytes[c + c / 2], bytes[c + c / 2 + 1], ws[c]);
  }

  lemma WordDecodes(v: Volume, c: nat, lo: Byte, hi: Byte, w: nat)
    requires v.fatType == 12 && w < 0x1000
    requires if c % 2 == 0 then lo == w % 256 && hi % 16 == w / 256 else lo / 16 == w % 16 && hi == w / 16
    ensures Decode(v, c, lo, hi) == w
  {
    if c % 2 == 0 { EvenWord(lo, hi, w); } else { OddWord(lo, hi, w); }
  }

  /** So does every sequence of lookups through the one-sector cache. */
  lemma CachedLookupsFindWords(c: SectorCache, dev: Device, v: Volume, ws: seq<nat>, cluss: seq<nat>, i: nat)
    requires Coherent(c, dev) && Tabled(dev, v, ws) && i < |cluss|
    requires forall k :: 0 <= k < |cluss| ==> cluss[k] < |ws| && InRange(v, cluss[k])
    ensures |c.sec| == 512 && |Lookups(c, dev, v, cluss)| == |cluss|
    ensures Lookups(c, dev, v, cluss)[i] == ws[cluss[i]]
  {
    hide Tabled, Lookups, NextCluster, InRange;
    TwelveBits(dev, v, ws);
    LookupsAreDirect(c, dev, v, cluss, i);
    LookupFindsWord(dev, v, ws, cluss[i]);
  }

  lemma TableByte(dev: Device, at: nat, bytes: seq<Byte>, i: nat)
    requires at + |bytes| + 512 <= |dev| && dev[at..at + |bytes|] == bytes && i < |bytes|
    ensures ByteAt(dev, at + i) == Some(bytes[i])
  {
    assert dev[at..at + |bytes|][i] == dev[at + i];
    var q := (at + i) / BS;
    assert (q + 1) * BS <= at + i + BS;
  }

  // ---- Files --------------------------------------------------------------------------------------------------

  /** The words from `first` on link the clusters of the chain, one to the next, and the last to an end mark. */
  predicate Chained(ws: seq<nat>, chain: seq<nat>) {
    && chain != [] && (forall k :: 0 <= k < |chain| ==> 2 <= chain[k] < 0xFF8 && chain[k] < |ws|)
    && (forall k :: 0 <= k < |chain| - 1 ==> ws[chain[k]] == chain[k + 1])
    && ws[chain[|chain| - 1]] >= 0xFF8
  }

  lemma {:induction false} ChainIsFollowed(dev: Device, v: Volume, ws: seq<nat>, chain: seq<nat>, k: nat)
    requires Tabled(dev, v, ws) && Chained(ws, chain) && k <= |chain|
    ensures ClusterAt(dev, v, chain[0], k) == if k < |chain| then Some(chain[k]) else None
  {
    hide Tabled, NextCluster;
    if k > 0 {
      ChainIsFollowed(dev, v, ws, chain, k - 1);
      LookupFindsWord(dev, v, ws, chain[k - 1]);
      TwelveBits(dev, v, ws);
    }
  }

  lemma TwelveBits(dev: Device, v: Volume, ws: seq<nat>)
    requires Tabled(dev, v, ws)
    ensures v.fatType == 12
  {
  }

  /** The file's bytes stand in its clusters, in order: byte q of cluster k is the file's byte k * bytes + q. */
  predicate Stored(dev: Device, v: Volume, chain: seq<nat>, data: seq<Byte>) {
    && v.secPerClus > 0 && |data| <= |chain| * (v.secPerClus * 512)
    && forall k, q :: 0 <= k < |chain| && 0 <= q < v.secPerClus * 512 ==> StoredAt(dev, v, chain[k], data, k, q)
  }

  predicate StoredAt(dev: Device, v: Volume, clus: nat, data: seq<Byte>, k: nat, q: nat) {
    var p, sector := k * (v.secPerClus * 512) + q, v.dataStart + (clus - 2) * v.secPerClus + q / 512;
    p < |data| ==>
      0 <= sector < 0x1_0000_0000 && (sector + 1) * 512 <= |dev| && dev[sector * 512 + q % 512] == data[p]
  }

  lemma ByteIsFound(dev: Device, v: Volume, ws: seq<nat>, chain: seq<nat>, data: seq<Byte>, p: nat)
    requires Tabled(dev, v, ws) && Chained(ws, chain) && Stored(dev, v, chain, data) && p < |data|
    ensures FileByte(dev, v, chain[0], p) == Got(data[p])
  {
    hide Tabled, Chained, ClusterAt, ClusBytes, StoredAt, Lba, Readable, Block;
    var k, q := InWhichCluster(v, |chain|, p);
    ChainNotEmpty(ws, chain);
    ChainIsFollowed(dev, v, ws, chain, k);
    assert StoredAt(dev, v, chain[k], data, k, q);
    ByteAtSector(dev, v, chain[k], data, k, q, p);
  }

  lemma InWhichCluster(v: Volume, n: nat, p: nat) returns (k: nat, q: nat)
    requires v.secPerClus > 0 && p < n * (v.secPerClus * 512)
    ensures k == p / ClusBytes(v) && q == p % ClusBytes(v) && k < n && q < v.secPerClus * 512
    ensures p == k * (v.secPerClus * 512) + q && q % 512 == p % 512
  {
    var m := v.secPerClus * 512;
    k, q := p / m, p % m;
    assert p == m * k + q;
    Below(k, n, m, q);
    SectorsOf(v, k);
    SameInSector(k * v.secPerClus, q);
  }

  lemma Below(k: nat, n: nat, m: nat, q: nat)
    requires k * m + q < n * m
    ensures k < n
  {
    assert k >= n ==> k * m >= n * m;
  }

  lemma ByteAtSector(dev: Device, v: Volume, clus: nat, data: seq<Byte>, k: nat, q: nat, p: nat)
    requires StoredAt(dev, v, clus, data, k, q) && p == k * (v.secPerClus * 512) + q < |data|
    requires q % 512 == p % 512
    ensures Readable(dev, Lba(v, clus, q)) && Block(dev, Lba(v, clus, q))[p % BS] == data[p]
  {
  }

  lemma ChainNotEmpty(ws: seq<nat>, chain: seq<nat>)
    requires Chained(ws, chain)
    ensures chain != [] && forall k :: 0 <= k < |chain| ==> 2 <= chain[k]
  {
  }

  /** A file laid out on any chain of a 12-bit table reads back, in pieces of any sizes. */
  lemma Fat12FileReads(dev: Device, v: Volume, ws: seq<nat>, chain: seq<nat>, data: seq<Byte>, lens: seq<nat>)
    requires Tabled(dev, v, ws) && Chained(ws, chain) && Stored(dev, v, chain, data)
    ensures Successive(dev, v, chain[0], |data|, 0, lens) == data[..Min(Sum(lens), |data|)]
  {
    hide Tabled, Chained, FileByte, Reach, Successive, StoredAt;
    ChainNotEmpty(ws, chain);
    var n := Min(Sum(lens), |data|);
    forall p | 0 <= p < |data| ensures FileByte(dev, v, chain[0], p) == Got(data[p]) {
      ByteIsFound(dev, v, ws, chain, data, p);
    }
    AllReached(dev, v, chain[0], data);
    ReadsConcatenate(dev, v, chain[0], |data|, 0, lens);
    var l, r := Slice(dev, v, chain[0], 0, n), data[..n];
    assert forall j :: 0 <= j < n ==> l[j] == r[j];
  }

  lemma AllReached(dev: Device, v: Volume, first: nat, data: seq<Byte>)
    requires v.secPerClus > 0 && forall p :: 0 <= p < |data| ==> FileByte(dev, v, first, p).Got?
    ensures Reach(dev, v, first, |data|) == |data|
  {
    hide FileByte;
    AvailableIs(dev, v, first, 0, |data|, |data|);
  }
}
