/** The reader undoes the builder: a built image mounts, every file opens by its name, and reads back byte for byte. */
module FatRoundTrip {
  import opened Wrappers
  import opened Bits
  import opened FatModel
  import opened FatDir
  import opened FatRead
  import opened FatAlias
  import opened FatImage
  import Sz = FatSizing

  /** The geometry the builder intends. */
  function Vol(b: Build): Volume
    requires b.size / BS >= 33 + 2 * b.fatsz
  {
    var total := b.size / BS;
    Volume(16, 1, 1, 1, 1 + 2 * b.fatsz, 32, 33 + 2 * b.fatsz, total - 33 - 2 * b.fatsz, total)
  }

  // ---- Where the parts are ------------------------------------------------------------------------------------

  lemma JoinedParts(a: seq<Byte>, b: seq<Byte>, c: seq<Byte>, d: seq<Byte>, e: seq<Byte>, z: seq<Byte>)
    ensures var s := a + b + c + d + e + z;
            && s[..|a|] == a && s[|a|..|a| + |b|] == b && s[|a| + |b|..|a| + |b| + |c|] == c
            && s[|a| + |b| + |c|..|a| + |b| + |c| + |d|] == d
            && s[|a| + |b| + |c| + |d|..|a| + |b| + |c| + |d| + |e|] == e
  {
    var abc := a + b + c;
    Three(a, b, c);
    Three(abc, d, e);
    Kept(abc, d, e, z, 0, |a|);
    Kept(abc, d, e, z, |a|, |a| + |b|);
    Kept(abc, d, e, z, |a| + |b|, |abc|);
    KeptIn(abc + d + e, z, |abc|, |abc| + |d|);
    KeptIn(abc + d + e, z, |abc| + |d|, |abc| + |d| + |e|);
  }

  lemma Three(a: seq<Byte>, b: seq<Byte>, c: seq<Byte>)
    ensures var s := a + b + c;
            s[..|a|] == a && s[|a|..|a| + |b|] == b && s[|a| + |b|..|a| + |b| + |c|] == c
  {
  }

  lemma Kept(s: seq<Byte>, d: seq<Byte>, e: seq<Byte>, z: seq<Byte>, i: nat, j: nat)
    requires i <= j <= |s|
    ensures (s + d + e + z)[i..j] == s[i..j]
  {
    KeptIn(s, d, i, j);
    KeptIn(s + d, e, i, j);
    KeptIn(s + d + e, z, i, j);
  }

  lemma KeptIn(s: seq<Byte>, t: seq<Byte>, i: nat, j: nat)
    requires i <= j <= |s|
    ensures (s + t)[i..j] == s[i..j]
  {
  }

  function Fat(b: Build): seq<Byte>
    requires Laid(b)
  {
    Packed(Words(b.files, b.fatsz))
  }

  function DataBytes(b: Build): seq<Byte> { DataTo(b.files, |b.files|) }

  lemma Sections(b: Build)
    requires Laid(b)
    ensures var (dev, f, r) := (Dev(b), BS * b.fatsz, |Root(Entries(b))|);
            && |dev| >= BS + 2 * f + r + |DataBytes(b)|
            && dev[..BS] == Boot(b.size / BS, b.fatsz)
            && dev[BS..BS + f] == Fat(b) && dev[BS + f..BS + 2 * f] == Fat(b)
            && dev[BS + 2 * f..BS + 2 * f + r] == Root(Entries(b))
            && dev[BS + 2 * f + r..BS + 2 * f + r + |DataBytes(b)|] == DataBytes(b)
  {
    hide Boot, Fat, Root, Entries, DataBytes, Dev, Laid;
    var z := DevParts(b);
    JoinedParts(Boot(b.size / BS, b.fatsz), Fat(b), Fat(b), Root(Entries(b)), DataBytes(b), z);
    FatLength(b);
  }

  lemma FatLength(b: Build)
    requires Laid(b)
    ensures |Fat(b)| == BS * b.fatsz
  {
    hide Packed, Words;
  }

  lemma DevParts(b: Build) returns (z: seq<Byte>)
    requires Laid(b)
    ensures Dev(b) == Boot(b.size / BS, b.fatsz) + Fat(b) + Fat(b) + Root(Entries(b)) + DataBytes(b) + z
  {
    hide Boot, Packed, Words, Root, EntriesTo, DataTo;
    var p := Prefix(b.files, b.aliases, b.size / BS, b.fatsz);
    z := if |p| <= b.size then Zeros(b.size - |p|) else [];
  }

  lemma At(s: seq<Byte>, from: nat, part: seq<Byte>, i: nat)
    requires from + |part| <= |s| && s[from..from + |part|] == part && i < |part|
    ensures s[from + i] == part[i]
  {
    assert s[from..from + |part|][i] == s[from + i];
  }

  // ---- Mounting -----------------------------------------------------------------------------------------------

  lemma HeadReads(t16: nat, t32: nat, fatsz: nat)
    requires t16 < TWO16 && t32 < TWO32 && fatsz < TWO16
    ensures var h := BootHead(t16, t32, fatsz);
            && Rd16(h, 11) == BS && h[13] == 1 && Rd16(h, 14) == 1 && h[16] == 2 && Rd16(h, 17) == ROOT_ENTRIES
            && Rd16(h, 19) == t16 && Rd32(h, 32) == t32 && Rd16(h, 22) == fatsz
  {
    hide Lo, Hi, Le16;
    WordSplits(BS);
    WordSplits(1);
    WordSplits(ROOT_ENTRIES);
    WordSplits(t16);
    WordSplits(fatsz);
    TwoWords(t32);
  }

  lemma BootReads(total: nat, fatsz: nat)
    requires total < TWO32 && fatsz < TWO16
    ensures var s := Boot(total, fatsz);
            && s[510] == 0x55 && s[511] == 0xAA && Rd16(s, 11) == BS && s[13] == 1 && Rd16(s, 14) == 1 && s[16] == 2
            && Rd16(s, 17) == ROOT_ENTRIES && Rd16(s, 19) == (if total < TWO16 then total else 0)
            && (total >= TWO16 ==> Rd32(s, 32) == total)
            && Rd16(s, 22) == fatsz
  {
    hide Lo, Hi, Le16, BootHead;
    HeadReads(if total < TWO16 then total else 0, if total < TWO16 then 0 else total, fatsz);
  }

  /** A built image mounts as the FAT16 volume the builder meant, provided the data area keeps 4085 clusters. */
  lemma BuiltMounts(b: Build)
    requires Laid(b) && 0 < b.fatsz < TWO16 && b.size / BS < TWO32 && b.size / BS >= 33 + 2 * b.fatsz + 4085
    ensures Mount(Dev(b)) == Ok(Vol(b))
  {
    hide Boot, Image, Rd16, Rd32, Laid;
    var dev := Dev(b);
    Sections(b);
    BootReads(b.size / BS, b.fatsz);
    assert Block(dev, 0) == Boot(b.size / BS, b.fatsz);
  }

  // ---- Following a file's chain -------------------------------------------------------------------------------

  lemma TableByte(b: Build, i: nat)
    requires Laid(b) && i < BS * b.fatsz
    ensures ByteAt(Dev(b), BS + i) == Some(Fat(b)[i])
  {
    hide Boot, Packed, Words, Root, EntriesTo, DataTo, Image;
    Sections(b);
    assert |Fat(b)| == BS * b.fatsz;
    At(Dev(b), BS, Fat(b), i);
    BlockInside(|Dev(b)|, BS + i, 1 + b.fatsz);
  }

  lemma BlockInside(n: nat, at: nat, blocks: nat)
    requires at < blocks * BS <= n
    ensures (at / BS + 1) * BS <= n
  {
    assert at / BS < blocks;
  }

  lemma TableEntry(b: Build, v: Volume, c: nat)
    requires Laid(b) && c < b.fatsz * 256 && Words(b.files, b.fatsz)[c] < TWO16 && v.fatType == 16 && v.fatStart == 1
    ensures NextCluster(Dev(b), v, c) == Words(b.files, b.fatsz)[c]
  {
    hide Words, Packed, Image, ByteAt, Le16;
    TableByte(b, 2 * c);
    TableByte(b, 2 * c + 1);
    PackedAt(Words(b.files, b.fatsz), c);
    assert v.fatStart * BS + EntryOffset(v, c) == BS + 2 * c;
  }

  /** The chain of file k can be followed to its end: it has one cluster, or its last is below the end marks. */
  predicate Followable(b: Build, k: nat)
    requires k < |b.files|
  {
    var n := Clusters(b.files[k].data);
    First(b.files, k) < TWO16 && (n == 1 || First(b.files, k) + n - 1 < 0xFFF8)
  }

  lemma {:induction false} FirstGrows(files: seq<File>, k: nat, n: nat)
    requires k < n <= |files|
    ensures First(files, k) + Clusters(files[k].data) <= First(files, n)
  {
    hide Clusters;
    if k < n - 1 { FirstGrows(files, k, n - 1); }
  }

  lemma WordOfFile(b: Build, k: nat, i: nat)
    requires Laid(b) && k < |b.files| && i < Clusters(b.files[k].data)
    ensures First(b.files, k) + i < b.fatsz * 256
    ensures Words(b.files, b.fatsz)[First(b.files, k) + i]
         == if i == Clusters(b.files[k].data) - 1 then 0xFFFF else First(b.files, k) + i + 1
  {
    hide LinksTo, Clusters;
    FirstGrows(b.files, k, |b.files|);
    LinkAt(b.files, |b.files|, k, i);
    var c, links := First(b.files, k) + i, LinksTo(b.files, |b.files|);
    assert (RESERVED_WORDS + links)[c] == links[c - 2];
  }

  /** The reader walks file k's contiguous clusters one by one. */
  lemma {:induction false} ChainFollowed(b: Build, v: Volume, k: nat, i: nat)
    requires Laid(b) && k < |b.files| && i < Clusters(b.files[k].data) && Followable(b, k)
    requires v.fatType == 16 && v.fatStart == 1
    ensures ClusterAt(Dev(b), v, First(b.files, k), i) == Some(First(b.files, k) + i)
    decreases i
  {
    hide Laid, Words, Image, Clusters, First, NextCluster;
    if i > 0 {
      ChainFollowed(b, v, k, i - 1);
      WordOfFile(b, k, i - 1);
      TableEntry(b, v, First(b.files, k) + i - 1);
    }
  }

  /** ... and stops after the last one. */
  lemma ChainEnds(b: Build, v: Volume, k: nat)
    requires Laid(b) && k < |b.files| && Followable(b, k) && v.fatType == 16 && v.fatStart == 1
    ensures ClusterAt(Dev(b), v, First(b.files, k), Clusters(b.files[k].data)) == None
  {
    hide Words, Image, Clusters, First, NextCluster;
    var n := Clusters(b.files[k].data);
    ChainFollowed(b, v, k, n - 1);
    WordOfFile(b, k, n - 1);
    TableEntry(b, v, First(b.files, k) + n - 1);
  }

  // ---- Bytes of a file ----------------------------------------------------------------------------------------

  /** What stands where the reader looks for the data: the directory entries beyond the 512th, then the files. */
  function Area(b: Build): (a: seq<Byte>)
    requires Laid(b)
    ensures |a| >= |DataBytes(b)| && (FitsRoot(b) ==> a == DataBytes(b))
  {
    Root(Entries(b))[ROOT_BYTES..] + DataBytes(b)
  }

  lemma AreaSection(b: Build)
    requires Laid(b)
    ensures var at := (33 + 2 * b.fatsz) * BS;
            at + |Area(b)| <= |Dev(b)| && Dev(b)[at..at + |Area(b)|] == Area(b)
  {
    hide Boot, Packed, Words, EntriesTo, DataTo, Image, Root;
    Sections(b);
    var dev, from, root, data := Dev(b), BS + 2 * (BS * b.fatsz), Root(Entries(b)), DataBytes(b);
    assert dev[from..from + |root|][ROOT_BYTES..] == dev[from + ROOT_BYTES..from + |root|];
    assert dev[from + ROOT_BYTES..from + |root| + |data|] == root[ROOT_BYTES..] + data;
  }

  lemma DataByte(b: Build, i: nat)
    requires Laid(b) && i < |DataBytes(b)|
    ensures Readable(Dev(b), 33 + 2 * b.fatsz + i / BS)
    ensures Block(Dev(b), 33 + 2 * b.fatsz + i / BS)[i % BS] == Area(b)[i]
  {
    hide Area, Dev, DataBytes, Laid;
    var start := 33 + 2 * b.fatsz;
    AreaSection(b);
    DataIsWhole(b);
    WholeBlock(|DataBytes(b)|, i);
    ByteInBlock(Dev(b), start, Area(b), i);
  }

  lemma WholeBlock(n: nat, i: nat)
    requires n % BS == 0 && i < n
    ensures (i / BS + 1) * BS <= n
  {
    assert i / BS < n / BS;
  }

  lemma DataIsWhole(b: Build)
    ensures |DataBytes(b)| % BS == 0
  {
    hide DataTo, First;
    assert |DataBytes(b)| == (First(b.files, |b.files|) - 2) * BS;
  }

  /** Byte i of a part that stands at a sector is in the part's sector i / 512. */
  lemma ByteInBlock(dev: Device, start: nat, part: seq<Byte>, i: nat)
    requires start * BS + |part| <= |dev| && dev[start * BS..start * BS + |part|] == part
    requires i < |part| && (i / BS + 1) * BS <= |part|
    ensures Readable(dev, start + i / BS) && Block(dev, start + i / BS)[i % BS] == part[i]
  {
    At(dev, start * BS, part, i);
    assert start * BS + i == (start + i / BS) * BS + i % BS;
  }

  /** The bytes at file k's clusters: its own when the entries fit the root directory (`ShownIsStored`), and otherwise
      those that stand 32 bytes earlier for every entry that does not fit. */
  function Shown(b: Build, k: nat): (s: seq<Byte>)
    requires Laid(b) && k < |b.files|
    ensures |s| == |b.files[k].data|
  {
    FirstGrows(b.files, k, |b.files|);
    var at := (First(b.files, k) - 2) * BS;
    Area(b)[at..at + |b.files[k].data|]
  }

  lemma ShownIsStored(b: Build, k: nat)
    requires Laid(b) && FitsRoot(b) && k < |b.files|
    ensures Shown(b, k) == b.files[k].data
  {
    hide Area, DataTo, First, FitsRoot, Laid, Clusters;
    var l, r := Shown(b, k), b.files[k].data;
    forall p | 0 <= p < |r| ensures l[p] == r[p] {
      DataAt(b.files, |b.files|, k, p);
      FirstGrows(b.files, k, |b.files|);
    }
  }

  /** The reader finds byte p of file k where the builder meant it to be. */
  lemma FileByteBuilt(b: Build, k: nat, p: nat)
    requires Laid(b) && k < |b.files| && Followable(b, k) && p < |b.files[k].data|
    requires b.size / BS >= 33 + 2 * b.fatsz && b.fatsz < TWO16
    ensures FileByte(Dev(b), Vol(b), First(b.files, k), p) == Got(Shown(b, k)[p])
  {
    hide Laid, Image, First, ClusterAt, DataTo, Block, Readable, Clusters, Lba, Area;
    var v, first, i := Vol(b), First(b.files, k), p / BS;
    ClustersCover(b.files[k].data, p);
    ChainFollowed(b, v, k, i);
    var at := (first - 2) * BS + p;
    FirstGrows(b.files, k, |b.files|);
    DataByte(b, at);
    assert at / BS == first - 2 + i && at % BS == p % BS;
    assert ClusBytes(v) == BS;
    SmallLba(v, first + i, p % BS);
  }

  lemma SmallLba(v: Volume, c: nat, inSec: nat)
    requires v.secPerClus == 1 && v.dataStart < 0x10_0000 && 2 <= c < TWO16 && inSec < BS
    ensures Lba(v, c, inSec) == v.dataStart + (c - 2)
  {
  }

  lemma ClustersCover(data: seq<Byte>, p: nat)
    requires p < |data|
    ensures p / BS < Clusters(data)
  {
  }

  /** Cluster numbers fit the 16-bit table, as packing them requires. */
  predicate Packable(b: Build) { First(b.files, |b.files|) <= TWO16 }

  /** The chain never strays: it is the contiguous run, until it ends. */
  lemma {:induction false} ChainOnTrack(b: Build, v: Volume, k: nat, i: nat)
    requires Laid(b) && Packable(b) && k < |b.files| && i < Clusters(b.files[k].data)
    requires v.fatType == 16 && v.fatStart == 1
    ensures ClusterAt(Dev(b), v, First(b.files, k), i) in {None, Some(First(b.files, k) + i)}
    ensures i > 0 && First(b.files, k) + i >= 0xFFF8 ==> ClusterAt(Dev(b), v, First(b.files, k), i) == None
    decreases i
  {
    hide Laid, Words, Image, Clusters, First, NextCluster;
    if i > 0 {
      ChainOnTrack(b, v, k, i - 1);
      FirstGrows(b.files, k, |b.files|);
      WordOfFile(b, k, i - 1);
      TableEntry(b, v, First(b.files, k) + i - 1);
    }
  }

  /** A file can be read to its end exactly when its chain can be followed to its end. */
  lemma WholeFileIff(b: Build, k: nat)
    requires Laid(b) && Packable(b) && k < |b.files|
    requires b.size / BS >= 33 + 2 * b.fatsz && b.fatsz < TWO16
    ensures Reach(Dev(b), Vol(b), First(b.files, k), |b.files[k].data|) == |b.files[k].data| <==> Followable(b, k)
  {
    hide Laid, Image, FileByte, First;
    var v, first, data := Vol(b), First(b.files, k), b.files[k].data;
    FirstGrows(b.files, k, |b.files|);
    if Followable(b, k) {
      forall p | 0 <= p < |data| ensures FileByte(Dev(b), v, first, p).Got? {
        FileByteBuilt(b, k, p);
      }
      AvailableIs(Dev(b), v, first, 0, |data|, |data|);
    } else {
      LastByteLost(b, k);
      if Reach(Dev(b), v, first, |data|) == |data| {
        AvailableGot(Dev(b), v, first, 0, |data|, |data| - 1);
      }
    }
  }

  lemma LastByteLost(b: Build, k: nat)
    requires Laid(b) && Packable(b) && k < |b.files| && !Followable(b, k) && First(b.files, k) < TWO16
    requires b.size / BS >= 33 + 2 * b.fatsz
    ensures |b.files[k].data| > 0
    ensures FileByte(Dev(b), Vol(b), First(b.files, k), |b.files[k].data| - 1) == Ends
  {
    hide Laid, Image, First, ClusterAt;
    var n, data := Clusters(b.files[k].data), b.files[k].data;
    ChainOnTrack(b, Vol(b), k, n - 1);
    assert (|data| - 1) / BS == n - 1;
  }

  /** Reading file k in pieces of any sizes returns the bytes at its clusters, cut to what was asked for. */
  lemma FileReadsBack(b: Build, k: nat, lens: seq<nat>)
    requires Laid(b) && Packable(b) && k < |b.files| && Followable(b, k)
    requires b.size / BS >= 33 + 2 * b.fatsz && b.fatsz < TWO16
    ensures var size := |b.files[k].data|;
            Successive(Dev(b), Vol(b), First(b.files, k), size, 0, lens) == Shown(b, k)[..Min(Sum(lens), size)]
    ensures FitsRoot(b) ==> Shown(b, k) == b.files[k].data
  {
    hide Laid, Image, FileByte, First, Reach, Successive, FitsRoot, Shown;
    if FitsRoot(b) { ShownIsStored(b, k); }
    var v, first, data := Vol(b), First(b.files, k), Shown(b, k);
    WholeFileIff(b, k);
    ReadsConcatenate(Dev(b), v, first, |data|, 0, lens);
    var n := Min(Sum(lens), |data|);
    var l, r := Slice(Dev(b), v, first, 0, n), data[..n];
    forall j | 0 <= j < n ensures l[j] == r[j] {
      FileByteBuilt(b, k, j);
    }
  }

  // ---- The directory ------------------------------------------------------------------------------------------

  /** The characters of a name that the reader's buffer keeps: the parts after the fourth are ignored. */
  const SEEN: nat := 52

  function Seen(name: Name): Name { if |name| > SEEN then name[..SEEN] else name }

  lemma DirEntry(b: Build, v: Volume, k: nat)
    requires Laid(b) && k < ROOT_ENTRIES && v.rootStart == 1 + 2 * b.fatsz
    ensures Readable(Dev(b), v.rootStart + k / 16)
    ensures EntryAt(Dev(b), v, k) == if k < |Entries(b)| then Entries(b)[k] else Zeros(ENTRY)
  {
    hide Boot, Packed, Words, EntriesTo, DataTo, Image, Block, Flat, First, Readable, Root;
    var es := Entries(b);
    Sections(b);
    RootIsWide(es);
    EntryIn(Dev(b), v.rootStart, Root(es), k);
    RootAt(es, k);
  }

  lemma RootIsWide(es: seq<Entry>)
    ensures |Root(es)| >= ROOT_BYTES
  {
  }

  lemma EntryIn(dev: Device, start: nat, root: seq<Byte>, k: nat)
    requires ROOT_BYTES <= |root| && start * BS + |root| <= |dev| && k < ROOT_ENTRIES
    requires dev[start * BS..start * BS + |root|] == root
    ensures Readable(dev, start + k / 16)
    ensures Block(dev, start + k / 16)[k % 16 * ENTRY..k % 16 * ENTRY + ENTRY] == root[ENTRY * k..ENTRY * k + ENTRY]
  {
    hide Block;
    EntrySlice(dev, start + k / 16, k % 16);
    SubSlice(dev, start * BS, root, ENTRY * k);
    assert (start + k / 16) * BS + k % 16 * ENTRY == start * BS + ENTRY * k;
  }

  lemma EntrySlice(dev: Device, lba: nat, i: nat)
    requires Readable(dev, lba) && i < 16
    ensures Block(dev, lba)[i * ENTRY..i * ENTRY + ENTRY] == dev[lba * BS + i * ENTRY..lba * BS + i * ENTRY + ENTRY]
  {
    var l, r := Block(dev, lba)[i * ENTRY..i * ENTRY + ENTRY], dev[lba * BS + i * ENTRY..lba * BS + i * ENTRY + ENTRY];
    forall j | 0 <= j < ENTRY ensures l[j] == r[j] {
    }
  }

  lemma SubSlice(s: seq<Byte>, from: nat, part: seq<Byte>, i: nat)
    requires from + |part| <= |s| && s[from..from + |part|] == part && i + ENTRY <= |part|
    ensures s[from + i..from + i + ENTRY] == part[i..i + ENTRY]
  {
    var l, r := s[from + i..from + i + ENTRY], part[i..i + ENTRY];
    forall j | 0 <= j < ENTRY ensures l[j] == r[j] {
      At(s, from, part, i + j);
    }
  }

  lemma RootAt(es: seq<Entry>, k: nat)
    requires k < ROOT_ENTRIES
    ensures ENTRY * k + ENTRY <= |Root(es)|
    ensures Root(es)[ENTRY * k..ENTRY * k + ENTRY] == if k < |es| then es[k] else Zeros(ENTRY)
  {
    hide Flat;
    if k < |es| {
      FlatAt(es, k);
      assert Root(es)[ENTRY * k..ENTRY * k + ENTRY] == Flat(es)[ENTRY * k..ENTRY * k + ENTRY];
    }
  }

  // ---- Assembling a long name ---------------------------------------------------------------------------------

  /** The buffer when the characters at lo..mid-1 and from hi on have been filled in. */
  function Buffer(name: Name, lo: nat, mid: nat, hi: nat): (r: seq<Byte>)
    ensures |r| == NAME_MAX
  {
    seq<Byte>(NAME_MAX, j requires 0 <= j < NAME_MAX => if Filled(j, lo, mid, hi) then SeenAt(name, j) else 0)
  }

  predicate Filled(j: nat, lo: nat, mid: nat, hi: nat) { lo <= j < mid || j >= hi }

  function SeenAt(name: Name, j: nat): Byte { if j < |Seen(name)| then Seen(name)[j] else 0 }

  lemma SameBuffer(name: Name, lo: nat, mid: nat, hi: nat, lo': nat, mid': nat, hi': nat)
    requires forall j: nat :: j < |Seen(name)| ==> Filled(j, lo, mid, hi) == Filled(j, lo', mid', hi')
    ensures Buffer(name, lo, mid, hi) == Buffer(name, lo', mid', hi')
  {
    hide Filled;
    var l, r := Buffer(name, lo, mid, hi), Buffer(name, lo', mid', hi');
    forall j | 0 <= j < NAME_MAX ensures l[j] == r[j] {
    }
  }

  /** One more character, or the terminator. */
  lemma BufferPut(name: Name, lo: nat, mid: nat, hi: nat)
    requires lo <= mid < NAME_MAX && mid < hi
    ensures Buffer(name, lo, mid, hi)[mid := SeenAt(name, mid)] == Buffer(name, lo, mid + 1, hi)
  {
    hide SeenAt;
    var l, r := Buffer(name, lo, mid, hi)[mid := SeenAt(name, mid)], Buffer(name, lo, mid + 1, hi);
    forall j | 0 <= j < NAME_MAX ensures l[j] == r[j] {
    }
  }

  lemma {:induction false} PartFills(name: Name, i: nat, sum: Byte, t: nat)
    requires PlainName(name) && 1 <= i <= Parts(name) && i <= 4 && t <= PART
    requires t == 0 || (i - 1) * PART + t <= |name|
    ensures var base := (i - 1) * PART;
            FillPart(Buffer(name, base, base + t, base + PART), LfnPart(name, i, sum), base, t)
            == Buffer(name, base, base + PART, base + PART)
    decreases PART - t
  {
    hide LfnPart, Buffer, FillPart, SeenAt;
    var base := (i - 1) * PART;
    var e, buf := LfnPart(name, i, sum), Buffer(name, base, base + t, base + PART);
    FillStep(buf, e, base, t);
    if t < PART {
      LfnPartReads(name, i, sum, t);
      SeenCode(name, base + t);
      BufferPut(name, base, base + t, base + PART);
      if base + t < |name| {
        PartFills(name, i, sum, t + 1);
      } else {
        SameBuffer(name, base, base + t + 1, base + PART, base, base + PART, base + PART);
      }
    }
  }

  lemma SeenCode(name: Name, j: nat)
    requires PlainName(name) && j < SEEN && j <= |name|
    ensures j < |name| ==> 0 < Code(name, j) < 0x80 && Ascii(Code(name, j)) == SeenAt(name, j)
    ensures j == |name| ==> Code(name, j) == 0 == SeenAt(name, j)
  {
  }

  /** Part i, taken after the parts above it: parts beyond the fourth change nothing. */
  lemma PartCollected(name: Name, i: nat, sum: Byte, have: bool)
    requires PlainName(name) && 1 <= i <= Parts(name)
    ensures LfnCollect(DirWalk(Buffer(name, 0, 0, i * PART), have), LfnPart(name, i, sum))
         == DirWalk(Buffer(name, 0, 0, (i - 1) * PART), have || i <= 4)
  {
    hide LfnPart, Buffer, FillPart;
    LfnPartReads(name, i, sum, 0);
    var base := (i - 1) * PART;
    if i <= 4 {
      SameBuffer(name, 0, 0, i * PART, base, base + 0, base + PART);
      PartFills(name, i, sum, 0);
      SameBuffer(name, base, base + PART, base + PART, 0, 0, base);
    } else {
      SameBuffer(name, 0, 0, i * PART, 0, 0, base);
    }
  }

  lemma {:induction false} CStrOf(name: Name, zeros: seq<Byte>)
    requires (forall i :: 0 <= i < |name| ==> name[i] != 0) && (zeros == [] || zeros[0] == 0)
    ensures CStr(name + zeros) == name
  {
    if name == [] {
      assert name + zeros == zeros;
    } else {
      assert (name + zeros)[1..] == name[1..] + zeros;
      CStrOf(name[1..], zeros);
    }
  }

  lemma NameAssembled(name: Name)
    requires PlainName(name)
    ensures CStr(Buffer(name, 0, 0, 0)) == Seen(name)
  {
    var zeros := Zeros(NAME_MAX - |Seen(name)|);
    assert Buffer(name, 0, 0, 0) == Seen(name) + zeros;
    CStrOf(Seen(name), zeros);
  }

  // ---- Walking the entries of a file --------------------------------------------------------------------------

  lemma {:induction false} EntryOf(files: seq<File>, aliases: seq<Alias>, n: nat, j: nat, t: nat)
    requires AllPlain(files) && Aliased(files, aliases) && j < n <= |files| && t < Parts(files[j].name) + 1
    ensures |EntriesTo(files, aliases, j)| + t < |EntriesTo(files, aliases, n)|
    ensures EntriesTo(files, aliases, n)[|EntriesTo(files, aliases, j)| + t]
         == FileEntries(files[j], aliases[j], First(files, j))[t]
  {
    hide FileEntries, First;
    if j < n - 1 { EntryOf(files, aliases, n - 1, j, t); }
  }

  /** Number of entries before file j's. */
  function Slot(b: Build, j: nat): nat
    requires Laid(b) && j <= |b.files|
  {
    |EntriesTo(b.files, b.aliases, j)|
  }

  lemma PartEntry(b: Build, j: nat, i: nat)
    requires Laid(b) && j < |b.files| && 1 <= i <= Parts(b.files[j].name)
    ensures var k := Slot(b, j) + (Parts(b.files[j].name) - i);
            k < |Entries(b)| && Entries(b)[k] == LfnPart(b.files[j].name, i, Checksum(b.aliases[j]))
  {
    hide LfnPart, First, EntriesTo, ShortEntry;
    var name := b.files[j].name;
    EntryOf(b.files, b.aliases, |b.files|, j, Parts(name) - i);
    LfnDownAt(name, Parts(name), Checksum(b.aliases[j]), Parts(name) - i);
  }

  lemma LastEntry(b: Build, j: nat)
    requires Laid(b) && j < |b.files|
    ensures var k := Slot(b, j) + Parts(b.files[j].name);
            && k < |Entries(b)| && Slot(b, j + 1) == k + 1
            && Entries(b)[k] == ShortEntry(b.aliases[j], First(b.files, j), |b.files[j].data|)
  {
    hide LfnPart, First, ShortEntry;
    EntryOf(b.files, b.aliases, |b.files|, j, Parts(b.files[j].name));
  }

  predicate Searchable(b: Build) {
    Laid(b) && Packable(b) && b.size / BS >= 33 + 2 * b.fatsz
  }

  /** The i parts left of file j's name are collected one by one. */
  lemma {:induction false} PartsWalked(b: Build, j: nat, want: Name, i: nat, have: bool)
    requires Searchable(b) && j < |b.files| && i <= Parts(b.files[j].name)
    requires Slot(b, j) + Parts(b.files[j].name) <= ROOT_ENTRIES
    ensures var (name, k) := (b.files[j].name, Slot(b, j) + Parts(b.files[j].name));
            Search(Dev(b), Vol(b), want, k - i, DirWalk(Buffer(name, 0, 0, i * PART), have))
            == Search(Dev(b), Vol(b), want, k, DirWalk(Buffer(name, 0, 0, 0), have || i >= 1))
    decreases i
  {
    hide Search, Dev, Vol, Buffer, Slot, Searchable, Laid, Parts;
    if i > 0 {
      OnePart(b, j, want, i, have);
      PartsWalked(b, j, want, i - 1, have || i <= 4);
    }
  }

  /** ... unless the directory ends first: then nothing is found. */
  lemma {:induction false} PartsCutOff(b: Build, j: nat, want: Name, i: nat, have: bool)
    requires Searchable(b) && j < |b.files| && i <= Parts(b.files[j].name)
    requires var k := Slot(b, j) + Parts(b.files[j].name); k - i <= ROOT_ENTRIES <= k
    ensures Search(Dev(b), Vol(b), want, Slot(b, j) + Parts(b.files[j].name) - i,
                   DirWalk(Buffer(b.files[j].name, 0, 0, i * PART), have)) == Missing
    decreases i
  {
    hide Search, Dev, Buffer, Slot, Laid, Parts;
    var name, k := b.files[j].name, Slot(b, j) + Parts(b.files[j].name) - i;
    if k == ROOT_ENTRIES {
      SearchEdge(Dev(b), Vol(b), want, k, DirWalk(Buffer(name, 0, 0, i * PART), have));
    } else {
      OnePart(b, j, want, i, have);
      PartsCutOff(b, j, want, i - 1, have || i <= 4);
    }
  }

  lemma FileCutOff(b: Build, j: nat, want: Name)
    requires Searchable(b) && j < |b.files| && Slot(b, j) <= ROOT_ENTRIES < Slot(b, j + 1)
    ensures Search(Dev(b), Vol(b), want, Slot(b, j), FreshWalk) == Missing
  {
    hide Search, Dev, Vol, Buffer, EntriesTo, ShortEntry, First;
    StartsFresh(b.files[j].name);
    LastEntry(b, j);
    PartsCutOff(b, j, want, Parts(b.files[j].name), false);
  }

  lemma OnePart(b: Build, j: nat, want: Name, i: nat, have: bool)
    requires Searchable(b) && j < |b.files| && 1 <= i <= Parts(b.files[j].name)
    requires Slot(b, j) + Parts(b.files[j].name) - i < ROOT_ENTRIES
    ensures var (name, k) := (b.files[j].name, Slot(b, j) + Parts(b.files[j].name));
            Search(Dev(b), Vol(b), want, k - i, DirWalk(Buffer(name, 0, 0, i * PART), have))
            == Search(Dev(b), Vol(b), want, k - i + 1, DirWalk(Buffer(name, 0, 0, (i - 1) * PART), have || i <= 4))
  {
    hide Search, Dev, Buffer, Entries, EntryAt, LfnPart, LfnCollect, Slot, Visiting, First, Parts;
    var name := b.files[j].name;
    var k, w := Slot(b, j) + Parts(name) - i, DirWalk(Buffer(name, 0, 0, i * PART), have);
    PartEntry(b, j, i);
    DirEntry(b, Vol(b), k);
    SearchStep(Dev(b), Vol(b), want, k, w);
    LfnPartReads(name, i, Checksum(b.aliases[j]), 0);
    PartVisited(w, LfnPart(name, i, Checksum(b.aliases[j])));
    PartCollected(name, i, Checksum(b.aliases[j]), have);
  }

  lemma PartVisited(w: DirWalk, e: seq<Byte>)
    requires |w.name| == NAME_MAX && |e| == ENTRY && e[0] != 0 && e[0] != 0xE5 && e[11] % 64 == 0x0F
    ensures Visiting(w, e) == Pass(LfnCollect(w, e))
  {
    hide LfnCollect;
  }

  /** Past all entries of file j: it is the one wanted, or the search goes on as from the start. */
  lemma FileWalked(b: Build, j: nat, want: Name)
    requires Searchable(b) && j < |b.files| && |b.files[j].data| < TWO32 && Slot(b, j + 1) <= ROOT_ENTRIES
    ensures Search(Dev(b), Vol(b), want, Slot(b, j), FreshWalk)
         == if SameName(Seen(b.files[j].name), want) then Found(|b.files[j].data|, First(b.files, j))
            else Search(Dev(b), Vol(b), want, Slot(b, j + 1), FreshWalk)
  {
    hide Search, Dev, Vol, Buffer, Slot, SameName, First, Seen, PlainName, Aliased;
    StartsFresh(b.files[j].name);
    ShortWalked(b, j, want);
    PartsWalked(b, j, want, Parts(b.files[j].name), false);
  }

  /** The short entry ends the file: its name is the one assembled. */
  lemma ShortWalked(b: Build, j: nat, want: Name)
    requires Searchable(b) && j < |b.files| && |b.files[j].data| < TWO32 && Slot(b, j + 1) <= ROOT_ENTRIES
    ensures var (name, k) := (b.files[j].name, Slot(b, j) + Parts(b.files[j].name));
            && k < ROOT_ENTRIES
            && Search(Dev(b), Vol(b), want, k, DirWalk(Buffer(name, 0, 0, 0), true))
            == if SameName(Seen(name), want) then Found(|b.files[j].data|, First(b.files, j))
               else Search(Dev(b), Vol(b), want, Slot(b, j + 1), FreshWalk)
  {
    hide Search, Image, Buffer, EntriesTo, EntryAt, SameName, ShortEntry, First, Seen, CStr, Visiting, Rd16, Rd32;
    var name, k := b.files[j].name, Slot(b, j) + Parts(b.files[j].name);
    var w, e := DirWalk(Buffer(name, 0, 0, 0), true), ShortEntry(b.aliases[j], First(b.files, j), |b.files[j].data|);
    LastEntry(b, j);
    DirEntry(b, Vol(b), k);
    FirstGrows(b.files, j, |b.files|);
    ShortEntryReads(b.aliases[j], First(b.files, j), |b.files[j].data|);
    ShortVisited(w, e);
    NameAssembled(name);
    SearchStep(Dev(b), Vol(b), want, k, w);
  }

  lemma ShortVisited(w: DirWalk, e: seq<Byte>)
    requires |w.name| == NAME_MAX && w.haveLfn && |e| == ENTRY && AliasChar(e[0]) && e[11] == 0x20
    ensures Visiting(w, e) == Visited(CStr(w.name))
  {
    hide CStr;
    NoVolumeNoDir();
  }

  lemma StartsFresh(name: Name)
    requires PlainName(name)
    ensures DirWalk(Buffer(name, 0, 0, Parts(name) * PART), false) == FreshWalk
  {
    assert Buffer(name, 0, 0, Parts(name) * PART) == Zeros(NAME_MAX);
  }

  lemma NoVolumeNoDir()
    ensures !Bit(0x20, 3) && !Bit(0x20, 4) && Bit(0x08, 3)
  {
    assert Bit(0x20, 3) == Bit(0x10, 2) == Bit(0x08, 1) == Bit(0x04, 0);
    assert Bit(0x20, 4) == Bit(0x10, 3) == Bit(0x08, 2) == Bit(0x04, 1) == Bit(0x02, 0);
    assert Bit(0x08, 3) == Bit(0x04, 2) == Bit(0x02, 1) == Bit(0x01, 0);
  }

  // ---- Opening ------------------------------------------------------------------------------------------------

  /** File j's entries all stand among the 512 that the reader walks. */
  predicate Listed(b: Build, j: nat)
    requires Laid(b) && j < |b.files|
  {
    Slot(b, j + 1) <= ROOT_ENTRIES
  }

  /** The first listed file from j on whose seen name is the wanted one. */
  function FirstNamed(b: Build, want: Name, j: nat): Opened
    requires Laid(b) && j <= |b.files|
    decreases |b.files| - j
  {
    if j == |b.files| || !Listed(b, j) then Missing
    else if SameName(Seen(b.files[j].name), want) then Found(|b.files[j].data|, First(b.files, j))
    else FirstNamed(b, want, j + 1)
  }

  predicate Sized(b: Build) { forall j :: 0 <= j < |b.files| ==> |b.files[j].data| < TWO32 }

  lemma {:induction false} SearchFrom(b: Build, want: Name, j: nat)
    requires Searchable(b) && Sized(b) && j <= |b.files| && Slot(b, j) <= ROOT_ENTRIES
    ensures Search(Dev(b), Vol(b), want, Slot(b, j), FreshWalk) == FirstNamed(b, want, j)
    decreases |b.files| - j
  {
    hide Search, Dev, Vol, Slot, Seen, SameName, First, Laid;
    if j == |b.files| {
      DirectoryEnds(b, want);
    } else if Listed(b, j) {
      FileWalked(b, j, want);
      SearchFrom(b, want, j + 1);
    } else {
      FileCutOff(b, j, want);
    }
  }

  lemma DirectoryEnds(b: Build, want: Name)
    requires Searchable(b) && Slot(b, |b.files|) <= ROOT_ENTRIES
    ensures Search(Dev(b), Vol(b), want, Slot(b, |b.files|), FreshWalk) == Missing
  {
    hide Search, Image, EntriesTo, EntryAt;
    var k := Slot(b, |b.files|);
    SearchEdge(Dev(b), Vol(b), want, k, FreshWalk);
    if k < ROOT_ENTRIES {
      DirEntry(b, Vol(b), k);
      SearchStep(Dev(b), Vol(b), want, k, FreshWalk);
    }
  }

  /** Opening any name finds the first listed file so named, ignoring case and everything past 52 characters of its own
      name. */
  lemma OpenIsFirstNamed(b: Build, want: Name)
    requires Searchable(b) && Sized(b)
    ensures Open(Dev(b), Vol(b), want) == FirstNamed(b, want, 0)
  {
    hide Search, Image, EntryAt, FirstNamed, First;
    assert Slot(b, 0) == 1;
    LabelFirst(b.files, b.aliases, |b.files|);
    DirEntry(b, Vol(b), 0);
    SearchStep(Dev(b), Vol(b), want, 0, FreshWalk);
    NoVolumeNoDir();
    SearchFrom(b, want, 0);
  }

  lemma {:induction false} LabelFirst(files: seq<File>, aliases: seq<Alias>, n: nat)
    requires AllPlain(files) && Aliased(files, aliases) && n <= |files|
    ensures EntriesTo(files, aliases, n)[0] == LABEL_ENTRY
  {
    hide FileEntries;
    if n > 0 { LabelFirst(files, aliases, n - 1); }
  }

  /** No two files look the same to the reader. */
  predicate Distinct(b: Build) {
    forall i, j :: 0 <= i < j < |b.files| ==> !SameName(Seen(b.files[i].name), Seen(b.files[j].name))
  }

  lemma {:induction false} ListedBefore(b: Build, i: nat, j: nat)
    requires Laid(b) && j <= i < |b.files| && Listed(b, i)
    ensures Listed(b, j)
    decreases i - j
  {
    hide First, FileEntries;
    if j < i { ListedBefore(b, i - 1, j); }
  }

  lemma {:induction false} NamedIs(b: Build, want: Name, i: nat, j: nat)
    requires Laid(b) && j <= i < |b.files| && Listed(b, i) && Distinct(b) && SameName(Seen(b.files[i].name), want)
    ensures FirstNamed(b, want, j) == Found(|b.files[i].data|, First(b.files, i))
    decreases i - j
  {
    hide Seen, First, Laid, Listed;
    ListedBefore(b, i, j);
    if j < i { NamedIs(b, want, i, j + 1); }
  }

  /** A file that is not listed is not found, nor mistaken for another. */
  lemma {:induction false} UnlistedMissing(b: Build, want: Name, i: nat, j: nat)
    requires Laid(b) && j <= i < |b.files| && !Listed(b, i) && Distinct(b) && SameName(Seen(b.files[i].name), want)
    ensures FirstNamed(b, want, j) == Missing
    decreases i - j
  {
    hide Seen, First, Laid, Listed;
    if j < i { UnlistedMissing(b, want, i, j + 1); }
  }

  lemma {:induction false} LongNameMissing(b: Build, want: Name, j: nat)
    requires Laid(b) && |want| > SEEN && j <= |b.files|
    ensures FirstNamed(b, want, j) == Missing
    decreases |b.files| - j
  {
    hide First, Listed, Laid;
    if j < |b.files| { LongNameMissing(b, want, j + 1); }
  }

  /** A file is found under its own name exactly when the name has at most 52 characters and the file is listed. */
  lemma OpensIff(b: Build, i: nat)
    requires Searchable(b) && Sized(b) && Distinct(b) && i < |b.files|
    ensures Open(Dev(b), Vol(b), b.files[i].name) == Found(|b.files[i].data|, First(b.files, i))
       <==> |b.files[i].name| <= SEEN && Listed(b, i)
  {
    hide Laid, Packable, Sized, Open, Dev, Vol, FirstNamed, First, Listed;
    var name := b.files[i].name;
    OpenIsFirstNamed(b, name);
    if |name| > SEEN {
      LongNameMissing(b, name, 0);
    } else if Listed(b, i) {
      NamedIs(b, name, i, 0);
    } else {
      UnlistedMissing(b, name, i, 0);
    }
  }

  /** Under its seen name, exactly when it is listed. */
  lemma OpensSeenIff(b: Build, i: nat)
    requires Searchable(b) && Sized(b) && Distinct(b) && i < |b.files|
    ensures Open(Dev(b), Vol(b), Seen(b.files[i].name)) == Found(|b.files[i].data|, First(b.files, i)) <==> Listed(b, i)
  {
    hide Laid, Packable, Sized, Open, Dev, Vol, FirstNamed, First, Listed, Seen;
    var name := Seen(b.files[i].name);
    OpenIsFirstNamed(b, name);
    if Listed(b, i) {
      NamedIs(b, name, i, 0);
    } else {
      UnlistedMissing(b, name, i, 0);
    }
  }

  // ---- The round trip -----------------------------------------------------------------------------------------

  lemma BuiltIsLaid(b: Build)
    requires Built(b)
    ensures Laid(b) && Packable(b) && Sized(b) && 0 < b.fatsz < TWO16 && b.size / BS >= 33 + 2 * b.fatsz + 4085
  {
    hide Sz.SizeOf, First;
    var total := b.size / BS;
    if total < 31 { Sz.SmallIsRefused(total); }
    Sz.SettlesIff(total);
    Sz.StaysFat16(total);
  }

  /** For every list of files the builder accepts and whose entries fit the root directory: the image mounts; a file is
      found under any spelling of its seen name; and reads of any sizes return its bytes if it can be followed. */
  lemma BuildReadRoundTrip(b: Build, i: nat, want: Name, lens: seq<nat>)
    requires Built(b) && Laid(b) && FitsRoot(b) && Distinct(b) && i < |b.files|
    requires SameName(Seen(b.files[i].name), want) && Followable(b, i)
    ensures b.size / BS >= 33 + 2 * b.fatsz && Mount(Dev(b)) == Ok(Vol(b))
    ensures Open(Dev(b), Vol(b), want) == Found(|b.files[i].data|, First(b.files, i))
    ensures Successive(Dev(b), Vol(b), First(b.files, i), |b.files[i].data|, 0, lens)
         == b.files[i].data[..Min(Sum(lens), |b.files[i].data|)]
  {
    hide Laid, FitsRoot, Distinct, Open, Mount, Dev, Successive, Followable, First, FirstNamed, Sz.SizeOf, SameName,
         Listed, Shown;
    BuiltIsLaid(b);
    BuiltMounts(b);
    OpenIsFirstNamed(b, want);
    AllListedIff(b);
    NamedIs(b, want, i, 0);
    FileReadsBack(b, i, lens);
  }

  /** The entries fit the root directory exactly when every file is listed. */
  lemma AllListedIff(b: Build)
    requires Laid(b)
    ensures (forall i :: 0 <= i < |b.files| ==> Listed(b, i)) <==> FitsRoot(b)
  {
    hide First, FileEntries, Laid;
    var n := |b.files|;
    if n > 0 {
      assert Listed(b, n - 1) <==> FitsRoot(b);
      if FitsRoot(b) {
        forall i | 0 <= i < n ensures Listed(b, i) {
          ListedBefore(b, n - 1, i);
        }
      }
    }
  }

  /** Every file of an accepted list can be opened if and only if the entries fit the root directory, which the builder
      does not check. */
  lemma AllOpenIff(b: Build)
    requires Built(b) && Laid(b) && Distinct(b)
    ensures b.size / BS >= 33 + 2 * b.fatsz
    ensures (forall i :: 0 <= i < |b.files| ==>
               Open(Dev(b), Vol(b), Seen(b.files[i].name)) == Found(|b.files[i].data|, First(b.files, i)))
       <==> FitsRoot(b)
  {
    hide Laid, FitsRoot, Distinct, Open, Dev, Vol, First, Sz.SizeOf, Listed, Sized;
    BuiltIsLaid(b);
    AllListedIff(b);
    forall i | 0 <= i < |b.files|
      ensures Open(Dev(b), Vol(b), Seen(b.files[i].name)) == Found(|b.files[i].data|, First(b.files, i))
          <==> Listed(b, i)
    {
      OpensSeenIff(b, i);
    }
  }

  // ---- Where the builder goes wrong ---------------------------------------------------------------------------

  /** The image keeps its size exactly when the data fits the sectors that are really left for it; at the sizes where
      the table sizing swings, the builder accepts up to two clusters more. */
  lemma ImageKeepsSizeIff(b: Build)
    requires Built(b) && Laid(b) && FitsRoot(b)
    ensures |Dev(b)| == b.size <==> First(b.files, |b.files|) - 2 <= Sz.Data(b.size / BS, b.fatsz)
    ensures !Sz.Swings(b.size / BS) ==> |Dev(b)| == b.size
  {
    hide Sz.SizeOf, First, Packed, Words, EntriesTo, Boot, DataTo, Root;
    BuiltIsLaid(b);
    Sz.SettlesIff(b.size / BS);
    var p := Prefix(b.files, b.aliases, b.size / BS, b.fatsz);
    assert |Root(Entries(b))| == ROOT_BYTES;
    assert |p| == (33 + 2 * b.fatsz + First(b.files, |b.files|) - 2) * BS;
  }

  /** Beyond 512 directory entries the root area grows instead of being refused, and everything after it shifts: where
      the reader looks for the first file's data stand directory entries. */
  lemma OverflowShiftsData(b: Build, p: nat)
    requires Laid(b) && !FitsRoot(b) && p < ENTRY && b.size / BS >= 33 + 2 * b.fatsz && b.fatsz < TWO16
    ensures FileByte(Dev(b), Vol(b), 2, p) == Got(Entries(b)[ROOT_ENTRIES][p])
  {
    hide Boot, Packed, Words, EntriesTo, DataTo, Image, First, Block, Readable, Flat;
    var es, start := Entries(b), 33 + 2 * b.fatsz;
    Sections(b);
    assert |Root(es)| == ENTRY * |es| >= ROOT_BYTES + ENTRY && Root(es) == Flat(es);
    RootByte(es, p);
    At(Dev(b), (1 + 2 * b.fatsz) * BS, Root(es), ROOT_BYTES + p);
    RootLeavesBlock(b);
    BlockByte(Dev(b), start, p);
    assert p / ClusBytes(Vol(b)) == 0 && p % ClusBytes(Vol(b)) == p;
    SmallLba(Vol(b), 2, p);
  }

  lemma RootByte(es: seq<Entry>, p: nat)
    requires |es| > ROOT_ENTRIES && p < ENTRY
    ensures Flat(es)[ROOT_BYTES + p] == es[ROOT_ENTRIES][p]
  {
    assert (ROOT_BYTES + p) / ENTRY == ROOT_ENTRIES && (ROOT_BYTES + p) % ENTRY == p;
  }

  lemma BlockByte(dev: Device, lba: nat, p: nat)
    requires Readable(dev, lba) && p < BS
    ensures Block(dev, lba)[p] == dev[lba * BS + p]
  {
  }

  lemma RootLeavesBlock(b: Build)
    requires Laid(b) && !FitsRoot(b)
    ensures Readable(Dev(b), 33 + 2 * b.fatsz)
  {
    hide Boot, Packed, Words, EntriesTo, Image, First;
    Sections(b);
    if |b.files| == 0 { OnlyLabel(b); }
    FirstGrows(b.files, 0, |b.files|);
    FirstIsTwo(b.files);
    assert |Root(Entries(b))| >= ROOT_BYTES + ENTRY;
  }

  lemma OnlyLabel(b: Build)
    requires Laid(b) && |b.files| == 0
    ensures |Entries(b)| == 1
  {
  }

  lemma FirstIsTwo(files: seq<File>)
    ensures First(files, 0) == 2
  {
  }

  lemma {:induction false} EntriesNonZero(files: seq<File>, aliases: seq<Alias>, n: nat, k: nat)
    requires AllPlain(files) && Aliased(files, aliases) && n <= |files| && k < |EntriesTo(files, aliases, n)|
    ensures EntriesTo(files, aliases, n)[k][0] != 0
  {
    hide First, FileEntries;
    if n == 0 {
      assert LABEL_ENTRY[0] == 0x47;
    } else if k < |EntriesTo(files, aliases, n - 1)| {
      EntriesNonZero(files, aliases, n - 1, k);
    } else {
      FileEntriesNonZero(files[n - 1], aliases[n - 1], First(files, n - 1), k - |EntriesTo(files, aliases, n - 1)|);
    }
  }

  lemma FileEntriesNonZero(f: File, alias: Alias, first: nat, t: nat)
    requires Plain(f) && |alias| == 11 && AliasChar(alias[0]) && t <= Parts(f.name)
    ensures FileEntries(f, alias, first)[t][0] != 0
  {
    hide LfnPart;
    if t < Parts(f.name) {
      LfnDownAt(f.name, Parts(f.name), Checksum(alias), t);
      LfnPartReads(f.name, Parts(f.name) - t, Checksum(alias), 0);
    } else {
      assert ShortEntry(alias, first, |f.data|)[0] == alias[0];
    }
  }

  /** So a first file that starts with a zero byte is found and reads back wrong. */
  lemma OverflowBreaksRoundTrip(b: Build)
    requires Built(b) && Laid(b) && !FitsRoot(b)
    requires |b.files| > 0 && |b.files[0].data| > 0 && b.files[0].data[0] == 0
    ensures b.size / BS >= 33 + 2 * b.fatsz
    ensures FileByte(Dev(b), Vol(b), First(b.files, 0), 0) != Got(b.files[0].data[0])
  {
    hide Dev, FileByte, EntriesTo, Sz.SizeOf;
    BuiltIsLaid(b);
    FirstIsTwo(b.files);
    OverflowShiftsData(b, 0);
    EntriesNonZero(b.files, b.aliases, |b.files|, ROOT_ENTRIES);
  }

  /** Two small letters, numbered. */
  function TwoLetters(i: nat): (n: Name)
    requires i < 256
    ensures PlainName(n) && |n| == 2
  {
    [0x61 + i / 16, 0x61 + i % 16]
  }

  /** 256 empty files with two-letter names, which have 513 entries with the label, on a volume of the default 3 MiB. */
  function ManyFiles(): (b: Build)
    ensures |b.files| == |b.aliases| == 256
  {
    Build(seq<File>(256, i requires 0 <= i < 256 => File(TwoLetters(i), [])),
          seq<Alias>(256, i requires 0 <= i < 256 => Candidate(Base(TwoLetters(i)), Ext(TwoLetters(i)), 0)),
          3 * 1024 * 1024, 24)
  }

  lemma {:induction false} EmptyFiles(files: seq<File>, k: nat)
    requires k <= |files| && forall j :: 0 <= j < |files| ==> files[j].data == []
    ensures First(files, k) == 2 + k
  {
    if k > 0 { EmptyFiles(files, k - 1); }
  }

  lemma {:induction false} ShortNames(files: seq<File>, aliases: seq<Alias>, k: nat)
    requires AllPlain(files) && Aliased(files, aliases) && k <= |files|
    requires forall j :: 0 <= j < |files| ==> |files[j].name| == 2
    ensures |EntriesTo(files, aliases, k)| == 1 + 2 * k
  {
    hide FileEntries, First;
    if k > 0 { ShortNames(files, aliases, k - 1); }
  }

  lemma ManyNamed(b: Build)
    requires b == ManyFiles()
    ensures AllPlain(b.files) && Aliased(b.files, b.aliases)
    ensures forall j :: 0 <= j < |b.files| ==> b.files[j].name == TwoLetters(j) && b.files[j].data == []
  {
    hide TwoLetters, Candidate, Base, Ext, AliasChar;
    forall i | 0 <= i < 256 ensures |b.aliases[i]| == 11 && AliasChar(b.aliases[i][0]) {
      FirstIsAliasChar(Base(TwoLetters(i)), Ext(TwoLetters(i)), 0);
    }
  }

  lemma LettersDiffer(i: nat, j: nat)
    requires i < j < 256
    ensures !SameName(Seen(TwoLetters(i)), Seen(TwoLetters(j)))
  {
    var a, b := TwoLetters(i), TwoLetters(j);
    assert Lowered(a)[0] == a[0] && Lowered(a)[1] == a[1] && Lowered(b)[0] == b[0] && Lowered(b)[1] == b[1];
    assert i == 16 * (i / 16) + i % 16 && j == 16 * (j / 16) + j % 16;
  }

  /** The builder accepts them, and not all of them can be opened. */
  lemma TooManyFiles() returns (b: Build, i: nat)
    ensures Built(b) && Laid(b) && Distinct(b) && !FitsRoot(b) && b.size / BS >= 33 + 2 * b.fatsz && i < |b.files|
    ensures Open(Dev(b), Vol(b), b.files[i].name) != Found(|b.files[i].data|, First(b.files, i))
  {
    hide ManyFiles, TwoLetters, Sz.SizeOf, Open, Dev, Vol, First, EntriesTo, SameName, Seen;
    b := ManyFiles();
    ManyIsAccepted(b);
    ManyNamed(b);
    ShortNames(b.files, b.aliases, 256);
    forall i, j | 0 <= i < j < 256 ensures !SameName(Seen(b.files[i].name), Seen(b.files[j].name)) {
      LettersDiffer(i, j);
    }
    BuiltIsLaid(b);
    AllListedIff(b);
    i :| 0 <= i < |b.files| && !Listed(b, i);
    OpensIff(b, i);
  }

  lemma ManyIsAccepted(b: Build)
    requires b == ManyFiles()
    ensures Built(b) && Laid(b)
  {
    hide TwoLetters, Sz.SizeOf, First, Base, Ext, Candidate, AliasChar;
    Sz.SizesThatSettleAndSwing();
    ManyNamed(b);
    EmptyFiles(b.files, 256);
    assert b.size / BS == 6144;
  }

  // ---- Inputs at which the other conditions fail --------------------------------------------------------------

  /** A single file of zero bytes. */
  function OneFile(name: Name, len: nat, size: nat, fatsz: nat): Build {
    Build([File(name, Zeros(len))], [Candidate(Base(name), Ext(name), 0)], size, fatsz)
  }

  lemma OneFileIsBuilt(name: Name, len: nat, size: nat, fatsz: nat, clusters: nat)
    requires PlainName(name) && len < TWO32 && size / BS < TWO32
    requires Sz.SizeOf(size / BS) == Sz.Sizing(fatsz, clusters) && clusters >= 4085 && fatsz < TWO16
    requires var n := Clusters(Zeros(len)); n <= clusters && n + 2 <= TWO16 && n + 2 <= fatsz * 256
    ensures var b := OneFile(name, len, size, fatsz);
            && Built(b) && Laid(b) && FitsRoot(b) && Sized(b) && Packable(b) && Distinct(b)
            && First(b.files, 0) == 2 && First(b.files, 1) == 2 + Clusters(Zeros(len))
  {
    hide Sz.SizeOf, Candidate, Base, Ext, AliasChar, Clusters, LfnDown, ShortEntry;
    var b := OneFile(name, len, size, fatsz);
    FirstIsAliasChar(Base(name), Ext(name), 0);
    assert b.files[0].data == Zeros(len);
    assert First(b.files, 0) == 2;
    assert First(b.files, 1) == First(b.files, 0) + Clusters(b.files[0].data);
    assert |EntriesTo(b.files, b.aliases, 0)| == 1;
    assert |EntriesTo(b.files, b.aliases, 1)| == 1 + |FileEntries(b.files[0], b.aliases[0], 2)|;
  }

  lemma ClustersOf(k: nat)
    requires k > 0
    ensures Clusters(Zeros(k * BS)) == k
  {
    assert (k * BS + BS - 1) / BS == k;
  }

  /** 4094 clusters of data on a volume of 2080 KiB, which has room for 4093: accepted, and the image outgrows it. */
  lemma OutgrownImage() returns (b: Build)
    ensures Built(b) && Laid(b) && FitsRoot(b) && |Dev(b)| != b.size
  {
    hide OneFile, Dev, Sz.SizeOf, Laid, First, FitsRoot, Clusters;
    b := OneFile([0x61], 4094 * BS, 4160 * BS, 17);
    OneFileShape([0x61], 4094 * BS, 4160 * BS, 17);
    Sz.SizesThatSettleAndSwing();
    ClustersOf(4094);
    OneFileIsBuilt([0x61], 4094 * BS, 4160 * BS, 17, 4095);
    ImageKeepsSizeIff(b);
  }

  lemma OneFileShape(name: Name, len: nat, size: nat, fatsz: nat)
    ensures var b := OneFile(name, len, size, fatsz);
            |b.files| == 1 && b.size == size && b.fatsz == fatsz && b.files[0].name == name
            && b.files[0].data == Zeros(len)
  {
  }

  /** 65528 clusters of data: the last is numbered 0xFFF9, and the file cannot be read to its end. */
  lemma ChainIntoEndMarks() returns (b: Build)
    ensures Built(b) && Laid(b) && FitsRoot(b) && |b.files| == 1 && b.size / BS >= 33 + 2 * b.fatsz
    ensures Reach(Dev(b), Vol(b), First(b.files, 0), |b.files[0].data|) != |b.files[0].data|
  {
    hide OneFile, Dev, Sz.SizeOf, Laid, First, FitsRoot, Clusters, Reach;
    b := OneFile([0x61], 65528 * BS, 66304 * BS, 257);
    OneFileShape([0x61], 65528 * BS, 66304 * BS, 257);
    Sz.SizeThatFillsTheTable();
    ClustersOf(65528);
    OneFileIsBuilt([0x61], 65528 * BS, 66304 * BS, 257, 65757);
    WholeFileIff(b, 0);
  }

  /** A name of 53 characters: the file is there, and not found under it. */
  lemma NameTooLong() returns (b: Build)
    ensures Built(b) && Laid(b) && FitsRoot(b) && |b.files| == 1 && b.size / BS >= 33 + 2 * b.fatsz
    ensures Open(Dev(b), Vol(b), b.files[0].name) != Found(|b.files[0].data|, First(b.files, 0))
  {
    hide OneFile, Dev, Sz.SizeOf, Laid, First, FitsRoot, Clusters, Open;
    var name := seq<Byte>(SEEN + 1, i => 0x61);
    b := OneFile(name, 0, 6144 * BS, 24);
    OneFileShape(name, 0, 6144 * BS, 24);
    Sz.SizesThatSettleAndSwing();
    assert Clusters(Zeros(0)) == 1 by { NoData(); }
    OneFileIsBuilt(name, 0, 6144 * BS, 24, 6063);
    OpensIff(b, 0);
  }

  lemma NoData()
    ensures Clusters(Zeros(0)) == 1
  {
  }

  /** A name that fits the 8.3 form, of alias characters in either case, has its own upper-case form as its first alias,
      and the driver reads it as that. */
  lemma FirstAliasReads(e: seq<Byte>, stem: seq<Byte>, ext: seq<Byte>)
    requires 1 <= |stem| <= 8 && |ext| <= 3 && AllAlias(stem) && AllAlias(ext)
    requires var name := stem + [0x2E] + ext; |e| == ENTRY && e[..11] == Candidate(Base(name), Ext(name), 0)
    ensures ShortName(e) == Uppered(stem) + if ext == [] then [] else [0x2E] + Uppered(ext)
  {
    hide Clean, Upper, ShortName;
    assert 0x2E !in ext by { NoDot(ext); }
    LastDotSplits(stem, ext);
    CleanKeeps(stem, 8);
    CleanKeeps(ext, 3);
    assert e[..8] == e[..11][..8] && e[8..11] == e[..11][8..];
    ShortNameReads(e, Uppered(stem), Uppered(ext));
  }

  lemma NoDot(s: seq<Byte>)
    requires AllAlias(s)
    ensures 0x2E !in s
  {
  }
}
