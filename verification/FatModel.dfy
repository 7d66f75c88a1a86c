/** A read-only FAT12/FAT16 volume: geometry, the allocation table and its one-sector cache. */
module FatModel {
  import opened Wrappers
  import opened Bits

  const BS: nat := 512

  /** The block device under the volume, as one array of bytes. */
  type Device = seq<Byte>

  predicate Readable(dev: Device, lba: nat) { (lba + 1) * BS <= |dev| }

  function Block(dev: Device, lba: nat): (b: seq<Byte>)
    requires Readable(dev, lba)
    ensures |b| == BS
  {
    dev[lba * BS..(lba + 1) * BS]
  }

  /** `storage_read_blocks` of one block. */
  function ReadBlock(dev: Device, lba: nat): Option<seq<Byte>> {
    if Readable(dev, lba) then Some(Block(dev, lba)) else None
  }

  function Le16(lo: nat, hi: nat): nat { lo + 0x100 * hi }

  function Rd16(s: seq<Byte>, at: nat): (r: nat)
    requires at + 2 <= |s|
    ensures r < TWO16
  {
    Le16(s[at], s[at + 1])
  }

  function Rd32(s: seq<Byte>, at: nat): (r: nat)
    requires at + 4 <= |s|
    ensures r < TWO32
  {
    Rd16(s, at) + TWO16 * Rd16(s, at + 2)
  }

  // ---- Mounting -----------------------------------------------------------------------------------------------

  datatype Volume = Volume(
    fatType: nat,
    secPerClus: nat,
    reserved: nat,
    fatStart: nat,
    rootStart: nat,
    rootSecs: nat,
    dataStart: nat,
    clusters: nat,
    totalSecs: nat)

  function ClusBytes(v: Volume): nat { v.secPerClus * BS }

  /** Geometry from the boot sector, with the driver's error codes. */
  function Mount(dev: Device): Result<Volume> {
    if !Readable(dev, 0) then Err(-1)
    else
      hide Rd16, Rd32, Geometry;
      var b := Block(dev, 0);
      if b[510] != 0x55 || b[511] != 0xAA then Err(-2)
      else if Rd16(b, 11) != BS then Err(-3)
      else
        Geometry(b[13], Rd16(b, 14), b[16], Rd16(b, 17), Rd16(b, 22),
                 if Rd16(b, 19) == 0 then Rd32(b, 32) else Rd16(b, 19))
  }

  function Geometry(spc: nat, reserved: nat, nfats: nat, rootent: nat, fatsz: nat, totsec: nat): Result<Volume> {
    if spc == 0 || nfats == 0 || fatsz == 0 || rootent == 0 || totsec == 0 then Err(-4)
    else
      var rootStart: nat := reserved + nfats * fatsz;
      var rootSecs: nat := (rootent * 32 + BS - 1) / BS;
      var dataStart := rootStart + rootSecs;
      if dataStart >= totsec then Err(-5)
      else
        var clusters: nat := (totsec - dataStart) / spc;
        Ok(Volume(if clusters < 4085 then 12 else 16, spc, reserved, reserved, rootStart, rootSecs, dataStart, clusters,
                  totsec))
  }

  /** What the driver asks of a volume: a cluster size, a known table width, a table that starts below sector 65536. */
  predicate Mounted(v: Volume) { v.secPerClus > 0 && (v.fatType == 12 || v.fatType == 16) && v.fatStart < TWO16 }

  lemma MountIsMounted(dev: Device)
    ensures Mount(dev).Ok? ==> Mounted(Mount(dev).value)
  {
  }

  function Word(dev: Device, at: nat): nat
    requires at + 1 < |dev|
  {
    dev[at] as nat + 0x100 * dev[at + 1] as nat
  }

  function TotalSectors(dev: Device): nat
    requires |dev| >= 512
  {
    if Word(dev, 19) != 0 then Word(dev, 19) else Word(dev, 32) + 0x1_0000 * Word(dev, 34)
  }

  /** The five fields that may not be zero. */
  predicate FieldsGiven(dev: Device)
    requires |dev| >= 512
  {
    dev[13] != 0 && dev[16] != 0 && Word(dev, 22) != 0 && Word(dev, 17) != 0 && TotalSectors(dev) != 0
  }

  /** Sector where the data area starts. */
  function DataSector(dev: Device): int
    requires |dev| >= 512
  {
    Word(dev, 14) + dev[16] as nat * Word(dev, 22) + (Word(dev, 17) + 15) / 16
  }

  /** What is refused, in order: no boot sector, no signature, sectors that are not of 512 bytes, a field that is zero,
      and no room for data. */
  lemma RefusedIff(dev: Device)
    ensures var r := Mount(dev);
            if |dev| < 512 then r == Err(-1)
            else if dev[510] != 0x55 || dev[511] != 0xAA then r == Err(-2)
            else if Word(dev, 11) != 512 then r == Err(-3)
            else if !FieldsGiven(dev) then r == Err(-4)
            else if DataSector(dev) >= TotalSectors(dev) then r == Err(-5)
            else r.Ok?
  {
    hide Geometry;
    if |dev| >= 512 {
      FieldsRead(dev);
      GeometryOf(dev[13], Word(dev, 14), dev[16], Word(dev, 17), Word(dev, 22), TotalSectors(dev));
    }
  }

  /** A mounted volume: the table behind the reserved sectors, the root directory behind all copies of the table,
      sixteen entries to a sector, and behind it as many whole clusters as there are, of 12 bits if fewer than 4085. */
  lemma MountedIs(dev: Device)
    requires Mount(dev).Ok?
    ensures var v := Mount(dev).value;
            && |dev| >= 512 && v.secPerClus == dev[13] && v.fatStart == Word(dev, 14)
            && v.rootStart == v.fatStart + dev[16] as nat * Word(dev, 22)
            && v.rootSecs * 16 - 16 < Word(dev, 17) <= v.rootSecs * 16
            && v.dataStart == v.rootStart + v.rootSecs
            && v.dataStart + v.clusters * v.secPerClus <= TotalSectors(dev)
               < v.dataStart + (v.clusters + 1) * v.secPerClus
            && (v.fatType == 12 <==> v.clusters < 4085) && (v.fatType == 16 <==> v.clusters >= 4085)
  {
    hide Geometry;
    FieldsRead(dev);
    RefusedIff(dev);
    GeometryOf(dev[13], Word(dev, 14), dev[16], Word(dev, 17), Word(dev, 22), TotalSectors(dev));
  }

  lemma FieldsRead(dev: Device)
    requires |dev| >= 512
    ensures Readable(dev, 0)
    ensures var b := Block(dev, 0);
            && b[510] == dev[510] && b[511] == dev[511] && b[13] == dev[13] && b[16] == dev[16]
            && Rd16(b, 11) == Word(dev, 11) && Rd16(b, 14) == Word(dev, 14) && Rd16(b, 17) == Word(dev, 17)
            && Rd16(b, 19) == Word(dev, 19) && Rd16(b, 22) == Word(dev, 22)
            && Rd32(b, 32) == Word(dev, 32) + 0x1_0000 * Word(dev, 34)
  {
  }

  lemma GeometryOf(spc: nat, reserved: nat, nfats: nat, rootent: nat, fatsz: nat, totsec: nat)
    ensures var r, data := Geometry(spc, reserved, nfats, rootent, fatsz, totsec),
                           reserved + nfats * fatsz + (rootent + 15) / 16;
            if spc == 0 || nfats == 0 || fatsz == 0 || rootent == 0 || totsec == 0 then r == Err(-4)
            else if data >= totsec then r == Err(-5)
            else
              && r.Ok? && r.value.secPerClus == spc && r.value.fatStart == reserved
              && r.value.rootStart == reserved + nfats * fatsz && r.value.rootSecs == (rootent + 15) / 16
              && r.value.dataStart == data
              && data + r.value.clusters * spc <= totsec < data + (r.value.clusters + 1) * spc
              && r.value.fatType == if r.value.clusters < 4085 then 12 else 16
  {
    assert (rootent * 32 + BS - 1) / BS == (rootent + 15) / 16;
  }

  // ---- The allocation table, read directly --------------------------------------------------------------------

  function EntryOffset(v: Volume, clus: nat): nat { if v.fatType == 16 then clus * 2 else clus + clus / 2 }

  /** One byte of the device, if the block that holds it can be read. */
  function ByteAt(dev: Device, at: nat): Option<Byte> {
    if Readable(dev, at / BS) then Some(dev[at]) else None
  }

  /** The table entry of a cluster, decoded from the table's bytes: 16 bits, or 12 bits packed two to three bytes. */
  function Entry(dev: Device, v: Volume, clus: nat): Option<nat> {
    var at := v.fatStart * BS + EntryOffset(v, clus);
    match (ByteAt(dev, at), ByteAt(dev, at + 1))
    case (Some(lo), Some(hi)) => Some(Decode(v, clus, lo, hi))
    case _ => None
  }

  function Decode(v: Volume, clus: nat, lo: Byte, hi: Byte): nat {
    if v.fatType == 16 then Le16(lo, hi) else if clus % 2 == 1 then Le16(lo, hi) / 16 else Le16(lo, hi) % 0x1000
  }

  /** What the driver makes of an entry it cannot read: an invalid cluster. */
  function NextCluster(dev: Device, v: Volume, clus: nat): nat {
    match Entry(dev, v, clus) case Some(e) => e case None => 1
  }

  function EndOfChain(v: Volume, clus: nat): bool { if v.fatType == 16 then clus >= 0xFFF8 else clus >= 0x0FF8 }

  // ---- The same lookup through a one-sector cache -------------------------------------------------------------

  const NO_SECTOR: nat := 0xFFFF_FFFF

  datatype SectorCache = SectorCache(lba: nat, sec: seq<Byte>)

  /** The cached sector is the device's, or nothing is cached yet. */
  predicate Coherent(c: SectorCache, dev: Device) {
    |c.sec| == BS && (c.lba == NO_SECTOR || (Readable(dev, c.lba) && c.sec == Block(dev, c.lba)))
  }

  /** Make `lba` the cached sector; a failed read leaves the cache alone. */
  function Fetch(c: SectorCache, dev: Device, lba: nat): Option<SectorCache> {
    if lba == c.lba then Some(c)
    else match ReadBlock(dev, lba) case Some(b) => Some(SectorCache(lba, b)) case None => None
  }

  function CachedNext(c: SectorCache, dev: Device, v: Volume, clus: nat): (r: (SectorCache, nat))
    requires |c.sec| == BS
    ensures |r.0.sec| == BS
  {
    var off := EntryOffset(v, clus);
    var lba, idx := v.fatStart + off / BS, off % BS;
    match Fetch(c, dev, lba)
    case None => (c, 1)
    case Some(d) =>
      if idx + 1 < BS then (d, Decode(v, clus, d.sec[idx], d.sec[idx + 1]))
      else
        match ReadBlock(dev, lba + 1)
        case None => (d, 1)
        case Some(b) => (SectorCache(lba + 1, b), Decode(v, clus, d.sec[idx], b[0]))
  }

  predicate InRange(v: Volume, clus: nat) { v.fatStart + EntryOffset(v, clus) / BS + 1 < NO_SECTOR }

  /** One cached lookup is the direct decode, straddling entries and failing reads included. */
  lemma CachedIsDirect(c: SectorCache, dev: Device, v: Volume, clus: nat)
    requires Coherent(c, dev) && (v.fatType == 12 || v.fatType == 16) && InRange(v, clus)
    ensures var (d, next) := CachedNext(c, dev, v, clus);
            Coherent(d, dev) && next == NextCluster(dev, v, clus)
  {
    hide Readable, Decode, Block;
    var off := EntryOffset(v, clus);
    var lba, idx, at := v.fatStart + off / BS, off % BS, v.fatStart * BS + off;
    Fetched(c, dev, lba);
    assert at == lba * BS + idx;
    ByteOf(dev, lba, idx);
    if idx + 1 < BS {
      ByteOf(dev, lba, idx + 1);
    } else {
      ByteOf(dev, lba + 1, 0);
    }
  }

  lemma Fetched(c: SectorCache, dev: Device, lba: nat)
    requires Coherent(c, dev) && lba != NO_SECTOR
    ensures Fetch(c, dev, lba) == if Readable(dev, lba) then Some(SectorCache(lba, Block(dev, lba))) else None
  {
  }

  /** A 16-bit entry never straddles. */
  lemma EvenOffset(clus: nat)
    ensures clus * 2 % BS + 1 < BS
  {
    assert BS == 2 * 256;
  }

  lemma ByteOf(dev: Device, lba: nat, idx: nat)
    requires idx < BS
    ensures ByteAt(dev, lba * BS + idx) == if Readable(dev, lba) then Some(Block(dev, lba)[idx]) else None
  {
    assert (lba * BS + idx) / BS == lba;
  }

  /** Any sequence of lookups on an unchanging device. */
  function Lookups(c: SectorCache, dev: Device, v: Volume, cluss: seq<nat>): seq<nat>
    requires |c.sec| == BS
    decreases |cluss|
  {
    if cluss == [] then []
    else
      var (d, next) := CachedNext(c, dev, v, cluss[0]);
      [next] + Lookups(d, dev, v, cluss[1..])
  }

  lemma {:induction false} LookupsAreDirect(c: SectorCache, dev: Device, v: Volume, cluss: seq<nat>, i: nat)
    requires Coherent(c, dev) && (v.fatType == 12 || v.fatType == 16) && i < |cluss|
    requires forall k :: 0 <= k < |cluss| ==> InRange(v, cluss[k])
    ensures |Lookups(c, dev, v, cluss)| == |cluss|
    ensures Lookups(c, dev, v, cluss)[i] == NextCluster(dev, v, cluss[i])
    decreases |cluss|
  {
    hide CachedNext, NextCluster, Coherent;
    CachedSized(c, dev);
    CachedIsDirect(c, dev, v, cluss[0]);
    var d := CachedNext(c, dev, v, cluss[0]).0;
    if |cluss| > 1 {
      LookupsAreDirect(d, dev, v, cluss[1..], if i == 0 then 0 else i - 1);
    }
  }

  lemma CachedSized(c: SectorCache, dev: Device)
    requires Coherent(c, dev)
    ensures |c.sec| == BS
  {
  }

  // ---- In place -----------------------------------------------------------------------------------------------

  class FatDriver {
    const dev: Device
    const fsec: array<Byte>
    var fsecLba: nat

    ghost function Cache(): SectorCache
      reads this, fsec
    {
      SectorCache(fsecLba, fsec[..])
    }

    ghost predicate Valid()
      reads this, fsec
    {
      fsec.Length == BS && Coherent(Cache(), dev)
    }

    constructor (device: Device)
      ensures Valid() && dev == device && fresh(fsec)
    {
      dev := device;
      fsec := new Byte[BS](_ => 0);
      fsecLba := NO_SECTOR;
    }

    method ReadSector(lba: nat, buf: array<Byte>) returns (ok: bool)
      requires buf.Length == BS
      modifies buf
      ensures ok == Readable(dev, lba)
      ensures buf[..] == if ok then Block(dev, lba) else old(buf[..])
    {
      if (lba + 1) * BS > |dev| {
        return false;
      }
      forall i | 0 <= i < BS { buf[i] := dev[lba * BS + i]; }
      return true;
    }

    /** Parse the boot sector, check by check. */
    method MountVolume() returns (r: Result<Volume>)
      ensures r == Mount(dev)
    {
      var b := new Byte[BS];
      var ok := ReadSector(0, b);
      if !ok {
        return Err(-1);
      }
      r := Parse(b[..]);
    }

    method Parse(b: seq<Byte>) returns (r: Result<Volume>)
      requires |b| == BS
      ensures Readable(dev, 0) && b == Block(dev, 0) ==> r == Mount(dev)
    {
      hide Block, Readable, Rd16, Rd32, Geometry;
      if b[510] != 0x55 || b[511] != 0xAA {
        return Err(-2);
      }
      if Rd16(b, 11) != BS {
        return Err(-3);
      }
      var spc, reserved, nfats, rootent := b[13], Rd16(b, 14), b[16], Rd16(b, 17);
      var totsec := Rd16(b, 19);
      if totsec == 0 {
        totsec := Rd32(b, 32);
      }
      var fatsz := Rd16(b, 22);
      r := Place(spc, reserved, nfats, rootent, fatsz, totsec);
    }

    method Place(spc: nat, reserved: nat, nfats: nat, rootent: nat, fatsz: nat, totsec: nat) returns (r: Result<Volume>)
      ensures r == Geometry(spc, reserved, nfats, rootent, fatsz, totsec)
    {
      if spc == 0 || nfats == 0 || fatsz == 0 || rootent == 0 || totsec == 0 {
        return Err(-4);
      }
      var rootStart: nat := reserved + nfats * fatsz;
      var rootSecs: nat := (rootent * 32 + BS - 1) / BS;
      var dataStart := rootStart + rootSecs;
      if dataStart >= totsec {
        return Err(-5);
      }
      var clusters: nat := (totsec - dataStart) / spc;
      var fatType := if clusters < 4085 then 12 else 16;
      return Ok(Volume(fatType, spc, reserved, reserved, rootStart, rootSecs, dataStart, clusters, totsec));
    }

    /** The next cluster; a table sector is read only if it is not the one held from the lookup before. */
    method Next(v: Volume, clus: nat) returns (next: nat)
      requires Valid() && (v.fatType == 12 || v.fatType == 16) && InRange(v, clus)
      modifies this`fsecLba, fsec
      ensures Valid() && next == NextCluster(dev, v, clus)
      ensures (Cache(), next) == CachedNext(old(Cache()), dev, v, clus)
    {
      CachedIsDirect(Cache(), dev, v, clus);
      next := Lookup(v, clus);
    }

    method Lookup(v: Volume, clus: nat) returns (next: nat)
      requires Valid() && (v.fatType == 12 || v.fatType == 16)
      modifies this`fsecLba, fsec
      ensures (Cache(), next) == CachedNext(old(Cache()), dev, v, clus)
    {
      hide Block, Readable, Le16;
      var off := if v.fatType == 16 then clus * 2 else clus + clus / 2;
      var lba, idx := v.fatStart + off / BS, off % BS;
      var ok := Load(lba);
      if !ok {
        return 1;
      }
      if v.fatType == 16 {
        EvenOffset(clus);
        return Rd16(fsec[..], idx);
      }
      var lo, hi := fsec[idx], 0;
      if idx + 1 < BS {
        hi := fsec[idx + 1];
      } else {
        ok := ReadSector(lba + 1, fsec);
        if !ok {
          return 1;
        }
        fsecLba := lba + 1;
        hi := fsec[0];
      }
      next := if clus % 2 == 1 then Le16(lo, hi) / 16 else Le16(lo, hi) % 0x1000;
    }

    method Load(lba: nat) returns (ok: bool)
      requires Valid()
      modifies this`fsecLba, fsec
      ensures fsec.Length == BS && ok == Fetch(old(Cache()), dev, lba).Some?
      ensures Cache() == if ok then Fetch(old(Cache()), dev, lba).value else old(Cache())
    {
      hide Block;
      if lba == fsecLba {
        return true;
      }
      ok := ReadSector(lba, fsec);
      if ok {
        fsecLba := lba;
      }
    }
  }
}
