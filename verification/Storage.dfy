/** The sector cache in its imperative form: one 4 KB buffer, flash sectors erased and programmed in place. */
module Storage {
  import opened Bits
  import M = StorageModel

  class BlockDevice {
    const flash: array<Byte>      // the FAT region
    const data: array<Byte>       // cache.data
    var sector: nat
    var dirty: bool
    var lastWriteUs: nat

    ghost function Snap(): M.Cache
      reads this, flash, data
    {
      M.Cache(flash[..], data[..], sector, dirty, lastWriteUs)
    }

    ghost predicate Valid()
      reads this, flash, data
    {
      M.Valid(Snap()) && flash != data
    }

    constructor (region: array<Byte>)
      requires region.Length == M.FLASH_SIZE
      ensures Valid() && flash == region && fresh(data) && M.Contents(Snap()) == region[..]
    {
      flash := region;
      data := new Byte[M.SECTOR](_ => 0);
      sector := M.NO_SECTOR;
      dirty := false;
      lastWriteUs := 0;
    }

    /** Copy from flash, then overlay whatever part of the range is dirty in the cache. */
    method ReadBlocks(lba: nat, buf: array<Byte>, count: nat) returns (ok: bool)
      requires Valid() && buf != data && buf != flash && buf.Length == count * M.BLOCK
      requires (lba + count) * M.BLOCK < TWO32
      modifies buf
      ensures ok == M.InRange(lba, count)
      ensures ok ==> buf[..] == M.Contents(Snap())[lba * M.BLOCK..(lba + count) * M.BLOCK]
      ensures !ok ==> buf[..] == old(buf[..])
    {
      M.ReadSeesContents(Snap(), lba, count);
      ok := ReadThrough(lba, buf, count);
    }

    method ReadThrough(lba: nat, buf: array<Byte>, count: nat) returns (ok: bool)
      requires Valid() && buf != data && buf != flash && buf.Length == count * M.BLOCK
      modifies buf
      ensures ok == M.ReadBlocks(Snap(), lba, count).Some?
      ensures ok ==> buf[..] == M.ReadBlocks(Snap(), lba, count).value
      ensures !ok ==> buf[..] == old(buf[..])
    {
      hide M.Splice, M.Overlay;
      var off, len := lba * M.BLOCK, count * M.BLOCK;
      if off + len > M.FLASH_SIZE {
        return false;
      }
      CopyWhole(buf, flash, off);
      assert flash[off..off + len] == flash[..][off..off + len];
      if dirty {
        Overlay(buf, off, data, sector * M.SECTOR);
      }
      return true;
    }

    /** Erase and program the cached sector, if the core lockout succeeds. */
    method FlashSector(lockoutOk: bool) returns (ok: bool)
      requires Valid() && dirty
      modifies flash
      ensures ok == lockoutOk && data[..] == old(data[..])
      ensures flash[..] == if ok then M.Splice(old(flash[..]), sector * M.SECTOR, data[..]) else old(flash[..])
    {
      if !lockoutOk {
        return false;
      }
      var at := sector * M.SECTOR;
      ghost var before := flash[..];
      for i := 0 to M.SECTOR
        invariant flash[..at] == before[..at] && flash[at + M.SECTOR..] == before[at + M.SECTOR..]
      {
        flash[at + i] := 0xFF;
      }
      for i := 0 to M.SECTOR
        invariant flash[..at] == before[..at] && flash[at + M.SECTOR..] == before[at + M.SECTOR..]
        invariant flash[at..at + i] == data[..i]
      {
        flash[at + i] := data[i];
        assert flash[at..at + (i + 1)] == flash[at..at + i] + [data[i]];
      }
      assert flash[..] == flash[..at] + flash[at..at + M.SECTOR] + flash[at + M.SECTOR..];
      return true;
    }

    method Flush(lockoutOk: bool) returns (ok: bool)
      requires Valid()
      modifies this`dirty, flash
      ensures Valid() && (Snap(), ok) == M.Flush(old(Snap()), lockoutOk)
      ensures M.Contents(Snap()) == old(M.Contents(Snap()))
    {
      hide M.Contents, M.Splice;
      ghost var c := Snap();
      M.FlushKeepsContents(c, lockoutOk);
      if !dirty {
        return true;
      }
      ok := FlashSector(lockoutOk);
      if ok {
        dirty := false;
      }
      assert (Snap(), ok) == M.Flush(c, lockoutOk);
    }

    method CacheLoad(target: nat, lockoutOk: bool) returns (ok: bool)
      requires Valid() && target < M.SECTORS
      modifies this`dirty, this`sector, flash, data
      ensures Valid() && (Snap(), ok) == M.CacheLoad(old(Snap()), target, lockoutOk)
    {
      hide M.Contents, M.Flush;
      ghost var c := Snap();
      if sector == target {
        return true;
      }
      ok := Flush(lockoutOk);
      if !ok {
        return false;
      }
      ghost var f := Snap();
      Copy(data, 0, flash, target * M.SECTOR, M.SECTOR);
      sector := target;
      assert Snap() == f.(data := f.flash[target * M.SECTOR..target * M.SECTOR + M.SECTOR], sector := target);
      return true;
    }

    method WriteBlock(lba: nat, src: array<Byte>, from: nat, ch: M.Chance) returns (ok: bool)
      requires Valid() && M.InRange(lba, 1) && src != data && src != flash && from + M.BLOCK <= src.Length
      modifies this`dirty, this`sector, this`lastWriteUs, flash, data
      ensures Valid() && (Snap(), ok) == M.WriteBlock(old(Snap()), lba, src[from..from + M.BLOCK], ch)
    {
      hide M.Contents, M.CacheLoad;
      ghost var c := Snap();
      ok := CacheLoad(lba / M.BLOCKS_PER_SECTOR, ch.flashOk);
      if ok {
        ghost var l := Snap();
        Copy(data, lba % M.BLOCKS_PER_SECTOR * M.BLOCK, src, from, M.BLOCK);
        dirty := true;
        lastWriteUs := ch.now;
        assert Snap() == l.(data := M.Splice(l.data, lba % M.BLOCKS_PER_SECTOR * M.BLOCK, src[from..from + M.BLOCK]),
                            dirty := true, lastWriteUs := ch.now);
      }
    }

    /** Block by block; `chances` holds the flash outcome and the clock at each block. */
    method WriteBlocks(lba: nat, src: array<Byte>, count: nat, chances: seq<M.Chance>) returns (ok: bool)
      requires Valid() && src != data && src != flash && count * M.BLOCK <= src.Length && |chances| == count
      requires (lba + count) * M.BLOCK < TWO32
      modifies this`dirty, this`sector, this`lastWriteUs, flash, data
      ensures Valid()
      ensures !M.InRange(lba, count) ==> !ok && Snap() == old(Snap())
      ensures M.InRange(lba, count) ==>
                var (c, k) := M.WriteLoop(old(Snap()), lba, src[..count * M.BLOCK], chances);
                Snap() == c && ok == (k == count)
    {
      hide M.WriteLoop, M.WriteFrom, M.Valid;
      if (lba + count) * M.BLOCK > M.FLASH_SIZE {
        return false;
      }
      ghost var bytes := src[..count * M.BLOCK];
      ghost var goal := M.WriteFrom(Snap(), lba, bytes, chances, 0);
      for b := 0 to count
        invariant Valid() && src[..count * M.BLOCK] == bytes
        invariant goal == M.WriteFrom(Snap(), lba, bytes, chances, b)
      {
        var written := WriteTurn(lba, src, count, chances, b);
        if !written {
          return false;
        }
      }
      return true;
    }

    /** Turn `b` of the loop above. */
    method WriteTurn(lba: nat, src: array<Byte>, ghost count: nat, chances: seq<M.Chance>, b: nat) returns (ok: bool)
      requires Valid() && src != data && src != flash && count * M.BLOCK <= src.Length && |chances| == count
      requires M.InRange(lba, count) && b < count
      modifies this`dirty, this`sector, this`lastWriteUs, flash, data
      ensures Valid() && src[..count * M.BLOCK] == old(src[..count * M.BLOCK])
      ensures M.WriteFrom(old(Snap()), lba, src[..count * M.BLOCK], chances, b)
           == if ok then M.WriteFrom(Snap(), lba, src[..count * M.BLOCK], chances, b + 1) else (Snap(), b)
    {
      hide M.WriteBlock, M.WriteLoop, M.WriteFrom, M.Valid;
      ghost var bytes := src[..count * M.BLOCK];
      M.WriteTurn(Snap(), lba, bytes, chances, b);
      assert bytes[b * M.BLOCK..b * M.BLOCK + M.BLOCK] == src[b * M.BLOCK..b * M.BLOCK + M.BLOCK];
      ok := WriteBlock(lba + b, src, b * M.BLOCK, chances[b]);
    }

    method Poll(ch: M.Chance)
      requires Valid()
      modifies this`dirty, flash
      ensures Valid() && Snap() == M.Poll(old(Snap()), ch)
    {
      hide M.Flush, M.Contents;
      if dirty && (ch.now - lastWriteUs) % M.TWO64 > M.FLUSH_IDLE_US {
        var ok := Flush(ch.flashOk);
      }
    }
  }

  /** The part of the sector at `coff` that meets the buffer at `off`. */
  method Overlay(buf: array<Byte>, off: nat, sector: array<Byte>, coff: nat)
    requires buf != sector
    modifies buf
    ensures buf[..] == M.Overlay(old(buf[..]), off, sector[..], coff)
  {
    var lo := if off > coff then off else coff;
    var hi := if off + buf.Length < coff + sector.Length then off + buf.Length else coff + sector.Length;
    if lo < hi {
      Copy(buf, lo - off, sector, lo - coff, hi - lo);
      assert sector[..][lo - coff..hi - coff] == sector[lo - coff..hi - coff];
    }
  }

  /** Fill the buffer from another array. */
  method CopyWhole(dst: array<Byte>, src: array<Byte>, from: nat)
    requires dst != src && from + dst.Length <= src.Length
    modifies dst
    ensures dst[..] == src[from..from + dst.Length]
  {
    hide M.Splice;
    ghost var was := dst[..];
    Copy(dst, 0, src, from, dst.Length);
    SpliceAll(was, src[from..from + dst.Length]);
  }

  lemma SpliceAll(s: seq<Byte>, bs: seq<Byte>)
    requires |bs| == |s|
    ensures M.Splice(s, 0, bs) == bs
  {
  }

  method Copy(dst: array<Byte>, at: nat, src: array<Byte>, from: nat, n: nat)
    requires dst != src && at + n <= dst.Length && from + n <= src.Length
    modifies dst
    ensures dst[..] == M.Splice(old(dst[..]), at, src[from..from + n])
  {
    ghost var before := dst[..];
    for i := 0 to n
      invariant dst[..at] == before[..at] && dst[at + i..] == before[at + i..]
      invariant dst[at..at + i] == src[from..from + i]
    {
      dst[at + i] := src[from + i];
      assert dst[at..at + (i + 1)] == dst[at..at + i] + [src[from + i]];
    }
    assert dst[..] == dst[..at] + dst[at..at + n] + dst[at + n..];
  }
}
