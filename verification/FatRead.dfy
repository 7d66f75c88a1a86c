/** Streaming a file off the volume: a lazy cluster cursor, against the bytes of the chain. */
module FatRead {
  import opened Wrappers
  import opened Bits
  import opened FatModel

  // ---- What the bytes of a file are ---------------------------------------------------------------------------

  /** The k-th cluster of the chain; the first is taken on trust, the others must be data clusters. */
  function ClusterAt(dev: Device, v: Volume, first: nat, k: nat): Option<nat> {
    if k == 0 then Some(first)
    else
      match ClusterAt(dev, v, first, k - 1)
      case None => None
      case Some(c) =>
        var next := NextCluster(dev, v, c);
        if next < 2 || EndOfChain(v, next) then None else Some(next)
  }

  /** Sector of an offset inside a cluster, in 32-bit arithmetic. */
  function Lba(v: Volume, clus: nat, inClus: nat): nat {
    (v.dataStart + (clus - 2) * v.secPerClus + inClus / BS) % TWO32
  }

  datatype Outcome = Got(byte: Byte) | Ends | Fails

  function FileByte(dev: Device, v: Volume, first: nat, p: nat): Outcome
    requires v.secPerClus > 0
  {
    match ClusterAt(dev, v, first, p / ClusBytes(v))
    case None => Ends
    case Some(c) =>
      var lba := Lba(v, c, p % ClusBytes(v));
      if Readable(dev, lba) then Got(Block(dev, lba)[p % BS]) else Fails
  }

  /** How many of the n bytes at p can be had before the chain ends or a sector fails. */
  function Available(dev: Device, v: Volume, first: nat, p: nat, n: nat): (m: nat)
    requires v.secPerClus > 0
    ensures m <= n
    decreases n
  {
    hide FileByte;
    if n == 0 || !FileByte(dev, v, first, p).Got? then 0
    else 1 + Available(dev, v, first, p + 1, n - 1)
  }

  function Wanted(size: nat, pos: nat, len: nat): nat {
    if pos >= size then 0 else if len > size - pos then size - pos else len
  }

  /** The value a read returns: the bytes it got, or -1 when a sector could not be read. */
  function ReadResult(dev: Device, v: Volume, first: nat, size: nat, pos: nat, len: nat): int
    requires v.secPerClus > 0
  {
    var want := Wanted(size, pos, len);
    var m := Available(dev, v, first, pos, want);
    if m < want && FileByte(dev, v, first, pos + m) == Fails then -1 else m
  }

  lemma {:induction false} AvailableIs(dev: Device, v: Volume, first: nat, p: nat, n: nat, m: nat)
    requires v.secPerClus > 0 && m <= n
    requires forall q :: p <= q < p + m ==> FileByte(dev, v, first, q).Got?
    requires m < n ==> !FileByte(dev, v, first, p + m).Got?
    ensures Available(dev, v, first, p, n) == m
    decreases n
  {
    hide FileByte;
    if m > 0 { AvailableIs(dev, v, first, p + 1, n - 1, m - 1); }
  }

  lemma {:induction false} AvailableGot(dev: Device, v: Volume, first: nat, p: nat, n: nat, q: nat)
    requires v.secPerClus > 0 && p <= q < p + Available(dev, v, first, p, n)
    ensures FileByte(dev, v, first, q).Got?
    decreases n
  {
    hide FileByte;
    if q > p { AvailableGot(dev, v, first, p + 1, n - 1, q); }
  }

  /** A chain that has ended stays ended. */
  lemma {:induction false} EndsForGood(dev: Device, v: Volume, first: nat, j: nat, k: nat)
    requires j <= k && ClusterAt(dev, v, first, j) == None
    ensures ClusterAt(dev, v, first, k) == None
  {
    hide NextCluster, EndOfChain;
    if j < k { EndsForGood(dev, v, first, j, k - 1); }
  }

  lemma NextIsWord(dev: Device, v: Volume, clus: nat)
    ensures NextCluster(dev, v, clus) < TWO16
  {
    var at := v.fatStart * BS + EntryOffset(v, clus);
    match (ByteAt(dev, at), ByteAt(dev, at + 1))
    case (Some(lo), Some(hi)) => WordBound(lo, hi);
    case _ =>
  }

  lemma WordBound(lo: Byte, hi: Byte)
    ensures Le16(lo, hi) < TWO16 && Le16(lo, hi) / 16 < TWO16
  {
  }

  // ---- The cursor ---------------------------------------------------------------------------------------------

  /** `curClus` is the chain element at `clusPos`, a multiple of the cluster size not past `pos`. */
  predicate CursorAt(dev: Device, v: Volume, first: nat, curClus: nat, clusPos: nat)
    requires v.secPerClus > 0
  {
    clusPos % ClusBytes(v) == 0 && ClusterAt(dev, v, first, clusPos / ClusBytes(v)) == Some(curClus)
  }

  lemma CursorStep(dev: Device, v: Volume, first: nat, curClus: nat, clusPos: nat)
    requires v.secPerClus > 0 && CursorAt(dev, v, first, curClus, clusPos)
    ensures var next := NextCluster(dev, v, curClus);
            if next < 2 || EndOfChain(v, next)
            then ClusterAt(dev, v, first, (clusPos + ClusBytes(v)) / ClusBytes(v)) == None
            else CursorAt(dev, v, first, next, clusPos + ClusBytes(v))
  {
    hide NextCluster, EndOfChain;
    NextMultiple(clusPos, ClusBytes(v));
  }

  lemma NextMultiple(a: nat, m: nat)
    requires m > 0 && a % m == 0
    ensures (a + m) % m == 0 && (a + m) / m == a / m + 1
  {
    assert a + m == (a / m + 1) * m;
    DivOf(a / m + 1, m, 0);
  }

  lemma Unique(q: int, r: int, q': int, r': int, m: nat)
    requires 0 <= r < m && 0 <= r' < m && q * m + r == q' * m + r'
    ensures q == q' && r == r'
  {
    var d := q - q';
    assert d * m == r' - r;
    assert d >= 1 ==> d * m >= m;
    assert d <= -1 ==> d * m + m <= 0;
  }

  lemma DivOf(q: nat, m: nat, r: nat)
    requires r < m
    ensures (q * m + r) / m == q && (q * m + r) % m == r
  {
    var a := q * m + r;
    Unique(q, r, a / m, a % m, m);
  }

  /** Inside the cursor's cluster, a byte is found at the cursor's sector. */
  lemma ByteAtCursor(dev: Device, v: Volume, first: nat, curClus: nat, clusPos: nat, p: nat)
    requires v.secPerClus > 0 && CursorAt(dev, v, first, curClus, clusPos)
    requires clusPos <= p < clusPos + ClusBytes(v)
    ensures var lba := Lba(v, curClus, p - clusPos);
            FileByte(dev, v, first, p) == if Readable(dev, lba) then Got(Block(dev, lba)[(p - clusPos) % BS]) else Fails
  {
    hide ClusterAt, Readable, Block;
    InCluster(v, clusPos, p);
  }

  lemma InCluster(v: Volume, clusPos: nat, p: nat)
    requires v.secPerClus > 0 && clusPos % ClusBytes(v) == 0 && clusPos <= p < clusPos + ClusBytes(v)
    ensures p / ClusBytes(v) == clusPos / ClusBytes(v) && p % ClusBytes(v) == p - clusPos
    ensures (p - clusPos) % BS == p % BS
  {
    hide ClusBytes;
    var k := clusPos / ClusBytes(v);
    Multiple(clusPos, ClusBytes(v));
    DivOf(k, ClusBytes(v), p - clusPos);
    SectorsOf(v, k);
    SameInSector(k * v.secPerClus, p - clusPos);
  }

  lemma Multiple(a: nat, m: nat)
    requires m > 0 && a % m == 0
    ensures a / m * m == a
  {
  }

  /** k clusters are a whole number of sectors. */
  lemma SectorsOf(v: Volume, k: nat)
    ensures k * ClusBytes(v) == (k * v.secPerClus) * BS
  {
  }

  lemma SameInSector(k: nat, q: nat)
    ensures (k * BS + q) % BS == q % BS
  {
  }

  /** Bytes of one sector share its fate. */
  lemma SameSector(v: Volume, clus: nat, inClus: nat, j: nat)
    requires inClus % BS + j < BS
    ensures Lba(v, clus, inClus + j) == Lba(v, clus, inClus) && (inClus + j) % BS == inClus % BS + j
  {
    assert (inClus + j) / BS == inClus / BS;
  }

  /** A sector does not cross the end of a cluster. */
  lemma SectorInCluster(v: Volume, inClus: nat, j: nat)
    requires v.secPerClus > 0 && inClus < ClusBytes(v) && inClus % BS + j < BS
    ensures inClus + j < ClusBytes(v)
  {
    var k := inClus / BS;
    assert k + 1 <= v.secPerClus;
    assert (k + 1) * BS <= v.secPerClus * BS;
  }

  // ---- The driver's read --------------------------------------------------------------------------------------

  class FatFile {
    const drv: FatDriver
    const v: Volume
    const size: nat
    const firstClus: nat
    var pos: nat
    var curClus: nat
    var clusPos: nat

    ghost predicate Valid()
      reads this, drv, drv.fsec
    {
      && drv.Valid() && Mounted(v)
      && curClus < TWO16 && clusPos <= pos
      && CursorAt(drv.dev, v, firstClus, curClus, clusPos)
    }

    constructor (driver: FatDriver, vol: Volume, size_: nat, first: nat)
      requires driver.Valid() && Mounted(vol)
      requires first < TWO16
      ensures Valid() && drv == driver && v == vol && size == size_ && firstClus == first && pos == 0
    {
      drv, v, size, firstClus := driver, vol, size_, first;
      pos, curClus, clusPos := 0, first, 0;
      new;
      DivOf(0, ClusBytes(vol), 0);
    }

    /** Walk the chain to the cluster that contains `pos`; false if the chain ends before it. */
    method Advance() returns (ok: bool)
      requires Valid()
      modifies this`curClus, this`clusPos, drv`fsecLba, drv.fsec
      ensures Valid()
      ensures ok ==> pos < clusPos + ClusBytes(v)
      ensures !ok ==> FileByte(drv.dev, v, firstClus, pos) == Ends
    {
      hide ClusterAt, NextCluster, CursorAt, EndOfChain, CachedNext, Coherent;
      var cb := ClusBytes(v);
      while pos - clusPos >= cb
        invariant Valid()
        decreases pos - clusPos
      {
        NextIsWord(drv.dev, v, curClus);
        CursorStep(drv.dev, v, firstClus, curClus, clusPos);
        var next := drv.Next(v, curClus);
        if next < 2 || EndOfChain(v, next) {
          DivOrder(clusPos + cb, pos, cb);
          EndsForGood(drv.dev, v, firstClus, (clusPos + cb) / cb, pos / cb);
          return false;
        }
        curClus, clusPos := next, clusPos + cb;
      }
      return true;
    }

    /** Copy what the cursor's sector holds of the request. */
    method ReadPiece(buf: array<Byte>, done: nat, len: nat) returns (ok: bool)
      requires Valid() && pos < clusPos + ClusBytes(v) && done < len <= buf.Length && buf != drv.fsec
      modifies this`pos, buf
      ensures Valid() && (!ok ==> FileByte(drv.dev, v, firstClus, pos) == Fails && pos == old(pos))
      ensures ok ==> old(pos) < pos <= old(pos) + (len - done)
      ensures forall q :: old(pos) <= q < pos ==> FileByte(drv.dev, v, firstClus, q) == Got(buf[done + (q - old(pos))])
      ensures forall j :: 0 <= j < done || done + (pos - old(pos)) <= j < buf.Length ==> buf[j] == old(buf[j])
    {
      hide ClusterAt, FileByte, CursorAt, Coherent, Block, Lba;
      var inClus := pos - clusPos;
      var sec := new Byte[BS];
      var lba := Lba(v, curClus, inClus);
      ByteAtCursor(drv.dev, v, firstClus, curClus, clusPos, pos);
      ok := drv.ReadSector(lba, sec);
      if !ok {
        return;
      }
      var inSec := inClus % BS;
      var n := if BS - inSec > len - done then len - done else BS - inSec;
      forall k | 0 <= k < n {
        buf[done + k] := sec[inSec + k];
      }
      forall q | pos <= q < pos + n
        ensures FileByte(drv.dev, v, firstClus, q) == Got(buf[done + (q - pos)])
      {
        SectorInCluster(v, inClus, q - pos);
        SameSector(v, curClus, inClus, q - pos);
        ByteAtCursor(drv.dev, v, firstClus, curClus, clusPos, q);
        assert sec[..][inSec + (q - pos)] == sec[inSec + (q - pos)];
      }
      pos := pos + n;
    }

    /** Read from the current position: bytes read, 0 at the end, -1 if a sector cannot be read. */
    method Read(buf: array<Byte>, len: nat) returns (r: int)
      requires Valid() && len <= buf.Length && buf != drv.fsec
      modifies this`pos, this`curClus, this`clusPos, drv`fsecLba, drv.fsec, buf
      ensures Valid()
      ensures r == ReadResult(drv.dev, v, firstClus, size, old(pos), len)
      ensures pos == old(pos) + Available(drv.dev, v, firstClus, old(pos), Wanted(size, old(pos), len))
      ensures forall q :: old(pos) <= q < pos ==> FileByte(drv.dev, v, firstClus, q) == Got(buf[q - old(pos)])
      ensures forall j :: pos - old(pos) <= j < buf.Length ==> buf[j] == old(buf[j])
    {
      hide ClusterAt, FileByte, CursorAt, Coherent, Available;
      ghost var p := pos;
      var want := Wanted(size, pos, len);
      var done := 0;
      while done < want
        invariant Valid() && done <= want && pos == p + done
        invariant forall q :: p <= q < pos ==> FileByte(drv.dev, v, firstClus, q) == Got(buf[q - p])
        invariant forall j :: done <= j < buf.Length ==> buf[j] == old(buf[j])
      {
        var more := Advance();
        if !more {
          AvailableIs(drv.dev, v, firstClus, p, want, done);
          return done;
        }
        var from := pos;
        var ok := ReadPiece(buf, done, want);
        if !ok {
          AvailableIs(drv.dev, v, firstClus, p, want, done);
          return -1;
        }
        done := done + (pos - from);
      }
      AvailableIs(drv.dev, v, firstClus, p, want, want);
      return done;
    }
  }

  lemma DivOrder(a: nat, b: nat, m: nat)
    requires a <= b && m > 0
    ensures a / m <= b / m
  {
    var d := a / m - b / m;
    assert d * m == a / m * m - b / m * m;
    assert d >= 1 ==> d * m >= m;
  }

  // ---- Successive reads ---------------------------------------------------------------------------------------

  function ByteOf(o: Outcome): Byte { match o case Got(b) => b case _ => 0 }

  /** How many of the file's bytes can be had at all. */
  function Reach(dev: Device, v: Volume, first: nat, size: nat): (m: nat)
    requires v.secPerClus > 0
    ensures m <= size
  {
    Available(dev, v, first, 0, size)
  }

  /** The n bytes at p. */
  function Slice(dev: Device, v: Volume, first: nat, p: nat, n: nat): (s: seq<Byte>)
    requires v.secPerClus > 0
    ensures |s| == n
  {
    seq<Byte>(n, j requires 0 <= j < n => ByteOf(FileByte(dev, v, first, p + j)))
  }

  /** What one read delivers. */
  function Delivered(dev: Device, v: Volume, first: nat, size: nat, pos: nat, len: nat): seq<Byte>
    requires v.secPerClus > 0
  {
    Slice(dev, v, first, pos, Available(dev, v, first, pos, Wanted(size, pos, len)))
  }

  function Sum(lens: seq<nat>): nat { if lens == [] then 0 else lens[0] + Sum(lens[1..]) }

  function Min(a: nat, b: nat): nat { if a < b then a else b }

  function Successive(dev: Device, v: Volume, first: nat, size: nat, pos: nat, lens: seq<nat>): seq<Byte>
    requires v.secPerClus > 0
    decreases |lens|
  {
    if lens == [] then []
    else
      var d := Delivered(dev, v, first, size, pos, lens[0]);
      d + Successive(dev, v, first, size, pos + |d|, lens[1..])
  }

  lemma AvailableBefore(dev: Device, v: Volume, first: nat, size: nat, p: nat, n: nat)
    requires v.secPerClus > 0 && p <= Reach(dev, v, first, size) && p + n <= size
    ensures Available(dev, v, first, p, n) == Min(n, Reach(dev, v, first, size) - p)
  {
    hide FileByte;
    var a := Reach(dev, v, first, size);
    forall q | p <= q < a ensures FileByte(dev, v, first, q).Got? {
      AvailableGot(dev, v, first, 0, size, q);
    }
    if a < size { AvailableStops(dev, v, first, 0, size); }
    AvailableIs(dev, v, first, p, n, Min(n, a - p));
  }

  lemma {:induction false} AvailableStops(dev: Device, v: Volume, first: nat, p: nat, n: nat)
    requires v.secPerClus > 0 && Available(dev, v, first, p, n) < n
    ensures !FileByte(dev, v, first, p + Available(dev, v, first, p, n)).Got?
    decreases n
  {
    hide FileByte;
    if FileByte(dev, v, first, p).Got? { AvailableStops(dev, v, first, p + 1, n - 1); }
  }

  /** What a read returns: -1 exactly when a byte it was asked for stands in a sector that fails, behind bytes that can
      be had; otherwise the number of bytes before the chain ends, or all that were asked for and are in the file. */
  lemma ReadResultIs(dev: Device, v: Volume, first: nat, size: nat, pos: nat, len: nat)
    requires v.secPerClus > 0
    ensures var r, n := ReadResult(dev, v, first, size, pos, len), if pos < size then Min(len, size - pos) else 0;
            && (r == -1 <==> exists m: nat :: m < n && GotUpTo(dev, v, first, pos, m)
                                               && FileByte(dev, v, first, pos + m) == Fails)
            && (r != -1 ==> 0 <= r <= n && GotUpTo(dev, v, first, pos, r)
                            && (r < n ==> FileByte(dev, v, first, pos + r) == Ends))
  {
    hide FileByte;
    var n := if pos < size then Min(len, size - pos) else 0;
    var k := Available(dev, v, first, pos, n);
    if k < n { AvailableStops(dev, v, first, pos, n); }
    forall q | pos <= q < pos + k ensures FileByte(dev, v, first, q).Got? {
      AvailableGot(dev, v, first, pos, n, q);
    }
    forall m: nat | m < n && GotUpTo(dev, v, first, pos, m) && FileByte(dev, v, first, pos + m) == Fails
      ensures m == k
    {
      AvailableIs(dev, v, first, pos, n, m);
    }
    assert GotUpTo(dev, v, first, pos, k) && Wanted(size, pos, len) == n;
  }

  predicate GotUpTo(dev: Device, v: Volume, first: nat, pos: nat, m: nat)
    requires v.secPerClus > 0
  {
    forall q :: pos <= q < pos + m ==> FileByte(dev, v, first, q).Got?
  }

  /** On every image, cyclic and broken chains included, successive reads of any sizes concatenate to the bytes of the
      chain, cut to the file size and to the first byte that cannot be had. */
  lemma {:induction false} ReadsConcatenate(dev: Device, v: Volume, first: nat, size: nat, pos: nat, lens: seq<nat>)
    requires v.secPerClus > 0 && pos <= Reach(dev, v, first, size)
    ensures Successive(dev, v, first, size, pos, lens)
         == Slice(dev, v, first, pos, Min(Sum(lens), Reach(dev, v, first, size) - pos))
    decreases |lens|
  {
    hide FileByte, Reach, Slice;
    if lens != [] {
      var a, want := Reach(dev, v, first, size), Wanted(size, pos, lens[0]);
      AvailableBefore(dev, v, first, size, pos, want);
      var m := Min(want, a - pos);
      ReadsConcatenate(dev, v, first, size, pos + m, lens[1..]);
      SliceJoin(dev, v, first, pos, m, Min(Sum(lens[1..]), a - (pos + m)));
    } else {
      assert Slice(dev, v, first, pos, 0) == [];
    }
  }

  lemma SliceJoin(dev: Device, v: Volume, first: nat, p: nat, a: nat, b: nat)
    requires v.secPerClus > 0
    ensures Slice(dev, v, first, p, a) + Slice(dev, v, first, p + a, b) == Slice(dev, v, first, p, a + b)
  {
    hide FileByte;
    var l, r := Slice(dev, v, first, p, a) + Slice(dev, v, first, p + a, b), Slice(dev, v, first, p, a + b);
    forall j | 0 <= j < a + b ensures l[j] == r[j] {
      if j >= a { assert p + a + (j - a) == p + j; }
    }
  }
}
