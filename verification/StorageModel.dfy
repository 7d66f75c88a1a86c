/** The write-back sector cache over flash, as a state machine, and the flat block device it must look like. */
module StorageModel {
  import opened Wrappers
  import opened Bits

  const BLOCK: nat := 512
  const SECTOR: nat := 4096
  const BLOCKS_PER_SECTOR: nat := 8
  const FLASH_SIZE: nat := 0x30_0000
  const SECTORS: nat := 768
  const NO_SECTOR: nat := 0xFFFF_FFFF
  const FLUSH_IDLE_US: nat := 500_000
  const TWO64: nat := 0x1_0000_0000_0000_0000

  datatype Cache = Cache(flash: seq<Byte>, data: seq<Byte>, sector: nat, dirty: bool, lastWriteUs: nat)

  /** Outcome of the flash operation a block may need, and the clock at that block. */
  datatype Chance = Chance(flashOk: bool, now: nat)

  predicate Valid(c: Cache) {
    && |c.flash| == FLASH_SIZE && |c.data| == SECTOR
    && (c.sector < SECTORS || (c.sector == NO_SECTOR && !c.dirty))
    && (!c.dirty && c.sector < SECTORS ==> c.data == c.flash[c.sector * SECTOR..c.sector * SECTOR + SECTOR])
  }

  function Splice(s: seq<Byte>, at: nat, bs: seq<Byte>): (r: seq<Byte>)
    requires at + |bs| <= |s|
    ensures |r| == |s|
  {
    s[..at] + bs + s[at + |bs|..]
  }

  /** What the host must see: flash overlaid by the dirty sector. */
  function Contents(c: Cache): (r: seq<Byte>)
    requires Valid(c)
    ensures |r| == FLASH_SIZE
  {
    if c.dirty then Splice(c.flash, c.sector * SECTOR, c.data) else c.flash
  }

  predicate InRange(lba: nat, count: nat) { (lba + count) * BLOCK <= FLASH_SIZE }

  function Max(a: nat, b: nat): nat { if a > b then a else b }
  function Min(a: nat, b: nat): nat { if a < b then a else b }

  /** Read from flash, then overlay the part of the range that sits dirty in the cache. */
  function ReadBlocks(c: Cache, lba: nat, count: nat): Option<seq<Byte>>
    requires Valid(c)
  {
    var off, len := lba * BLOCK, count * BLOCK;
    if off + len > FLASH_SIZE then None
    else
      var raw := c.flash[off..off + len];
      Some(if c.dirty then Overlay(raw, off, c.data, c.sector * SECTOR) else raw)
  }

  /** Lay a sector standing at `coff` over bytes standing at `off`, as far as they meet. */
  function Overlay(raw: seq<Byte>, off: nat, sector: seq<Byte>, coff: nat): (r: seq<Byte>)
    ensures |r| == |raw|
  {
    var lo, hi := Max(off, coff), Min(off + |raw|, coff + |sector|);
    if lo < hi then Splice(raw, lo - off, sector[lo - coff..hi - coff]) else raw
  }

  function Flush(c: Cache, flashOk: bool): (r: (Cache, bool))
    requires Valid(c)
    ensures Valid(r.0)
  {
    if !c.dirty then (c, true)
    else if !flashOk then (c, false)
    else
      var flash := Splice(c.flash, c.sector * SECTOR, c.data);
      SpliceAt(c.flash, c.sector * SECTOR, c.data);
      (c.(flash := flash, dirty := false), true)
  }

  function CacheLoad(c: Cache, sector: nat, flashOk: bool): (r: (Cache, bool))
    requires Valid(c) && sector < SECTORS
    ensures Valid(r.0) && (r.1 ==> r.0.sector == sector)
  {
    if c.sector == sector then (c, true)
    else
      var (f, ok) := Flush(c, flashOk);
      if !ok then (f, false)
      else (f.(data := f.flash[sector * SECTOR..sector * SECTOR + SECTOR], sector := sector), true)
  }

  /** One block of a write. */
  function WriteBlock(c: Cache, lba: nat, bytes: seq<Byte>, ch: Chance): (r: (Cache, bool))
    requires Valid(c) && InRange(lba, 1) && |bytes| == BLOCK
    ensures Valid(r.0)
  {
    var (l, ok) := CacheLoad(c, lba / BLOCKS_PER_SECTOR, ch.flashOk);
    if !ok then (l, false)
    else
      var data := Splice(l.data, lba % BLOCKS_PER_SECTOR * BLOCK, bytes);
      (l.(data := data, dirty := true, lastWriteUs := ch.now), true)
  }

  /** The per-block loop: stops at the first block whose sector cannot be loaded; also returns how many were written. */
  function WriteLoop(c: Cache, lba: nat, bytes: seq<Byte>, chances: seq<Chance>): (r: (Cache, nat))
    requires Valid(c) && InRange(lba, |chances|) && |bytes| == |chances| * BLOCK
    ensures Valid(r.0) && r.1 <= |chances|
    decreases |chances|
  {
    if chances == [] then (c, 0)
    else
      var (w, ok) := WriteBlock(c, lba, bytes[..BLOCK], chances[0]);
      if !ok then (w, 0)
      else
        var (r, k) := WriteLoop(w, lba + 1, bytes[BLOCK..], chances[1..]);
        (r, k + 1)
  }

  /** The loop's outcome seen from block `b`. */
  ghost function WriteFrom(c: Cache, lba: nat, bytes: seq<Byte>, chances: seq<Chance>, b: nat): (r: (Cache, nat))
    requires Valid(c) && InRange(lba, |chances|) && |bytes| == |chances| * BLOCK && b <= |chances|
    ensures b == 0 ==> r == WriteLoop(c, lba, bytes, chances)
    ensures b == |chances| ==> r == (c, b)
  {
    assert bytes[0 * BLOCK..] == bytes && chances[0..] == chances;
    var (w, k) := WriteLoop(c, lba + b, bytes[b * BLOCK..], chances[b..]);
    (w, b + k)
  }

  lemma WriteTurn(c: Cache, lba: nat, bytes: seq<Byte>, chances: seq<Chance>, b: nat)
    requires Valid(c) && InRange(lba, |chances|) && |bytes| == |chances| * BLOCK && b < |chances|
    ensures var (w, ok) := WriteBlock(c, lba + b, bytes[b * BLOCK..b * BLOCK + BLOCK], chances[b]);
            WriteFrom(c, lba, bytes, chances, b) == if ok then WriteFrom(w, lba, bytes, chances, b + 1) else (w, b)
  {
    hide WriteBlock;
    var rest := bytes[b * BLOCK..];
    assert rest[..BLOCK] == bytes[b * BLOCK..b * BLOCK + BLOCK];
    assert rest[BLOCK..] == bytes[(b + 1) * BLOCK..];
    assert chances[b..][1..] == chances[b + 1..];
  }

  function Poll(c: Cache, ch: Chance): (r: Cache)
    requires Valid(c)
    ensures Valid(r)
  {
    if c.dirty && (ch.now - c.lastWriteUs) % TWO64 > FLUSH_IDLE_US then Flush(c, ch.flashOk).0 else c
  }

  // ---- Splices ------------------------------------------------------------------------------------------------

  lemma SpliceAt(s: seq<Byte>, at: nat, bs: seq<Byte>)
    requires at + |bs| <= |s|
    ensures Splice(s, at, bs)[at..at + |bs|] == bs
  {
  }

  /** Splicing a sector over itself changes nothing. */
  lemma SpliceSame(s: seq<Byte>, at: nat, n: nat)
    requires at + n <= |s|
    ensures Splice(s, at, s[at..at + n]) == s
  {
  }

  /** A splice inside a spliced sector is a splice of the whole. */
  lemma SpliceInside(s: seq<Byte>, at: nat, sector: seq<Byte>, pos: nat, bs: seq<Byte>)
    requires at + |sector| <= |s| && pos + |bs| <= |sector|
    ensures Splice(s, at, Splice(sector, pos, bs)) == Splice(Splice(s, at, sector), at + pos, bs)
  {
  }

  /** Two adjacent splices are one. */
  lemma SpliceAdjacent(s: seq<Byte>, at: nat, a: seq<Byte>, b: seq<Byte>)
    requires at + |a| + |b| <= |s|
    ensures Splice(Splice(s, at, a), at + |a|, b) == Splice(s, at, a + b)
  {
  }

  lemma SpliceIndex(s: seq<Byte>, at: nat, bs: seq<Byte>, i: nat)
    requires at + |bs| <= |s| && i < |s|
    ensures Splice(s, at, bs)[i] == if at <= i < at + |bs| then bs[i - at] else s[i]
  {
  }

  /** A slice that misses the spliced area, and one that meets it. */
  lemma SliceMisses(s: seq<Byte>, at: nat, bs: seq<Byte>, off: nat, len: nat)
    requires at + |bs| <= |s| && off + len <= |s| && Max(off, at) >= Min(off + len, at + |bs|)
    ensures Splice(s, at, bs)[off..off + len] == s[off..off + len]
  {
    hide Splice;
    forall i | off <= i < off + len ensures Splice(s, at, bs)[i] == s[i] {
      SpliceIndex(s, at, bs, i);
    }
  }

  lemma SliceMeets(s: seq<Byte>, at: nat, bs: seq<Byte>, off: nat, len: nat)
    requires at + |bs| <= |s| && off + len <= |s|
    requires Max(off, at) < Min(off + len, at + |bs|)
    ensures var lo, hi := Max(off, at), Min(off + len, at + |bs|);
            Splice(s, at, bs)[off..off + len] == Splice(s[off..off + len], lo - off, bs[lo - at..hi - at])
  {
    var lo, hi := Max(off, at), Min(off + len, at + |bs|);
    var l, r := Splice(s, at, bs)[off..off + len], Splice(s[off..off + len], lo - off, bs[lo - at..hi - at]);
    forall i | 0 <= i < len ensures l[i] == r[i] {
      SliceMeetsAt(s, at, bs, off, len, lo, hi, i);
    }
  }

  lemma SliceMeetsAt(s: seq<Byte>, at: nat, bs: seq<Byte>, off: nat, len: nat, lo: nat, hi: nat, i: nat)
    requires at + |bs| <= |s| && off + len <= |s| && i < len
    requires off <= lo && at <= lo < hi && hi <= off + len && hi <= at + |bs|
    requires lo == off || lo == at
    requires hi == off + len || hi == at + |bs|
    ensures Splice(s, at, bs)[off + i] == Splice(s[off..off + len], lo - off, bs[lo - at..hi - at])[i]
  {
    hide Splice;
    var part := bs[lo - at..hi - at];
    SpliceIndex(s, at, bs, off + i);
    SpliceIndex(s[off..off + len], lo - off, part, i);
    if lo - off <= i < hi - off {
      assert part[i - (lo - off)] == bs[off + i - at];
    }
  }

  // ---- Each operation against the flat device -----------------------------------------------------------------

  /** A read returns the abstract contents of its range, across sector boundaries and under cached writes. */
  lemma ReadSeesContents(c: Cache, lba: nat, count: nat)
    requires Valid(c)
    ensures ReadBlocks(c, lba, count)
         == if InRange(lba, count) then Some(Contents(c)[lba * BLOCK..(lba + count) * BLOCK]) else None
  {
    hide Splice;
    var off, len, coff := lba * BLOCK, count * BLOCK, c.sector * SECTOR;
    if InRange(lba, count) && c.dirty {
      if Max(off, coff) < Min(off + len, coff + SECTOR) {
        SliceMeets(c.flash, coff, c.data, off, len);
      } else {
        SliceMisses(c.flash, coff, c.data, off, len);
      }
    }
  }

  /** A flush, failed or not, never changes the contents; after a successful one the flash holds them. */
  lemma FlushKeepsContents(c: Cache, flashOk: bool)
    requires Valid(c)
    ensures var (f, ok) := Flush(c, flashOk);
            && Contents(f) == Contents(c)
            && (ok ==> f.flash == Contents(c) && !f.dirty)
            && (!ok ==> f == c)
  {
  }

  lemma LoadKeepsContents(c: Cache, sector: nat, flashOk: bool)
    requires Valid(c) && sector < SECTORS
    ensures var (l, ok) := CacheLoad(c, sector, flashOk);
            && Contents(l) == Contents(c)
            && (ok ==> Contents(l) == Splice(l.flash, sector * SECTOR, l.data))
  {
    FlushKeepsContents(c, flashOk);
    var (l, ok) := CacheLoad(c, sector, flashOk);
    if ok && !l.dirty {
      SpliceSame(l.flash, sector * SECTOR, SECTOR);
    }
  }

  lemma BlockWritten(c: Cache, lba: nat, bytes: seq<Byte>, ch: Chance)
    requires Valid(c) && InRange(lba, 1) && |bytes| == BLOCK
    ensures var (w, ok) := WriteBlock(c, lba, bytes, ch);
            Contents(w) == if ok then Splice(Contents(c), lba * BLOCK, bytes) else Contents(c)
  {
    hide Splice;
    var sector, pos := lba / BLOCKS_PER_SECTOR, lba % BLOCKS_PER_SECTOR * BLOCK;
    LoadKeepsContents(c, sector, ch.flashOk);
    var (l, ok) := CacheLoad(c, sector, ch.flashOk);
    if ok {
      assert sector * SECTOR + pos == lba * BLOCK;
      SpliceInside(l.flash, sector * SECTOR, l.data, pos, bytes);
    }
  }

  /** A write puts exactly the blocks it reports into the contents: all of them, or a prefix if a flush failed. */
  lemma {:induction false} WriteWrites(c: Cache, lba: nat, bytes: seq<Byte>, chances: seq<Chance>)
    requires Valid(c) && InRange(lba, |chances|) && |bytes| == |chances| * BLOCK
    ensures var (w, k) := WriteLoop(c, lba, bytes, chances);
            && Contents(w) == Splice(Contents(c), lba * BLOCK, bytes[..k * BLOCK])
            && ((forall i :: 0 <= i < |chances| ==> chances[i].flashOk) ==> k == |chances|)
    decreases |chances|
  {
    hide Contents, WriteBlock, Splice, Valid;
    var all := Contents(c);
    if chances == [] {
      SpliceNothing(all, lba * BLOCK, bytes[..0]);
    } else {
      var (w, ok) := WriteBlock(c, lba, bytes[..BLOCK], chances[0]);
      BlockWritten(c, lba, bytes[..BLOCK], chances[0]);
      if chances[0].flashOk {
        OkFlashWrites(c, lba, bytes[..BLOCK], chances[0]);
      }
      if ok {
        WriteWrites(w, lba + 1, bytes[BLOCK..], chances[1..]);
        var k := WriteLoop(w, lba + 1, bytes[BLOCK..], chances[1..]).1;
        SpliceAdjacent(all, lba * BLOCK, bytes[..BLOCK], bytes[BLOCK..][..k * BLOCK]);
        assert bytes[..BLOCK] + bytes[BLOCK..][..k * BLOCK] == bytes[..(k + 1) * BLOCK];
      } else {
        SpliceNothing(all, lba * BLOCK, bytes[..0]);
      }
    }
  }

  lemma OkFlashWrites(c: Cache, lba: nat, bytes: seq<Byte>, ch: Chance)
    requires Valid(c) && InRange(lba, 1) && |bytes| == BLOCK && ch.flashOk
    ensures WriteBlock(c, lba, bytes, ch).1
  {
  }

  lemma SpliceNothing(s: seq<Byte>, at: nat, bs: seq<Byte>)
    requires at <= |s| && bs == []
    ensures Splice(s, at, bs) == s
  {
  }

  // ---- Runs ---------------------------------------------------------------------------------------------------

  datatype Op =
    | Read(lba: nat, count: nat)
    | Write(lba: nat, bytes: seq<Byte>, chances: seq<Chance>)
    | Sync(chance: Chance)
    | Idle(chance: Chance)

  datatype Reply = Data(bytes: seq<Byte>) | Accepted | Failed

  predicate WellFormed(op: Op) { op.Write? ==> |op.bytes| == |op.chances| * BLOCK }

  function Step(c: Cache, op: Op): (r: (Cache, Reply))
    requires Valid(c) && WellFormed(op)
    ensures Valid(r.0)
  {
    match op
    case Read(lba, count) =>
      (match ReadBlocks(c, lba, count) case None => (c, Failed) case Some(bytes) => (c, Data(bytes)))
    case Write(lba, bytes, chances) =>
      if !InRange(lba, |chances|) then (c, Failed)
      else
        var (w, k) := WriteLoop(c, lba, bytes, chances);
        (w, if k == |chances| then Accepted else Failed)
    case Sync(ch) => var (f, ok) := Flush(c, ch.flashOk); (f, if ok then Accepted else Failed)
    case Idle(ch) => (Poll(c, ch), Accepted)
  }

  /** What the flash let happen: how many blocks of a write got through, and whether a sync did. */
  datatype Fate = Fate(written: nat, synced: bool)

  /** A flash that never fails at this operation. */
  predicate Reliable(op: Op) {
    match op
    case Read(_, _) => true
    case Write(_, _, chances) => forall i :: 0 <= i < |chances| ==> chances[i].flashOk
    case Sync(ch) => ch.flashOk
    case Idle(ch) => ch.flashOk
  }

  function FullFate(op: Op): Fate { Fate(if op.Write? then |op.chances| else 0, true) }

  /** No fate goes beyond the request, and only a failing flash cuts it short. */
  predicate Allowed(op: Op, fate: Fate) {
    fate.written <= FullFate(op).written && (Reliable(op) ==> fate == FullFate(op))
  }

  /** A flat array of blocks: a write is immediate, up to where its fate stops it, and a sync changes nothing. */
  function FlatStep(flat: seq<Byte>, op: Op, fate: Fate): (r: (seq<Byte>, Reply))
    requires |flat| == FLASH_SIZE && WellFormed(op) && Allowed(op, fate)
    ensures |r.0| == FLASH_SIZE
  {
    match op
    case Read(lba, count) =>
      if InRange(lba, count) then (flat, Data(flat[lba * BLOCK..(lba + count) * BLOCK])) else (flat, Failed)
    case Write(lba, bytes, chances) =>
      if !InRange(lba, |chances|) then (flat, Failed)
      else
        (Splice(flat, lba * BLOCK, bytes[..fate.written * BLOCK]),
         if fate.written == |chances| then Accepted else Failed)
    case Sync(_) => (flat, if fate.synced then Accepted else Failed)
    case Idle(_) => (flat, Accepted)
  }

  function FateOf(c: Cache, op: Op): Fate
    requires Valid(c) && WellFormed(op)
  {
    match op
    case Write(lba, bytes, chances) =>
      Fate(if InRange(lba, |chances|) then WriteLoop(c, lba, bytes, chances).1 else |chances|, true)
    case Sync(ch) => Fate(0, Flush(c, ch.flashOk).1)
    case _ => Fate(0, true)
  }

  /** One operation, failures included; and after an accepted sync the flash itself holds the contents. */
  lemma StepRefines(c: Cache, op: Op)
    requires Valid(c) && WellFormed(op)
    ensures Allowed(op, FateOf(c, op))
    ensures FlatStep(Contents(c), op, FateOf(c, op)) == (Contents(Step(c, op).0), Step(c, op).1)
    ensures op.Sync? && Step(c, op).1 == Accepted ==> Step(c, op).0.flash == Contents(c)
  {
    hide Contents, WriteLoop, Splice, Flush;
    match op
    case Read(lba, count) => ReadSeesContents(c, lba, count);
    case Write(lba, bytes, chances) =>
      if InRange(lba, |chances|) {
        WriteWrites(c, lba, bytes, chances);
      }
    case Sync(ch) =>
      FlushKeepsContents(c, ch.flashOk);
      if ch.flashOk { OkFlashSyncs(c, ch); }
    case Idle(ch) => FlushKeepsContents(c, ch.flashOk);
  }

  lemma OkFlashSyncs(c: Cache, ch: Chance)
    requires Valid(c) && ch.flashOk
    ensures Flush(c, ch.flashOk).1
  {
  }

  predicate AllWellFormed(ops: seq<Op>) { forall i :: 0 <= i < |ops| ==> WellFormed(ops[i]) }

  function Run(c: Cache, ops: seq<Op>): (r: (Cache, seq<Reply>))
    requires Valid(c) && AllWellFormed(ops)
    ensures Valid(r.0) && |r.1| == |ops|
    decreases |ops|
  {
    if ops == [] then (c, [])
    else
      var (s, reply) := Step(c, ops[0]);
      var (t, rest) := Run(s, ops[1..]);
      (t, [reply] + rest)
  }

  predicate AllAllowed(ops: seq<Op>, fates: seq<Fate>) {
    |fates| == |ops| && forall i :: 0 <= i < |ops| ==> Allowed(ops[i], fates[i])
  }

  function FlatRun(flat: seq<Byte>, ops: seq<Op>, fates: seq<Fate>): (r: (seq<Byte>, seq<Reply>))
    requires |flat| == FLASH_SIZE && AllWellFormed(ops) && AllAllowed(ops, fates)
    ensures |r.0| == FLASH_SIZE
    decreases |ops|
  {
    if ops == [] then (flat, [])
    else
      var (s, reply) := FlatStep(flat, ops[0], fates[0]);
      var (t, rest) := FlatRun(s, ops[1..], fates[1..]);
      (t, [reply] + rest)
  }

  /** Every run of reads, writes, syncs and idle polls, over a flash that may fail at any of them, gets the replies and
      leaves the contents of a flat device whose failed writes write a prefix of their blocks and whose failed syncs
      change nothing.  While the flash does not fail, every write is whole and every sync succeeds. */
  lemma {:induction false} CacheRefinesFlatDevice(c: Cache, ops: seq<Op>) returns (fates: seq<Fate>)
    requires Valid(c) && AllWellFormed(ops)
    ensures AllAllowed(ops, fates)
    ensures var (final, replies) := Run(c, ops);
            FlatRun(Contents(c), ops, fates) == (Contents(final), replies)
    decreases |ops|
  {
    hide Step, FlatStep, Contents, Valid, Allowed, WellFormed, FateOf;
    if ops == [] {
      fates := [];
    } else {
      var f := FateOf(c, ops[0]);
      StepRefines(c, ops[0]);
      var rest := CacheRefinesFlatDevice(Step(c, ops[0]).0, ops[1..]);
      fates := [f] + rest;
      assert fates[1..] == rest;
    }
  }

  // ---- Nothing accepted is lost -------------------------------------------------------------------------------

  /** With a flash that may fail: a failed sync or poll changes nothing, and a failed write is a write of a prefix of
      its blocks. */
  lemma StepUnderFailure(c: Cache, op: Op) returns (written: nat)
    requires Valid(c) && WellFormed(op)
    ensures op.Write? && InRange(op.lba, |op.chances|) ==>
              written <= |op.chances| &&
              (written == |op.chances| <==> Step(c, op).1 == Accepted) &&
              Contents(Step(c, op).0) == Splice(Contents(c), op.lba * BLOCK, op.bytes[..written * BLOCK])
    ensures !(op.Write? && InRange(op.lba, |op.chances|)) ==> Contents(Step(c, op).0) == Contents(c)
  {
    hide Contents, WriteLoop, Splice;
    written := 0;
    match op
    case Read(lba, count) =>
    case Write(lba, bytes, chances) =>
      if InRange(lba, |chances|) {
        WriteWrites(c, lba, bytes, chances);
        written := WriteLoop(c, lba, bytes, chances).1;
      }
    case Sync(ch) => FlushKeepsContents(c, ch.flashOk);
    case Idle(ch) => FlushKeepsContents(c, ch.flashOk);
  }

  /** The operation may write address `a`. */
  predicate Touches(op: Op, a: nat) { op.Write? && op.lba * BLOCK <= a < op.lba * BLOCK + |op.bytes| }

  predicate NoneTouches(ops: seq<Op>, a: nat) { forall i :: 0 <= i < |ops| ==> !Touches(ops[i], a) }

  lemma StepKeepsByte(c: Cache, op: Op, a: nat)
    requires Valid(c) && WellFormed(op) && a < FLASH_SIZE && !Touches(op, a)
    ensures Contents(Step(c, op).0)[a] == Contents(c)[a]
  {
    hide Contents, Step, Splice;
    var written := StepUnderFailure(c, op);
    if op.Write? && InRange(op.lba, |op.chances|) {
      SpliceIndex(Contents(c), op.lba * BLOCK, op.bytes[..written * BLOCK], a);
    }
  }

  lemma {:induction false} RunKeepsByte(c: Cache, ops: seq<Op>, a: nat)
    requires Valid(c) && AllWellFormed(ops) && a < FLASH_SIZE && NoneTouches(ops, a)
    ensures Contents(Run(c, ops).0)[a] == Contents(c)[a]
    decreases |ops|
  {
    hide Contents, Step, Touches, Valid, WellFormed;
    if ops != [] {
      StepKeepsByte(c, ops[0], a);
      RunKeepsByte(Step(c, ops[0]).0, ops[1..], a);
    }
  }

  /** Over any run, whatever fails in it: a byte of an accepted write stays in the contents until another write aims at
      its address. */
  lemma FailureLosesNothing(c: Cache, op: Op, later: seq<Op>, a: nat)
    requires Valid(c) && WellFormed(op) && op.Write? && Step(c, op).1 == Accepted && Touches(op, a)
    requires AllWellFormed(later) && NoneTouches(later, a)
    ensures a < FLASH_SIZE && Contents(Run(Step(c, op).0, later).0)[a] == op.bytes[a - op.lba * BLOCK]
  {
    hide Contents, Splice, Run, WriteLoop, NoneTouches;
    var written := StepUnderFailure(c, op);
    assert op.bytes[..written * BLOCK] == op.bytes;
    SpliceIndex(Contents(c), op.lba * BLOCK, op.bytes, a);
    RunKeepsByte(Step(c, op).0, later, a);
  }

  // ---- What a host that writes block by block leaves behind ---------------------------------------------------

  /** In this run operation i is the last that aims at address `a`; it is accepted and carries `v` there. */
  predicate LastWrite(c: Cache, ops: seq<Op>, i: nat, a: nat, v: Byte)
    requires Valid(c) && AllWellFormed(ops)
  {
    && i < |ops| && Touches(ops[i], a) && ops[i].bytes[a - ops[i].lba * BLOCK] == v
    && NoneTouches(ops[i + 1..], a) && Run(c, ops).1[i] == Accepted
  }

  lemma {:induction false} LastWriteStays(c: Cache, ops: seq<Op>, i: nat, a: nat, v: Byte)
    requires Valid(c) && AllWellFormed(ops) && LastWrite(c, ops, i, a, v)
    ensures a < FLASH_SIZE && Contents(Run(c, ops).0)[a] == v
    decreases |ops|
  {
    hide Contents, Step, Touches, NoneTouches, Valid, WellFormed;
    FirstOfRun(c, ops);
    if i == 0 {
      assert ops[0].Write? by { TouchesIsWrite(ops[0], a); }
      FailureLosesNothing(c, ops[0], ops[1..], a);
    } else {
      assert ops[1..][i..] == ops[i + 1..];
      LastWriteStays(Step(c, ops[0]).0, ops[1..], i - 1, a, v);
    }
  }

  lemma TouchesIsWrite(op: Op, a: nat)
    requires Touches(op, a)
    ensures op.Write?
  {
  }

  lemma FirstOfRun(c: Cache, ops: seq<Op>)
    requires Valid(c) && AllWellFormed(ops) && ops != []
    ensures AllWellFormed(ops[1..])
    ensures var (s, reply) := Step(c, ops[0]);
            Run(c, ops) == (Run(s, ops[1..]).0, [reply] + Run(s, ops[1..]).1)
  {
    hide Step, Valid, WellFormed;
  }

  ghost predicate SomeLastWrite(c: Cache, ops: seq<Op>, a: nat, v: Byte)
    requires Valid(c) && AllWellFormed(ops)
  {
    exists i: nat :: LastWrite(c, ops, i, a, v)
  }

  /** The last write aimed at each address is accepted and carries the byte of `img` there. */
  ghost predicate WritesImage(c: Cache, ops: seq<Op>, img: seq<Byte>)
    requires Valid(c) && AllWellFormed(ops)
  {
    |img| == FLASH_SIZE && forall a: nat :: a < FLASH_SIZE ==> SomeLastWrite(c, ops, a, img[a])
  }

  /** Then the contents are `img`, whatever failed in the run and however the host cut up and repeated its writes. */
  lemma WrittenImage(c: Cache, ops: seq<Op>, img: seq<Byte>)
    requires Valid(c) && AllWellFormed(ops) && WritesImage(c, ops, img)
    ensures Contents(Run(c, ops).0) == img
  {
    hide Contents, Run, LastWrite, Valid, AllWellFormed;
    forall a: nat | a < FLASH_SIZE ensures Contents(Run(c, ops).0)[a] == img[a] {
      assert SomeLastWrite(c, ops, a, img[a]);
      var i: nat :| LastWrite(c, ops, i, a, img[a]);
      LastWriteStays(c, ops, i, a, img[a]);
    }
  }

  const BLOCKS: nat := 6144

  /** One write per block, in order: what the host sends for a whole image. */
  function BlockWrites(img: seq<Byte>, chances: seq<Chance>): (ops: seq<Op>)
    requires |img| == FLASH_SIZE && |chances| == BLOCKS
    ensures |ops| == BLOCKS && AllWellFormed(ops)
    ensures forall k :: 0 <= k < BLOCKS ==> ops[k] == Write(k, img[k * BLOCK..(k + 1) * BLOCK], [chances[k]])
  {
    seq<Op>(BLOCKS, k requires 0 <= k < BLOCKS => Write(k, img[k * BLOCK..(k + 1) * BLOCK], [chances[k]]))
  }

  /** If all of them are accepted, that is such a run, whatever follows that does not write. */
  lemma BlockWritesLand(c: Cache, img: seq<Byte>, chances: seq<Chance>, later: seq<Op>)
    requires Valid(c) && |img| == FLASH_SIZE && |chances| == BLOCKS
    requires AllWellFormed(later) && forall i :: 0 <= i < |later| ==> !later[i].Write?
    requires AllWellFormed(BlockWrites(img, chances) + later)
    requires forall k :: 0 <= k < BLOCKS ==> Run(c, BlockWrites(img, chances) + later).1[k] == Accepted
    ensures WritesImage(c, BlockWrites(img, chances) + later, img)
  {
    hide Run, LastWrite, Valid, AllWellFormed, BlockWrites;
    var ops := BlockWrites(img, chances) + later;
    forall a: nat | a < FLASH_SIZE ensures SomeLastWrite(c, ops, a, img[a]) {
      BlockIsLast(img, chances, later, a);
      ThatIsLast(c, ops, a / BLOCK, a, img[a]);
    }
  }

  lemma ThatIsLast(c: Cache, ops: seq<Op>, k: nat, a: nat, v: Byte)
    requires Valid(c) && AllWellFormed(ops) && k < |ops| && Run(c, ops).1[k] == Accepted
    requires Touches(ops[k], a) && ops[k].bytes[a - ops[k].lba * BLOCK] == v && NoneTouches(ops[k + 1..], a)
    ensures LastWrite(c, ops, k, a, v)
  {
    hide Run, Valid, AllWellFormed, NoneTouches;
  }

  lemma BlockIsLast(img: seq<Byte>, chances: seq<Chance>, later: seq<Op>, a: nat)
    requires |img| == FLASH_SIZE && |chances| == BLOCKS && a < FLASH_SIZE
    requires forall i :: 0 <= i < |later| ==> !later[i].Write?
    ensures var ops, k := BlockWrites(img, chances) + later, a / BLOCK;
            && k < BLOCKS && Touches(ops[k], a) && ops[k].bytes[a - ops[k].lba * BLOCK] == img[a]
            && NoneTouches(ops[k + 1..], a)
  {
    hide AllWellFormed;
    var ops, k := BlockWrites(img, chances) + later, a / BLOCK;
    assert ops[k] == Write(k, img[k * BLOCK..(k + 1) * BLOCK], [chances[k]]);
    var rest := ops[k + 1..];
    forall i | 0 <= i < |rest| ensures !Touches(rest[i], a) {
      assert rest[i] == ops[k + 1 + i];
      if k + 1 + i < BLOCKS { assert rest[i].lba == k + 1 + i; }
    }
  }

  // ---- When the idle poll flushes -----------------------------------------------------------------------------

  /** A write of at least one block that is accepted leaves the sector dirty, stamped with the last clock reading. */
  lemma {:induction false} LoopStamps(c: Cache, lba: nat, bytes: seq<Byte>, chances: seq<Chance>)
    requires Valid(c) && InRange(lba, |chances|) && |bytes| == |chances| * BLOCK && chances != []
    requires WriteLoop(c, lba, bytes, chances).1 == |chances|
    ensures var w := WriteLoop(c, lba, bytes, chances).0;
            w.dirty && w.lastWriteUs == chances[|chances| - 1].now
    decreases |chances|
  {
    hide Splice, CacheLoad;
    var w := WriteBlock(c, lba, bytes[..BLOCK], chances[0]).0;
    if |chances| > 1 {
      LoopStamps(w, lba + 1, bytes[BLOCK..], chances[1..]);
    } else {
      assert WriteLoop(w, lba + 1, bytes[BLOCK..], chances[1..]) == (w, 0);
    }
  }

  /** After an accepted write whose last clock reading is t, an idle poll at t + e flushes if and only if more than half
      a second has passed; before that it leaves everything as it was, and a flush that fails does too. */
  lemma IdleFlushesIff(c: Cache, op: Op, e: nat, flashOk: bool)
    requires Valid(c) && WellFormed(op) && op.Write? && op.chances != [] && Step(c, op).1 == Accepted
    requires e < 0x1_0000_0000_0000_0000
    ensures var w, now := Step(c, op).0, (op.chances[|op.chances| - 1].now + e) % 0x1_0000_0000_0000_0000;
            var idle := Idle(Chance(flashOk, now));
            && WellFormed(idle) && w.dirty
            && (e > 500_000 && flashOk ==>
                  var f := Step(w, idle).0; f.flash == Contents(w) == Contents(f) && !f.dirty)
            && (e <= 500_000 || !flashOk ==> Step(w, idle).0 == w)
  {
    hide Contents, Splice, WriteLoop;
    LoopStamps(c, op.lba, op.bytes, op.chances);
    var w := Step(c, op).0;
    FlushKeepsContents(w, flashOk);
    if flashOk { OkFlashSyncs(w, Chance(flashOk, 0)); }
    Elapsed(op.chances[|op.chances| - 1].now, e);
  }

  lemma Elapsed(t: nat, e: nat)
    requires e < TWO64
    ensures ((t + e) % TWO64 - t) % TWO64 == e
  {
  }
}
