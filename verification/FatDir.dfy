/** The root directory: long names assembled from their parts, and files opened by name ignoring case. */
module FatDir {
  import opened Bits
  import opened FatModel

  const NAME_MAX: nat := 64
  const PART: nat := 13
  const ENTRY: nat := 32

  /** A character string: bytes, without the terminating zero. */
  type Name = seq<Byte>

  /** Offsets of the 13 characters of a long-name part. */
  const LFN_OFF: seq<nat> := [1, 3, 5, 7, 9, 14, 16, 18, 20, 22, 24, 28, 30]

  /** The assembly buffer, and whether any part has been seen. */
  datatype DirWalk = DirWalk(name: seq<Byte>, haveLfn: bool)

  function Zeros(n: nat): (z: seq<Byte>)
    ensures |z| == n && forall i :: 0 <= i < n ==> z[i] == 0
  {
    seq<Byte>(n, i => 0)
  }

  const FreshWalk: DirWalk := DirWalk(Zeros(NAME_MAX), false)

  function Ascii(c: nat): Byte { if c < 0x80 then c else 0x3F }

  /** Characters i..12 of a part go to base+i.., up to a terminator. */
  function FillPart(name: seq<Byte>, e: seq<Byte>, base: nat, i: nat): (r: seq<Byte>)
    requires |name| == NAME_MAX && |e| == ENTRY && i <= PART
    ensures |r| == NAME_MAX
    decreases PART - i
  {
    if i == PART || base + i >= NAME_MAX - 1 then name
    else
      var c := Rd16(e, LFN_OFF[i]);
      if c == 0 || c == 0xFFFF then name[base + i := 0]
      else FillPart(name[base + i := Ascii(c)], e, base, i + 1)
  }

  lemma FillStep(name: seq<Byte>, e: seq<Byte>, base: nat, t: nat)
    requires |name| == NAME_MAX && |e| == ENTRY && t <= PART && base + t < NAME_MAX - 1
    ensures FillPart(name, e, base, t) ==
            if t == PART then name
            else if Rd16(e, LFN_OFF[t]) == 0 then name[base + t := 0]
            else if Rd16(e, LFN_OFF[t]) == 0xFFFF then name[base + t := 0]
            else FillPart(name[base + t := Ascii(Rd16(e, LFN_OFF[t]))], e, base, t + 1)
  {
    hide Rd16;
  }

  function LfnCollect(w: DirWalk, e: seq<Byte>): (r: DirWalk)
    requires |w.name| == NAME_MAX && |e| == ENTRY
    ensures |r.name| == NAME_MAX
  {
    var ord := e[0] % 32;
    if ord == 0 || ord > NAME_MAX / PART then w
    else DirWalk(FillPart(w.name, e, (ord - 1) * PART, 0), true)
  }

  /** Up to the first zero byte. */
  function CStr(s: seq<Byte>): Name {
    if s == [] || s[0] == 0 then [] else [s[0]] + CStr(s[1..])
  }

  /** Up to the first blank. */
  function Unpadded(s: seq<Byte>): seq<Byte> {
    if s == [] || s[0] == 0x20 then [] else [s[0]] + Unpadded(s[1..])
  }

  function ShortName(e: seq<Byte>): Name
    requires |e| == ENTRY
  {
    CStr(Unpadded(e[..8]) + if e[8] == 0x20 then [] else [0x2E] + Unpadded(e[8..11]))
  }

  function Lower(c: Byte): Byte { if 0x41 <= c <= 0x5A then c + 32 else c }

  function Lowered(s: Name): (r: Name)
    ensures |r| == |s|
  {
    seq<Byte>(|s|, i requires 0 <= i < |s| => Lower(s[i]))
  }

  predicate SameName(a: Name, b: Name) { Lowered(a) == Lowered(b) }

  /** What an entry is to the walk. */
  datatype Visit = EndOfDir | Pass(walk: DirWalk) | Visited(name: Name)

  function Visiting(w: DirWalk, e: seq<Byte>): (r: Visit)
    requires |w.name| == NAME_MAX && |e| == ENTRY
    ensures r.Pass? ==> |r.walk.name| == NAME_MAX
  {
    if e[0] == 0 then EndOfDir
    else if e[0] == 0xE5 then Pass(w.(haveLfn := false))
    else if e[11] % 64 == 0x0F then Pass(LfnCollect(w, e))
    else if Bit(e[11], 3) || Bit(e[11], 4) then Pass(w.(haveLfn := false))
    else Visited(if w.haveLfn then CStr(w.name) else ShortName(e))
  }

  datatype Opened = Found(size: nat, first: nat) | Missing | Broken

  function EntryAt(dev: Device, v: Volume, k: nat): (e: seq<Byte>)
    requires Readable(dev, v.rootStart + k / 16)
    ensures |e| == ENTRY
  {
    Block(dev, v.rootStart + k / 16)[k % 16 * ENTRY..k % 16 * ENTRY + ENTRY]
  }

  /** The search from entry k on: the first visited file whose name is the wanted one, ignoring case. */
  function Search(dev: Device, v: Volume, want: Name, k: nat, w: DirWalk): (r: Opened)
    requires |w.name| == NAME_MAX
    ensures r.Found? ==> r.first < TWO16
    decreases v.rootSecs * 16 - k
  {
    if k >= v.rootSecs * 16 then Missing
    else if !Readable(dev, v.rootStart + k / 16) then Broken
    else
      var e := EntryAt(dev, v, k);
      match Visiting(w, e)
      case EndOfDir => Missing
      case Pass(u) => Search(dev, v, want, k + 1, u)
      case Visited(name) =>
        if SameName(name, want) then Found(Rd32(e, 28), Rd16(e, 26))
        else Search(dev, v, want, k + 1, FreshWalk)
  }

  function Open(dev: Device, v: Volume, want: Name): Opened { Search(dev, v, want, 0, FreshWalk) }

  // ---- In place -----------------------------------------------------------------------------------------------

  /** Character by character, both names lowered. */
  method EqualIgnoringCase(a: Name, b: Name) returns (same: bool)
    ensures same == SameName(a, b)
  {
    var i := 0;
    while i < |a| && i < |b|
      invariant i <= |a| && i <= |b|
      invariant forall k :: 0 <= k < i ==> Lower(a[k]) == Lower(b[k])
    {
      if Lower(a[i]) != Lower(b[i]) {
        assert Lowered(a)[i] != Lowered(b)[i];
        return false;
      }
      i := i + 1;
    }
    if |a| != |b| {
      assert |Lowered(a)| != |Lowered(b)|;
      return false;
    }
    assert forall k :: 0 <= k < |a| ==> Lowered(a)[k] == Lowered(b)[k];
    return true;
  }

  method CollectPart(name: array<Byte>, e: seq<Byte>) returns (taken: bool)
    requires name.Length == NAME_MAX && |e| == ENTRY
    modifies name
    ensures forall have :: DirWalk(name[..], taken || have) == LfnCollect(DirWalk(old(name[..]), have), e)
  {
    hide FillPart, Rd16;
    var ord := e[0] % 32;
    if ord == 0 || ord > NAME_MAX / PART {
      return false;
    }
    var base := (ord - 1) * PART;
    ghost var goal := FillPart(name[..], e, base, 0);
    for i := 0 to PART
      invariant goal == FillPart(name[..], e, base, i)
    {
      FillStep(name[..], e, base, i);
      if base + i >= NAME_MAX - 1 {
        return true;
      }
      var c := Rd16(e, LFN_OFF[i]);
      ghost var was := name[..];
      if c == 0 || c == 0xFFFF {
        name[base + i] := 0;
        assert name[..] == was[base + i := 0];
        return true;
      }
      name[base + i] := Ascii(c);
      assert name[..] == was[base + i := Ascii(c)];
    }
    FillStep(name[..], e, base, PART);
    return true;
  }

  /** Characters of the stem up to a blank, then, if there is an extension, a dot and its characters up to a blank. */
  method ReadShortName(e: seq<Byte>) returns (name: Name)
    requires |e| == ENTRY
    ensures name == ShortName(e)
  {
    hide Unpadded, CStr;
    var out: seq<Byte> := [];
    var i := 0;
    assert out + Unpadded(e[..8]) == Unpadded(e[..8]);
    while i < 8 && e[i] != 0x20
      invariant i <= 8 && out + Unpadded(e[i..8]) == Unpadded(e[..8])
    {
      UnpaddedFrom(e, i, 8);
      assert out + ([e[i]] + Unpadded(e[i + 1..8])) == out + [e[i]] + Unpadded(e[i + 1..8]);
      out := out + [e[i]];
      i := i + 1;
    }
    UnpaddedFrom(e, i, 8);
    assert out == out + [] == Unpadded(e[..8]);
    ghost var first := out;
    if e[8] != 0x20 {
      out := out + [0x2E];
      ghost var stem := out;
      i := 8;
      while i < 11 && e[i] != 0x20
        invariant 8 <= i <= 11 && out + Unpadded(e[i..11]) == stem + Unpadded(e[8..11])
      {
        UnpaddedFrom(e, i, 11);
        assert out + ([e[i]] + Unpadded(e[i + 1..11])) == out + [e[i]] + Unpadded(e[i + 1..11]);
        out := out + [e[i]];
        i := i + 1;
      }
      UnpaddedFrom(e, i, 11);
      assert out == out + [] == stem + Unpadded(e[8..11]) == first + ([0x2E] + Unpadded(e[8..11]));
    } else {
      assert out == first + [];
    }
    name := CStr(out);
  }

  lemma UnpaddedFrom(e: seq<Byte>, i: nat, end: nat)
    requires i <= end <= |e|
    ensures Unpadded(e[i..end])
         == if i == end || e[i] == 0x20 then [] else [e[i]] + Unpadded(e[i + 1..end])
  {
    if i < end { assert e[i..end][1..] == e[i + 1..end]; }
  }

  lemma {:induction false} UnpaddedOf(s: seq<Byte>, rest: seq<Byte>)
    requires (forall i :: 0 <= i < |s| ==> s[i] != 0x20) && (rest == [] || rest[0] == 0x20)
    ensures Unpadded(s + rest) == s
  {
    if s == [] {
      assert s + rest == rest;
    } else {
      assert (s + rest)[1..] == s[1..] + rest;
      UnpaddedOf(s[1..], rest);
    }
  }

  lemma {:induction false} NoZeroInside(s: Name)
    requires forall i :: 0 <= i < |s| ==> s[i] != 0
    ensures CStr(s) == s
  {
    if s != [] { NoZeroInside(s[1..]); }
  }

  /** A stem and an extension padded with blanks read back as `stem.ext`, or as the stem alone without an extension. */
  lemma ShortNameReads(e: seq<Byte>, stem: Name, ext: Name)
    requires |e| == ENTRY && |stem| <= 8 && |ext| <= 3
    requires forall i :: 0 <= i < |stem| ==> stem[i] != 0x20 && stem[i] != 0
    requires forall i :: 0 <= i < |ext| ==> ext[i] != 0x20 && ext[i] != 0
    requires e[..8] == stem + seq<Byte>(8 - |stem|, i => 0x20) && e[8..11] == ext + seq<Byte>(3 - |ext|, i => 0x20)
    ensures ShortName(e) == stem + if ext == [] then [] else [0x2E] + ext
  {
    UnpaddedOf(stem, seq<Byte>(8 - |stem|, i => 0x20));
    UnpaddedOf(ext, seq<Byte>(3 - |ext|, i => 0x20));
    assert e[8] == e[8..11][0];
    NoZeroInside(stem + if ext == [] then [] else [0x2E] + ext);
  }

  lemma SearchStep(dev: Device, v: Volume, want: Name, k: nat, w: DirWalk)
    requires |w.name| == NAME_MAX && k < v.rootSecs * 16 && Readable(dev, v.rootStart + k / 16)
    ensures var e := EntryAt(dev, v, k);
            Search(dev, v, want, k, w) == match Visiting(w, e)
              case EndOfDir => Missing
              case Pass(u) => Search(dev, v, want, k + 1, u)
              case Visited(name) =>
                if SameName(name, want) then Found(Rd32(e, 28), Rd16(e, 26))
                else Search(dev, v, want, k + 1, FreshWalk)
  {
    hide Visiting, SameName, EntryAt;
  }

  lemma SearchEdge(dev: Device, v: Volume, want: Name, k: nat, w: DirWalk)
    requires |w.name| == NAME_MAX
    ensures k >= v.rootSecs * 16 ==> Search(dev, v, want, k, w) == Missing
    ensures k < v.rootSecs * 16 && !Readable(dev, v.rootStart + k / 16) ==> Search(dev, v, want, k, w) == Broken
  {
  }

  /** Walk one entry: what it is, with the assembly buffer and flag updated in place. */
  method VisitEntry(name: array<Byte>, have: bool, e: seq<Byte>) returns (visit: Visit, now: bool)
    requires name.Length == NAME_MAX && |e| == ENTRY
    modifies name
    ensures visit.EndOfDir? <==> Visiting(DirWalk(old(name[..]), have), e).EndOfDir?
    ensures visit.Visited? <==> Visiting(DirWalk(old(name[..]), have), e).Visited?
    ensures visit.Visited? ==> visit == Visiting(DirWalk(old(name[..]), have), e) && DirWalk(name[..], now) == FreshWalk
    ensures visit.Pass? ==> Visiting(DirWalk(old(name[..]), have), e) == Pass(DirWalk(name[..], now))
  {
    hide LfnCollect, CStr, ShortName;
    if e[0] == 0 {
      return EndOfDir, have;
    }
    if e[0] == 0xE5 {
      return Pass(FreshWalk), false;
    }
    if e[11] % 64 == 0x0F {
      var taken := CollectPart(name, e);
      return Pass(FreshWalk), taken || have;
    }
    if Bit(e[11], 3) || Bit(e[11], 4) {
      return Pass(FreshWalk), false;
    }
    var found := CStr(name[..]);
    if !have {
      found := ReadShortName(e);
    }
    visit, now := Visited(found), false;
    forall i | 0 <= i < NAME_MAX { name[i] := 0; }
    assert name[..] == Zeros(NAME_MAX);
  }

  /** Sector by sector and entry by entry; the 64-byte buffer is cleared after every visited file. */
  method OpenFile(drv: FatDriver, v: Volume, want: Name) returns (res: Opened)
    requires drv.Valid()
    ensures res == Open(drv.dev, v, want)
  {
    hide Search, Visiting, SameName, EntryAt, Coherent;
    var name := new Byte[NAME_MAX](_ => 0);
    var sec := new Byte[BS];
    var have := false;
    assert name[..] == Zeros(NAME_MAX);
    for s := 0 to v.rootSecs
      invariant Open(drv.dev, v, want) == Search(drv.dev, v, want, s * 16, DirWalk(name[..], have))
    {
      SearchEdge(drv.dev, v, want, s * 16, DirWalk(name[..], have));
      var ok := drv.ReadSector(v.rootStart + s, sec);
      if !ok {
        return Broken;
      }
      var done;
      done, res, have := ScanSector(drv, v, want, s, sec, name, have);
      if done {
        return;
      }
    }
    SearchEdge(drv.dev, v, want, v.rootSecs * 16, DirWalk(name[..], have));
    return Missing;
  }

  method ScanSector(drv: FatDriver, v: Volume, want: Name, s: nat, sec: array<Byte>, name: array<Byte>, had: bool)
    returns (done: bool, res: Opened, have: bool)
    requires s < v.rootSecs && Readable(drv.dev, v.rootStart + s)
    requires name.Length == NAME_MAX && sec != name && sec[..] == Block(drv.dev, v.rootStart + s)
    modifies name
    ensures Search(drv.dev, v, want, s * 16, DirWalk(old(name[..]), had))
         == if done then res else Search(drv.dev, v, want, (s + 1) * 16, DirWalk(name[..], have))
  {
    hide Search, Visiting, SameName, EntryAt;
    ghost var goal := Search(drv.dev, v, want, s * 16, DirWalk(name[..], had));
    have := had;
    for i := 0 to 16
      invariant goal == Search(drv.dev, v, want, s * 16 + i, DirWalk(name[..], have))
    {
      SearchStep(drv.dev, v, want, s * 16 + i, DirWalk(name[..], have));
      EntryInSector(drv.dev, v, s, i);
      var e := sec[i * ENTRY..i * ENTRY + ENTRY];
      assert e == sec[..][i * ENTRY..i * ENTRY + ENTRY];
      var visit, now := VisitEntry(name, have, e);
      have := now;
      match visit
      case EndOfDir => return true, Missing, have;
      case Pass(_) =>
      case Visited(found) =>
        var same := EqualIgnoringCase(found, want);
        if same {
          return true, Found(Rd32(e, 28), Rd16(e, 26)), have;
        }
    }
    return false, Missing, have;
  }

  lemma EntryInSector(dev: Device, v: Volume, s: nat, i: nat)
    requires i < 16 && Readable(dev, v.rootStart + s)
    ensures (s * 16 + i) / 16 == s
    ensures EntryAt(dev, v, s * 16 + i) == Block(dev, v.rootStart + s)[i * ENTRY..i * ENTRY + ENTRY]
  {
    assert (s * 16 + i) % 16 == i;
  }
}
