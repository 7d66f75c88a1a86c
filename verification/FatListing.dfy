/** Directories as another writer leaves them: removed entries, labels, subdirectories, files with a long name and files
    without one. */
module FatListing {
  import opened Bits
  import opened FatModel
  import opened FatDir
  import Img = FatImage
  import RT = FatRoundTrip

  type Raw = e: seq<Byte> | |e| == 32 witness Zeros(32)

  /** What stands in a directory. A long name is written in parts of thirteen characters, the last part first, before
      the entry it belongs to; only a name that does not fill its last part has a zero after it. */
  datatype Item =
    | Other(name: Name, parts: seq<Raw>, entry: Raw)
    | Short(stem: Name, ext: Name, entry: Raw)
    | Long(name: Name, parts: seq<Raw>, entry: Raw)

  predicate Formed(item: Item) {
    match item
    case Other(name, parts, e) => (IsRemoved(e) || IsAside(e)) && (parts == [] || IsLong(name, parts))
    case Short(stem, ext, e) => IsFile(e) && HasAlias(e, stem, ext)
    case Long(name, parts, e) => IsFile(e) && IsLong(name, parts)
  }

  predicate IsRemoved(e: Raw) { e[0] == 0xE5 }

  predicate Used(e: Raw) { e[0] != 0x00 && e[0] != 0xE5 }

  /** A label or a subdirectory. */
  predicate IsAside(e: Raw) { Used(e) && e[11] % 64 != 15 && (e[11] / 8 % 2 == 1 || e[11] / 16 % 2 == 1) }

  /** Neither of them. */
  predicate IsFile(e: Raw) { Used(e) && e[11] / 8 % 2 == 0 && e[11] / 16 % 2 == 0 }

  /** Eight characters and three, padded with blanks. */
  predicate HasAlias(e: Raw, stem: Name, ext: Name) {
    && |stem| <= 8 && |ext| <= 3 && 0x20 !in stem + ext && 0x00 !in stem + ext
    && e[..8] == stem + seq<Byte>(8 - |stem|, i => 0x20) && e[8..11] == ext + seq<Byte>(3 - |ext|, i => 0x20)
  }

  predicate IsLong(name: Name, parts: seq<Raw>) {
    && 0 !in name && name != [] && parts != []
    && 13 * (|parts| - 1) <= |name| <= 13 * |parts|
    && forall t: nat :: t < |parts| ==> IsPart(parts[t], name, |parts| - t)
  }

  /** Part i: its number in the low five bits, and its characters, those outside ASCII shown as question marks. */
  predicate IsPart(e: Raw, name: Name, i: nat)
    requires i >= 1
  {
    && Used(e) && e[0] % 32 == i && e[11] % 64 == 15
    && forall t: nat :: t < 13 ==>
      && (13 * (i - 1) + t < |name| ==> Shows(CodeAt(e, t), name[13 * (i - 1) + t]))
      && (13 * (i - 1) + t == |name| ==> CodeAt(e, t) == 0x0000)
  }

  /** Five characters from byte 1, six from byte 14 and two from byte 28, each two bytes, low byte first. */
  function CodeAt(e: Raw, t: nat): nat
    requires t < 13
  {
    var at := if t < 5 then 1 + 2 * t else if t < 11 then 4 + 2 * t else 6 + 2 * t;
    e[at] as nat + 256 * e[at + 1] as nat
  }

  predicate Shows(code: nat, c: Byte) {
    0x0000 < code < 0xFFFF && c == if code < 0x80 then code else 0x3F
  }

  /** The entries of an item. */
  function RawOf(item: Item): (es: seq<Raw>) {
    if item.Short? then [item.entry] else item.parts + [item.entry]
  }

  function RawAll(items: seq<Item>): seq<Raw> {
    if items == [] then [] else RawOf(items[0]) + RawAll(items[1..])
  }

  // ---- What is found ------------------------------------------------------------------------------------------

  /** The assembly buffer between items: of long names it keeps 52 characters. */
  predicate IsBuffer(buf: seq<Byte>) { |buf| == 64 && forall j :: 52 <= j < 64 ==> buf[j] == 0 }

  /** The buffer with the n parts of a name written over it. */
  function Written(buf: seq<Byte>, name: Name, n: nat): (r: seq<Byte>)
    requires IsBuffer(buf)
    ensures IsBuffer(r)
  {
    seq<Byte>(64, j requires 0 <= j < 64 => if j < 52 && j < 13 * n && j <= |name| then CharAt(name, j) else buf[j])
  }

  function CharAt(name: Name, j: nat): Byte { if j < |name| then name[j] else 0 }

  /** A visited file clears the buffer; a long name that is passed over stays in it. */
  function After(buf: seq<Byte>, item: Item): (r: seq<Byte>)
    requires IsBuffer(buf)
    ensures IsBuffer(r)
  {
    if !item.Other? then Zeros(64) else if item.parts == [] then buf else Written(buf, item.name, |item.parts|)
  }

  /** What the buffer adds to a long name: nothing if the name is ended by a zero or by the 52 characters, else all that
      is left behind its end. */
  function Leftover(buf: seq<Byte>, name: Name, n: nat): Name
    requires IsBuffer(buf)
  {
    if |name| < 13 * n || |name| >= 52 then [] else CStr(buf[|name|..])
  }

  /** The name a file is found under. */
  function FoundAs(buf: seq<Byte>, item: Item): Name
    requires IsBuffer(buf) && !item.Other?
  {
    match item
    case Short(stem, ext, _) => stem + if ext == [] then [] else [0x2E] + ext
    case Long(name, parts, _) => (if |name| > 52 then name[..52] else name) + Leftover(buf, name, |parts|)
  }

  predicate Named(buf: seq<Byte>, item: Item, want: Name)
    requires IsBuffer(buf)
  {
    !item.Other? && Alike(FoundAs(buf, item), want)
  }

  /** Equal but for the case of ASCII letters. */
  predicate Alike(a: Name, b: Name) {
    |a| == |b| && forall i :: 0 <= i < |a| ==> a[i] == b[i] || TwoCases(a[i], b[i]) || TwoCases(b[i], a[i])
  }

  predicate TwoCases(upper: Byte, lower: Byte) { 0x41 <= upper <= 0x5A && lower == upper + 0x20 }

  function FileOf(e: Raw): Opened {
    Found(e[28] as nat + 0x100 * e[29] as nat + 0x1_0000 * e[30] as nat + 0x100_0000 * e[31] as nat,
          e[26] as nat + 0x100 * e[27] as nat)
  }

  /** The first file found under that name. */
  function FirstItem(buf: seq<Byte>, items: seq<Item>, want: Name): Opened
    requires IsBuffer(buf)
    decreases |items|
  {
    if items == [] then Missing
    else if Named(buf, items[0], want) then FileOf(items[0].entry)
    else FirstItem(After(buf, items[0]), items[1..], want)
  }

  /** The entries from k on are these. */
  predicate Stands(dev: Device, v: Volume, k: nat, es: seq<Raw>) {
    && k + |es| <= v.rootSecs * 16
    && forall i: nat :: i < |es| ==> StandsAt(dev, v, k + i, es[i])
  }

  predicate StandsAt(dev: Device, v: Volume, k: nat, e: Raw) {
    Readable(dev, v.rootStart + k / 16) && EntryAt(dev, v, k) == e
  }

  /** Opening a file of any directory finds the first file found under that name: removed entries, labels and
      subdirectories are passed over, and nothing behind the end of the directory is looked at. */
  lemma OpensFirstItem(dev: Device, v: Volume, items: seq<Item>, want: Name)
    requires forall i :: 0 <= i < |items| ==> Formed(items[i])
    requires var n := |RawAll(items)|;
             && Stands(dev, v, 0, RawAll(items))
             && (n < v.rootSecs * 16 ==> exists e: Raw :: e[0] == 0x00 && StandsAt(dev, v, n, e))
    ensures Open(dev, v, want) == FirstItem(Zeros(64), items, want)
  {
    hide Stands, StandsAt, RawAll, Search, FirstItem;
    assert 0 + |RawAll(items)| == |RawAll(items)|;
    WalkItems(dev, v, 0, Zeros(64), items, want);
  }

  lemma {:induction false} WalkItems(dev: Device, v: Volume, k: nat, buf: seq<Byte>, items: seq<Item>, want: Name)
    requires IsBuffer(buf) && forall i :: 0 <= i < |items| ==> Formed(items[i])
    requires var n := k + |RawAll(items)|;
             && Stands(dev, v, k, RawAll(items))
             && (n < v.rootSecs * 16 ==> exists e: Raw :: e[0] == 0x00 && StandsAt(dev, v, n, e))
    ensures Search(dev, v, want, k, DirWalk(buf, false)) == FirstItem(buf, items, want)
    decreases |items|
  {
    hide Stands, StandsAt, Search, RawOf, Named, FileOf, Formed, IsBuffer, After;
    if items == [] {
      DirectoryEnds(dev, v, k, buf, want);
    } else {
      var es := RawOf(items[0]);
      StandsApart(dev, v, k, es, RawAll(items[1..]));
      WalkItem(dev, v, k, buf, items[0], want);
      WalkItems(dev, v, k + |es|, After(buf, items[0]), items[1..], want);
    }
  }

  lemma DirectoryEnds(dev: Device, v: Volume, k: nat, buf: seq<Byte>, want: Name)
    requires Stands(dev, v, k, []) && IsBuffer(buf)
    requires k < v.rootSecs * 16 ==> exists e: Raw :: e[0] == 0x00 && StandsAt(dev, v, k, e)
    ensures Search(dev, v, want, k, DirWalk(buf, false)) == Missing
  {
    hide Search, EntryAt;
    if k < v.rootSecs * 16 {
      SearchStep(dev, v, want, k, DirWalk(buf, false));
    } else {
      SearchEdge(dev, v, want, k, DirWalk(buf, false));
    }
  }

  lemma StandsApart(dev: Device, v: Volume, k: nat, a: seq<Raw>, b: seq<Raw>)
    requires Stands(dev, v, k, a + b)
    ensures Stands(dev, v, k, a) && Stands(dev, v, k + |a|, b)
  {
    hide StandsAt;
    forall i: nat | i < |a| ensures StandsAt(dev, v, k + i, a[i]) {
      assert (a + b)[i] == a[i];
    }
    forall i: nat | i < |b| ensures StandsAt(dev, v, k + |a| + i, b[i]) {
      assert (a + b)[|a| + i] == b[i] && StandsAt(dev, v, k + (|a| + i), (a + b)[|a| + i]);
    }
  }

  /** Past one item: it is the file wanted, or the search goes on behind it. */
  lemma WalkItem(dev: Device, v: Volume, k: nat, buf: seq<Byte>, item: Item, want: Name)
    requires IsBuffer(buf) && Formed(item) && Stands(dev, v, k, RawOf(item))
    ensures Search(dev, v, want, k, DirWalk(buf, false))
         == if Named(buf, item, want) then FileOf(item.entry)
            else Search(dev, v, want, k + |RawOf(item)|, DirWalk(After(buf, item), false))
  {
    hide Search, Visiting, StandsAt, FileOf, Alike, IsPart, IsAside, IsFile, Written, Leftover, CStr;
    var parts := if item.Short? then [] else item.parts;
    var w, n := DirWalk(buf, false), |parts|;
    StandsApart(dev, v, k, parts, [item.entry]);
    if parts != [] {
      WalkParts(dev, v, k, buf, item.name, parts, want, n, false);
      NothingOver(buf, item.name, n);
      w := DirWalk(Written(buf, item.name, n), true);
    }
    assert StandsAt(dev, v, k + n + 0, [item.entry][0]);
    OneEntry(dev, v, k + n, item.entry, want, w);
    match item
    case Other(_, _, e) => IsPassed(w, e);
    case Short(_, _, e) => ShortIsVisited(w, item);
    case Long(name, _, e) =>
      FileIsVisited(w, e);
      NameIsRead(buf, name, n);
  }

  lemma OneEntry(dev: Device, v: Volume, k: nat, e: Raw, want: Name, w: DirWalk)
    requires |w.name| == NAME_MAX && k < v.rootSecs * 16 && StandsAt(dev, v, k, e)
    ensures Search(dev, v, want, k, w) == match Visiting(w, e)
              case EndOfDir => Missing
              case Pass(u) => Search(dev, v, want, k + 1, u)
              case Visited(name) =>
                if Alike(name, want) then FileOf(e) else Search(dev, v, want, k + 1, FreshWalk)
  {
    hide Search, Visiting, EntryAt, SameName, Alike;
    SearchStep(dev, v, want, k, w);
    if Visiting(w, e).Visited? { AlikeIff(Visiting(w, e).name, want); }
  }

  /** The driver's comparison is equality but for the case of ASCII letters. */
  lemma AlikeIff(a: Name, b: Name)
    ensures SameName(a, b) <==> Alike(a, b)
  {
    if |a| == |b| {
      forall i | 0 <= i < |a|
        ensures Lowered(a)[i] == Lowered(b)[i] <==> a[i] == b[i] || TwoCases(a[i], b[i]) || TwoCases(b[i], a[i])
      {
      }
    }
    if SameName(a, b) {
      assert |a| == |Lowered(a)| == |Lowered(b)| == |b|;
    }
  }

  lemma IsPassed(w: DirWalk, e: Raw)
    requires |w.name| == NAME_MAX && (IsRemoved(e) || IsAside(e))
    ensures Visiting(w, e) == Pass(w.(haveLfn := false))
  {
    FlagBits(e[11]);
  }

  lemma FlagBits(x: nat)
    ensures Bit(x, 3) <==> x / 8 % 2 == 1
    ensures Bit(x, 4) <==> x / 16 % 2 == 1
  {
    hide Bit;
    BitBelow(x, 3);
    BitBelow(x / 2, 2);
    BitBelow(x / 4, 1);
    BitBelow(x / 8, 0);
    BitBelow(x, 4);
    BitBelow(x / 2, 3);
    BitBelow(x / 4, 2);
    BitBelow(x / 8, 1);
    BitBelow(x / 16, 0);
    assert x / 4 / 2 == x / 8 && x / 8 / 2 == x / 16;
  }

  lemma BitBelow(x: nat, i: nat)
    ensures Bit(x, i) == if i == 0 then x % 2 == 1 else Bit(x / 2, i - 1)
  {
  }

  lemma FileIsVisited(w: DirWalk, e: Raw)
    requires |w.name| == NAME_MAX && IsFile(e)
    ensures Visiting(w, e) == Visited(if w.haveLfn then CStr(w.name) else ShortName(e))
  {
    hide CStr, ShortName;
    FlagBits(e[11]);
    assert e[11] % 64 != 15;
  }

  lemma ShortIsVisited(w: DirWalk, item: Item)
    requires |w.name| == NAME_MAX && !w.haveLfn && Formed(item) && item.Short?
    ensures Visiting(w, item.entry) == Visited(item.stem + if item.ext == [] then [] else [0x2E] + item.ext)
  {
    hide Visiting, CStr, ShortName, IsFile;
    var e, stem, ext := item.entry, item.stem, item.ext;
    FileIsVisited(w, e);
    forall i | 0 <= i < |stem| ensures stem[i] != 0x20 && stem[i] != 0 {
      assert stem[i] in stem + ext;
    }
    forall i | 0 <= i < |ext| ensures ext[i] != 0x20 && ext[i] != 0 {
      assert ext[i] in stem + ext;
    }
    ShortNameReads(e, stem, ext);
  }

  // ---- Long names ---------------------------------------------------------------------------------------------

  /** The buffer when, of the n parts, the characters at lo..mid-1 and from hi on have been written. */
  function Over(buf: seq<Byte>, name: Name, n: nat, lo: nat, mid: nat, hi: nat): (r: seq<Byte>)
    requires |buf| == 64
    ensures |r| == 64
  {
    seq<Byte>(64, j requires 0 <= j < 64 => if Filled(name, n, lo, mid, hi, j) then CharAt(name, j) else buf[j])
  }

  predicate Filled(name: Name, n: nat, lo: nat, mid: nat, hi: nat, j: nat) {
    (lo <= j < mid || j >= hi) && j < 52 && j < 13 * n && j <= |name|
  }

  lemma SameOver(buf: seq<Byte>, name: Name, n: nat, lo: nat, mid: nat, hi: nat, lo': nat, mid': nat, hi': nat)
    requires |buf| == 64
    requires forall j: nat :: j < 52 ==> Filled(name, n, lo, mid, hi, j) == Filled(name, n, lo', mid', hi', j)
    ensures Over(buf, name, n, lo, mid, hi) == Over(buf, name, n, lo', mid', hi')
  {
    var l, r := Over(buf, name, n, lo, mid, hi), Over(buf, name, n, lo', mid', hi');
    forall j | 0 <= j < 64 ensures l[j] == r[j] {
    }
  }

  lemma NothingOver(buf: seq<Byte>, name: Name, n: nat)
    requires IsBuffer(buf)
    ensures Over(buf, name, n, 0, 0, 13 * n) == buf && Over(buf, name, n, 0, 0, 0) == Written(buf, name, n)
  {
  }

  /** One more character, or the zero that ends the name. */
  lemma OverPut(buf: seq<Byte>, name: Name, n: nat, lo: nat, mid: nat, hi: nat)
    requires |buf| == 64 && lo <= mid < hi && mid < 52 && mid < 13 * n && mid <= |name|
    ensures Over(buf, name, n, lo, mid, hi)[mid := CharAt(name, mid)] == Over(buf, name, n, lo, mid + 1, hi)
  {
    hide CharAt;
    var l, r := Over(buf, name, n, lo, mid, hi)[mid := CharAt(name, mid)], Over(buf, name, n, lo, mid + 1, hi);
    forall j | 0 <= j < 64 ensures l[j] == r[j] {
    }
  }

  lemma {:induction false} PartFills(buf: seq<Byte>, name: Name, n: nat, e: Raw, i: nat, t: nat)
    requires |buf| == 64 && 1 <= i <= n && i <= 4 && IsPart(e, name, i) && t <= 13 && 13 * (i - 1) + t <= |name|
    ensures var base := 13 * (i - 1);
            FillPart(Over(buf, name, n, base, base + t, base + 13), e, base, t)
            == Over(buf, name, n, base, base + 13, base + 13)
    decreases 13 - t
  {
    hide Over, FillPart, Rd16, CodeAt;
    var base := 13 * (i - 1);
    FillStep(Over(buf, name, n, base, base + t, base + 13), e, base, t);
    if t < 13 {
      CodeIs(e, t);
      OverPut(buf, name, n, base, base + t, base + 13);
      if base + t < |name| {
        PartFills(buf, name, n, e, i, t + 1);
      } else {
        SameOver(buf, name, n, base, base + t + 1, base + 13, base, base + 13, base + 13);
      }
    }
  }

  /** Part i, taken after the parts above it: parts beyond the fourth change nothing. */
  lemma PartIsCollected(buf: seq<Byte>, name: Name, n: nat, e: Raw, i: nat, have: bool)
    requires |buf| == 64 && 1 <= i <= n && IsPart(e, name, i) && 13 * (i - 1) <= |name|
    ensures LfnCollect(DirWalk(Over(buf, name, n, 0, 0, 13 * i), have), e)
         == DirWalk(Over(buf, name, n, 0, 0, 13 * (i - 1)), have || i <= 4)
  {
    hide Over, FillPart;
    var base := 13 * (i - 1);
    if i <= 4 {
      SameOver(buf, name, n, 0, 0, 13 * i, base, base + 0, base + 13);
      PartFills(buf, name, n, e, i, 0);
      SameOver(buf, name, n, base, base + 13, base + 13, 0, 0, base);
    } else {
      SameOver(buf, name, n, 0, 0, 13 * i, 0, 0, base);
    }
  }

  lemma PartIsTaken(w: DirWalk, e: Raw)
    requires |w.name| == NAME_MAX && Used(e) && e[11] % 64 == 15
    ensures Visiting(w, e) == Pass(LfnCollect(w, e))
  {
    hide LfnCollect;
  }

  lemma {:induction false} WalkParts(dev: Device, v: Volume, k: nat, buf: seq<Byte>, name: Name, parts: seq<Raw>,
                                     want: Name, i: nat, have: bool)
    requires |buf| == 64 && Stands(dev, v, k, parts) && i <= |parts| && IsLong(name, parts)
    ensures var n := |parts|;
            Search(dev, v, want, k + n - i, DirWalk(Over(buf, name, n, 0, 0, 13 * i), have))
            == Search(dev, v, want, k + n, DirWalk(Over(buf, name, n, 0, 0, 0), have || i >= 1))
    decreases i
  {
    hide Search, Visiting, StandsAt, FileOf, Alike, IsPart, Over, LfnCollect;
    if i > 0 {
      var n := |parts|;
      var w, e := DirWalk(Over(buf, name, n, 0, 0, 13 * i), have), parts[n - i];
      assert StandsAt(dev, v, k + (n - i), e) && IsPart(e, name, i);
      OneEntry(dev, v, k + n - i, e, want, w);
      PartIsUsed(e, name, i);
      PartIsTaken(w, e);
      PartIsCollected(buf, name, n, e, i, have);
      WalkParts(dev, v, k, buf, name, parts, want, i - 1, have || i <= 4);
    }
  }

  lemma PartIsUsed(e: Raw, name: Name, i: nat)
    requires i >= 1 && IsPart(e, name, i)
    ensures Used(e) && e[11] % 64 == 15
  {
  }

  /** What is assembled: the name, and what the buffer still holds behind it. */
  lemma NameIsRead(buf: seq<Byte>, name: Name, n: nat)
    requires IsBuffer(buf) && 0 !in name && |name| <= 13 * n
    ensures CStr(Written(buf, name, n)) == (if |name| > 52 then name[..52] else name) + Leftover(buf, name, n)
  {
    var r, seen := Written(buf, name, n), if |name| > 52 then name[..52] else name;
    assert r == seen + r[|seen|..];
    CStrBehind(seen, r[|seen|..]);
    if |name| == 13 * n < 52 {
      assert r[|seen|..] == buf[|name|..];
    }
  }

  lemma {:induction false} CStrBehind(a: Name, b: Name)
    requires 0 !in a
    ensures CStr(a + b) == a + CStr(b)
  {
    if a == [] {
      assert a + b == b;
    } else {
      assert (a + b)[1..] == a[1..] + b;
      CStrBehind(a[1..], b);
    }
  }

  lemma CodeIs(e: Raw, t: nat)
    requires t < PART
    ensures Rd16(e, LFN_OFF[t]) == CodeAt(e, t)
  {
  }

  /** A file is found under its own long name, or the first 52 characters of it, if and only if that is ended by a zero,
      or is that long, or nothing is left behind its end. */
  lemma FoundAsItselfIff(buf: seq<Byte>, item: Item)
    requires IsBuffer(buf) && Formed(item) && item.Long?
    ensures var name := item.name;
            FoundAs(buf, item) == (if |name| > 52 then name[..52] else name)
            <==> |name| < 13 * |item.parts| || |name| >= 52 || buf[|name|] == 0
  {
  }

  // ---- A name the buffer spoils -------------------------------------------------------------------------------

  const SUB_NAME: Name := seq<Byte>(14, i => 0x44)
  const FILE_NAME: Name := seq<Byte>(13, i => 0x46)

  function Filler(c: Byte, attr: Byte): Raw { seq<Byte>(32, i => if i == 11 then attr else c) }

  /** A subdirectory whose name has 14 characters, and a file whose name fills its part. */
  function SpoiledItems(): (items: seq<Item>) {
    var upper, lower := PartOf(0x42, [0x44, 0] + seq<nat>(11, i => 0xFFFF)), PartOf(0x01, seq<nat>(13, i => 0x44));
    var whole := PartOf(0x41, seq<nat>(13, i => 0x46));
    [Other(SUB_NAME, [upper, lower], Filler(0x44, 0x10)), Long(FILE_NAME, [whole], Filler(0x46, 0x20))]
  }

  function PartOf(first: Byte, codes: seq<nat>): Raw
    requires |codes| == 13
  {
    Img.PartBytes(first, 0, codes)
  }

  /** A directory in which a file is not found under its own name. */
  lemma SpoiledName() returns (dev: Device, v: Volume)
    ensures var items := SpoiledItems();
            && Formed(items[0]) && Formed(items[1]) && items[1].name == FILE_NAME && |RawAll(items)| == 5
            && Stands(dev, v, 0, RawAll(items)) && StandsAt(dev, v, 5, Zeros(32))
            && Open(dev, v, FILE_NAME) == Missing
  {
    hide Stands, StandsAt, RawAll, Formed, FirstItem;
    var items := SpoiledItems();
    SpoiledFormed();
    FiveEntries(items[0], items[1]);
    dev, v := StandAlone(RawAll(items));
    OpensFirstItem(dev, v, items, FILE_NAME);
    SpoiledMissing();
  }

  lemma SpoiledFormed()
    ensures var items := SpoiledItems(); Formed(items[0]) && Formed(items[1])
  {
    hide PartOf, IsPart;
    MadePart(0x42, [0x44, 0] + seq<nat>(11, i => 0xFFFF), SUB_NAME, 2);
    MadePart(0x01, seq<nat>(13, i => 0x44), SUB_NAME, 1);
    MadePart(0x41, seq<nat>(13, i => 0x46), FILE_NAME, 1);
  }

  lemma MadePart(first: Byte, codes: seq<nat>, name: Name, i: nat)
    requires |codes| == 13 && 1 <= i && first % 32 == i && first != 0xE5
    requires forall t: nat :: t < 13 ==>
               && codes[t] < 0x1_0000
               && (13 * (i - 1) + t < |name| ==> Shows(codes[t], name[13 * (i - 1) + t]))
               && (13 * (i - 1) + t == |name| ==> codes[t] == 0x0000)
    ensures IsPart(PartOf(first, codes), name, i)
  {
    hide Img.PartBytes, CodeAt, Rd16;
    var e := PartOf(first, codes);
    forall t: nat | t < 13 ensures CodeAt(e, t) == codes[t] {
      Img.PartBytesRead(first, 0, codes, t);
      CodeIs(e, t);
    }
    PartHead(first, codes);
  }

  lemma PartHead(first: Byte, codes: seq<nat>)
    requires |codes| == 13
    ensures PartOf(first, codes)[0] == first && PartOf(first, codes)[11] == 15
  {
  }

  lemma FiveEntries(a: Item, b: Item)
    requires a.Other? && |a.parts| == 2 && b.Long? && |b.parts| == 1
    ensures |RawAll([a, b])| == 5
  {
    assert [a, b][1..] == [b] && [b][1..] == [];
    assert RawAll([b]) == RawOf(b) + RawAll([]);
  }

  /** A directory with these entries and no others. */
  lemma StandAlone(es: seq<Raw>) returns (dev: Device, v: Volume)
    requires |es| < 512
    ensures v.rootSecs == 32 && Stands(dev, v, 0, es) && StandsAt(dev, v, |es|, Zeros(32))
  {
    hide Img.Root, EntryAt, StandsAt;
    dev, v := Img.Root(es), Volume(16, 1, 0, 0, 0, 32, 32, 0, 0);
    RT.RootIsWide(es);
    forall k: nat | k <= |es| ensures StandsAt(dev, v, k, EntryOf(es, k)) {
      RT.EntryIn(dev, 0, dev, k);
      RT.RootAt(es, k);
      EntryIs(dev, v, k);
    }
    assert StandsAt(dev, v, |es|, EntryOf(es, |es|));
    forall i: nat | i < |es| ensures StandsAt(dev, v, 0 + i, es[i]) {
      assert StandsAt(dev, v, i, EntryOf(es, i));
    }
  }

  function EntryOf(es: seq<Raw>, k: nat): Raw { if k < |es| then es[k] else Zeros(32) }

  lemma EntryIs(dev: Device, v: Volume, k: nat)
    requires Readable(dev, v.rootStart + k / 16)
    ensures var e := Block(dev, v.rootStart + k / 16)[k % 16 * ENTRY..k % 16 * ENTRY + ENTRY];
            |e| == 32 && StandsAt(dev, v, k, e)
  {
  }

  /** Behind the file's 13 characters the buffer still holds the subdirectory's last one. */
  lemma SpoiledMissing()
    ensures FirstItem(Zeros(64), SpoiledItems(), FILE_NAME) == Missing
  {
    hide PartOf, Alike;
    var items, buf := SpoiledItems(), Written(Zeros(64), SUB_NAME, 2);
    assert buf[13] == 0x44 && buf[14] == 0;
    assert buf[13..][0] == 0x44 && buf[13..][1..] == buf[14..] && buf[14..][0] == 0;
    assert CStr(buf[14..]) == [] && CStr(buf[13..]) == [0x44];
    assert Leftover(buf, FILE_NAME, 1) == [0x44];
    assert !Alike(FILE_NAME + [0x44], FILE_NAME) by { OtherLength(FILE_NAME + [0x44], FILE_NAME); }
    assert items[1..] == [items[1]] && [items[1]][1..] == [];
    assert FirstItem(buf, [items[1]], FILE_NAME) == FirstItem(After(buf, items[1]), [], FILE_NAME) == Missing;
  }

  lemma OtherLength(a: Name, b: Name)
    requires |a| != |b|
    ensures !Alike(a, b)
  {
  }
}
