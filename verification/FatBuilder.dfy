/** The image builder in its imperative form: one pass over the files, packing links, entries and data as it goes. */
module FatBuilder {
  import opened Wrappers
  import opened Bits
  import opened FatModel
  import opened FatDir
  import opened FatAlias
  import opened FatImage
  import Sz = FatSizing

  // ---- Packing links ------------------------------------------------------------------------------------------

  lemma PackedPut(ws: seq<nat>, c: nat, w: nat)
    requires c < |ws|
    ensures Packed(ws[c := w]) == Packed(ws)[2 * c := Lo(w)][2 * c + 1 := Hi(w)]
  {
    hide Lo, Hi;
    var l, r := Packed(ws[c := w]), Packed(ws)[2 * c := Lo(w)][2 * c + 1 := Hi(w)];
    forall i | 0 <= i < 2 * |ws| ensures l[i] == r[i] {
      if i / 2 != c { assert i != 2 * c && i != 2 * c + 1; }
    }
  }

  /** The table with the files before k linked. */
  function WordsTo(files: seq<File>, k: nat, fatsz: nat): (ws: seq<nat>)
    requires k <= |files| && First(files, k) <= fatsz * 256
    ensures |ws| == fatsz * 256
  {
    RESERVED_WORDS + LinksTo(files, k) + seq<nat>(fatsz * 256 - First(files, k), i => 0)
  }

  /** ... and the first i links of file k. */
  function WordsInto(files: seq<File>, k: nat, i: nat, fatsz: nat): (ws: seq<nat>)
    requires k < |files| && i <= Clusters(files[k].data) && First(files, k) + i <= fatsz * 256
    ensures |ws| == fatsz * 256
  {
    RESERVED_WORDS + LinksTo(files, k) + ChainWords(First(files, k), Clusters(files[k].data))[..i]
      + seq<nat>(fatsz * 256 - First(files, k) - i, i => 0)
  }

  function Link(files: seq<File>, k: nat, i: nat): nat
    requires k < |files|
  {
    if i == Clusters(files[k].data) - 1 then 0xFFFF else First(files, k) + i + 1
  }

  lemma WordsStep(files: seq<File>, k: nat, i: nat, fatsz: nat)
    requires k < |files| && i < Clusters(files[k].data) && First(files, k) + i < fatsz * 256
    ensures WordsInto(files, k, i + 1, fatsz) == WordsInto(files, k, i, fatsz)[First(files, k) + i := Link(files, k, i)]
  {
    hide Clusters, LinksTo;
    var c, n := First(files, k), Clusters(files[k].data);
    var l, r := WordsInto(files, k, i + 1, fatsz), WordsInto(files, k, i, fatsz)[c + i := Link(files, k, i)];
    forall j | 0 <= j < fatsz * 256 ensures l[j] == r[j] {
    }
  }

  lemma WordsEdges(files: seq<File>, k: nat, fatsz: nat)
    requires k < |files| && First(files, k) + Clusters(files[k].data) <= fatsz * 256
    ensures WordsInto(files, k, 0, fatsz) == WordsTo(files, k, fatsz)
    ensures WordsInto(files, k, Clusters(files[k].data), fatsz) == WordsTo(files, k + 1, fatsz)
  {
    hide Clusters;
    var n := Clusters(files[k].data);
    var chain := ChainWords(First(files, k), n);
    assert chain[..0] == [] && chain[..n] == chain;
  }

  /** One little-endian word, refused outside the table or above 16 bits. */
  method PackWord(fat: array<Byte>, c: nat, w: nat, ghost ws: seq<nat>) returns (ok: bool)
    requires fat[..] == Packed(ws)
    modifies fat
    ensures ok == (c < |ws| && w < TWO16)
    ensures fat[..] == Packed(if ok then ws[c := w] else ws)
  {
    hide Lo, Hi;
    if 2 * c + 2 > fat.Length || w >= TWO16 {
      return false;
    }
    PackedPut(ws, c, w);
    fat[2 * c] := Lo(w);
    fat[2 * c + 1] := Hi(w);
    return true;
  }

  /** Link file k's clusters, each to the next and the last to the end-of-chain mark. */
  method LinkChain(fat: array<Byte>, files: seq<File>, k: nat, first: nat, n: nat, ghost fatsz: nat) returns (ok: bool)
    requires k < |files| && first == First(files, k) <= fatsz * 256 && n == Clusters(files[k].data)
    requires fat[..] == Packed(WordsTo(files, k, fatsz))
    modifies fat
    ensures ok == (first + n <= fatsz * 256 && (n == 1 || first + n <= TWO16))
    ensures ok ==> fat[..] == Packed(WordsTo(files, k + 1, fatsz))
  {
    hide WordsTo, WordsInto, Packed, Clusters, First;
    if first + n <= fatsz * 256 { WordsEdges(files, k, fatsz); }
    WordsStart(files, k, fatsz);
    for i := 0 to n
      invariant first + i <= fatsz * 256
      invariant 0 < i < n ==> first + i < TWO16
      invariant i == n > 1 ==> first + n <= TWO16
      invariant fat[..] == Packed(WordsInto(files, k, i, fatsz))
    {
      var next := if i == n - 1 then 0xFFFF else first + i + 1;
      var packed := PackWord(fat, first + i, next, WordsInto(files, k, i, fatsz));
      if !packed {
        return false;
      }
      WordsStep(files, k, i, fatsz);
    }
    return true;
  }

  lemma WordsStart(files: seq<File>, k: nat, fatsz: nat)
    requires k < |files| && First(files, k) <= fatsz * 256
    ensures WordsInto(files, k, 0, fatsz) == WordsTo(files, k, fatsz)
  {
    hide Clusters;
    assert ChainWords(First(files, k), Clusters(files[k].data))[..0] == [];
  }

  // ---- Directory entries --------------------------------------------------------------------------------------

  /** Assigning a slice of a byte array: past its end the array grows. */
  function PutSlice(s: seq<Byte>, at: nat, part: seq<Byte>): seq<Byte>
    requires at <= |s|
  {
    s[..at] + part + if at + |part| <= |s| then s[at + |part|..] else []
  }

  lemma FlatSnoc(es: seq<Entry>, e: Entry)
    ensures Flat(es + [e]) == Flat(es) + e
  {
    var l, r := Flat(es + [e]), Flat(es) + e;
    forall i | 0 <= i < |l| ensures l[i] == r[i] {
      if i >= ENTRY * |es| { assert i / ENTRY == |es| && i % ENTRY == i - ENTRY * |es|; }
    }
  }

  lemma RootPut(es: seq<Entry>, e: Entry)
    ensures ENTRY * |es| <= |Root(es)| && Root(es + [e]) == PutSlice(Root(es), ENTRY * |es|, e)
  {
    hide Flat;
    FlatSnoc(es, e);
    if |es| < ROOT_ENTRIES {
      assert Zeros(ROOT_BYTES - ENTRY * |es|)[ENTRY..] == Zeros(ROOT_BYTES - ENTRY * (|es| + 1));
      assert Root(es)[..ENTRY * |es|] == Flat(es);
      assert Root(es)[ENTRY * |es| + ENTRY..] == Zeros(ROOT_BYTES - ENTRY * |es|)[ENTRY..];
    } else {
      assert Root(es)[..ENTRY * |es|] == Flat(es);
    }
  }

  /** Rotate right, add, and keep eight bits, for each character of the alias. */
  method LfnChecksum(short: seq<Byte>) returns (s: Byte)
    ensures s == Checksum(short)
  {
    s := 0;
    assert short[..0] == [];
    for i := 0 to |short|
      invariant s == Checksum(short[..i])
    {
      assert short[..i + 1][..i] == short[..i];
      s := (s / 2 + s % 2 * 128 + short[i]) % 256;
    }
    assert short[..|short|] == short;
  }

  /** The long-name parts from the last to the first, then the short entry.  The test for a full directory comes last
      and never succeeds: the area has grown with the entries. */
  method AddEntries(root: seq<Byte>, off: nat, f: File, alias: Alias, first: nat, ghost es: seq<Entry>)
    returns (root': seq<Byte>, off': nat, full: bool)
    requires Plain(f) && |alias| == 11 && root == Root(es) && off == ENTRY * |es|
    ensures root' == Root(es + FileEntries(f, alias, first)) && off' == ENTRY * |es + FileEntries(f, alias, first)|
    ensures !full
  {
    hide Root, LfnPart, ShortEntry, PutSlice, Flat;
    var sum := LfnChecksum(alias);
    var n := Parts(f.name);
    ghost var parts := LfnDown(f.name, n, sum);
    root', off' := root, off;
    var i := n;
    assert es + parts[..0] == es;
    while i > 0
      invariant i <= n && root' == Root(es + parts[..n - i]) && off' == ENTRY * |es + parts[..n - i]|
    {
      LfnDownAt(f.name, n, sum, n - i);
      var e := LfnPart(f.name, i, sum);
      RootPut(es + parts[..n - i], e);
      assert es + parts[..n - i] + [e] == es + parts[..n - i + 1];
      root' := PutSlice(root', off', e);
      off' := off' + ENTRY;
      i := i - 1;
    }
    var e := ShortEntry(alias, first, |f.data|);
    RootPut(es + parts[..n], e);
    assert es + parts[..n] + [e] == es + FileEntries(f, alias, first);
    root' := PutSlice(root', off', e);
    off' := off' + ENTRY;
    RootHolds(es + FileEntries(f, alias, first));
    full := off' > |root'|;
  }

  lemma RootHolds(es: seq<Entry>)
    ensures |Root(es)| >= ENTRY * |es|
  {
  }

  // ---- The build ----------------------------------------------------------------------------------------------

  /** Bookkeeping of the pass: what the files before k have put into the image. */
  ghost predicate Progress(files: seq<File>, aliases: seq<Alias>, k: nat, fatsz: nat, fat: seq<Byte>, root: seq<Byte>,
                           off: nat, data: seq<Byte>, next: nat)
  {
    && AllPlain(files) && k <= |files| && Aliased(files[..k], aliases)
    && next == First(files, k) <= fatsz * 256 && fat == Packed(WordsTo(files, k, fatsz))
    && root == Root(EntriesTo(files[..k], aliases, k)) && off == ENTRY * |EntriesTo(files[..k], aliases, k)|
    && data == DataTo(files, k)
  }

  lemma {:induction false} FirstPrefix(files: seq<File>, k: nat, j: nat)
    requires j <= k <= |files|
    ensures First(files[..k], j) == First(files, j)
  {
    hide Clusters;
    if j > 0 { FirstPrefix(files, k, j - 1); }
  }

  /** Entries of the first j files do not depend on later files or aliases. */
  lemma {:induction false} EntriesPrefix(files: seq<File>, more: seq<File>, aliases: seq<Alias>, rest: seq<Alias>,
                                         j: nat)
    requires AllPlain(more) && Aliased(more, rest) && |files| <= |more| && more[..|files|] == files
    requires AllPlain(files) && Aliased(files, aliases) && rest[..|files|] == aliases && j <= |files|
    ensures EntriesTo(more, rest, j) == EntriesTo(files, aliases, j)
  {
    hide FileEntries, First;
    if j > 0 {
      EntriesPrefix(files, more, aliases, rest, j - 1);
      FirstPrefix(more, |files|, j - 1);
      assert more[j - 1] == files[j - 1] && rest[j - 1] == aliases[j - 1] by {
        assert more[..|files|][j - 1] == more[j - 1] && rest[..|files|][j - 1] == rest[j - 1];
      }
    }
  }

  lemma EntriesGrow(files: seq<File>, aliases: seq<Alias>, alias: Alias, k: nat)
    requires AllPlain(files) && k < |files| && Aliased(files[..k], aliases) && |alias| == 11 && AliasChar(alias[0])
    ensures AllPlain(files[..k]) && AllPlain(files[..k + 1]) && Aliased(files[..k + 1], aliases + [alias])
    ensures EntriesTo(files[..k + 1], aliases + [alias], k + 1)
         == EntriesTo(files[..k], aliases, k) + FileEntries(files[k], alias, First(files, k))
  {
    hide FileEntries, First;
    var more, rest := files[..k + 1], aliases + [alias];
    assert more[..k] == files[..k] && rest[..k] == aliases;
    EntriesPrefix(files[..k], more, aliases, rest, k);
    FirstPrefix(files, k + 1, k);
  }

  /** The zeroed image overwritten by `p` from the start. */
  function Over(p: seq<Byte>, size: nat): seq<Byte> { p + if |p| <= size then Zeros(size - |p|) else [] }

  lemma OverPut(p: seq<Byte>, part: seq<Byte>, size: nat)
    ensures |p| <= |Over(p, size)| && PutSlice(Over(p, size), |p|, part) == Over(p + part, size)
  {
    var l, r := PutSlice(Over(p, size), |p|, part), Over(p + part, size);
    assert |l| == |r|;
    forall i | 0 <= i < |l| ensures l[i] == r[i] {
    }
  }

  method Assemble(size: nat, boot: seq<Byte>, fat: seq<Byte>, root: seq<Byte>, data: seq<Byte>) returns (img: seq<Byte>)
    ensures img == Over(boot + fat + fat + root + data, size)
  {
    hide PutSlice, Over;
    img := Over([], size);
    OverPut([], boot, size);
    assert [] + boot == boot;
    img := PutSlice(img, 0, boot);
    var off := |boot|;
    OverPut(boot, fat, size);
    img := PutSlice(img, off, fat);
    off := off + |fat|;
    OverPut(boot + fat, fat, size);
    img := PutSlice(img, off, fat);
    off := off + |fat|;
    OverPut(boot + fat + fat, root, size);
    img := PutSlice(img, off, root);
    off := off + |root|;
    OverPut(boot + fat + fat + root, data, size);
    img := PutSlice(img, off, data);
  }

  /** File k can be packed: its clusters, its first cluster and its size all fit their fields. */
  predicate Room(files: seq<File>, k: nat, fatsz: nat, clusters: int)
    requires k < |files|
  {
    && First(files, k + 1) <= fatsz * 256 && First(files, k + 1) <= TWO16 && First(files, k + 1) - 2 <= clusters
    && |files[k].data| < TWO32
  }

  predicate DistinctAliases(aliases: seq<Alias>) { forall i, j :: 0 <= i < j < |aliases| ==> aliases[i] != aliases[j] }

  /** Reserved words for clusters 0 and 1. */
  method NewTable(fatsz: nat) returns (fat: array<Byte>)
    requires fatsz > 0
    ensures fresh(fat) && fat[..] == Packed(WordsTo([], 0, fatsz))
  {
    fat := new Byte[fatsz * BS](_ => 0);
    var zeros := seq<nat>(fatsz * 256, i => 0);
    PackedZeros(fatsz * 256);
    assert fat[..] == Packed(zeros);
    var ok := PackWord(fat, 0, 0xFFF8, zeros);
    ok := PackWord(fat, 1, 0xFFFF, zeros[0 := 0xFFF8]);
    var l, r := zeros[0 := 0xFFF8][1 := 0xFFFF], WordsTo([], 0, fatsz);
    assert forall i :: 0 <= i < |l| ==> l[i] == r[i];
  }

  lemma PackedZeros(n: nat)
    ensures Packed(seq<nat>(n, i => 0)) == seq<Byte>(2 * n, i => 0)
  {
    var l, r := Packed(seq<nat>(n, i => 0)), seq<Byte>(2 * n, i => 0);
    forall i | 0 <= i < 2 * n ensures l[i] == r[i] {
    }
  }

  lemma NoFiles(files: seq<File>, fatsz: nat)
    requires fatsz > 0 && AllPlain(files)
    ensures WordsTo([], 0, fatsz) == WordsTo(files, 0, fatsz)
    ensures files[..0] == [] && EntriesTo([], [], 0) == [LABEL_ENTRY] && DataTo(files, 0) == [] && First(files, 0) == 2
  {
    assert LinksTo([], 0) == LinksTo(files, 0) == [];
  }

  /** Everything the pass carries from file to file besides the table. */
  datatype Tally = Tally(aliases: seq<Alias>, root: seq<Byte>, off: nat, data: seq<Byte>, next: nat)

  ghost predicate Upto(files: seq<File>, k: nat, fatsz: nat, fat: seq<Byte>, s: Tally) {
    && Progress(files, s.aliases, k, fatsz, fat, s.root, s.off, s.data, s.next)
    && AllChosen(files, s.aliases) && DistinctAliases(s.aliases) && s.next <= TWO16
  }

  /** Every alias is the one its file gets after those before it. */
  ghost predicate AllChosen(files: seq<File>, aliases: seq<Alias>) {
    |aliases| <= |files| && forall j :: 0 <= j < |aliases| ==> ChosenAt(files, aliases, j)
  }

  ghost predicate ChosenAt(files: seq<File>, aliases: seq<Alias>, j: nat)
    requires j < |aliases| <= |files|
  {
    Chosen(files[j].name, AliasSet(aliases[..j]), aliases[j])
  }

  lemma ChoiceGrows(files: seq<File>, aliases: seq<Alias>, alias: Alias, k: nat)
    requires k == |aliases| < |files| && AllChosen(files, aliases) && Chosen(files[k].name, AliasSet(aliases), alias)
    ensures AllChosen(files, aliases + [alias])
  {
    hide Chosen, AliasSet;
    var more := aliases + [alias];
    forall j | 0 <= j < |more| ensures ChosenAt(files, more, j) {
      assert more[..j] == aliases[..j];
      if j < k { assert ChosenAt(files, aliases, j); } else { assert aliases[..k] == aliases; }
    }
  }

  /** The files alone decide the aliases, and so, with the size, every byte of the image. */
  lemma {:induction false} ChoiceIsUnique(files: seq<File>, a: seq<Alias>, b: seq<Alias>)
    requires AllChosen(files, a) && AllChosen(files, b) && |a| == |b|
    ensures a == b
  {
    hide Chosen, AliasSet;
    if a != [] {
      var n := |a| - 1;
      ChoiceShrinks(files, a, n);
      ChoiceShrinks(files, b, n);
      ChoiceIsUnique(files, a[..n], b[..n]);
      assert ChosenAt(files, a, n) && ChosenAt(files, b, n);
      ChosenIsUnique(files[n].name, AliasSet(a[..n]), a[n], b[n]);
      assert a == a[..n] + [a[n]] && b == b[..n] + [b[n]];
    }
  }

  lemma ChoiceShrinks(files: seq<File>, a: seq<Alias>, n: nat)
    requires AllChosen(files, a) && n <= |a|
    ensures AllChosen(files, a[..n])
  {
    hide Chosen, AliasSet;
    forall j | 0 <= j < n ensures ChosenAt(files, a[..n], j) {
      assert a[..n][..j] == a[..j];
      assert ChosenAt(files, a, j);
    }
  }

  function AliasSet(aliases: seq<Alias>): set<Alias> { set a | a in aliases }

  lemma {:induction false} AliasSetSize(aliases: seq<Alias>)
    ensures |AliasSet(aliases)| <= |aliases|
  {
    if aliases != [] {
      var n := |aliases| - 1;
      AliasSetSize(aliases[..n]);
      assert AliasSet(aliases) == AliasSet(aliases[..n]) + {aliases[n]};
    }
  }

  lemma {:induction false} FirstAtLeast(files: seq<File>, k: nat)
    requires k <= |files|
    ensures First(files, k) >= k + 2
  {
    hide Clusters;
    if k > 0 { FirstAtLeast(files, k - 1); }
  }

  lemma FirstStep(files: seq<File>, k: nat)
    requires k < |files|
    ensures First(files, k + 1) == First(files, k) + Clusters(files[k].data)
    ensures DataTo(files, k + 1) == DataTo(files, k) + PaddedData(files[k].data)
  {
  }

  /** One file: link its clusters, find it an alias, add its entries and its data. */
  method AddFile(fat: array<Byte>, files: seq<File>, k: nat, fatsz: nat, clusters: int, s: Tally)
    returns (ok: bool, t: Tally)
    requires k < |files| && Upto(files, k, fatsz, fat[..], s)
    modifies fat
    ensures ok == Room(files, k, fatsz, clusters)
    ensures ok ==> Upto(files, k + 1, fatsz, fat[..], t)
  {
    hide Clusters, First, WordsTo, EntriesTo, DataTo, Packed, Root, FileEntries, AliasSet;
    t := s;
    var f, first := files[k], s.next;
    var n := Clusters(f.data);
    FirstStep(files, k);
    ok := LinkChain(fat, files, k, first, n, fatsz);
    if !ok {
      return;
    }
    var next := first + n;
    if next - 2 > clusters || first >= TWO16 || |f.data| >= TWO32 {
      return false, s;
    }
    FirstAtLeast(files, k);
    AliasSetSize(s.aliases);
    var alias := ShortAlias(f.name, AliasSet(s.aliases));
    EntriesGrow(files, s.aliases, alias, k);
    FreshAlias(s.aliases, alias);
    ChoiceGrows(files, s.aliases, alias, k);
    var root, off, full := AddEntries(s.root, s.off, f, alias, first, EntriesTo(files[..k], s.aliases, k));
    ok := !full;
    t := Tally(s.aliases + [alias], root, off, s.data + (f.data + Zeros(n * BS - |f.data|)), next);
    assert PaddedData(f.data) == f.data + Zeros(n * BS - |f.data|);
  }

  lemma FreshAlias(aliases: seq<Alias>, alias: Alias)
    requires DistinctAliases(aliases) && alias !in AliasSet(aliases)
    ensures DistinctAliases(aliases + [alias])
  {
  }

  lemma Enough(total: nat)
    requires Sz.SizeOf(total).clusters >= 4085 && total < TWO32
    ensures Sz.SizeOf(total).fatsz > 0 && Sz.SizeOf(total).fatsz * 256 >= Sz.SizeOf(total).clusters + 2
  {
    hide Sz.SizeOf;
    if total < 31 { Sz.SmallIsRefused(total); }
    Sz.SettlesIff(total);
    Sz.StaysFat16(total);
  }

  lemma JustLabel()
    ensures Root([LABEL_ENTRY]) == LABEL_ENTRY + Zeros(ROOT_BYTES - ENTRY)
  {
    FlatAt([LABEL_ENTRY], 0);
    assert Flat([LABEL_ENTRY])[0 * ENTRY..0 * ENTRY + ENTRY] == Flat([LABEL_ENTRY]);
  }

  lemma {:induction false} FirstMonotone(files: seq<File>, j: nat, k: nat)
    requires j <= k <= |files|
    ensures First(files, j) <= First(files, k)
  {
    hide Clusters;
    if j < k { FirstMonotone(files, j, k - 1); }
  }

  /** A file without room means the builder should not accept, and the other way round. */
  lemma NoRoom(files: seq<File>, k: nat, size: nat)
    requires k < |files| && !Room(files, k, Sz.SizeOf(size / BS).fatsz, Sz.SizeOf(size / BS).clusters)
    requires Sz.SizeOf(size / BS).clusters >= 4085 && size / BS < TWO32 && Sz.SizeOf(size / BS).fatsz > 0
    ensures !Accepts(files, size)
  {
    hide First, Sz.SizeOf;
    Enough(size / BS);
    FirstMonotone(files, k + 1, |files|);
  }

  lemma AllRoom(files: seq<File>, size: nat)
    requires var s := Sz.SizeOf(size / BS);
             && s.clusters >= 4085 && size / BS < TWO32 && 0 < s.fatsz < TWO16
             && forall j :: 0 <= j < |files| ==> Room(files, j, s.fatsz, s.clusters)
    ensures Accepts(files, size)
  {
    hide Sz.SizeOf;
    var s := Sz.SizeOf(size / BS);
    if |files| > 0 {
      assert Room(files, |files| - 1, s.fatsz, s.clusters);
    }
    forall j | 0 <= j < |files| ensures |files[j].data| < TWO32 {
      assert Room(files, j, s.fatsz, s.clusters);
    }
  }

  /** The finished parts, laid one after another, are the image. */
  lemma Finished(b: Build, fat: seq<Byte>, s: Tally)
    requires AllPlain(b.files) && Upto(b.files, |b.files|, b.fatsz, fat, s) && b.aliases == s.aliases
    ensures Laid(b) && Dev(b) == Over(Boot(b.size / BS, b.fatsz) + fat + fat + s.root + s.data, b.size)
  {
    hide First, EntriesTo, DataTo, Packed, Root, Boot, LinksTo;
    assert b.files[..|b.files|] == b.files;
    assert WordsTo(b.files, |b.files|, b.fatsz) == Words(b.files, b.fatsz);
  }

  /** Build a FAT16 image of the given size: nothing if it is too small or too full, or if a field cannot be packed.
      The image is the one laid out for the files with the aliases they get one after another. */
  method BuildImage(files: seq<File>, size: nat) returns (r: Option<Device>)
    requires AllPlain(files)
    ensures r.Some? <==> Accepts(files, size)
    ensures r.Some? ==> exists b: Build :: b.files == files && b.size == size && Built(b) && Laid(b)
                                          && AllChosen(files, b.aliases) && DistinctAliases(b.aliases)
                                          && r.value == Dev(b)
  {
    hide First, Clusters, WordsTo, EntriesTo, DataTo, Packed, Root, Sz.SizeOf, Boot, Room;
    var total := size / BS;
    var fatsz, clusters := Sz.SizeTable(total);
    if clusters < 4085 || total >= TWO32 || fatsz >= TWO16 {
      return None;
    }
    Enough(total);
    var fat := NewTable(fatsz);
    NoFiles(files, fatsz);
    var s := Tally([], LABEL_ENTRY + Zeros(ROOT_BYTES - ENTRY), ENTRY, [], 2);
    JustLabel();
    for k := 0 to |files|
      invariant Upto(files, k, fatsz, fat[..], s)
      invariant forall j :: 0 <= j < k ==> Room(files, j, fatsz, clusters)
    {
      var ok;
      ok, s := AddFile(fat, files, k, fatsz, clusters, s);
      if !ok {
        NoRoom(files, k, size);
        return None;
      }
    }
    AllRoom(files, size);
    assert files[..|files|] == files;
    ghost var b := Build(files, s.aliases, size, fatsz);
    Finished(b, fat[..], s);
    var img := Assemble(size, Boot(total, fatsz), fat[..], s.root, s.data);
    return Some(img);
  }
}
