/** The 8.3 aliases the image builder gives to files: cleaned, padded, and numbered until free. */
module FatAlias {
  import opened Bits

  type Alias = seq<Byte>

  function Upper(c: Byte): Byte { if 0x61 <= c <= 0x7A then c - 32 else c }

  /** ASCII letters, digits, underscore and hyphen. */
  predicate AliasChar(c: Byte) { 0x30 <= c <= 0x39 || 0x41 <= c <= 0x5A || c == 0x5F || c == 0x2D }

  /** The first n kept characters, in upper case. */
  function Clean(s: seq<Byte>, n: nat): (r: seq<Byte>)
    ensures |r| <= n && forall i :: 0 <= i < |r| ==> AliasChar(r[i])
  {
    if s == [] || n == 0 then []
    else if AliasChar(Upper(s[0])) then [Upper(s[0])] + Clean(s[1..], n - 1)
    else Clean(s[1..], n)
  }

  /** Index of the last dot, or the length if there is none. */
  function LastDot(s: seq<Byte>): (i: nat)
    ensures i <= |s| && (i < |s| ==> s[i] == 0x2E)
  {
    LastDotBelow(s, |s|)
  }

  function LastDotBelow(s: seq<Byte>, k: nat): (i: nat)
    requires k <= |s|
    ensures i <= |s| && (i < |s| ==> s[i] == 0x2E)
    decreases k
  {
    if k == 0 then |s| else if s[k - 1] == 0x2E then k - 1 else LastDotBelow(s, k - 1)
  }

  function Base(name: seq<Byte>): (b: seq<Byte>)
    ensures 1 <= |b| <= 8 && forall i :: 0 <= i < |b| ==> AliasChar(b[i])
  {
    var b := Clean(name[..LastDot(name)], 8);
    if b == [] then [0x58] else b
  }

  function Ext(name: seq<Byte>): (e: seq<Byte>)
    ensures |e| <= 3
  {
    var d := LastDot(name);
    if d == |name| then [] else Clean(name[d + 1..], 3)
  }

  function Padded(s: seq<Byte>, n: nat): (r: seq<Byte>)
    requires |s| <= n
    ensures |r| == n
  {
    s + seq<Byte>(n - |s|, i => 0x20)
  }

  function Dec(n: nat): (s: seq<Byte>)
    ensures |s| >= 1 && forall i :: 0 <= i < |s| ==> 0x30 <= s[i] <= 0x39
  {
    if n < 10 then [0x30 + n] else Dec(n / 10) + [0x30 + n % 10]
  }

  lemma {:induction false} DecBound(n: nat, d: nat)
    requires d >= 1 && n < Pow10(d)
    ensures |Dec(n)| <= d
  {
    if n >= 10 { DecBound(n / 10, d - 1); }
  }

  function Pow10(d: nat): nat { if d == 0 then 1 else 10 * Pow10(d - 1) }

  /** More than a FAT16 volume can number files: `~` and up to five digits. */
  const MAX_TAIL: nat := 99_999

  function Tail(n: nat): (t: seq<Byte>)
    requires n <= MAX_TAIL
    ensures 2 <= |t| <= 6 && t[0] == 0x7E
  {
    assert Pow10(5) == 100_000;
    DecBound(n, 5);
    [0x7E] + Dec(n)
  }

  /** Candidate 0 is the plain name; candidate n ends the stem with `~n`. */
  function Stem(base: seq<Byte>, n: nat): (s: seq<Byte>)
    requires |base| <= 8 && n <= MAX_TAIL
    ensures |s| <= 8
  {
    if n == 0 then base
    else
      var keep := 8 - |Tail(n)|;
      (if |base| > keep then base[..keep] else base) + Tail(n)
  }

  function Candidate(base: seq<Byte>, ext: seq<Byte>, n: nat): (a: Alias)
    requires |base| <= 8 && |ext| <= 3 && n <= MAX_TAIL
    ensures |a| == 11
  {
    Padded(Stem(base, n), 8) + Padded(ext, 3)
  }

  // ---- Different numbers give different aliases ---------------------------------------------------------------

  lemma {:induction false} DecInjective(n: nat, m: nat)
    requires Dec(n) == Dec(m)
    ensures n == m
  {
    var s, t := Dec(n), Dec(m);
    if n >= 10 && m >= 10 {
      assert s[|s| - 1] == t[|t| - 1];
      assert s[..|s| - 1] == Dec(n / 10) && t[..|t| - 1] == Dec(m / 10);
      DecInjective(n / 10, m / 10);
    } else if n < 10 && m < 10 {
      assert s[0] == t[0];
    }
  }

  /** Position of the first tilde. */
  function Tilde(s: seq<Byte>): (i: nat)
    ensures i <= |s|
  {
    if s == [] || s[0] == 0x7E then 0 else 1 + Tilde(s[1..])
  }

  lemma {:induction false} TildeAfter(a: seq<Byte>, b: seq<Byte>)
    requires forall i :: 0 <= i < |a| ==> a[i] != 0x7E
    ensures Tilde(a + b) == |a| + Tilde(b)
  {
    if a == [] {
      assert a + b == b;
    } else {
      assert (a + b)[1..] == a[1..] + b;
      TildeAfter(a[1..], b);
    }
  }

  /** Length of the run of digits. */
  function Digits(s: seq<Byte>): (n: nat)
    ensures n <= |s|
  {
    if s == [] || !(0x30 <= s[0] <= 0x39) then 0 else 1 + Digits(s[1..])
  }

  lemma {:induction false} DigitsOf(a: seq<Byte>, b: seq<Byte>)
    requires (forall i :: 0 <= i < |a| ==> 0x30 <= a[i] <= 0x39) && (b == [] || b[0] == 0x20)
    ensures Digits(a + b) == |a|
  {
    if a == [] {
      assert a + b == b;
    } else {
      assert (a + b)[1..] == a[1..] + b;
      DigitsOf(a[1..], b);
    }
  }

  /** What a reader of the stem sees: the number after the tilde, if there is a tilde. */
  function NumberIn(stem: seq<Byte>): seq<Byte> {
    var t := Tilde(stem);
    if t == |stem| then [] else stem[t + 1..t + 1 + Digits(stem[t + 1..])]
  }

  lemma NumberOfStem(base: seq<Byte>, n: nat)
    requires |base| <= 8 && n <= MAX_TAIL && forall i :: 0 <= i < |base| ==> AliasChar(base[i])
    ensures NumberIn(Padded(Stem(base, n), 8)) == if n == 0 then [] else Dec(n)
  {
    hide Dec, AliasChar;
    var s := Stem(base, n);
    var blanks := seq<Byte>(8 - |s|, i => 0x20);
    if n == 0 {
      PlainHasNoTilde(base, blanks);
    } else {
      var d := Dec(n);
      var head := s[..|s| - |Tail(n)|];
      assert s + blanks == head + ([0x7E] + (d + blanks));
      HeadHasNoTilde(base, head);
      NumberAfter(head, d, blanks);
    }
  }

  lemma PlainHasNoTilde(base: seq<Byte>, blanks: seq<Byte>)
    requires forall i :: 0 <= i < |base| ==> AliasChar(base[i])
    requires forall i :: 0 <= i < |blanks| ==> blanks[i] == 0x20
    ensures NumberIn(base + blanks) == []
  {
    TildeAfter(base + blanks, []);
    assert base + blanks + [] == base + blanks;
  }

  lemma HeadHasNoTilde(base: seq<Byte>, head: seq<Byte>)
    requires forall i :: 0 <= i < |base| ==> AliasChar(base[i])
    requires |head| <= |base| && head == base[..|head|]
    ensures forall i :: 0 <= i < |head| ==> head[i] != 0x7E
  {
  }

  lemma NumberAfter(head: seq<Byte>, d: seq<Byte>, blanks: seq<Byte>)
    requires forall i :: 0 <= i < |head| ==> head[i] != 0x7E
    requires forall i :: 0 <= i < |d| ==> 0x30 <= d[i] <= 0x39
    requires forall i :: 0 <= i < |blanks| ==> blanks[i] == 0x20
    ensures NumberIn(head + ([0x7E] + (d + blanks))) == d
  {
    var p := head + ([0x7E] + (d + blanks));
    TildeAfter(head, [0x7E] + (d + blanks));
    DigitsOf(d, blanks);
    assert p[|head| + 1..] == d + blanks;
    assert p[|head| + 1..|head| + 1 + |d|] == d;
  }

  lemma CandidatesDiffer(base: seq<Byte>, ext: seq<Byte>, n: nat, m: nat)
    requires |base| <= 8 && |ext| <= 3 && n < m <= MAX_TAIL && forall i :: 0 <= i < |base| ==> AliasChar(base[i])
    ensures Candidate(base, ext, n) != Candidate(base, ext, m)
  {
    hide Stem, NumberIn, Padded;
    NumberOfStem(base, n);
    NumberOfStem(base, m);
    if Candidate(base, ext, n) == Candidate(base, ext, m) {
      assert Candidate(base, ext, n)[..8] == Candidate(base, ext, m)[..8];
      if n > 0 { DecInjective(n, m); }
    }
  }

  // ---- Numbering until free -----------------------------------------------------------------------------------

  /** Candidates 0..k. */
  ghost function Tried(base: seq<Byte>, ext: seq<Byte>, k: nat): (s: set<Alias>)
    requires |base| <= 8 && |ext| <= 3 && k <= MAX_TAIL
  {
    if k == 0 then {Candidate(base, ext, 0)} else Tried(base, ext, k - 1) + {Candidate(base, ext, k)}
  }

  lemma {:induction false} TriedIn(base: seq<Byte>, ext: seq<Byte>, k: nat, a: Alias)
    requires |base| <= 8 && |ext| <= 3 && k <= MAX_TAIL && a in Tried(base, ext, k)
    ensures exists n :: 0 <= n <= k && a == Candidate(base, ext, n)
  {
    hide Candidate;
    if k > 0 && a != Candidate(base, ext, k) { TriedIn(base, ext, k - 1, a); }
  }

  lemma {:induction false} TriedMany(base: seq<Byte>, ext: seq<Byte>, k: nat)
    requires |base| <= 8 && |ext| <= 3 && k <= MAX_TAIL && forall i :: 0 <= i < |base| ==> AliasChar(base[i])
    ensures |Tried(base, ext, k)| == k + 1
  {
    hide Candidate;
    if k > 0 {
      TriedMany(base, ext, k - 1);
      if Candidate(base, ext, k) in Tried(base, ext, k - 1) {
        TriedIn(base, ext, k - 1, Candidate(base, ext, k));
        var n :| 0 <= n <= k - 1 && Candidate(base, ext, k) == Candidate(base, ext, n);
        CandidatesDiffer(base, ext, n, k);
      }
    }
  }

  lemma SubsetSize(a: set<Alias>, b: set<Alias>)
    requires a <= b
    ensures |a| <= |b|
  {
    assert b == a + (b - a);
  }

  /** Among more candidates than there are used aliases, one is free. */
  lemma SomeFree(base: seq<Byte>, ext: seq<Byte>, used: set<Alias>) returns (n: nat)
    requires |base| <= 8 && |ext| <= 3 && |used| <= MAX_TAIL && forall i :: 0 <= i < |base| ==> AliasChar(base[i])
    ensures n <= |used| && Candidate(base, ext, n) !in used
  {
    hide Candidate;
    TriedMany(base, ext, |used|);
    if Tried(base, ext, |used|) <= used {
      SubsetSize(Tried(base, ext, |used|), used);
    }
    var a :| a in Tried(base, ext, |used|) && a !in used;
    TriedIn(base, ext, |used|, a);
    n :| 0 <= n <= |used| && a == Candidate(base, ext, n);
  }

  predicate FirstFree(base: seq<Byte>, ext: seq<Byte>, used: set<Alias>, n: nat)
    requires |base| <= 8 && |ext| <= 3
  {
    n <= MAX_TAIL && Candidate(base, ext, n) !in used && forall m :: 0 <= m < n ==> Candidate(base, ext, m) in used
  }

  /** The alias a name gets when `used` are taken: its first candidate that is free. */
  ghost predicate Chosen(name: seq<Byte>, used: set<Alias>, alias: Alias) {
    exists n: nat :: FirstFree(Base(name), Ext(name), used, n) && alias == Candidate(Base(name), Ext(name), n)
  }

  /** The plain alias if it is free, else the first numbered one if that is, and never a taken one. */
  lemma ChosenIs(name: seq<Byte>, used: set<Alias>, a: Alias)
    requires Chosen(name, used, a)
    ensures var plain, numbered := Candidate(Base(name), Ext(name), 0), Candidate(Base(name), Ext(name), 1);
            && a !in used
            && (plain !in used ==> a == plain)
            && (plain in used && numbered !in used ==> a == numbered)
  {
    hide Candidate, Base, Ext;
    var n: nat :| FirstFree(Base(name), Ext(name), used, n) && a == Candidate(Base(name), Ext(name), n);
    assert n > 0 ==> Candidate(Base(name), Ext(name), 0) in used;
    assert n > 1 ==> Candidate(Base(name), Ext(name), 1) in used;
  }

  lemma ChosenIsUnique(name: seq<Byte>, used: set<Alias>, a: Alias, b: Alias)
    requires Chosen(name, used, a) && Chosen(name, used, b)
    ensures a == b
  {
    hide Candidate, Base, Ext;
    var n: nat :| FirstFree(Base(name), Ext(name), used, n) && a == Candidate(Base(name), Ext(name), n);
    var m: nat :| FirstFree(Base(name), Ext(name), used, m) && b == Candidate(Base(name), Ext(name), m);
    assert !(n < m) && !(m < n);
  }

  method ShortAlias(name: seq<Byte>, used: set<Alias>) returns (alias: Alias)
    requires |used| <= MAX_TAIL
    ensures |alias| == 11 && alias !in used && AliasChar(alias[0])
    ensures Chosen(name, used, alias)
  {
    hide Candidate, Base, Ext;
    var base, ext := Base(name), Ext(name);
    ghost var free := SomeFree(base, ext, used);
    var n := 0;
    var cand := Candidate(base, ext, n);
    while cand in used
      invariant n <= free && cand == Candidate(base, ext, n)
      invariant forall m :: 0 <= m < n ==> Candidate(base, ext, m) in used
      decreases free - n
    {
      n := n + 1;
      cand := Candidate(base, ext, n);
    }
    FirstIsAliasChar(base, ext, n);
    return cand;
  }

  lemma FirstIsAliasChar(base: seq<Byte>, ext: seq<Byte>, n: nat)
    requires 1 <= |base| <= 8 && |ext| <= 3 && n <= MAX_TAIL && forall i :: 0 <= i < |base| ==> AliasChar(base[i])
    ensures AliasChar(Candidate(base, ext, n)[0])
  {
    assert Stem(base, n)[0] == base[0];
  }

  // ---- What an alias keeps of a name --------------------------------------------------------------------------

  function Uppered(s: seq<Byte>): (r: seq<Byte>)
    ensures |r| == |s|
  {
    seq<Byte>(|s|, i requires 0 <= i < |s| => Upper(s[i]))
  }

  /** Capital letters, digits, underscore and hyphen, and small letters as their capitals; no other character. */
  lemma AliasCharsAre(c: Byte)
    ensures AliasChar(c) <==> '0' <= c as char <= '9' || 'A' <= c as char <= 'Z' || c as char in {'_', '-'}
    ensures Upper(c) == if 'a' <= c as char <= 'z' then c - 'a' as int + 'A' as int else c
  {
  }

  predicate AllAlias(s: seq<Byte>) { forall i :: 0 <= i < |s| ==> AliasChar(Upper(s[i])) }

  /** Characters that may stand in an alias are kept in order, in upper case, up to n of them. */
  lemma {:induction false} CleanKeeps(s: seq<Byte>, n: nat)
    requires AllAlias(s)
    ensures Clean(s, n) == Uppered(if |s| <= n then s else s[..n])
  {
    hide AliasChar, Upper;
    if s != [] && n > 0 {
      CleanKeeps(s[1..], n - 1);
      var t := if |s| <= n then s else s[..n];
      var u := if |s[1..]| <= n - 1 then s[1..] else s[1..][..n - 1];
      assert t == [s[0]] + u;
    }
  }

  /** Any other character is dropped. */
  lemma {:induction false} CleanSkips(a: seq<Byte>, c: Byte, b: seq<Byte>, n: nat)
    requires !AliasChar(Upper(c))
    ensures Clean(a + [c] + b, n) == Clean(a + b, n)
    decreases |a|, n
  {
    hide AliasChar, Upper;
    var s, t := a + [c] + b, a + b;
    if n > 0 {
      if a == [] {
        assert s[0] == c && s[1..] == b && t == b;
      } else {
        assert s[0] == t[0] == a[0] && s[1..] == a[1..] + [c] + b && t[1..] == a[1..] + b;
        CleanSkips(a[1..], c, b, n);
        CleanSkips(a[1..], c, b, n - 1);
      }
    }
  }

  lemma {:induction false} NothingKept(s: seq<Byte>, n: nat)
    requires forall i :: 0 <= i < |s| ==> !AliasChar(Upper(s[i]))
    ensures Clean(s, n) == []
  {
    if s != [] { NothingKept(s[1..], n); }
  }

  /** A name with no such character before its last dot is called X. */
  lemma NamedX(stem: seq<Byte>, ext: seq<Byte>)
    requires 0x2E !in ext && forall i :: 0 <= i < |stem| ==> !AliasChar(Upper(stem[i]))
    ensures Base(stem + [0x2E] + ext) == ['X' as int]
  {
    LastDotSplits(stem, ext);
    NothingKept(stem, 8);
  }

  /** The extension is what follows the last dot. */
  lemma LastDotSplits(stem: seq<Byte>, ext: seq<Byte>)
    requires 0x2E !in ext
    ensures var name := stem + [0x2E] + ext;
            LastDot(name) == |stem| && name[..|stem|] == stem && name[|stem| + 1..] == ext
  {
    hide LastDotBelow;
    var name := stem + [0x2E] + ext;
    NoDotAbove(name, |name|, |stem|);
  }

  lemma {:induction false} NoDotAbove(s: seq<Byte>, k: nat, d: nat)
    requires d < k <= |s| && s[d] == 0x2E && forall i :: d < i < k ==> s[i] != 0x2E
    ensures LastDotBelow(s, k) == d
    decreases k
  {
    if k - 1 > d { NoDotAbove(s, k - 1, d); }
  }

  /** A tail of one or two digits leaves room for six or five characters of the base. */
  lemma NumberedStem(base: seq<Byte>, n: nat)
    requires |base| <= 8 && 1 <= n <= 99
    ensures Stem(base, n) == if n < 10 then base[..Fitting(base, 6)] + [0x7E, 0x30 + n]
                             else base[..Fitting(base, 5)] + [0x7E, 0x30 + n / 10, 0x30 + n % 10]
  {
    assert Dec(n / 10) == [0x30 + n / 10];
    assert Dec(n) == if n < 10 then [0x30 + n] else [0x30 + n / 10, 0x30 + n % 10];
  }

  function Fitting(s: seq<Byte>, n: nat): nat { if |s| < n then |s| else n }
}
