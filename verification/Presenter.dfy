/** The presenter program, interpreted tick by tick (RP2350 datasheet, section 11.4), and the waveform it must draw. */
module Presenter {
  import opened Bits
  import opened PresenterWord

  // ---- The program and the machine that runs it ---------------------------------------------------------------

  datatype Op =
    | PullBlock
    | OutPins(bits: nat)
    | OutX(bits: nat)
    | OutY(bits: nat)
    | JmpXDec(target: nat)
    | JmpYDec(target: nat)

  datatype Instr = Instr(op: Op, side: bool, delay: nat)

  /** Wraps from the last instruction to the first. */
  const PROGRAM: seq<Instr> := [
    Instr(PullBlock, false, 0),
    Instr(OutPins(9), false, 3),
    Instr(OutX(8), false, 0),
    Instr(JmpXDec(3), true, 0),
    Instr(OutY(15), false, 0),
    Instr(JmpYDec(5), false, 0)]

  datatype Core = Core(pc: nat, delay: nat, osr: nat, x: nat, y: nat, pins: nat, lu08: bool)
  datatype Machine = Machine(core: Core, fifo: seq<Word32>)

  /** What the wires show during one tick: GP0..GP8 and the strobe on GP9. */
  datatype Level = Level(pins: nat, lu08: bool)

  predicate Sound(c: Core) { c.pc < |PROGRAM| }

  function Next(pc: nat): nat { if pc + 1 < |PROGRAM| then pc + 1 else 0 }

  function Dec(x: nat): nat { if x == 0 then TWO32 - 1 else x - 1 }

  /** One clock tick: count down a delay, or execute; the side-set applies even when the instruction stalls. */
  function Tick(m: Machine): (r: Machine)
    requires Sound(m.core)
    ensures Sound(r.core)
  {
    if m.core.delay > 0 then m.(core := m.core.(delay := m.core.delay - 1))
    else
      var i := PROGRAM[m.core.pc];
      var c := m.core.(lu08 := i.side);
      var n := c.(pc := Next(c.pc), delay := i.delay);
      match i.op
      case PullBlock =>
        if m.fifo == [] then m.(core := c) else Machine(n.(osr := m.fifo[0]), m.fifo[1..])
      case OutPins(b) => m.(core := n.(pins := c.osr % Pow2(b), osr := c.osr / Pow2(b)))
      case OutX(b) => m.(core := n.(x := c.osr % Pow2(b), osr := c.osr / Pow2(b)))
      case OutY(b) => m.(core := n.(y := c.osr % Pow2(b), osr := c.osr / Pow2(b)))
      case JmpXDec(t) => m.(core := n.(pc := if c.x != 0 then t else n.pc, x := Dec(c.x)))
      case JmpYDec(t) => m.(core := n.(pc := if c.y != 0 then t else n.pc, y := Dec(c.y)))
  }

  function LevelOf(m: Machine): Level { Level(m.core.pins, m.core.lu08) }

  /** `arrivals[k]` is what the feeder pushes just before tick k. */
  function Run(m: Machine, arrivals: seq<seq<Word32>>): (r: (Machine, seq<Level>))
    requires Sound(m.core)
    ensures Sound(r.0.core) && |r.1| == |arrivals|
    decreases |arrivals|
  {
    if arrivals == [] then (m, [])
    else
      var t := Tick(m.(fifo := m.fifo + arrivals[0]));
      var (final, rest) := Run(t, arrivals[1..]);
      (final, [LevelOf(t)] + rest)
  }

  function Flat(arrivals: seq<seq<Word32>>): seq<Word32> {
    if arrivals == [] then [] else arrivals[0] + Flat(arrivals[1..])
  }

  /** Freshly armed: stalled at the pull with everything inactive. */
  predicate Armed(m: Machine) {
    m.core.pc == 0 && m.core.delay == 0 && !m.core.lu08
  }

  // ---- What the machine on the other side of the wire reads ---------------------------------------------------

  /** Data sampled at every rising edge of the strobe; `high` is the strobe before the first tick. */
  function Sampled(high: bool, levels: seq<Level>): seq<Char>
    decreases |levels|
  {
    if levels == [] then [] else Edge(high, levels[0]) + Sampled(levels[0].lu08, levels[1..])
  }

  function Edge(high: bool, l: Level): seq<Char> {
    if l.lu08 && !high then [Sample(l.pins)] else []
  }

  /** The character pulled from the FIFO whose strobe has not risen yet. */
  function InFlight(c: Core): seq<Char> {
    if c.pc == 1 then [Sample(c.osr % 0x200)]
    else if c.pc == 2 || (c.pc == 3 && !c.lu08) then [Sample(c.pins)]
    else []
  }

  /** Where a delay can be counting, and what the strobe looks like outside its loop. */
  predicate OnCourse(c: Core) {
    && Sound(c)
    && (c.delay > 0 ==> c.pc == 2)
    && (c.lu08 ==> c.pc == 3 || c.pc == 4)
  }

  lemma TickConserves(m: Machine)
    requires OnCourse(m.core)
    ensures var t := Tick(m);
            && OnCourse(t.core)
            && Edge(m.core.lu08, LevelOf(t)) + InFlight(t.core) + Samples(t.fifo) == InFlight(m.core) + Samples(m.fifo)
  {
    assert Pow2(9) == 0x200 by { assert Pow2(4) == 16; assert Pow2(8) == 256; }
  }

  lemma SamplesConcat(a: seq<Word32>, b: seq<Word32>)
    ensures Samples(a + b) == Samples(a) + Samples(b)
  {
    var l, r := Samples(a + b), Samples(a) + Samples(b);
    assert forall i :: 0 <= i < |l| ==> l[i] == r[i];
  }

  /** For any arrival schedule, no character is lost, repeated or reordered: those sampled, the one in flight and those
      still queued are, in order, exactly those pushed. */
  lemma {:induction false} EveryWordReachesTheWire(m: Machine, arrivals: seq<seq<Word32>>)
    requires OnCourse(m.core)
    ensures var (f, levels) := Run(m, arrivals);
            Sampled(m.core.lu08, levels) + InFlight(f.core) + Samples(f.fifo)
            == InFlight(m.core) + Samples(m.fifo) + Samples(Flat(arrivals))
    decreases |arrivals|
  {
    if arrivals != [] {
      var q := m.(fifo := m.fifo + arrivals[0]);
      TickConserves(q);
      SamplesConcat(m.fifo, arrivals[0]);
      SamplesConcat(arrivals[0], Flat(arrivals[1..]));
      assert Flat(arrivals) == arrivals[0] + Flat(arrivals[1..]);
      var t := Tick(q);
      EveryWordReachesTheWire(t, arrivals[1..]);
      var (f, rest) := Run(t, arrivals[1..]);
      assert ([LevelOf(t)] + rest)[1..] == rest;
      Regroup(Edge(m.core.lu08, LevelOf(t)), Sampled(t.core.lu08, rest), InFlight(f.core), Samples(f.fifo),
              InFlight(t.core), Samples(t.fifo), InFlight(m.core), Samples(m.fifo), Samples(arrivals[0]),
              Samples(Flat(arrivals[1..])));
    }
  }

  lemma Regroup(e: seq<Char>, s: seq<Char>, i: seq<Char>, c: seq<Char>, it: seq<Char>, ct: seq<Char>, im: seq<Char>,
                cm: seq<Char>, a: seq<Char>, r: seq<Char>)
    requires s + i + c == it + ct + r && e + it + ct == im + (cm + a)
    ensures (e + s) + i + c == im + cm + (a + r)
  {
    assert (e + s) + i + c == e + (s + i + c);
    assert e + (it + ct + r) == (e + it + ct) + r;
    assert im + (cm + a) + r == im + cm + (a + r);
  }

  // ---- The exact waveform -------------------------------------------------------------------------------------

  function Width(word: Word32): nat { word / 0x200 % 0x100 }
  function Gap(word: Word32): nat { word / 0x2_0000 % 0x8000 }
  function Period(word: Word32): nat { Width(word) + Gap(word) + 9 }

  function Hold(l: Level, n: nat): (r: seq<Level>)
    ensures |r| == n && forall i :: 0 <= i < n ==> r[i] == l
  {
    if n == 0 then [] else [l] + Hold(l, n - 1)
  }

  /** One character: the pull tick still shows the previous data, five ticks of setup, the strobe, the gap. */
  function Wave(before: nat, word: Word32): (r: seq<Level>)
    ensures |r| == Period(word)
  {
    [Level(before, false)] + AfterPull(word)
  }

  function AfterPull(word: Word32): (r: seq<Level>)
    ensures |r| == Period(word) - 1
  {
    var pins := word % 0x200;
    Hold(Level(pins, false), 5) + (Hold(Level(pins, true), Width(word) + 1) + Hold(Level(pins, false), Gap(word) + 2))
  }

  /** The reference: idle while there is nothing to send, otherwise draw a whole character and go on. */
  function Drawn(before: nat, queue: seq<Word32>, arrivals: seq<seq<Word32>>): (r: seq<Level>)
    ensures |r| == |arrivals|
    decreases |arrivals|
  {
    if arrivals == [] then []
    else
      var q := queue + arrivals[0];
      if q == [] then [Level(before, false)] + Drawn(before, [], arrivals[1..])
      else
        var p := Period(q[0]);
        if |arrivals| < p then Wave(before, q[0])[..|arrivals|]
        else Wave(before, q[0]) + Drawn(q[0] % 0x200, (queue + Flat(arrivals[..p]))[1..], arrivals[p..])
  }

  lemma FlatNone()
    ensures Flat([]) == []
  {
  }

  lemma FlatFirst(a: seq<seq<Word32>>)
    requires a != []
    ensures Flat(a) == a[0] + Flat(a[1..])
  {
  }

  lemma {:induction false} FlatConcat(a: seq<seq<Word32>>, b: seq<seq<Word32>>)
    ensures Flat(a + b) == Flat(a) + Flat(b)
  {
    hide Flat;
    if a == [] {
      assert a + b == b;
      FlatNone();
    } else {
      FlatConcat(a[1..], b);
      assert (a + b)[0] == a[0] && (a + b)[1..] == a[1..] + b;
      FlatFirst(a + b);
      FlatFirst(a);
      assert a[0] + (Flat(a[1..]) + Flat(b)) == a[0] + Flat(a[1..]) + Flat(b);
    }
  }

  lemma {:induction false} RunConcat(m: Machine, a: seq<seq<Word32>>, b: seq<seq<Word32>>)
    requires Sound(m.core)
    ensures var (n, l) := Run(m, a);
            var (f, r) := Run(n, b);
            Run(m, a + b).0 == f && Run(m, a + b).1 == l + r
    decreases |a|
  {
    hide Tick;
    if a == [] {
      assert a + b == b;
    } else {
      RunConcat(Tick(m.(fifo := m.fifo + a[0])), a[1..], b);
      assert (a + b)[1..] == a[1..] + b;
    }
  }

  /** From core `c` and queue `q`, ticks that pull nothing draw `levels` and end in core `d`. */
  ghost predicate Draws(c: Core, q: seq<Word32>, a: seq<seq<Word32>>, d: Core, levels: seq<Level>) {
    && Sound(c) && Sound(d)
    && Run(Machine(c, q), a).0 == Machine(d, q + Flat(a)) && Run(Machine(c, q), a).1 == levels
  }

  lemma Then(c: Core, q: seq<Word32>, a: seq<seq<Word32>>, d: Core, l: seq<Level>, b: seq<seq<Word32>>, e: Core,
             r: seq<Level>)
    requires Draws(c, q, a, d, l) && Draws(d, q + Flat(a), b, e, r)
    ensures Draws(c, q, a + b, e, l + r)
  {
    RunConcat(Machine(c, q), a, b);
    FlatConcat(a, b);
    assert q + Flat(a) + Flat(b) == q + Flat(a + b);
  }

  lemma OneTick(c: Core, q: seq<Word32>, a: seq<seq<Word32>>)
    requires Sound(c) && |a| == 1 && (c.delay > 0 || c.pc != 0)
    ensures var d := Tick(Machine(c, [])).core;
            Draws(c, q, a, d, [Level(d.pins, d.lu08)])
  {
    assert Flat(a) == a[0] && Flat(a[1..]) == [];
  }

  lemma {:induction false} DelayTicks(c: Core, q: seq<Word32>, a: seq<seq<Word32>>)
    requires Sound(c) && c.delay == |a|
    ensures Draws(c, q, a, c.(delay := 0), Hold(Level(c.pins, c.lu08), |a|))
    decreases |a|
  {
    if a != [] {
      DelayTicks(c.(delay := c.delay - 1), q + a[0], a[1..]);
      assert q + a[0] + Flat(a[1..]) == q + Flat(a);
    } else {
      assert q + Flat(a) == q;
    }
  }

  /** The strobe loop tests X before it decrements, so it lasts X + 1 ticks. */
  lemma {:induction false} StrobeLoop(c: Core, q: seq<Word32>, a: seq<seq<Word32>>)
    requires c.pc == 3 && c.delay == 0 && |a| == c.x + 1
    ensures Draws(c, q, a, c.(pc := 4, x := TWO32 - 1, lu08 := true), Hold(Level(c.pins, true), |a|))
    decreases |a|
  {
    if c.x > 0 {
      StrobeLoop(c.(x := c.x - 1, lu08 := true), q + a[0], a[1..]);
    } else {
      assert a[1..] == [];
    }
    assert q + a[0] + Flat(a[1..]) == q + Flat(a);
  }

  lemma {:induction false} GapLoop(c: Core, q: seq<Word32>, a: seq<seq<Word32>>)
    requires c.pc == 5 && c.delay == 0 && |a| == c.y + 1
    ensures Draws(c, q, a, c.(pc := 0, y := TWO32 - 1, lu08 := false), Hold(Level(c.pins, false), |a|))
    decreases |a|
  {
    if c.y > 0 {
      GapLoop(c.(y := c.y - 1, lu08 := false), q + a[0], a[1..]);
    } else {
      assert a[1..] == [];
    }
    assert q + a[0] + Flat(a[1..]) == q + Flat(a);
  }

  lemma Powers()
    ensures Pow2(8) == 0x100 && Pow2(9) == 0x200 && Pow2(15) == 0x8000
  {
    assert Pow2(5) == 32;
    assert Pow2(10) == 1024;
  }

  /** After `out x`: data on the pins, the strobe width in X, the gap left in the shift register. */
  function Loaded(word: Word32, y: nat): Core {
    Core(3, 0, word / 0x200 / 0x100, Width(word), y, word % 0x200, false)
  }

  lemma Setup(c: Core, q: seq<Word32>, a: seq<seq<Word32>>, word: Word32)
    requires c.pc == 1 && c.delay == 0 && c.osr == word && |a| == 5
    ensures Draws(c, q, a, Loaded(word, c.y), Hold(Level(word % 0x200, false), 5))
  {
    Powers();
    var p := Level(word % 0x200, false);
    var d := c.(pc := 2, delay := 3, osr := word / 0x200, pins := word % 0x200, lu08 := false);
    OneTick(c, q, a[..1]);
    DelayTicks(d, q + Flat(a[..1]), a[1..4]);
    Then(c, q, a[..1], d, [p], a[1..4], d.(delay := 0), Hold(p, 3));
    assert a[..1] + a[1..4] == a[..4] && a[..4] + a[4..] == a;
    OneTick(d.(delay := 0), q + Flat(a[..4]), a[4..]);
    Then(c, q, a[..4], d.(delay := 0), [p] + Hold(p, 3), a[4..], Loaded(word, c.y), [p]);
    assert [p] + Hold(p, 3) + [p] == Hold(p, 5);
  }

  /** Back at the pull after the word: only the data stays on the pins. */
  function Done(word: Word32): Core {
    Core(0, 0, word / 0x200 / 0x100 / 0x8000, TWO32 - 1, TWO32 - 1, word % 0x200, false)
  }

  lemma Strobe(c: Core, q: seq<Word32>, a: seq<seq<Word32>>, word: Word32)
    requires c == Loaded(word, c.y) && |a| == Width(word) + Gap(word) + 3
    ensures Draws(c, q, a, Done(word),
                  Hold(Level(c.pins, true), Width(word) + 1) + Hold(Level(c.pins, false), Gap(word) + 2))
  {
    Powers();
    var w, p := Width(word) + 1, Level(c.pins, false);
    var d := c.(pc := 4, x := TWO32 - 1, lu08 := true);
    var e := d.(pc := 5, osr := word / 0x200 / 0x100 / 0x8000, y := Gap(word), lu08 := false);
    assert Gap(word) == c.osr % 0x8000 by { assert word / 0x200 / 0x100 == word / 0x2_0000; }
    StrobeLoop(c, q, a[..w]);
    OneTick(d, q + Flat(a[..w]), a[w..w + 1]);
    Then(c, q, a[..w], d, Hold(Level(c.pins, true), w), a[w..w + 1], e, [p]);
    assert a[..w] + a[w..w + 1] == a[..w + 1];
    assert a[..w + 1] + a[w + 1..] == a;
    GapLoop(e, q + Flat(a[..w + 1]), a[w + 1..]);
    Then(c, q, a[..w + 1], e, Hold(Level(c.pins, true), w) + [p], a[w + 1..], Done(word), Hold(p, Gap(word) + 1));
    assert Hold(Level(c.pins, true), w) + [p] + Hold(p, Gap(word) + 1)
        == Hold(Level(c.pins, true), w) + Hold(p, Gap(word) + 2);
  }

  lemma RestOfCharacter(c: Core, q: seq<Word32>, a: seq<seq<Word32>>, word: Word32)
    requires c.pc == 1 && c.delay == 0 && c.osr == word && |a| == Period(word) - 1
    ensures Draws(c, q, a, Done(word), AfterPull(word))
  {
    hide Draws, Hold;
    Setup(c, q, a[..5], word);
    Strobe(Loaded(word, c.y), q + Flat(a[..5]), a[5..], word);
    Then(c, q, a[..5], Loaded(word, c.y), Hold(Level(word % 0x200, false), 5), a[5..], Done(word),
         Hold(Level(word % 0x200, true), Width(word) + 1) + Hold(Level(word % 0x200, false), Gap(word) + 2));
    assert a[..5] + a[5..] == a;
  }

  lemma RunOnce(m: Machine, a: seq<seq<Word32>>)
    requires Sound(m.core) && a != []
    ensures var t := Tick(m.(fifo := m.fifo + a[0]));
            Run(m, a).0 == Run(t, a[1..]).0 && Run(m, a).1 == [LevelOf(t)] + Run(t, a[1..]).1
  {
    hide Tick;
  }

  lemma PullTick(m: Machine)
    requires Armed(m) && m.fifo != []
    ensures Tick(m) == Machine(m.core.(pc := 1, osr := m.fifo[0]), m.fifo[1..])
  {
  }

  lemma RestOfQueue(q: seq<Word32>, now: seq<Word32>, later: seq<Word32>)
    requires q + now != []
    ensures (q + now)[1..] + later == (q + (now + later))[1..]
  {
    assert q + (now + later) == (q + now) + later;
  }

  /** One whole character, whatever arrives meanwhile. */
  lemma Character(m: Machine, a: seq<seq<Word32>>)
    requires Armed(m) && |a| > 0 && m.fifo + a[0] != []
    requires |a| == Period((m.fifo + a[0])[0])
    ensures var word := (m.fifo + a[0])[0];
            && Run(m, a).0 == Machine(Done(word), (m.fifo + Flat(a))[1..])
            && Run(m, a).1 == Wave(m.core.pins, word)
  {
    hide Tick, Run, Done, Period, AfterPull, Draws, Flat;
    var queue := m.fifo + a[0];
    var c, word, q := m.core.(pc := 1, osr := queue[0]), queue[0], queue[1..];
    RunOnce(m, a);
    PullTick(m.(fifo := queue));
    RestOfCharacter(c, q, a[1..], word);
    FlatFirst(a);
    RestOfQueue(m.fifo, a[0], Flat(a[1..]));
    Drawing(c, q, a[1..], Done(word), AfterPull(word));
  }

  lemma Drawing(c: Core, q: seq<Word32>, a: seq<seq<Word32>>, d: Core, levels: seq<Level>)
    requires Draws(c, q, a, d, levels)
    ensures Sound(c) && Run(Machine(c, q), a).0 == Machine(d, q + Flat(a)) && Run(Machine(c, q), a).1 == levels
  {
  }

  function Quiet(n: nat): (r: seq<seq<Word32>>)
    ensures |r| == n
  {
    if n == 0 then [] else [[]] + Quiet(n - 1)
  }

  lemma NoTicks(m: Machine)
    requires Sound(m.core)
    ensures Run(m, []).1 == []
  {
  }

  /** With nothing to send the machine stays at the pull. */
  lemma IdleTick(m: Machine, arrivals: seq<seq<Word32>>)
    requires Armed(m) && arrivals != [] && m.fifo + arrivals[0] == []
    ensures Run(m, arrivals).1 == [Level(m.core.pins, false)] + Run(Machine(m.core, []), arrivals[1..]).1
  {
    assert Tick(m.(fifo := m.fifo + arrivals[0])) == Machine(m.core, []);
  }

  /** Small steps refine the reference: under every arrival schedule the wires show exactly the drawn waveform. */
  lemma {:induction false} WaveformIsExact(m: Machine, arrivals: seq<seq<Word32>>)
    requires Armed(m)
    ensures Run(m, arrivals).1 == Drawn(m.core.pins, m.fifo, arrivals)
    decreases |arrivals|
  {
    hide Run, Tick, Flat, Wave;
    if arrivals == [] {
      NoTicks(m);
      return;
    }
    var queue := m.fifo + arrivals[0];
    if queue == [] {
      IdleTick(m, arrivals);
      WaveformIsExact(Machine(m.core, []), arrivals[1..]);
    } else {
      var p := Period(queue[0]);
      if |arrivals| < p {
        var padded := arrivals + Quiet(p - |arrivals|);
        Character(m, padded);
        RunConcat(m, arrivals, Quiet(p - |arrivals|));
      } else {
        Character(m, arrivals[..p]);
        RunConcat(m, arrivals[..p], arrivals[p..]);
        assert arrivals[..p] + arrivals[p..] == arrivals;
        WaveformIsExact(Run(m, arrivals[..p]).0, arrivals[p..]);
      }
    }
  }

  /** The strobe is high for exactly W + 1 ticks, and the data stands from five ticks before it to the end. */
  lemma WaveAt(before: nat, word: Word32, i: nat)
    requires i < Period(word)
    ensures Wave(before, word)[i].lu08 <==> 6 <= i < 6 + Width(word) + 1
    ensures Wave(before, word)[i].pins == if i == 0 then before else word % 0x200
  {
    hide Width, Gap;
  }

  function Total(words: seq<Word32>): nat {
    if words == [] then 0 else Period(words[0]) + Total(words[1..])
  }

  function Waves(before: nat, words: seq<Word32>): (r: seq<Level>)
    ensures |r| == Total(words)
    decreases |words|
  {
    if words == [] then [] else Wave(before, words[0]) + Waves(words[0] % 0x200, words[1..])
  }

  lemma {:induction false} QuietIsFlat(n: nat)
    ensures Flat(Quiet(n)) == []
  {
    if n > 0 { QuietIsFlat(n - 1); }
  }

  lemma {:induction false} QuietSplit(n: nat, k: nat)
    requires k <= n
    ensures Quiet(n)[..k] == Quiet(k) && Quiet(n)[k..] == Quiet(n - k)
  {
    if k > 0 {
      QuietSplit(n - 1, k - 1);
      assert Quiet(n) == [[]] + Quiet(n - 1);
    }
  }

  /** Characters queued together leave back to back, each W + G + 9 ticks after the one before, and nothing is left. */
  lemma {:induction false} BackToBack(m: Machine)
    requires Armed(m)
    ensures var (f, levels) := Run(m, Quiet(Total(m.fifo)));
            Armed(f) && f.fifo == [] && levels == Waves(m.core.pins, m.fifo)
    decreases |m.fifo|
  {
    if m.fifo != [] {
      var p, n := Period(m.fifo[0]), Total(m.fifo);
      OneOfMany(m, p, n);
      BackToBack(Machine(Done(m.fifo[0]), m.fifo[1..]));
    }
  }

  lemma OneOfMany(m: Machine, p: nat, n: nat)
    requires Armed(m) && m.fifo != [] && p == Period(m.fifo[0]) <= n
    ensures var (f, levels) := Run(Machine(Done(m.fifo[0]), m.fifo[1..]), Quiet(n - p));
            Run(m, Quiet(n)).0 == f && Run(m, Quiet(n)).1 == Wave(m.core.pins, m.fifo[0]) + levels
  {
    QuietSplit(n, p);
    QuietIsFlat(p);
    assert Quiet(p) + Quiet(n - p) == Quiet(n);
    assert m.fifo + Quiet(p)[0] == m.fifo && m.fifo + Flat(Quiet(p)) == m.fifo;
    Character(m, Quiet(p));
    RunConcat(m, Quiet(p), Quiet(n - p));
  }

  /** Sampling that waveform reads exactly the queued characters. */
  lemma DrainedIsRead(m: Machine)
    requires Armed(m)
    ensures Sampled(false, Waves(m.core.pins, m.fifo)) == Samples(m.fifo)
  {
    hide Run, Sampled, Waves, Flat, Quiet, Total;
    BackToBack(m);
    EveryWordReachesTheWire(m, Quiet(Total(m.fifo)));
    QuietIsFlat(Total(m.fifo));
    assert InFlight(m.core) == [] && Samples([]) == [];
    assert InFlight(m.core) + Samples(m.fifo) + Samples([]) == Samples(m.fifo);
  }

  /** The timing and data of a word built by the feeder. */
  lemma PackedWave(nibble: Byte, fini: bool, wTicks: Word16, gTicks: Word16)
    ensures var word := Pack(nibble, fini, wTicks, gTicks);
            && Width(word) == wTicks % 0x100 && Gap(word) == gTicks % 0x8000
            && Sample(word % 0x200) == Char(nibble % 16, fini)
            && word % 0x200 / 16 % 16 == 0
  {
    FieldsRecovered(nibble, fini, wTicks, gTicks);
    var word := Pack(nibble, fini, wTicks, gTicks);
    assert word / 0x200 / 0x100 == word / 0x2_0000;
  }
}
