/**
 The Snowflake ID generator: 41 bits of milliseconds, 10 bits of node, 12 bits of sequence, driven by a clock that may
 stall, jump and run backwards.
 */
module Snowflake {
  import opened Words

  const MAX_NODE: int := 1023
  const MAX_SEQUENCE: int := 4095
  const TIME_SHIFT: nat := 22
  const NODE_SHIFT: nat := 12
  const TIME_LIMIT: int := 0x200_0000_0000  // 2^41 milliseconds
  const MILLISECOND: int := 1_000_000       // in nanoseconds, the unit of a duration

  /** Twelve bits. */
  type Counter = s: int | 0 <= s <= MAX_SEQUENCE

  /** Ten bits. */
  type Node = n: int | 0 <= n <= MAX_NODE

  // ---------- 64-bit operations ----------

  function Pow2(k: nat): nat {
    if k == 0 then 1 else 2 * Pow2(k - 1)
  }

  function BitOr(a: nat, b: nat): nat {
    if a == 0 then b else if b == 0 then a else
      2 * BitOr(a / 2, b / 2) + (if a % 2 == 1 || b % 2 == 1 then 1 else 0)
  }

  function BitAnd(a: nat, b: nat): nat {
    if a == 0 || b == 0 then 0 else
      2 * BitAnd(a / 2, b / 2) + (if a % 2 == 1 && b % 2 == 1 then 1 else 0)
  }

  /** The bit pattern of a signed word, read as an unsigned number. */
  function Unsigned(a: int64): nat { if a < 0 then a + TWO64 else a }

  function Or64(a: int64, b: int64): int64 { Wrap64(BitOr(Unsigned(a), Unsigned(b))) }

  function And64(a: int64, b: int64): int64 { Wrap64(BitAnd(Unsigned(a), Unsigned(b))) }

  function Shl64(a: int64, k: nat): int64 { Wrap64(a * Pow2(k)) }

  /** Arithmetic shift: each position halves, rounding towards minus infinity. */
  function Shr64(a: int64, k: nat): int64
    decreases k
  {
    if k == 0 then a else Shr64(a / 2, k - 1)
  }

  lemma OrStep(x: nat, y: nat)
    ensures BitOr(x, y) == 2 * BitOr(x / 2, y / 2) + (if x % 2 == 1 || y % 2 == 1 then 1 else 0)
  {
  }

  lemma AndStep(x: nat, y: nat)
    ensures BitAnd(x, y) == 2 * BitAnd(x / 2, y / 2) + (if x % 2 == 1 && y % 2 == 1 then 1 else 0)
  {
  }

  /** Halving a number written as a multiple of 2^k and a rest below it. */
  lemma Halve(hi: int, lo: nat, k: nat)
    requires 0 < k
    ensures hi * Pow2(k) == 2 * (hi * Pow2(k - 1))
    ensures (hi * Pow2(k) + lo) / 2 == hi * Pow2(k - 1) + lo / 2 && (hi * Pow2(k) + lo) % 2 == lo % 2
  {
    var h := hi * Pow2(k - 1);
    assert hi * Pow2(k) == 2 * h;
  }

  /** Bits below position k do not meet a multiple of 2^k: or is addition. */
  lemma {:induction false} OrIsSum(hi: nat, lo: nat, k: nat)
    requires lo < Pow2(k)
    ensures BitOr(hi * Pow2(k), lo) == hi * Pow2(k) + lo
  {
    if k > 0 {
      OrIsSum(hi, lo / 2, k - 1);
      Halve(hi, 0, k);
      OrStep(hi * Pow2(k), lo);
    }
  }

  /** Masking with 2^k - 1 keeps the low k bits. */
  lemma {:induction false} MaskKeepsLow(hi: nat, lo: nat, k: nat)
    requires lo < Pow2(k)
    ensures BitAnd(hi * Pow2(k) + lo, Pow2(k) - 1) == lo
  {
    if k > 0 {
      MaskKeepsLow(hi, lo / 2, k - 1);
      Halve(hi, lo, k);
      AndStep(hi * Pow2(k) + lo, Pow2(k) - 1);
    }
  }

  /** Shifting right by k drops the low k bits. */
  lemma {:induction false} ShrDropsLow(hi: int64, lo: nat, k: nat)
    requires lo < Pow2(k) && -TWO63 <= hi * Pow2(k) + lo < TWO63
    ensures Shr64(hi * Pow2(k) + lo, k) == hi
  {
    if k > 0 {
      Halve(hi, lo, k);
      ShrDropsLow(hi, lo / 2, k - 1);
    }
  }

  lemma Powers()
    ensures Pow2(10) == 1024 && Pow2(12) == 4096 && Pow2(22) == 0x40_0000
  {
    assert Pow2(4) == 16;
    assert Pow2(8) == 256;
    assert Pow2(10) == 1024;
    assert Pow2(12) == 4096;
    assert Pow2(16) == 65536;
    assert Pow2(20) == 0x10_0000;
  }

  lemma {:induction false} OrWords(a: int64, b: int64, x: nat, y: nat)
    requires Unsigned(a) == x && Unsigned(b) == y && BitOr(x, y) == x + y
    ensures Or64(a, b) == Wrap64(x + y)
  {
  }

  lemma {:induction false} OrAgain(a: int64, b: int64, x: nat, y: nat)
    requires a == Wrap64(x) && Unsigned(b) == y && BitOr(x, y) == x + y < TWO64
    ensures Or64(a, b) == Wrap64(x + y)
  {
    UnsignedSmall(x);
  }

  lemma UnsignedSmall(z: nat)
    requires z < TWO64
    ensures Unsigned(Wrap64(z)) == z
  {
  }

  lemma UnsignedWrap(z: int)
    ensures Unsigned(Wrap64(z)) == z % TWO64
  {
  }

  // ---------- Packing ----------

  function Pack(ts: int64, node: int64, sequence: int64): int64 {
    Or64(Or64(Shl64(ts, TIME_SHIFT), Shl64(node, NODE_SHIFT)), sequence)
  }

  function Parse(id: int64): (int64, int64, int64) {
    (Shr64(id, TIME_SHIFT), And64(Shr64(id, NODE_SHIFT), MAX_NODE), And64(id, MAX_SEQUENCE))
  }

  function Value(ts: int, node: int, sequence: int): int {
    ts * 0x40_0000 + node * 4096 + sequence
  }

  /** The packed word as a number, modulo 2^64, for every time: the fields do not overlap. */
  lemma {:induction false} PackIsValue(ts: int64, node: Node, sequence: Counter)
    ensures Pack(ts, node, sequence) == Wrap64(Value(ts, node, sequence))
  {
    var d := 2 * TIME_LIMIT;
    PackReduced(ts, ts / d, ts % d, node, sequence);
    ValueReduced(ts, ts / d, ts % d, node, sequence);
  }

  lemma {:induction false} PackReduced(ts: int64, q: int, t: nat, node: Node, sequence: Counter)
    requires ts == q * (2 * TIME_LIMIT) + t && t < 2 * TIME_LIMIT
    ensures Pack(ts, node, sequence) == Wrap64(Value(t, node, sequence))
  {
    ShlWords(ts, q, t, node);
    PackWords(Shl64(ts, 22), Shl64(node, 12), t, node, sequence);
  }

  lemma ValueReduced(ts: int, q: int, t: nat, node: Node, sequence: Counter)
    requires ts == q * (2 * TIME_LIMIT) + t && t < 2 * TIME_LIMIT
    ensures Wrap64(Value(ts, node, sequence)) == Wrap64(Value(t, node, sequence))
  {
    WrapReduced(Value(ts, node, sequence), q, Value(t, node, sequence));
  }

  lemma WrapReduced(x: int, q: int, y: nat)
    requires x == q * TWO64 + y && y < TWO64
    ensures Wrap64(x) == Wrap64(y)
  {
    ModUnique(x, TWO64, q, y);
  }

  lemma {:induction false} PackWords(a: int64, b: int64, ts: nat, node: nat, sequence: nat)
    requires ts < 2 * TIME_LIMIT && node <= MAX_NODE && sequence <= MAX_SEQUENCE
    requires Unsigned(a) == ts * 0x40_0000 && Unsigned(b) == node * 4096
    ensures Or64(Or64(a, b), sequence) == Wrap64(Value(ts, node, sequence))
  {
    var x, y := ts * 0x40_0000, node * 4096;
    FieldsApart(ts, node, sequence, x, y);
    OrThree(a, b, sequence, x, y, sequence);
  }

  lemma {:induction false} FieldsApart(ts: nat, node: nat, sequence: nat, x: nat, y: nat)
    requires ts < 2 * TIME_LIMIT && node <= MAX_NODE && sequence <= MAX_SEQUENCE
    requires x == ts * 0x40_0000 && y == node * 4096
    ensures BitOr(x, y) == x + y && BitOr(x + y, sequence) == x + y + sequence
    ensures x + y + sequence == Value(ts, node, sequence) < TWO64
  {
    OrTime(ts, y);
    OrSequence(x + y, ts * 1024 + node, sequence);
  }

  lemma {:induction false} OrThree(a: int64, b: int64, c: int64, x: nat, y: nat, z: nat)
    requires Unsigned(a) == x && Unsigned(b) == y && Unsigned(c) == z
    requires BitOr(x, y) == x + y && BitOr(x + y, z) == x + y + z && x + y + z < TWO64
    ensures Or64(Or64(a, b), c) == Wrap64(x + y + z)
  {
    OrWords(a, b, x, y);
    OrAgain(Or64(a, b), c, x + y, z);
  }

  lemma {:induction false} ShlWords(ts: int64, q: int, t: nat, node: Node)
    requires ts == q * (2 * TIME_LIMIT) + t && t < 2 * TIME_LIMIT
    ensures Unsigned(Shl64(ts, 22)) == t * 0x40_0000 && Unsigned(Shl64(node, 12)) == node * 4096
  {
    Powers();
    assert ts * Pow2(22) == ts * 0x40_0000 && node * Pow2(12) == node * 4096;
    ModUnique(ts * 0x40_0000, TWO64, q, t * 0x40_0000);
    UnsignedWrap(ts * 0x40_0000);
    UnsignedWrap(node * 4096);
  }

  lemma {:induction false} OrTime(ts: nat, low: nat)
    requires low < 0x40_0000
    ensures BitOr(ts * 0x40_0000, low) == ts * 0x40_0000 + low
  {
    Powers();
    OrIsSum(ts, low, 22);
  }

  lemma {:induction false} OrSequence(w: nat, high: nat, sequence: nat)
    requires w == high * 4096 && sequence <= MAX_SEQUENCE
    ensures BitOr(w, sequence) == w + sequence
  {
    Powers();
    OrIsSum(high, sequence, 12);
  }

  lemma {:induction false} MaskSequence(high: nat, sequence: nat)
    requires sequence <= MAX_SEQUENCE
    ensures BitAnd(high * 4096 + sequence, 4095) == sequence
  {
    Powers();
    MaskKeepsLow(high, sequence, 12);
  }

  /** The time that 42 bits can carry: the 41 bits of the time and, above them, the sign. */
  function Carried(ts: int): int {
    var t := ts % (2 * TIME_LIMIT);
    if t < TIME_LIMIT then t else t - 2 * TIME_LIMIT
  }

  /** The packed word, exactly and for every time. */
  lemma {:induction false} PackCarries(ts: int64, node: Node, sequence: Counter)
    ensures Pack(ts, node, sequence) == Value(Carried(ts), node, sequence)
  {
    var d := 2 * TIME_LIMIT;
    PackReduced(ts, ts / d, ts % d, node, sequence);
    WrapSign(Value(ts % d, node, sequence));
  }

  /** The sign of an ID, for every time, is bit 41 of the time; so IDs of times from 0 to 2^41 - 1 are not negative. */
  lemma {:induction false} SignFollowsTime(ts: int64, node: Node, sequence: Counter)
    ensures Pack(ts, node, sequence) >= 0 <==> ts % (2 * TIME_LIMIT) < TIME_LIMIT
    ensures -TIME_LIMIT <= ts < TIME_LIMIT ==> Pack(ts, node, sequence) == Value(ts, node, sequence)
  {
    PackCarries(ts, node, sequence);
    CarriedIff(ts);
  }

  /** Times come through unchanged exactly when they fit. */
  lemma {:induction false} CarriedIff(ts: int)
    ensures -TIME_LIMIT <= Carried(ts) < TIME_LIMIT
    ensures Carried(ts) == ts <==> -TIME_LIMIT <= ts < TIME_LIMIT
  {
  }

  lemma WrapSign(x: int)
    requires 0 <= x < TWO64
    ensures Wrap64(x) >= 0 <==> x < TWO63
    ensures Wrap64(x) == if x < TWO63 then x else x - TWO64
  {
  }

  lemma {:induction false} AndWords(a: int64, m: nat, r: nat)
    requires m < TWO63 && BitAnd(Unsigned(a), m) == r < TWO63
    ensures And64(a, m) == r
  {
  }

  lemma {:induction false} ShiftTime(ts: int, low: nat)
    requires -TIME_LIMIT <= ts < TIME_LIMIT && low < 0x40_0000
    ensures Shr64(ts * 0x40_0000 + low, TIME_SHIFT) == ts
  {
    Powers();
    ShrDropsLow(ts, low, 22);
  }

  lemma {:induction false} ShiftNode(high: int, sequence: nat)
    requires -1024 * TIME_LIMIT <= high < 1024 * TIME_LIMIT && sequence <= MAX_SEQUENCE
    ensures Shr64(high * 4096 + sequence, NODE_SHIFT) == high
  {
    Powers();
    ShrDropsLow(high, sequence, 12);
  }

  lemma {:induction false} MaskNode(ts: int, node: nat)
    requires -TIME_LIMIT <= ts < TIME_LIMIT && node <= MAX_NODE
    ensures And64(ts * 1024 + node, MAX_NODE) == node
  {
    var high := if ts < 0 then ts + 0x40_0000_0000_0000 else ts;
    assert Unsigned(ts * 1024 + node) == high * 1024 + node;
    assert BitAnd(high * 1024 + node, 1023) == node by { Powers(); MaskKeepsLow(high, node, 10); }
    AndWords(ts * 1024 + node, 1023, node);
  }

  lemma {:induction false} MaskWord(high: int, sequence: nat)
    requires -1024 * TIME_LIMIT <= high < 1024 * TIME_LIMIT && sequence <= MAX_SEQUENCE
    ensures And64(high * 4096 + sequence, MAX_SEQUENCE) == sequence
  {
    var top := if high < 0 then high + 0x10_0000_0000_0000 else high;
    assert Unsigned(high * 4096 + sequence) == top * 4096 + sequence;
    MaskSequence(top, sequence);
    AndWords(high * 4096 + sequence, 4095, sequence);
  }

  lemma {:induction false} ParseValue(id: int64, ts: int64, node: Node, sequence: Counter)
    requires -TIME_LIMIT <= ts < TIME_LIMIT
    requires id == Value(ts, node, sequence)
    ensures Parse(id) == (ts, node, sequence)
  {
    var high := ts * 1024 + node;
    assert id == ts * 0x40_0000 + (node * 4096 + sequence);
    assert id == high * 4096 + sequence;
    ShiftTime(ts, node * 4096 + sequence);
    ShiftNode(high, sequence);
    MaskNode(ts, node);
    MaskWord(high, sequence);
  }

  /**
   Parse undoes the packing, for every time: node and sequence always come back, and the time does exactly when 42 bits
   can carry it.
   */
  lemma {:induction false} ParsePack(ts: int64, node: Node, sequence: Counter)
    ensures Parse(Pack(ts, node, sequence)) == (Carried(ts), node, sequence)
    ensures Parse(Pack(ts, node, sequence)).0 == ts <==> -TIME_LIMIT <= ts < TIME_LIMIT
  {
    PackCarries(ts, node, sequence);
    CarriedIff(ts);
    ParseValue(Pack(ts, node, sequence), Carried(ts), node, sequence);
  }

  /** The sequence counter: one more, back to 0 after 4095. */
  function Advance(s: Counter): Counter { if s == MAX_SEQUENCE then 0 else s + 1 }

  /** Adding one and masking with 4095 is that counter. */
  lemma NextSequence(s: Counter)
    ensures And64(Wrap64(s + 1), MAX_SEQUENCE) == Advance(s)
  {
    WrapSign(s + 1);
    if s == MAX_SEQUENCE {
      MaskSequence(1, 0);
      AndWords(4096, 4095, 0);
    } else {
      MaskSequence(0, s + 1);
      AndWords(s + 1, 4095, s + 1);
    }
  }

  // ---------- The generator ----------

  /** One turn of a spin loop: either the deadline has passed, or the clock is read again. */
  datatype Spin = Expired | Reading(ts: int64)

  datatype Outcome = Id(id: int64) | Backwards | StillBehind | Stalled

  datatype Gen = Gen(node: Node, wait: int64, lastTime: int64, sequence: Counter)

  /**
   Spinning until the clock reaches `bound`: the reading that did, and the turns left. Running out of turns is expiry.
   */
  function SpinUntil(spins: seq<Spin>, bound: int): Option<(int64, seq<Spin>)> {
    if spins == [] || spins[0].Expired? then None
    else if spins[0].ts >= bound then Some((spins[0].ts, spins[1..]))
    else SpinUntil(spins[1..], bound)
  }

  function Backward(g: Gen, ts: int64): int64 {
    Wrap64((g.lastTime - ts) * MILLISECOND)
  }

  /** One call of Next: the first clock reading, then whatever the spin loops see. */
  function NextOf(g: Gen, first: int64, spins: seq<Spin>): (Gen, Outcome) {
    if first < g.lastTime then
      if Backward(g, first) > g.wait then (g, Backwards) else
        match SpinUntil(spins, g.lastTime)
        case None => (g, StillBehind)
        case Some((ts, rest)) => Issue(g, ts, rest)
    else Issue(g, first, spins)
  }

  function Issue(g: Gen, ts: int64, spins: seq<Spin>): (Gen, Outcome) {
    if ts == g.lastTime then
      var s := Advance(g.sequence);
      if s != 0 then Stamp(g, ts, s) else
        match SpinUntil(spins, g.lastTime + 1)
        case None => (g.(sequence := 0), Stalled)
        case Some((later, _)) => Stamp(g, later, 0)
    else Stamp(g, ts, 0)
  }

  function Stamp(g: Gen, ts: int64, s: Counter): (Gen, Outcome) {
    (g.(lastTime := ts, sequence := s), Id(Wrap64(Value(ts, g.node, s))))
  }

  class Generator {
    const node: Node
    const maxBackwardWait: int64
    var lastTime: int64
    var sequence: Counter

    ghost function Contents(): Gen
      reads this
    {
      Gen(node, maxBackwardWait, lastTime, sequence)
    }

    /** Refuses exactly the nodes that do not fit in ten bits. */
    static method New(node: int64, wait: int64) returns (g: Generator?)
      ensures g == null <==> node < 0 || node > MAX_NODE
      ensures g != null ==>
              fresh(g) && 0 <= node <= MAX_NODE && g.Contents() == Gen(node, if wait < 0 then 0 else wait, 0, 0)
    {
      if node < 0 || node > MAX_NODE {
        return null;
      }
      g := new Generator(node, wait);
    }

    /** A negative tolerance is raised to zero. */
    constructor (node: Node, wait: int64)
      ensures Contents() == Gen(node, if wait < 0 then 0 else wait, 0, 0)
    {
      this.node := node;
      this.maxBackwardWait := if wait < 0 then 0 else wait;
      this.lastTime, this.sequence := 0, 0;
    }

    /** Reads the clock again and again, from turn `from` on, until it shows `bound` or the deadline passes. */
    method Spin(spins: seq<Spin>, from: nat, bound: int) returns (ts: Option<int64>, i: nat)
      requires from <= |spins|
      ensures i <= |spins|
      ensures SpinUntil(spins[from..], bound) == if ts.None? then None else Some((ts.value, spins[i..]))
    {
      i := from;
      while i < |spins| && spins[i].Reading?
        invariant from <= i <= |spins|
        invariant SpinUntil(spins[from..], bound) == SpinUntil(spins[i..], bound)
      {
        assert spins[i..][1..] == spins[i + 1..];
        i := i + 1;
        if spins[i - 1].ts >= bound {
          return Some(spins[i - 1].ts), i;
        }
      }
      ts := None;
    }

    method Next(first: int64, spins: seq<Spin>) returns (r: Outcome)
      modifies this
      ensures (Contents(), r) == NextOf(old(Contents()), first, spins)
    {
      var ts, i := first, 0;
      assert spins[0..] == spins;
      if ts < lastTime {
        if Wrap64((lastTime - ts) * MILLISECOND) > maxBackwardWait {
          return Backwards;
        }
        var caughtUp;
        caughtUp, i := Spin(spins, 0, lastTime);
        if caughtUp.None? {
          return StillBehind;
        }
        ts := caughtUp.value;
      }
      if ts == lastTime {
        var bumped := Bump(sequence);
        sequence := bumped;
        if sequence == 0 {
          var later;
          later, i := Spin(spins, i, lastTime + 1);
          if later.None? {
            return Stalled;
          }
          ts := later.value;
        }
      } else {
        sequence := 0;
      }
      lastTime := ts;
      var id := Packed(ts, node, sequence);
      r := Id(id);
    }
  }

  /** Adding one and masking with 4095. */
  method Bump(s: Counter) returns (next: Counter)
    ensures next == Advance(s)
  {
    NextSequence(s);
    next := And64(Wrap64(s + 1), MAX_SEQUENCE);
  }

  method Packed(ts: int64, node: Node, sequence: Counter) returns (id: int64)
    ensures id == Wrap64(Value(ts, node, sequence))
  {
    PackIsValue(ts, node, sequence);
    id := Or64(Or64(Shl64(ts, TIME_SHIFT), Shl64(node, NODE_SHIFT)), sequence);
  }

  // ---------- Every run ----------

  datatype Call = Call(first: int64, spins: seq<Spin>)

  ghost predicate InRange(c: Call) {
    c.first < TIME_LIMIT && SpinsInRange(c.spins)
  }

  ghost predicate GenOk(g: Gen) {
    0 <= g.lastTime < TIME_LIMIT
  }

  ghost predicate SpinsInRange(spins: seq<Spin>) {
    forall i :: 0 <= i < |spins| && spins[i].Reading? ==> spins[i].ts < TIME_LIMIT
  }

  lemma {:induction false} SpinResult(spins: seq<Spin>, bound: int)
    requires SpinsInRange(spins)
    ensures var r := SpinUntil(spins, bound);
            r.Some? ==> bound <= r.value.0 < TIME_LIMIT && SpinsInRange(r.value.1)
  {
    if spins != [] && spins[0].Reading? {
      forall i | 0 <= i < |spins[1..]| ensures spins[1..][i] == spins[i + 1] {}
      if spins[0].ts < bound { SpinResult(spins[1..], bound); }
    }
  }

  /** All that a call can do, in terms of time and sequence. */
  ghost predicate Legal(g: Gen, g': Gen, o: Outcome) {
    && GenOk(g') && g'.node == g.node
    && match o
       case Id(id) =>
         && id == Value(g'.lastTime, g'.node, g'.sequence) > 0
         && ((g'.lastTime > g.lastTime && g'.sequence == 0) ||
             (g'.lastTime == g.lastTime && g'.sequence == g.sequence + 1))
       case Stalled => g.sequence == MAX_SEQUENCE && g' == g.(sequence := 0)
       case _ => g' == g
  }

  lemma StampIsLegal(g: Gen, ts: int64, s: Counter)
    requires GenOk(g) && ts < TIME_LIMIT
    requires (ts > g.lastTime && s == 0) || (ts == g.lastTime && s == g.sequence + 1 <= MAX_SEQUENCE)
    ensures var (g', o) := Stamp(g, ts, s); Legal(g, g', o)
  {
    WrapSign(Value(ts, g.node, s));
  }

  lemma {:induction false} IssueIsLegal(g: Gen, ts: int64, spins: seq<Spin>)
    requires GenOk(g) && g.lastTime <= ts < TIME_LIMIT && SpinsInRange(spins)
    ensures var (g', o) := Issue(g, ts, spins); Legal(g, g', o)
  {
    SpinResult(spins, g.lastTime + 1);
    var later := SpinUntil(spins, g.lastTime + 1);
    if ts > g.lastTime {
      StampIsLegal(g, ts, 0);
    } else if g.sequence < MAX_SEQUENCE {
      StampIsLegal(g, ts, g.sequence + 1);
    } else if later.Some? {
      StampIsLegal(g, later.value.0, 0);
    }
  }

  lemma {:induction false} NextIsLegal(g: Gen, c: Call)
    requires GenOk(g) && InRange(c)
    ensures var (g', o) := NextOf(g, c.first, c.spins); Legal(g, g', o)
  {
    SpinResult(c.spins, g.lastTime);
    var found := SpinUntil(c.spins, g.lastTime);
    if c.first >= g.lastTime {
      IssueIsLegal(g, c.first, c.spins);
    } else if found.Some? {
      IssueIsLegal(g, found.value.0, found.value.1);
    }
  }

  // ---------- When a call fails ----------

  /** Readings of the clock before the deadline passes. */
  function InTime(spins: seq<Spin>): nat {
    if spins == [] || spins[0].Expired? then 0 else 1 + InTime(spins[1..])
  }

  lemma {:induction false} InTimeMeans(spins: seq<Spin>)
    ensures InTime(spins) <= |spins| && (InTime(spins) < |spins| ==> spins[InTime(spins)].Expired?)
    ensures forall i :: 0 <= i < InTime(spins) ==> spins[i].Reading?
  {
    if spins != [] && spins[0].Reading? {
      InTimeMeans(spins[1..]);
      assert forall i :: 0 < i < |spins| ==> spins[i] == spins[1..][i - 1];
    }
  }

  /** Spinning stops at the first reading in time that reaches the bound, and fails if there is none. */
  lemma {:induction false} SpinMeans(spins: seq<Spin>, bound: int)
    ensures InTime(spins) <= |spins| && forall i :: 0 <= i < InTime(spins) ==> spins[i].Reading?
    ensures SpinUntil(spins, bound).None? <==> forall i :: 0 <= i < InTime(spins) ==> spins[i].ts < bound
    ensures SpinUntil(spins, bound).Some? ==>
              exists k :: 0 <= k < InTime(spins) && spins[k].ts >= bound &&
                  (forall i :: 0 <= i < k ==> spins[i].ts < bound)
                && SpinUntil(spins, bound).value == (spins[k].ts, spins[k + 1..])
  {
    InTimeMeans(spins);
    if spins != [] && spins[0].Reading? && spins[0].ts < bound {
      var rest := spins[1..];
      SpinMeans(rest, bound);
      assert forall i :: 0 < i < |spins| ==> spins[i] == rest[i - 1];
      if SpinUntil(rest, bound).Some? {
        var k :| 0 <= k < InTime(rest) && rest[k].ts >= bound && (forall i :: 0 <= i < k ==> rest[i].ts < bound)
                 && SpinUntil(rest, bound).value == (rest[k].ts, rest[k + 1..]);
        assert spins[k + 1].ts >= bound && rest[k + 1..] == spins[k + 2..];
      } else {
        forall i | 0 <= i < InTime(spins) ensures spins[i].ts < bound {
          assert i > 0 ==> spins[i] == rest[i - 1];
        }
      }
    } else if spins != [] && spins[0].Reading? {
      assert spins[0].ts >= bound;
    }
  }

  /** No reading in time reaches the bound. */
  ghost predicate NeverReaches(spins: seq<Spin>, bound: int) {
    SpinUntil(spins, bound).None?
  }

  /**
   When a call gives up, exactly. It refuses a clock that went back by more than the tolerance; within it, it gives up
   if the clock does not catch up in time; and with the sequence used up, if the clock does not pass the millisecond in
   time. (A gap too long for 64-bit nanoseconds is compared after wrapping.)
   */
  lemma FailsIff(g: Gen, first: int64, spins: seq<Spin>)
    requires (g.lastTime - first) * MILLISECOND < TWO63
    ensures var o := NextOf(g, first, spins).1;
            && (o == Backwards <==> first < g.lastTime && (g.lastTime - first) * MILLISECOND > g.wait)
            && (o == StillBehind <==>
                  first < g.lastTime && (g.lastTime - first) * MILLISECOND <= g.wait && NeverReaches(spins, g.lastTime))
            && (first >= g.lastTime ==>
                  (o == Stalled <==>
                     first == g.lastTime && g.sequence == MAX_SEQUENCE && NeverReaches(spins, g.lastTime + 1)))
  {
    if first < g.lastTime { SmallWrap((g.lastTime - first) * MILLISECOND); }
  }

  lemma SmallWrap(x: int)
    requires 0 <= x < TWO63
    ensures Wrap64(x) == x
  {
  }

  /** The IDs that a run of calls returns are above `last` and strictly increasing. */
  predicate Climbs(g: Gen, last: int, calls: seq<Call>)
    decreases |calls|
  {
    calls == [] ||
    var (g', o) := NextOf(g, calls[0].first, calls[0].spins);
    if o.Id? then o.id > last && Climbs(g', o.id, calls[1..]) else Climbs(g', last, calls[1..])
  }

  /** After a stalled-clock error, the next call that succeeds does so in a later millisecond. */
  predicate ClockPassesStalls(g: Gen, stalled: bool, calls: seq<Call>)
    decreases |calls|
  {
    calls == [] ||
    var (g', o) := NextOf(g, calls[0].first, calls[0].spins);
    match o
    case Id(_) => !(stalled && g'.lastTime == g.lastTime) && ClockPassesStalls(g', false, calls[1..])
    case Stalled => ClockPassesStalls(g', true, calls[1..])
    case _ => ClockPassesStalls(g', stalled, calls[1..])
  }

  ghost predicate Behind(g: Gen, stalled: bool, last: int) {
    var v := Value(g.lastTime, g.node, g.sequence);
    if stalled then g.sequence == 0 && last == v + MAX_SEQUENCE
    else last <= v && (g.sequence > 0 ==> last == v)
  }

  lemma {:induction false} ClimbsIff(g: Gen, stalled: bool, last: int, calls: seq<Call>)
    requires GenOk(g) && Behind(g, stalled, last) && forall c :: c in calls ==> InRange(c)
    ensures Climbs(g, last, calls) <==> ClockPassesStalls(g, stalled, calls)
    decreases |calls|
  {
    if calls != [] {
      var c := calls[0];
      assert c in calls && forall d :: d in calls[1..] ==> d in calls;
      NextIsLegal(g, c);
      var (g', o) := NextOf(g, c.first, c.spins);
      match o {
        case Id(id) =>
          if !(stalled && g'.lastTime == g.lastTime) {
            ClimbsIff(g', false, id, calls[1..]);
          }
        case Stalled =>
          if !stalled { ClimbsIff(g', true, last, calls[1..]); }
        case _ => ClimbsIff(g', stalled, last, calls[1..]);
      }
    }
  }

  /**
   ID monotonicity, over every run and every clock: the IDs of one generator are positive and strictly increasing if and
   only if after every stalled-clock error the clock has moved on before the next success. In particular every run
   without that error is strictly increasing, however the clock stalls, jumps or runs backwards.
   */
  lemma StrictlyIncreasingIff(node: Node, wait: int64, calls: seq<Call>)
    requires forall c :: c in calls ==> InRange(c)
    ensures Climbs(Gen(node, wait, 0, 0), 0, calls) <==> ClockPassesStalls(Gen(node, wait, 0, 0), false, calls)
  {
    ClimbsIff(Gen(node, wait, 0, 0), false, 0, calls);
  }

  ghost predicate NeverStalls(g: Gen, calls: seq<Call>)
    decreases |calls|
  {
    calls == [] ||
    var (g', o) := NextOf(g, calls[0].first, calls[0].spins);
    o != Stalled && NeverStalls(g', calls[1..])
  }

  lemma {:induction false} NoStallClimbs(g: Gen, calls: seq<Call>)
    requires NeverStalls(g, calls)
    ensures ClockPassesStalls(g, false, calls)
    decreases |calls|
  {
    if calls != [] { NoStallClimbs(NextOf(g, calls[0].first, calls[0].spins).0, calls[1..]); }
  }

  /** A stalled-clock error followed by a call in the same millisecond hands out an ID that was already used. */
  lemma StallReuses(g: Gen)
    requires GenOk(g) && g.sequence == MAX_SEQUENCE
    ensures var (g1, o1) := NextOf(g, g.lastTime, [Expired]);
            var (g2, o2) := NextOf(g1, g.lastTime, []);
            && o1 == Stalled && o2.Id? && o2.id == Value(g.lastTime, g.node, 1) < Value(g.lastTime, g.node, g.sequence)
  {
    WrapSign(Value(g.lastTime, g.node, 1));
  }

  // ---------- Node separation ----------

  function Issued(g: Gen, calls: seq<Call>): set<int64>
    decreases |calls|
  {
    if calls == [] then {} else
      var (g', o) := NextOf(g, calls[0].first, calls[0].spins);
      (if o.Id? then {o.id} else {}) + Issued(g', calls[1..])
  }

  /** Whatever the clock shows, an ID carries its generator's node. */
  lemma {:induction false} NextCarriesNode(g: Gen, c: Call)
    ensures var (g', o) := NextOf(g, c.first, c.spins); g'.node == g.node && (o.Id? ==> Parse(o.id).1 == g.node)
  {
    var (g', o) := NextOf(g, c.first, c.spins);
    if o.Id? {
      assert o.id == Wrap64(Value(g'.lastTime, g.node, g'.sequence));
      PackIsValue(g'.lastTime, g.node, g'.sequence);
      ParsePack(g'.lastTime, g.node, g'.sequence);
    }
  }

  lemma {:induction false} IssuedCarryNode(g: Gen, calls: seq<Call>)
    ensures forall id :: id in Issued(g, calls) ==> Parse(id).1 == g.node
    decreases |calls|
  {
    if calls != [] {
      NextCarriesNode(g, calls[0]);
      IssuedCarryNode(NextOf(g, calls[0].first, calls[0].spins).0, calls[1..]);
    }
  }

  /** Generators with different nodes never issue the same ID, whatever their clocks do. */
  lemma NodesNeverCollide(n1: Node, n2: Node, w1: int64, w2: int64, calls1: seq<Call>, calls2: seq<Call>)
    requires n1 != n2
    ensures Issued(Gen(n1, w1, 0, 0), calls1) !! Issued(Gen(n2, w2, 0, 0), calls2)
  {
    IssuedCarryNode(Gen(n1, w1, 0, 0), calls1);
    IssuedCarryNode(Gen(n2, w2, 0, 0), calls2);
  }

  /** While the relative time fits in 41 bits, every ID issued is positive. */
  lemma {:induction false} IssuedArePositive(g: Gen, calls: seq<Call>)
    requires GenOk(g) && forall c :: c in calls ==> InRange(c)
    ensures forall id :: id in Issued(g, calls) ==> id > 0
    decreases |calls|
  {
    if calls != [] {
      assert calls[0] in calls && forall d :: d in calls[1..] ==> d in calls;
      NextIsLegal(g, calls[0]);
      IssuedArePositive(NextOf(g, calls[0].first, calls[0].spins).0, calls[1..]);
    }
  }
}
