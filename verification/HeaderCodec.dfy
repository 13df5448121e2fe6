/**
 The serialized header map exchanged with a guest: a little-endian count, a table of key and value lengths, then every
 key and value followed by a NUL. Byte offsets are unbounded here; the four-byte fields truncate as they do there.
 */
module HeaderCodec {
  import opened Words

  type byte = x: int | 0 <= x < 256
  type bytes = seq<byte>
  datatype Pair = Pair(key: bytes, val: bytes)

  // ---------- Specification ----------

  function Pow256(k: nat): nat {
    if k == 0 then 1 else 256 * Pow256(k - 1)
  }

  /** The number spelled by the k bytes at an offset, least significant first. */
  function Number(data: bytes, at: nat, k: nat): (n: nat)
    requires at + k <= |data|
    ensures n < Pow256(k)
    decreases k
  {
    if k == 0 then 0 else 256 * Number(data, at + 1, k - 1) + data[at]
  }

  /** The i-th byte of n, least significant first. */
  function Digit(n: nat, i: nat): byte
    decreases i
  {
    if i == 0 then n % 256 else Digit(n / 256, i - 1)
  }

  /** The k low bytes of n, least significant first. */
  function Digits(n: nat, k: nat): (r: bytes)
    ensures |r| == k
  {
    seq(k, i requires 0 <= i => Digit(n, i))
  }

  /** Bit positions of the four bytes of a field. */
  const SHIFTS: seq<nat> := [0, 8, 16, 24]

  lemma WidthIs32Bits()
    ensures |SHIFTS| == 4 && Pow256(|SHIFTS|) == TWO32
  {
    assert Pow256(2) == 65536;
    assert Pow256(4) == TWO32;
  }

  function Field(data: bytes, at: nat): (n: nat)
    requires at + 4 <= |data|
    ensures n < TWO32
  {
    WidthIs32Bits();
    Number(data, at, |SHIFTS|)
  }

  /** A 32-bit field: the four bytes that spell n, truncated. */
  function LE32(n: nat): (r: bytes)
    ensures |r| == 4
  {
    Digits(n % TWO32, |SHIFTS|)
  }

  lemma LE32Spells(n: nat)
    ensures Field(LE32(n), 0) == n % TWO32
  {
    WidthIs32Bits();
    DigitsSpell(n % TWO32, |SHIFTS|);
  }

  lemma {:induction false} DigitsSpell(n: nat, k: nat)
    requires n < Pow256(k)
    ensures Number(Digits(n, k), 0, k) == n
  {
    if k > 0 {
      DigitsSpell(n / 256, k - 1);
      assert Digits(n, k)[1..1 + (k - 1)] == Digits(n / 256, k - 1)[0..0 + (k - 1)] by {
        forall i | 0 <= i < k - 1 ensures Digit(n, i + 1) == Digit(n / 256, i) {}
      }
      NumberShift(Digits(n, k), 1, Digits(n / 256, k - 1), 0, k - 1);
    }
  }

  /** A number depends only on its own bytes. */
  lemma {:induction false} NumberShift(a: bytes, x: nat, b: bytes, y: nat, k: nat)
    requires x + k <= |a| && y + k <= |b| && a[x..x + k] == b[y..y + k]
    ensures Number(a, x, k) == Number(b, y, k)
    decreases k
  {
    if k > 0 {
      assert a[x] == a[x..x + k][0] == b[y..y + k][0] == b[y];
      assert a[x + 1..x + k] == a[x..x + k][1..] == b[y..y + k][1..] == b[y + 1..y + k];
      NumberShift(a, x + 1, b, y + 1, k - 1);
    }
  }

  /** Different bytes spell different numbers. */
  lemma {:induction false} SpellingIsUnique(a: bytes, x: nat, b: bytes, y: nat, k: nat)
    requires x + k <= |a| && y + k <= |b| && Number(a, x, k) == Number(b, y, k)
    ensures a[x..x + k] == b[y..y + k]
    decreases k
  {
    if k > 0 {
      SpellingIsUnique(a, x + 1, b, y + 1, k - 1);
      assert a[x..x + k] == [a[x]] + a[x + 1..x + k] && b[y..y + k] == [b[y]] + b[y + 1..y + k];
    }
  }

  lemma FieldOf(data: bytes, at: nat, n: nat)
    requires at + 4 <= |data| && data[at..at + 4] == LE32(n)
    ensures Field(data, at) == n % TWO32
  {
    var r := LE32(n);
    LE32Spells(n);
    assert r[0..4] == r;
    NumberShift(data, at, r, 0, |SHIFTS|);
  }

  function Lengths(p: Pair): (r: bytes)
    ensures |r| == 8
  {
    LE32(|p.key|) + LE32(|p.val|)
  }

  function Entry(p: Pair): (r: bytes)
    ensures |r| == |p.key| + |p.val| + 2
  {
    p.key + [0] + p.val + [0]
  }

  /** The length table of the first k pairs. */
  function Table(ps: seq<Pair>, k: nat): (r: bytes)
    requires k <= |ps|
    ensures |r| == 8 * k
  {
    if k == 0 then [] else Table(ps, k - 1) + Lengths(ps[k - 1])
  }

  function BodySize(ps: seq<Pair>, k: nat): nat
    requires k <= |ps|
  {
    if k == 0 then 0 else BodySize(ps, k - 1) + |ps[k - 1].key| + |ps[k - 1].val| + 2
  }

  /** The keys and values of the first k pairs. */
  function Body(ps: seq<Pair>, k: nat): (r: bytes)
    requires k <= |ps|
    ensures |r| == BodySize(ps, k)
  {
    if k == 0 then [] else Body(ps, k - 1) + Entry(ps[k - 1])
  }

  function Encode(ps: seq<Pair>): bytes {
    LE32(|ps|) + Table(ps, |ps|) + Body(ps, |ps|)
  }

  function HeaderSize(count: nat): nat {
    4 + 8 * count
  }

  /** The lengths of one pair, as announced by the table. */
  datatype Size = Size(key: nat, val: nat)

  function ReadTable(data: bytes, count: nat): (r: seq<Size>)
    requires HeaderSize(count) <= |data|
    ensures |r| == count
  {
    if count == 0 then [] else
      ReadTable(data, count - 1) + [Size(Field(data, 8 * count - 4), Field(data, 8 * count))]
  }

  /** Cuts pairs of the given sizes out of the data, from pair i on, for as long as they are wholly there. */
  function Cut(data: bytes, sizes: seq<Size>, i: nat, at: nat, done: seq<Pair>): seq<Pair>
    requires i <= |sizes|
    decreases |sizes| - i
  {
    if i == |sizes| then done else
      var valAt := at + sizes[i].key + 1;
      var next := valAt + sizes[i].val + 1;
      if next > |data| then done else
        Cut(data, sizes, i + 1, next, done + [Pair(data[at..at + sizes[i].key], data[valAt..valAt + sizes[i].val])])
  }

  function Decode(data: bytes): seq<Pair> {
    if |data| < 4 then [] else
      var count := Field(data, 0);
      if count == 0 || |data| < HeaderSize(count) then []
      else Cut(data, ReadTable(data, count), 0, HeaderSize(count), [])
  }

  // ---------- Encoding into a buffer ----------

  method PutUint32(buf: array<byte>, at: nat, n: nat)
    requires at + 4 <= buf.Length
    modifies buf
    ensures buf[..at + 4] == old(buf[..at]) + LE32(n)
  {
    var m := n % TWO32;
    ghost var before := buf[..at];
    buf[at] := m % 256;
    buf[at + 1] := m / 256 % 256;
    buf[at + 2] := m / 65536 % 256;
    buf[at + 3] := m / 16777216 % 256;
    SpellsLE32(buf[..], at, n);
    assert buf[..at + 4] == before + buf[..][at..at + 4];
  }

  lemma SpellsLE32(data: bytes, at: nat, n: nat)
    requires at + 4 <= |data|
    requires var m := n % TWO32;
             && data[at] == m % 256 && data[at + 1] == m / 256 % 256
             && data[at + 2] == m / 65536 % 256 && data[at + 3] == m / 16777216 % 256
    ensures data[at..at + 4] == LE32(n)
  {
    FieldIsSum(data, at);
    SumOfDigits(n % TWO32);
    LE32Spells(n);
    SpellingIsUnique(data, at, LE32(n), 0, |SHIFTS|);
    assert LE32(n)[0..4] == LE32(n);
  }

  lemma SumOfDigits(m: nat)
    requires m < TWO32
    ensures m == m % 256 + 256 * (m / 256 % 256) + 65536 * (m / 65536 % 256) + 16777216 * (m / 16777216 % 256)
  {
    var d1 := m / 256;
    var d2 := d1 / 256;
    assert m / 65536 == d2 && m / 16777216 == d2 / 256;
  }

  lemma FieldIsSum(data: bytes, at: nat)
    requires at + 4 <= |data|
    ensures var b0: int, b1: int, b2: int, b3: int := data[at], data[at + 1], data[at + 2], data[at + 3];
            Field(data, at) == b0 + 256 * b1 + 65536 * b2 + 16777216 * b3
  {
    assert Number(data, at + 4, 0) == 0;
    assert Number(data, at + 3, 1) == data[at + 3];
    assert Number(data, at + 2, 2) == 256 * Number(data, at + 3, 1) + data[at + 2];
    assert Number(data, at + 1, 3) == 256 * Number(data, at + 2, 2) + data[at + 1];
    assert Number(data, at, 4) == 256 * Number(data, at + 1, 3) + data[at];
  }

  method Copy(buf: array<byte>, at: nat, s: bytes)
    requires at + |s| <= buf.Length
    modifies buf
    ensures buf[..at + |s|] == old(buf[..at]) + s
  {
    for i := 0 to |s|
      invariant buf[..at + i] == old(buf[..at]) + s[..i]
    {
      buf[at + i] := s[i];
    }
  }

  /** Writes one key and one value, each with its NUL, and moves the offset past them. */
  method PutEntry(buf: array<byte>, at: nat, p: Pair) returns (next: nat)
    requires at + |Entry(p)| <= buf.Length
    modifies buf
    ensures next == at + |Entry(p)|
    ensures buf[..next] == old(buf[..at]) + Entry(p)
  {
    ghost var before := buf[..at];
    var offset := at;
    Copy(buf, offset, p.key);
    offset := offset + |p.key|;
    buf[offset] := 0;
    offset := offset + 1;
    assert buf[..offset] == before + p.key + [0];
    Copy(buf, offset, p.val);
    offset := offset + |p.val|;
    buf[offset] := 0;
    next := offset + 1;
    assert buf[..next] == before + p.key + [0] + p.val + [0];
  }

  method DataSize(ps: seq<Pair>) returns (size: nat)
    ensures size == BodySize(ps, |ps|)
  {
    size := 0;
    for i := 0 to |ps|
      invariant size == BodySize(ps, i)
    {
      size := size + |ps[i].key| + 1 + |ps[i].val| + 1;
    }
  }

  method PutLengths(buf: array<byte>, at: nat, p: Pair)
    requires at + 8 <= buf.Length
    modifies buf
    ensures buf[..at + 8] == old(buf[..at]) + Lengths(p)
  {
    PutUint32(buf, at, |p.key|);
    PutUint32(buf, at + 4, |p.val|);
  }

  lemma {:induction false} TableSnoc(prefix: bytes, ps: seq<Pair>, i: nat)
    requires i < |ps|
    ensures prefix + Table(ps, i) + Lengths(ps[i]) == prefix + Table(ps, i + 1)
  {
  }

  method PutRow(buf: array<byte>, at: nat, ps: seq<Pair>, i: nat, ghost prefix: bytes)
    requires i < |ps| && at + 8 <= buf.Length && buf[..at] == prefix + Table(ps, i)
    modifies buf
    ensures buf[..at + 8] == prefix + Table(ps, i + 1)
  {
    PutLengths(buf, at, ps[i]);
    TableSnoc(prefix, ps, i);
  }

  method PutTable(buf: array<byte>, ps: seq<Pair>)
    requires HeaderSize(|ps|) <= buf.Length
    modifies buf
    ensures buf[..HeaderSize(|ps|)] == old(buf[..4]) + Table(ps, |ps|)
  {
    ghost var prefix := buf[..4];
    var offset := 4;
    for i := 0 to |ps|
      invariant offset == HeaderSize(i)
      invariant buf[..offset] == prefix + Table(ps, i)
    {
      PutRow(buf, offset, ps, i, prefix);
      offset := offset + 8;
    }
  }

  method PutBody(buf: array<byte>, at: nat, ps: seq<Pair>)
    requires at + BodySize(ps, |ps|) == buf.Length
    modifies buf
    ensures buf[..] == old(buf[..at]) + Body(ps, |ps|)
  {
    var offset := at;
    for i := 0 to |ps|
      invariant offset == at + BodySize(ps, i) <= buf.Length
      invariant buf[..offset] == old(buf[..at]) + Body(ps, i)
    {
      BodyPrefix(ps, i + 1, |ps|);
      offset := PutEntry(buf, offset, ps[i]);
    }
    assert buf[..offset] == buf[..];
  }

  method EncodePairs(ps: seq<Pair>) returns (buf: array<byte>)
    ensures fresh(buf) && buf[..] == Encode(ps)
  {
    var dataSize := DataSize(ps);
    buf := new byte[HeaderSize(|ps|) + dataSize];
    PutUint32(buf, 0, |ps|);
    assert buf[..4] == LE32(|ps|);
    PutTable(buf, ps);
    assert buf[..HeaderSize(|ps|)] == LE32(|ps|) + Table(ps, |ps|);
    PutBody(buf, HeaderSize(|ps|), ps);
  }

  // ---------- Decoding arbitrary bytes ----------

  method Uint32(data: array<byte>, at: nat) returns (n: nat)
    requires at + 4 <= data.Length
    ensures n == Field(data[..], at)
  {
    var b0: int, b1: int, b2: int, b3: int := data[at], data[at + 1], data[at + 2], data[at + 3];
    n := b0 + 256 * b1 + 65536 * b2 + 16777216 * b3;
    FieldIsSum(data[..], at);
  }

  /** No input, however malformed, makes the decoder read outside it. */
  method DecodeHeaderMap(data: array<byte>) returns (pairs: seq<Pair>)
    ensures pairs == Decode(data[..])
  {
    if data.Length < 4 {
      return [];
    }
    var count := Uint32(data, 0);
    if count == 0 {
      return [];
    }
    if data.Length < HeaderSize(count) {
      return [];
    }
    ghost var sizes := ReadTable(data[..], count);
    forall i | 0 <= i < count ensures SizeAt(data[..], i, sizes[i]) { ReadTableAt(data[..], count, i); }
    pairs := DecodePairs(data, count, sizes);
  }

  /** The decoding loop: read two lengths, then cut the key and the value they announce. */
  method DecodePairs(data: array<byte>, count: nat, ghost sizes: seq<Size>) returns (pairs: seq<Pair>)
    requires HeaderSize(count) <= data.Length && |sizes| == count
    requires forall i {:trigger SizeAt(data[..], i, sizes[i])} :: 0 <= i < count ==> SizeAt(data[..], i, sizes[i])
    ensures pairs == Cut(data[..], sizes, 0, HeaderSize(count), [])
  {
    pairs := [];
    var dataOffset: nat := HeaderSize(count);
    ghost var all := Cut(data[..], sizes, 0, HeaderSize(count), []);
    for i := 0 to count
      invariant all == Cut(data[..], sizes, i, dataOffset, pairs)
    {
      assert SizeAt(data[..], i, sizes[i]);
      var keyLen, valLen := ReadSize(data, i, sizes[i]);
      if dataOffset + keyLen + 1 + valLen + 1 > data.Length {
        return pairs;
      }
      var p, next := TakePair(data, dataOffset, keyLen, valLen);
      CutStep(data[..], sizes, i, dataOffset, pairs, keyLen, valLen, p, next);
      pairs, dataOffset := pairs + [p], next;
    }
  }

  lemma CutStep(data: bytes, sizes: seq<Size>, i: nat, at: nat, done: seq<Pair>, keyLen: nat, valLen: nat, p: Pair,
                next: nat)
    requires i < |sizes| && sizes[i] == Size(keyLen, valLen) && next == at + keyLen + 1 + valLen + 1 <= |data|
    requires p == Pair(data[at..at + keyLen], data[at + keyLen + 1..at + keyLen + 1 + valLen])
    ensures Cut(data, sizes, i, at, done) == Cut(data, sizes, i + 1, next, done + [p])
  {
  }

  lemma DecodeIsCut(data: bytes, count: nat)
    requires 4 <= |data| && Field(data, 0) == count && HeaderSize(count) <= |data|
    ensures Decode(data) == Cut(data, ReadTable(data, count), 0, HeaderSize(count), [])
  {
  }

  ghost predicate SizeAt(data: bytes, i: nat, size: Size)
    requires HeaderSize(i + 1) <= |data|
  {
    size == Size(Field(data, HeaderSize(i)), Field(data, HeaderSize(i) + 4))
  }

  method ReadSize(data: array<byte>, i: nat, ghost size: Size) returns (keyLen: nat, valLen: nat)
    requires HeaderSize(i + 1) <= data.Length && SizeAt(data[..], i, size)
    ensures size == Size(keyLen, valLen)
  {
    keyLen := Uint32(data, HeaderSize(i));
    valLen := Uint32(data, HeaderSize(i) + 4);
  }

  /** Cuts one key and one value out of the data, skipping the NUL after each. */
  method TakePair(data: array<byte>, at: nat, keyLen: nat, valLen: nat) returns (p: Pair, next: nat)
    requires at + keyLen + 1 + valLen + 1 <= data.Length
    ensures p == Pair(data[..][at..at + keyLen], data[..][at + keyLen + 1..at + keyLen + 1 + valLen])
    ensures next == at + keyLen + 1 + valLen + 1
  {
    var dataOffset := at;
    var key := data[dataOffset..dataOffset + keyLen];
    dataOffset := dataOffset + keyLen + 1; // skip NUL
    var val := data[dataOffset..dataOffset + valLen];
    dataOffset := dataOffset + valLen + 1; // skip NUL
    assert key == data[..][at..at + keyLen];
    assert val == data[..][at + keyLen + 1..at + keyLen + 1 + valLen];
    p, next := Pair(key, val), dataOffset;
  }

  lemma {:induction false} ReadTableAt(data: bytes, count: nat, i: nat)
    requires HeaderSize(count) <= |data| && i < count
    ensures ReadTable(data, count)[i] == Size(Field(data, 4 + 8 * i), Field(data, 8 + 8 * i))
  {
    if i < count - 1 { ReadTableAt(data, count - 1, i); }
  }

  // ---------- Laws ----------

  ghost predicate Fits(ps: seq<Pair>) {
    |ps| < TWO32 && forall i :: 0 <= i < |ps| ==> |ps[i].key| < TWO32 && |ps[i].val| < TWO32
  }

  lemma Middle<T>(a: seq<T>, b: seq<T>, c: seq<T>, x: nat, y: nat)
    requires x <= y <= |b|
    ensures (a + b + c)[|a| + x..|a| + y] == b[x..y]
  {
  }

  lemma PrefixSlice<T>(d: seq<T>, all: seq<T>, x: nat, y: nat)
    requires d <= all && x <= y <= |d|
    ensures d[x..y] == all[x..y]
  {
  }

  lemma {:induction false} TableAt(ps: seq<Pair>, k: nat, i: nat)
    requires i < k <= |ps|
    ensures Table(ps, k)[8 * i..8 * i + 8] == Lengths(ps[i])
  {
    if i < k - 1 {
      TableAt(ps, k - 1, i);
      PrefixSlice(Table(ps, k - 1), Table(ps, k), 8 * i, 8 * i + 8);
    }
  }

  lemma Halves<T>(s: seq<T>, x: nat, a: seq<T>, b: seq<T>)
    requires x + |a| + |b| <= |s| && s[x..x + |a| + |b|] == a + b
    ensures s[x..x + |a|] == a && s[x + |a|..x + |a| + |b|] == b
  {
    var m := s[x..x + |a| + |b|];
    assert s[x..x + |a|] == m[..|a|] && s[x + |a|..x + |a| + |b|] == m[|a|..];
  }

  /** Bodies of prefixes are prefixes of the body. */
  lemma {:induction false} BodyPrefix(ps: seq<Pair>, i: nat, k: nat)
    requires i <= k <= |ps|
    ensures BodySize(ps, i) <= BodySize(ps, k) && Body(ps, k)[..BodySize(ps, i)] == Body(ps, i)
    decreases k
  {
    if i < k { BodyPrefix(ps, i, k - 1); }
  }

  /** How many of the pairs from `i` on lie wholly within the first `n` bytes. */
  function WholeFrom(ps: seq<Pair>, i: nat, n: int): (j: nat)
    requires i <= |ps|
    ensures i <= j <= |ps|
    ensures j == i || HeaderSize(|ps|) + BodySize(ps, j) <= n
    ensures j < |ps| ==> HeaderSize(|ps|) + BodySize(ps, j + 1) > n
    decreases |ps| - i
  {
    if i == |ps| || HeaderSize(|ps|) + BodySize(ps, i + 1) > n then i else WholeFrom(ps, i + 1, n)
  }

  /** Reading the i-th row of the length table back from any truncation that still holds the table. */
  lemma TableRead(ps: seq<Pair>, i: nat, data: bytes)
    requires Fits(ps) && i < |ps| && data <= Encode(ps) && HeaderSize(|ps|) <= |data|
    ensures Field(data, 4 + 8 * i) == |ps[i].key| && Field(data, 8 + 8 * i) == |ps[i].val|
  {
    RowAt(ps, i, data);
    FieldPair(data, 4 + 8 * i, |ps[i].key|, |ps[i].val|);
  }

  lemma FieldPair(data: bytes, at: nat, k: nat, v: nat)
    requires at + 8 <= |data| && k < TWO32 && v < TWO32
    requires data[at..at + 4] == LE32(k) && data[at + 4..at + 8] == LE32(v)
    ensures Field(data, at) == k && Field(data, at + 4) == v
  {
    FieldOf(data, at, k);
    FieldOf(data, at + 4, v);
  }

  lemma RowAt(ps: seq<Pair>, i: nat, data: bytes)
    requires i < |ps| && data <= Encode(ps) && HeaderSize(|ps|) <= |data|
    ensures var at := 4 + 8 * i; data[at..at + 4] == LE32(|ps[i].key|) && data[at + 4..at + 8] == LE32(|ps[i].val|)
  {
    TableAt(ps, |ps|, i);
    Middle(LE32(|ps|), Table(ps, |ps|), Body(ps, |ps|), 8 * i, 8 * i + 8);
    PrefixSlice(data, Encode(ps), 4 + 8 * i, 4 + 8 * i + 8);
    Halves(data, 4 + 8 * i, LE32(|ps[i].key|), LE32(|ps[i].val|));
  }

  lemma HeadIs<T>(data: seq<T>, a: seq<T>, b: seq<T>, c: seq<T>)
    requires data <= a + b + c && |a| <= |data|
    ensures data[0..|a|] == a
  {
    assert (a + b + c)[..|a|] == a;
  }

  lemma {:induction false} CountRead(ps: seq<Pair>, data: bytes)
    requires |ps| < TWO32 && data <= Encode(ps) && 4 <= |data|
    ensures Field(data, 0) == |ps|
  {
    HeadIs(data, LE32(|ps|), Table(ps, |ps|), Body(ps, |ps|));
    FieldOf(data, 0, |ps|);
  }

  /** Reading the i-th key and value back, when they are wholly there. */
  lemma EntryRead(ps: seq<Pair>, i: nat, data: bytes)
    requires i < |ps| && data <= Encode(ps) && HeaderSize(|ps|) + BodySize(ps, i + 1) <= |data|
    ensures var at := HeaderSize(|ps|) + BodySize(ps, i);
            var valAt := at + |ps[i].key| + 1;
            && data[at..at + |ps[i].key|] == ps[i].key && data[valAt..valAt + |ps[i].val|] == ps[i].val
  {
    var at, p := HeaderSize(|ps|) + BodySize(ps, i), ps[i];
    EntryAt(ps, i, data);
    Halves(data, at, p.key + [0] + p.val, [0]);
    Halves(data, at, p.key + [0], p.val);
    Halves(data, at, p.key, [0]);
  }

  /** The i-th entry, seen in the bytes of the whole message. */
  lemma EntryAt(ps: seq<Pair>, i: nat, data: bytes)
    requires i < |ps| && data <= Encode(ps) && HeaderSize(|ps|) + BodySize(ps, i + 1) <= |data|
    ensures var at := HeaderSize(|ps|) + BodySize(ps, i); data[at..at + |Entry(ps[i])|] == Entry(ps[i])
  {
    BodyPrefix(ps, i + 1, |ps|);
    var b, b0, b1 := Body(ps, |ps|), BodySize(ps, i), BodySize(ps, i + 1);
    PrefixSlice(Body(ps, i + 1), b, b0, b1);
    assert Body(ps, i + 1)[b0..b1] == Entry(ps[i]);
    var head := LE32(|ps|) + Table(ps, |ps|);
    Middle(head, b, [], b0, b1);
    assert head + b + [] == Encode(ps);
    PrefixSlice(data, Encode(ps), |head| + b0, |head| + b1);
  }

  ghost predicate Sizes(ps: seq<Pair>, sizes: seq<Size>) {
    |sizes| == |ps| && forall i :: 0 <= i < |ps| ==> sizes[i] == Size(|ps[i].key|, |ps[i].val|)
  }

  /** Entry i, if it fits in the data, is there, where the sizes say. */
  ghost predicate EntryThere(ps: seq<Pair>, data: bytes, i: nat)
    requires i < |ps|
  {
    HeaderSize(|ps|) + BodySize(ps, i + 1) <= |data| ==>
      var at := HeaderSize(|ps|) + BodySize(ps, i);
      var valAt := at + |ps[i].key| + 1;
      data[at..at + |ps[i].key|] == ps[i].key && data[valAt..valAt + |ps[i].val|] == ps[i].val
  }

  lemma {:induction false} CutTruncated(ps: seq<Pair>, sizes: seq<Size>, i: nat, data: bytes)
    requires Sizes(ps, sizes) && i <= |ps| && forall k :: 0 <= k < |ps| ==> EntryThere(ps, data, k)
    ensures Cut(data, sizes, i, HeaderSize(|ps|) + BodySize(ps, i), ps[..i]) == ps[..WholeFrom(ps, i, |data|)]
    decreases |ps| - i
  {
    if i < |ps| {
      assert sizes[i] == Size(|ps[i].key|, |ps[i].val|) && EntryThere(ps, data, i);
      if HeaderSize(|ps|) + BodySize(ps, i + 1) <= |data| {
        CutTruncated(ps, sizes, i + 1, data);
        assert ps[..i] + [Pair(ps[i].key, ps[i].val)] == ps[..i + 1];
      }
    }
  }

  /**
   Cutting an encoding short loses whole pairs from the end and nothing else: what decodes is the longest prefix still
   there.
   */
  lemma TruncationGivesPrefix(ps: seq<Pair>, data: bytes)
    requires Fits(ps) && data <= Encode(ps)
    ensures |data| < HeaderSize(|ps|) ==> Decode(data) == []
    ensures |data| >= HeaderSize(|ps|) ==> Decode(data) == ps[..WholeFrom(ps, 0, |data|)]
  {
    if |data| >= HeaderSize(|ps|) {
      TruncatedBody(ps, data);
    } else if |data| >= 4 {
      CountRead(ps, data);
    }
  }

  lemma {:induction false} TruncatedBody(ps: seq<Pair>, data: bytes)
    requires Fits(ps) && data <= Encode(ps) && |data| >= HeaderSize(|ps|)
    ensures Decode(data) == ps[..WholeFrom(ps, 0, |data|)]
  {
    CountRead(ps, data);
    TableIsSizes(ps, data);
    DecodeIsCut(data, |ps|);
    forall i | 0 <= i < |ps| ensures EntryThere(ps, data, i) {
      if HeaderSize(|ps|) + BodySize(ps, i + 1) <= |data| { EntryRead(ps, i, data); }
    }
    CutTruncated(ps, ReadTable(data, |ps|), 0, data);
    assert ps[..0] == [];
  }

  lemma {:induction false} TableIsSizes(ps: seq<Pair>, data: bytes)
    requires Fits(ps) && data <= Encode(ps) && HeaderSize(|ps|) <= |data|
    ensures Sizes(ps, ReadTable(data, |ps|))
  {
    var sizes := ReadTable(data, |ps|);
    forall i | 0 <= i < |ps| ensures sizes[i] == Size(|ps[i].key|, |ps[i].val|) {
      ReadTableAt(data, |ps|, i);
      TableRead(ps, i, data);
    }
  }

  lemma {:induction false} CutFits(data: bytes, sizes: seq<Size>, i: nat, at: nat, done: seq<Pair>)
    requires i <= |sizes| < TWO32 && |done| <= i
    requires forall k :: 0 <= k < |sizes| ==> sizes[k].key < TWO32 && sizes[k].val < TWO32
    requires Fits(done)
    ensures Fits(Cut(data, sizes, i, at, done))
    decreases |sizes| - i
  {
    if i < |sizes| {
      var valAt := at + sizes[i].key + 1;
      var next := valAt + sizes[i].val + 1;
      if next <= |data| {
        CutFits(data, sizes, i + 1, next,
                done + [Pair(data[at..at + sizes[i].key], data[valAt..valAt + sizes[i].val])]);
      }
    }
  }

  /** Whatever the bytes, what the decoder returns fits in the format. */
  lemma DecodedFits(data: bytes)
    ensures Fits(Decode(data))
  {
    if |data| >= 4 {
      var count := Field(data, 0);
      if count != 0 && |data| >= HeaderSize(count) {
        var sizes := ReadTable(data, count);
        forall k | 0 <= k < |sizes| ensures sizes[k].key < TWO32 && sizes[k].val < TWO32 {
          ReadTableAt(data, count, k);
        }
        CutFits(data, sizes, 0, HeaderSize(count), []);
      }
    }
  }

  /**
   The format, spelled out on one pair of key "a" (97) and value "bc" (98, 99): count, lengths, then both with NULs.
   */
  lemma FormatExample()
    ensures Encode([Pair([97], [98, 99])]) == [1, 0, 0, 0] + [1, 0, 0, 0] + [2, 0, 0, 0] + [97, 0, 98, 99, 0]
  {
    var p := Pair([97], [98, 99]);
    SmallField(1);
    SmallField(2);
    assert Table([p], 0) == [] && Body([p], 0) == [];
    assert Table([p], 1) == [] + Lengths(p) && Body([p], 1) == [] + Entry(p);
    assert Encode([p]) == LE32(1) + (LE32(1) + LE32(2)) + Entry(p);
  }

  lemma SmallField(n: nat)
    requires n < 256
    ensures LE32(n) == [n, 0, 0, 0]
  {
    SpellsLE32([n, 0, 0, 0], 0, n);
    assert [n, 0, 0, 0][0..4] == [n, 0, 0, 0];
  }

  /** Round trip: a pair list, embedded NULs included, survives exactly when its counts and lengths fit in 32 bits. */
  lemma RoundTripIff(ps: seq<Pair>)
    ensures Decode(Encode(ps)) == ps <==> Fits(ps)
  {
    var all := Encode(ps);
    if Fits(ps) {
      TruncationGivesPrefix(ps, all);
      var j := WholeFrom(ps, 0, |all|);
      if j < |ps| { BodyPrefix(ps, j + 1, |ps|); }
      assert j == |ps| && ps[..j] == ps;
    } else {
      DecodedFits(all);
    }
  }
}
