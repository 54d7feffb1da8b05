/** The host file behind an image: an array of bytes that reads as zero wherever nothing was
    written, addressed by host cluster and offset inside the cluster, together with the big-endian
    tables (L1, L2, refcount table, refcount blocks) that the image format keeps in it.
 */
module HostFile {

  type Byte = x: int | 0 <= x < 256

  /** The byte at (cluster, offset in cluster). */
  type File = (nat, nat) -> Byte

  /** Entries are 16 bits wide in refcount blocks and 64 bits wide everywhere else. */
  datatype Width = Bits16 | Bits64

  function WidthBytes(w: Width): nat {
    if w == Bits16 then 2 else 8
  }

  /** Index of the entry that holds byte `i` of a table, and the byte's position in that entry. */
  function EntryOfByte(w: Width, i: nat): nat {
    if w == Bits16 then i / 2 else i / 8
  }

  function ByteInEntry(w: Width, i: nat): nat {
    if w == Bits16 then i % 2 else i % 8
  }

  function Pow256(w: nat): nat {
    if w == 0 then 1 else 256 * Pow256(w - 1)
  }

  /** An upper bound no entry of that width reaches. */
  function EntryBound(w: Width): nat {
    if w == Bits16 then 0x1_0000 else 0x1_0000_0000_0000_0000
  }

  /** The big-endian word of `w` bytes at (c, o). */
  function Word(f: File, c: nat, o: nat, w: nat): nat {
    if w == 0 then 0 else Word(f, c, o, w - 1) * 256 + f(c, o + w - 1)
  }

  /** Byte `j` of the big-endian form of `v` in `w` bytes. */
  function Digit(v: nat, w: nat, j: nat): Byte {
    if w <= j + 1 then v % 256 else Digit(v / 256, w - 1, j)
  }

  lemma {:induction false} WordOfDigits(f: File, c: nat, o: nat, w: nat, v: nat)
    requires v < Pow256(w)
    requires forall j :: o <= j < o + w ==> f(c, j) == Digit(v, w, j - o)
    ensures Word(f, c, o, w) == v
  {
    if w == 0 {
    } else {
      WordOfDigits(f, c, o, w - 1, v / 256);
    }
  }

  lemma {:induction false} WordSame(f: File, g: File, c: nat, o: nat, w: nat)
    requires forall j :: o <= j < o + w ==> f(c, j) == g(c, j)
    ensures Word(f, c, o, w) == Word(g, c, o, w)
  {
    if w == 0 {
    } else {
      WordSame(f, g, c, o, w - 1);
    }
  }

  lemma {:induction false} WordBound(f: File, c: nat, o: nat, w: nat)
    ensures Word(f, c, o, w) < Pow256(w)
  {
    if w == 0 {
    } else {
      WordBound(f, c, o, w - 1);
    }
  }

  lemma {:induction false} WordOfZeros(f: File, c: nat, o: nat, w: nat)
    requires forall j :: o <= j < o + w ==> f(c, j) == 0
    ensures Word(f, c, o, w) == 0
  {
    if w == 0 {
    } else {
      WordOfZeros(f, c, o, w - 1);
    }
  }

  /** Eight bytes as a number, the highest first. */
  ghost function BigEndian(f: File, c: nat, o: nat): nat {
    0x100_0000_0000_0000 * f(c, o) + 0x1_0000_0000_0000 * f(c, o + 1)
    + 0x100_0000_0000 * f(c, o + 2) + 0x1_0000_0000 * f(c, o + 3)
    + 0x100_0000 * f(c, o + 4) + 0x1_0000 * f(c, o + 5)
    + 0x100 * f(c, o + 6) + f(c, o + 7)
  }

  lemma EightBytes(f: File, c: nat, o: nat)
    ensures Word(f, c, o, 8) == BigEndian(f, c, o)
  {
    assert Word(f, c, o, 2) == Word(f, c, o, 1) * 256 + f(c, o + 1) && Word(f, c, o, 1) == f(c, o);
    assert Word(f, c, o, 4) == Word(f, c, o, 3) * 256 + f(c, o + 3) && Word(f, c, o, 3) == Word(f, c, o, 2) * 256 + f(c, o + 2);
    assert Word(f, c, o, 6) == Word(f, c, o, 5) * 256 + f(c, o + 5) && Word(f, c, o, 5) == Word(f, c, o, 4) * 256 + f(c, o + 4);
    assert Word(f, c, o, 8) == Word(f, c, o, 7) * 256 + f(c, o + 7) && Word(f, c, o, 7) == Word(f, c, o, 6) * 256 + f(c, o + 6);
  }

  lemma TwoBytes(f: File, c: nat, o: nat)
    ensures Word(f, c, o, 2) == 0x100 * f(c, o) + f(c, o + 1)
  {
    assert Word(f, c, o, 1) == f(c, o);
  }

  lemma EntryBoundIsPow(w: Width)
    ensures Pow256(WidthBytes(w)) == EntryBound(w)
  {
    assert Pow256(2) == 0x1_0000;
    assert Pow256(4) == 256 * (256 * Pow256(2)) == 0x1_0000_0000;
    assert Pow256(6) == 256 * (256 * Pow256(4)) == 0x1_0000_0000_0000;
    assert Pow256(8) == 256 * (256 * Pow256(6)) == 0x1_0000_0000_0000_0000;
  }

  /** A pwrite that stays inside one cluster. */
  function WriteAt(f: File, c: nat, o: nat, data: seq<Byte>): File {
    (d: nat, i: nat) => if d == c && o <= i < o + |data| then data[i - o] else f(d, i)
  }

  /** Byte `p` of the file, where clusters are `size` bytes. */
  function FileByte(f: File, size: nat, p: nat): Byte
    requires size > 0
  {
    f(Quot(p, size), Rem(p, size))
  }

  /** A pread of `n` bytes from byte `p` on. */
  function ReadAt(f: File, size: nat, p: nat, n: nat): (data: seq<Byte>)
    requires size > 0
    ensures |data| == n
  {
    seq<Byte>(n, k requires 0 <= k < n => FileByte(f, size, p + k))
  }

  /** The table of `n` entries stored from the start of cluster `c`. */
  function TableAt(f: File, c: nat, w: Width, n: nat): (t: seq<nat>)
    ensures |t| == n
  {
    seq(n, k requires 0 <= k < n => Word(f, c, k * WidthBytes(w), WidthBytes(w)))
  }

  /** Byte `i` of the stored form of `t`. */
  function TableByte(w: Width, t: seq<nat>, i: nat): Byte {
    if EntryOfByte(w, i) < |t| then Digit(t[EntryOfByte(w, i)], WidthBytes(w), ByteInEntry(w, i)) else 0
  }

  /** The file after `t` was written from the start of cluster `c`. */
  function StoreTable(f: File, c: nat, w: Width, t: seq<nat>): File {
    (d: nat, i: nat) => if d == c && EntryOfByte(w, i) < |t| then TableByte(w, t, i) else f(d, i)
  }

  predicate EntriesFit(w: Width, t: seq<nat>) {
    forall k :: 0 <= k < |t| ==> t[k] < EntryBound(w)
  }

  /** Where byte `i` of entry `k` sits. */
  lemma BytePosition(w: Width, k: nat, i: nat)
    requires k * WidthBytes(w) <= i < k * WidthBytes(w) + WidthBytes(w)
    ensures EntryOfByte(w, i) == k && ByteInEntry(w, i) == i - k * WidthBytes(w)
  {
    if w == Bits16 {
    } else {
    }
  }

  lemma StoredEntryRoundTrip(f: File, c: nat, w: Width, t: seq<nat>, k: nat)
    requires EntriesFit(w, t) && k < |t|
    ensures Word(StoreTable(f, c, w, t), c, k * WidthBytes(w), WidthBytes(w)) == t[k]
  {
    var g, b := StoreTable(f, c, w, t), WidthBytes(w);
    var o := k * b;
    EntryBoundIsPow(w);
    forall i | o <= i < o + b
      ensures g(c, i) == Digit(t[k], b, i - o)
    {
      BytePosition(w, k, i);
      assert g(c, i) == TableByte(w, t, i);
    }
    WordOfDigits(g, c, o, b, t[k]);
  }

  /** Writing a table and reading it back gives the same entries. */
  lemma TableRoundTrip(f: File, c: nat, w: Width, t: seq<nat>)
    requires EntriesFit(w, t)
    ensures TableAt(StoreTable(f, c, w, t), c, w, |t|) == t
  {
    forall k | 0 <= k < |t|
      ensures TableAt(StoreTable(f, c, w, t), c, w, |t|)[k] == t[k]
    {
      StoredEntryRoundTrip(f, c, w, t, k);
    }
  }

  /** A table depends only on the bytes of its own cluster. */
  lemma TableSame(f: File, g: File, c: nat, w: Width, n: nat)
    requires forall i: nat :: f(c, i) == g(c, i)
    ensures TableAt(f, c, w, n) == TableAt(g, c, w, n)
  {
    forall k | 0 <= k < n
      ensures TableAt(f, c, w, n)[k] == TableAt(g, c, w, n)[k]
    {
      WordSame(f, g, c, k * WidthBytes(w), WidthBytes(w));
    }
  }

  lemma TableFits(f: File, c: nat, w: Width, n: nat)
    ensures EntriesFit(w, TableAt(f, c, w, n))
  {
    EntryBoundIsPow(w);
    forall k | 0 <= k < n
      ensures TableAt(f, c, w, n)[k] < EntryBound(w)
    {
      WordBound(f, c, k * WidthBytes(w), WidthBytes(w));
    }
  }

  lemma MulAtLeast(x: nat, b: nat)
    requires x >= 1
    ensures x * b >= b
  {
    assert (x - 1) * b >= 0;
  }

  lemma MulMono(x: nat, y: nat, b: nat)
    requires x >= y
    ensures x * b >= y * b
  {
    assert (x - y) * b >= 0;
  }

  lemma DivModUnique(a: nat, b: nat, q: nat, r: nat)
    requires r < b && a == q * b + r
    ensures a / b == q && a % b == r
  {
    var p, s := a / b, a % b;
    DivModParts(a, b);
    assert (q - p) * b == s - r;
    if q > p {
      MulAtLeast(q - p, b);
    } else if p > q {
      MulAtLeast(p - q, b);
    }
  }

  lemma DivModParts(a: nat, b: nat)
    requires b > 0
    ensures a == a / b * b + a % b && a % b < b
  {
  }

  /** Quotient and remainder by repeated subtraction: `/` and `%` in a form whose proofs need no
      nonlinear arithmetic. */
  function Quot(a: nat, b: nat): nat
    requires b > 0
  {
    if a < b then 0 else Quot(a - b, b) + 1
  }

  function Rem(a: nat, b: nat): (r: nat)
    requires b > 0
    ensures r < b
  {
    if a < b then a else Rem(a - b, b)
  }

  /** `c * b` as repeated addition. */
  function Times(c: nat, b: nat): nat {
    if c == 0 then 0 else Times(c - 1, b) + b
  }

  lemma {:induction false} TimesIsMul(c: nat, b: nat)
    ensures Times(c, b) == c * b
  {
    if c > 0 {
      TimesIsMul(c - 1, b);
      assert (c - 1) * b + b == c * b;
    }
  }

  lemma {:induction false} QuotRem(a: nat, b: nat)
    requires b > 0
    ensures a == Quot(a, b) * b + Rem(a, b)
    ensures Quot(a, b) == a / b && Rem(a, b) == a % b
  {
    if a < b {
    } else {
      QuotRem(a - b, b);
      assert (Quot(a - b, b) + 1) * b == Quot(a - b, b) * b + b;
    }
    DivModUnique(a, b, Quot(a, b), Rem(a, b));
  }

  lemma QuotRemUnique(a: nat, b: nat, q: nat, r: nat)
    requires r < b && a == q * b + r
    ensures Quot(a, b) == q && Rem(a, b) == r
  {
    QuotRem(a, b);
    DivModUnique(a, b, q, r);
  }

  lemma {:induction false} QuotLess(a: nat, b: nat, k: nat)
    requires b > 0 && a < k * b
    ensures Quot(a, b) < k
  {
    if a >= b {
      assert k >= 1;
      assert (k - 1) * b == k * b - b;
      QuotLess(a - b, b, k - 1);
    }
  }

  /** The first `n` entries of a table of 64-bit entries that spans whole clusters of `per` entries
      each, from cluster `c` on: the L1 table and the refcount table. */
  function SpanAt(f: File, c: nat, per: nat, n: nat): (t: seq<nat>)
    requires per > 0
    ensures |t| == n
  {
    seq(n, k requires 0 <= k < n => Word(f, c + Quot(k, per), Rem(k, per) * 8, 8))
  }

  /** Index of the span entry that byte (d, i) belongs to. */
  function SpanEntry(c: nat, per: nat, d: nat, i: nat): int {
    (d - c) * per + i / 8
  }

  predicate InSpan(c: nat, per: nat, t: seq<nat>, d: nat, i: nat) {
    d >= c && i < per * 8 && 0 <= SpanEntry(c, per, d, i) < |t|
  }

  function StoreSpan(f: File, c: nat, per: nat, t: seq<nat>): File {
    (d: nat, i: nat) =>
      if InSpan(c, per, t, d, i) then Digit(t[SpanEntry(c, per, d, i)], 8, i % 8) else f(d, i)
  }

  /** Storing a span of `k` clusters leaves the other clusters alone. */
  lemma SpanFrame(c: nat, per: nat, t: seq<nat>, k: nat, d: nat, i: nat)
    requires |t| <= k * per && InSpan(c, per, t, d, i)
    ensures c <= d < c + k
  {
    if d >= c + k {
      MulMono(d - c, k, per);
    }
  }

  lemma SpanEntryRoundTrip(f: File, c: nat, per: nat, t: seq<nat>, k: nat)
    requires per > 0 && EntriesFit(Bits64, t) && k < |t|
    ensures Word(StoreSpan(f, c, per, t), c + Quot(k, per), Rem(k, per) * 8, 8) == t[k]
  {
    var g, d, o := StoreSpan(f, c, per, t), c + Quot(k, per), Rem(k, per) * 8;
    EntryBoundIsPow(Bits64);
    QuotRem(k, per);
    forall i | o <= i < o + 8
      ensures g(d, i) == Digit(t[k], 8, i - o)
    {
      assert i / 8 == Rem(k, per) && i % 8 == i - o;
      assert SpanEntry(c, per, d, i) == k;
      assert InSpan(c, per, t, d, i);
    }
    WordOfDigits(g, d, o, 8, t[k]);
  }

  lemma SpanRoundTrip(f: File, c: nat, per: nat, t: seq<nat>)
    requires per > 0 && EntriesFit(Bits64, t)
    ensures SpanAt(StoreSpan(f, c, per, t), c, per, |t|) == t
  {
    forall k | 0 <= k < |t|
      ensures SpanAt(StoreSpan(f, c, per, t), c, per, |t|)[k] == t[k]
    {
      SpanEntryRoundTrip(f, c, per, t, k);
    }
  }

  /** A span is unaffected by changes outside its clusters. */
  lemma SpanSame(f: File, g: File, c: nat, per: nat, n: nat, k: nat)
    requires per > 0 && n <= k * per
    requires forall d: nat, i: nat :: c <= d < c + k ==> f(d, i) == g(d, i)
    ensures SpanAt(f, c, per, n) == SpanAt(g, c, per, n)
  {
    forall j | 0 <= j < n
      ensures SpanAt(f, c, per, n)[j] == SpanAt(g, c, per, n)[j]
    {
      QuotLess(j, per, k);
      WordSame(f, g, c + Quot(j, per), Rem(j, per) * 8, 8);
    }
  }

  lemma SpanFits(f: File, c: nat, per: nat, n: nat)
    requires per > 0
    ensures EntriesFit(Bits64, SpanAt(f, c, per, n))
  {
    EntryBoundIsPow(Bits64);
    forall k | 0 <= k < n
      ensures SpanAt(f, c, per, n)[k] < EntryBound(Bits64)
    {
      WordBound(f, c + Quot(k, per), Rem(k, per) * 8, 8);
    }
  }
}
