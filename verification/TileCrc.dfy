/**
 The per-tile hash of libkirin_gpu/src/tile_hash_hlsl.h: 64 thread samples (r, g, b)
 folded into three sums and a CRC-32 (polynomial 0xEDB88320 and final complement as in
 section 8 of RFC 1952), and the comparison of two such hashes.

 The CRC facts rest on two laws of one bit round: it is linear over exclusive or, and
 it can be undone. Everything is kept on 32-bit vectors, as the shader does.
 */
module TileCrc {

  const POLY: bv32 := 0xEDB88320
  const THREADS := 64
  const THRESH := 6

  /** One pass of the loop in `crc32_step`. */
  function Round(x: bv32): bv32 {
    if x & 1 == 0 then x >> 1 else (x >> 1) ^ POLY
  }

  /** The shader writes the choice as a mask. */
  lemma RoundByMask(x: bv32)
    ensures (x >> 1) ^ (POLY & (0 - (x & 1))) == Round(x)
  {
    assert x & 1 == 0 || x & 1 == 1;
  }

  function Rounds(x: bv32, n: nat): bv32 {
    if n == 0 then x else Round(Rounds(x, n - 1))
  }

  function Step(crc: bv32, b: bv32): bv32 {
    Rounds(crc ^ b, 8)
  }

  function Fold(crc: bv32, data: seq<bv32>): bv32 {
    if data == [] then crc else Step(Fold(crc, data[..|data| - 1]), data[|data| - 1])
  }

  /** Elementwise exclusive or. */
  function Xor(a: seq<bv32>, b: seq<bv32>): (x: seq<bv32>)
    requires |a| == |b|
    ensures |x| == |a|
  {
    seq(|a|, i requires 0 <= i < |a| => a[i] ^ b[i])
  }

  // ---- Facts about single words; the solver sees each on its own ----

  lemma LowBit(x: bv32)
    ensures x & 1 == 0 || x & 1 == 1
  {
  }

  lemma LowBitOfXor(x: bv32, y: bv32)
    ensures (x ^ y) & 1 == (x & 1) ^ (y & 1)
  {
  }

  lemma HalfOfXor(x: bv32, y: bv32)
    ensures (x ^ y) >> 1 == (x >> 1) ^ (y >> 1)
  {
  }

  /** Exclusive or is a commutative group in which every word is its own inverse. */
  lemma XorLaws(p: bv32, q: bv32, k: bv32)
    ensures (p ^ k) ^ q == (p ^ q) ^ k == p ^ (q ^ k)
    ensures (p ^ k) ^ (q ^ k) == p ^ q
    ensures (p ^ k) ^ k == p
    ensures p ^ q == q ^ p && p ^ 0 == p
  {
  }

  lemma XorIsZero(p: bv32, q: bv32)
    ensures p ^ q == 0 <==> p == q
  {
  }

  lemma TopBitTellsTheMask(x: bv32)
    ensures (x >> 1) & 0x8000_0000 == 0 && ((x >> 1) ^ POLY) & 0x8000_0000 != 0
  {
  }

  lemma HalfAndLowBit(x: bv32)
    ensures x & 1 == 0 ==> (x >> 1) << 1 == x
    ensures x & 1 != 0 ==> ((x >> 1) << 1) | 1 == x
  {
  }

  // ---- One round: linear, and undone by `UnRound` ----

  function UnRound(y: bv32): bv32 {
    if y & 0x8000_0000 != 0 then ((y ^ POLY) << 1) | 1 else y << 1
  }

  lemma RoundIsUndone(x: bv32)
    ensures UnRound(Round(x)) == x
  {
    TopBitTellsTheMask(x);
    HalfAndLowBit(x);
    XorLaws(x >> 1, 0, POLY);
  }

  lemma RoundIsLinear(x: bv32, y: bv32)
    ensures Round(x ^ y) == Round(x) ^ Round(y)
  {
    LowBit(x);
    LowBit(y);
    LowBitOfXor(x, y);
    HalfOfXor(x, y);
    XorLaws(x >> 1, y >> 1, POLY);
  }

  /** `z` is the difference of `x` and `y`. */
  predicate Differ(x: bv32, y: bv32, z: bv32) {
    x ^ y == z
  }

  lemma RoundOfXor(x: bv32, y: bv32, z: bv32)
    requires Differ(x, y, z)
    ensures Differ(Round(x), Round(y), Round(z))
  {
    RoundIsLinear(x, y);
  }

  lemma {:induction false} RoundsLinear(x: bv32, y: bv32, z: bv32, n: nat)
    requires Differ(x, y, z)
    ensures Differ(Rounds(x, n), Rounds(y, n), Rounds(z, n))
  {
    hide Round, Differ;
    if n > 0 {
      RoundsLinear(x, y, z, n - 1);
      RoundOfXor(Rounds(x, n - 1), Rounds(y, n - 1), Rounds(z, n - 1));
    }
  }

  lemma {:induction false} RoundsInjective(x: bv32, y: bv32, n: nat)
    requires x != y
    ensures Rounds(x, n) != Rounds(y, n)
  {
    if n > 0 {
      RoundsInjective(x, y, n - 1);
      RoundIsUndone(Rounds(x, n - 1));
      RoundIsUndone(Rounds(y, n - 1));
    }
  }

  lemma {:induction false} RoundsAdd(x: bv32, m: nat, n: nat)
    ensures Rounds(Rounds(x, m), n) == Rounds(x, m + n)
  {
    if n > 0 {
      RoundsAdd(x, m, n - 1);
    }
  }

  lemma {:induction false} RoundsOfZero(n: nat)
    ensures Rounds(0, n) == 0
  {
    if n > 0 {
      RoundsOfZero(n - 1);
    }
  }

  /** Rounds only shift while no one-bit reaches the low end. */
  lemma QuietNibble(x: bv32)
    requires x & 0xF == 0
    ensures Rounds(x, 4) == x >> 4
  {
    assert Rounds(x, 1) == x >> 1;
    assert Rounds(x, 2) == x >> 2;
    assert Rounds(x, 3) == x >> 3;
  }

  lemma LowByteIsTwoNibbles(x: bv32)
    requires x & 0xFF == 0
    ensures x & 0xF == 0 && (x >> 4) & 0xF == 0 && (x >> 4) >> 4 == x >> 8
  {
  }

  lemma QuietByte(x: bv32)
    requires x & 0xFF == 0
    ensures Rounds(x, 8) == x >> 8
  {
    LowByteIsTwoNibbles(x);
    QuietNibble(x);
    QuietNibble(x >> 4);
    RoundsAdd(x, 4, 4);
  }

  // ---- Whole strings ----

  ghost predicate AllDiffer(a: seq<bv32>, b: seq<bv32>, x: seq<bv32>) {
    |a| == |b| == |x| && forall i | 0 <= i < |a| :: Differ(a[i], b[i], x[i])
  }

  ghost predicate AllBytes(a: seq<bv32>) {
    forall i | 0 <= i < |a| :: a[i] < 256
  }

  lemma XorOfXors(c: bv32, d: bv32, e: bv32, x: bv32, y: bv32, z: bv32)
    requires Differ(c, d, e) && Differ(x, y, z)
    ensures Differ(c ^ x, d ^ y, e ^ z)
  {
  }

  lemma StepLinear(c: bv32, d: bv32, e: bv32, x: bv32, y: bv32, z: bv32)
    requires Differ(c, d, e) && Differ(x, y, z)
    ensures Differ(Step(c, x), Step(d, y), Step(e, z))
  {
    XorOfXors(c, d, e, x, y, z);
    RoundsLinear(c ^ x, d ^ y, e ^ z, 8);
  }

  /** The fold is linear in the start value and the data together. */
  lemma {:induction false} FoldLinear(c: bv32, d: bv32, e: bv32, a: seq<bv32>, b: seq<bv32>, x: seq<bv32>)
    requires Differ(c, d, e) && AllDiffer(a, b, x)
    ensures Differ(Fold(c, a), Fold(d, b), Fold(e, x))
  {
    hide Differ, Step;
    if a != [] {
      var n := |a| - 1;
      FoldLinear(c, d, e, a[..n], b[..n], x[..n]);
      var p, q, r := Fold(c, a[..n]), Fold(d, b[..n]), Fold(e, x[..n]);
      StepLinear(p, q, r, a[n], b[n], x[n]);
    }
  }

  lemma {:induction false} FoldConcat(c: bv32, a: seq<bv32>, b: seq<bv32>)
    ensures Fold(c, a + b) == Fold(Fold(c, a), b)
  {
    if b == [] {
      assert a + b == a;
    } else {
      var n := |b| - 1;
      FoldConcat(c, a, b[..n]);
      assert (a + b)[..|a| + n] == a + b[..n];
    }
  }

  ghost predicate AllZero(a: seq<bv32>) {
    forall i | 0 <= i < |a| :: a[i] == 0
  }

  /** Zero bytes keep a zero register zero and a non-zero register non-zero. */
  lemma {:induction false} FoldZeros(c: bv32, zs: seq<bv32>)
    requires AllZero(zs)
    ensures Fold(c, zs) == 0 <==> c == 0
  {
    if zs != [] {
      var d := Fold(c, zs[..|zs| - 1]);
      FoldZeros(c, zs[..|zs| - 1]);
      XorLaws(d, 0, 0);
      RoundsOfZero(8);
      if d != 0 {
        RoundsInjective(d, 0, 8);
      }
    }
  }

  /** Three bytes of head room: the words of `PushByte`. */
  lemma ByteShifts(b: bv32)
    requires b < 256
    ensures (b << 8) & 0xFF == 0 && (b << 8) >> 8 == b
    ensures (b << 16) & 0xFF == 0 && (b << 16) >> 8 == b << 8
    ensures (b << 24) & 0xFF == 0 && (b << 24) >> 8 == b << 16
  {
  }

  /** Folding in a byte after `n` rounds is adding it, shifted to its place, before them. */
  lemma PushByte(p: bv32, b: bv32, moved: bv32, n: nat)
    requires Rounds(moved, n) == b
    ensures Step(Rounds(p, n), b) == Rounds(p ^ moved, n + 8)
  {
    RoundsLinear(p, moved, p ^ moved, n);
    RoundsAdd(p ^ moved, n, 8);
  }

  lemma FoldSnoc(d: seq<bv32>, k: nat)
    requires k < |d|
    ensures Fold(0, d[..k + 1]) == Step(Fold(0, d[..k]), d[k])
  {
    assert d[..k + 1][..k] == d[..k];
  }

  /** A byte moved to where `n` rounds bring it down again. */
  function Placed(b: bv32, n: nat): bv32 {
    if n == 8 then b << 8 else if n == 16 then b << 16 else b << 24
  }

  function With(word: bv32, placed: bv32): bv32 {
    word ^ placed
  }

  /** The word that `d` spells, first byte lowest. */
  function Word(d: seq<bv32>): bv32
    requires |d| == 4
  {
    With(With(With(d[0], Placed(d[1], 8)), Placed(d[2], 16)), Placed(d[3], 24))
  }

  lemma PlacedComesDown(b: bv32)
    requires b < 256
    ensures Rounds(Placed(b, 8), 8) == b && Rounds(Placed(b, 16), 16) == b && Rounds(Placed(b, 24), 24) == b
  {
    hide Rounds;
    ByteShifts(b);
    QuietByte(b << 8);
    QuietByte(b << 16);
    QuietByte(b << 24);
    RoundsAdd(b << 16, 8, 8);
    RoundsAdd(b << 24, 8, 8);
    RoundsAdd(b << 24, 16, 8);
  }

  lemma PushNext(d: seq<bv32>, k: nat, p: bv32, n: nat)
    requires k < |d| && Fold(0, d[..k]) == Rounds(p, n)
    requires Rounds(Placed(d[k], n), n) == d[k]
    ensures Fold(0, d[..k + 1]) == Rounds(With(p, Placed(d[k], n)), n + 8)
  {
    hide Rounds, Placed;
    FoldSnoc(d, k);
    PushByte(p, d[k], Placed(d[k], n), n);
  }

  /** Four bytes folded from zero are one 32-bit word shifted out. */
  lemma FoldFour(d: seq<bv32>)
    requires |d| == 4 && AllBytes(d)
    ensures Fold(0, d) == Rounds(Word(d), 32)
  {
    hide Rounds, Placed, With;
    PlacedComesDown(d[1]);
    PlacedComesDown(d[2]);
    PlacedComesDown(d[3]);
    FoldFirst(d);
    PushNext(d, 1, d[0], 8);
    PushNext(d, 2, With(d[0], Placed(d[1], 8)), 16);
    PushNext(d, 3, With(With(d[0], Placed(d[1], 8)), Placed(d[2], 16)), 24);
    assert d == d[..4];
  }

  lemma FoldFirst(d: seq<bv32>)
    requires d != []
    ensures Fold(0, d[..1]) == Rounds(d[0], 8)
  {
    hide Rounds;
    FoldSnoc(d, 0);
    XorLaws(d[0], 0, 0);
  }

  lemma WordOfBytesIsZero(a: bv32, b: bv32, c: bv32, d: bv32)
    requires a < 256 && b < 256 && c < 256 && d < 256
    ensures ((a ^ (b << 8)) ^ (c << 16)) ^ (d << 24) == 0 ==> a == 0 && b == 0 && c == 0 && d == 0
  {
  }

  lemma FourBytesShow(d: seq<bv32>)
    requires |d| == 4 && AllBytes(d) && !AllZero(d)
    ensures Fold(0, d) != 0
  {
    FoldFour(d);
    var w := Word(d);
    WordOfBytesIsZero(d[0], d[1], d[2], d[3]);
    RoundsOfZero(32);
    RoundsInjective(w, 0, 32);
  }

  lemma XorOfBytes(x: bv32, y: bv32)
    requires x < 256 && y < 256
    ensures x ^ y < 256
  {
  }

  lemma XorIsDifference(a: seq<bv32>, b: seq<bv32>)
    requires |a| == |b|
    ensures AllDiffer(a, b, Xor(a, b))
    ensures AllBytes(a) && AllBytes(b) ==> AllBytes(Xor(a, b))
  {
    if AllBytes(a) && AllBytes(b) {
      forall i | 0 <= i < |a| ensures Xor(a, b)[i] < 256 {
        XorOfBytes(a[i], b[i]);
      }
    }
  }

  /** From the same start, two strings collide exactly when their difference folds zero to zero. */
  lemma CollisionIff(c: bv32, a: seq<bv32>, b: seq<bv32>)
    requires |a| == |b|
    ensures Fold(c, a) == Fold(c, b) <==> Fold(0, Xor(a, b)) == 0
  {
    XorIsDifference(a, b);
    XorIsZero(c, c);
    FoldLinear(c, c, 0, a, b, Xor(a, b));
    XorIsZero(Fold(c, a), Fold(c, b));
  }

  /** A change confined to four consecutive bytes always changes the fold. */
  lemma BurstShows(c: bv32, a: seq<bv32>, b: seq<bv32>, i: nat)
    requires |a| == |b| && i + 4 <= |a| && AllBytes(a) && AllBytes(b)
    requires a != b && forall j | 0 <= j < |a| && a[j] != b[j] :: i <= j < i + 4
    ensures Fold(c, a) != Fold(c, b)
  {
    CollisionIff(c, a, b);
    XorIsDifference(a, b);
    var x := Xor(a, b);
    forall j | 0 <= j < |x| ensures x[j] == 0 <==> a[j] == b[j] {
      XorIsZero(a[j], b[j]);
    }
    var j :| 0 <= j < |a| && a[j] != b[j];
    assert x[i..i + 4][j - i] == x[j];
    ThreePartsShow(x, i);
  }

  lemma ThreePartsShow(x: seq<bv32>, i: nat)
    requires i + 4 <= |x| && AllBytes(x)
    requires AllZero(x[..i]) && !AllZero(x[i..i + 4]) && AllZero(x[i + 4..])
    ensures Fold(0, x) != 0
  {
    var pre, mid, post := x[..i], x[i..i + 4], x[i + 4..];
    assert x == (pre + mid) + post;
    FoldConcat(0, pre + mid, post);
    FoldConcat(0, pre, mid);
    FoldZeros(0, pre);
    FourBytesShow(mid);
    FoldZeros(Fold(0, mid), post);
  }

  // ---- Tiles ----

  /** The averaged colour one shader thread contributes. */
  datatype Sample = Sample(r: bv32, g: bv32, b: bv32)

  /** What pass 1 stores for a tile. */
  datatype Hash = Hash(r: nat, g: nat, b: nat, crc: bv32)

  ghost predicate IsColour(s: Sample) {
    s.r < 256 && s.g < 256 && s.b < 256
  }

  ghost predicate AllColours(s: seq<Sample>) {
    forall k | 0 <= k < |s| :: IsColour(s[k])
  }

  /** The bytes in the order in which the CRC sees them. */
  function Flat(s: seq<Sample>): (f: seq<bv32>)
    ensures |f| == 3 * |s|
  {
    if s == [] then []
    else var k := |s| - 1; Flat(s[..k]) + [s[k].r, s[k].g, s[k].b]
  }

  datatype Totals = Totals(r: nat, g: nat, b: nat)

  /** Componentwise sums; see `SumsFit` for why 32 bits are enough. */
  function Sums(s: seq<Sample>): Totals {
    if s == [] then Totals(0, 0, 0)
    else
      var k := |s| - 1;
      var t := Sums(s[..k]);
      Totals(t.r + s[k].r as nat, t.g + s[k].g as nat, t.b + s[k].b as nat)
  }

  /** The sums of one tile are far below the 32-bit limit. */
  lemma {:induction false} SumsFit(s: seq<Sample>)
    requires AllColours(s)
    ensures Sums(s).r <= 255 * |s| && Sums(s).g <= 255 * |s| && Sums(s).b <= 255 * |s|
  {
    if s != [] {
      var k := |s| - 1;
      SumsFit(s[..k]);
      assert IsColour(s[k]);
    }
  }

  function HashOf(s: seq<Sample>): Hash {
    var sums := Sums(s);
    Hash(sums.r, sums.g, sums.b, Complement(Fold(0xFFFF_FFFF, Flat(s))))
  }

  /** `~x`, see `ComplementByMask`. */
  function Complement(x: bv32): bv32 {
    x ^ 0xFFFF_FFFF
  }

  function Gap(x: nat, y: nat): nat {
    if x > y then x - y else y - x
  }

  predicate Far(x: nat, y: nat) {
    Gap(x, y) > THRESH
  }

  predicate Unlike(x: bv32, y: bv32) {
    x ^ y != 0
  }

  /** The test `DiffCS` applies to the two hashes of one tile. */
  predicate Dirty(a: Hash, b: Hash) {
    Far(a.r, b.r) || Far(a.g, b.g) || Far(a.b, b.b) || Unlike(a.crc, b.crc)
  }

  lemma {:induction false} FlatAt(s: seq<Sample>, k: nat)
    requires k < |s|
    ensures Flat(s)[3 * k] == s[k].r && Flat(s)[3 * k + 1] == s[k].g && Flat(s)[3 * k + 2] == s[k].b
  {
    if k < |s| - 1 {
      FlatAt(s[..|s| - 1], k);
    }
  }

  lemma {:induction false} FlatIsBytes(s: seq<Sample>)
    requires AllColours(s)
    ensures AllBytes(Flat(s))
  {
    if s != [] {
      var k := |s| - 1;
      assert IsColour(s[k]);
      FlatIsBytes(s[..k]);
    }
  }

  /** The flattened strings differ only inside the three bytes of thread `k`. */
  lemma FlatDiffersAt(s: seq<Sample>, t: seq<Sample>, k: nat)
    requires |s| == |t| && k < |s| && s[k] != t[k]
    requires forall j | 0 <= j < |s| && j != k :: s[j] == t[j]
    ensures Flat(s) != Flat(t)
    ensures forall i | 0 <= i < |Flat(s)| && Flat(s)[i] != Flat(t)[i] :: 3 * k <= i < 3 * k + 3
  {
    FlatAt(s, k);
    FlatAt(t, k);
    forall i | 0 <= i < |Flat(s)| && Flat(s)[i] != Flat(t)[i] ensures 3 * k <= i < 3 * k + 3 {
      var j := i / 3;
      assert i == 3 * j || i == 3 * j + 1 || i == 3 * j + 2;
      FlatAt(s, j);
      FlatAt(t, j);
      assert j == k;
    }
  }

  lemma ComplementByMask(x: bv32)
    ensures !x == Complement(x)
  {
  }

  lemma ComplementsDiffer(x: bv32, y: bv32)
    ensures Unlike(Complement(x), Complement(y)) <==> x != y
  {
    if x == y {
      XorIsZero(Complement(x), Complement(x));
    } else {
      ComplementInjective(x, y);
      XorIsZero(Complement(x), Complement(y));
    }
  }

  lemma ComplementInjective(x: bv32, y: bv32)
    ensures Complement(x) == Complement(y) ==> x == y
  {
    XorLaws(x, 0, 0xFFFF_FFFF);
    XorLaws(y, 0, 0xFFFF_FFFF);
  }

  /**
   A tile in which a single thread's colour changed always gets another CRC and is
   always marked dirty, however small the change.
   */
  lemma OneThreadChangeIsDirty(s: seq<Sample>, t: seq<Sample>, k: nat)
    requires |s| == |t| == 64 && k < 64 && AllColours(s) && AllColours(t)
    requires s[k] != t[k] && forall j | 0 <= j < 64 && j != k :: s[j] == t[j]
    ensures HashOf(s).crc != HashOf(t).crc && Dirty(HashOf(s), HashOf(t))
  {
    hide Unlike, Step, HashOf;
    CrcDiffersIff(s, t);
    FlatIsBytes(s);
    FlatIsBytes(t);
    FlatDiffersAt(s, t, k);
    BurstShows(0xFFFF_FFFF, Flat(s), Flat(t), if k == 0 then 0 else 3 * k - 1);
    CollisionIff(0xFFFF_FFFF, Flat(s), Flat(t));
  }

  /** An unchanged tile is never dirty, and for a changed one only a CRC collision can hide small sums. */
  lemma DirtyIff(s: seq<Sample>, t: seq<Sample>)
    requires |s| == |t|
    ensures Dirty(HashOf(s), HashOf(t)) <==>
              || Sums(s).r > Sums(t).r + 6 || Sums(t).r > Sums(s).r + 6
              || Sums(s).g > Sums(t).g + 6 || Sums(t).g > Sums(s).g + 6
              || Sums(s).b > Sums(t).b + 6 || Sums(t).b > Sums(s).b + 6
              || Fold(0, Xor(Flat(s), Flat(t))) != 0
    ensures s == t ==> !Dirty(HashOf(s), HashOf(t))
  {
    hide Unlike;
    CrcDiffersIff(s, t);
  }

  lemma CrcDiffersIff(s: seq<Sample>, t: seq<Sample>)
    requires |s| == |t|
    ensures Unlike(HashOf(s).crc, HashOf(t).crc) <==> Fold(0, Xor(Flat(s), Flat(t))) != 0
    ensures Fold(0xFFFF_FFFF, Flat(s)) != Fold(0xFFFF_FFFF, Flat(t)) ==> HashOf(s).crc != HashOf(t).crc
    ensures s == t ==> !Unlike(HashOf(s).crc, HashOf(t).crc)
  {
    hide Unlike, Step, Complement;
    CollisionIff(0xFFFF_FFFF, Flat(s), Flat(t));
    ComplementsDiffer(Fold(0xFFFF_FFFF, Flat(s)), Fold(0xFFFF_FFFF, Flat(t)));
    ComplementInjective(Fold(0xFFFF_FFFF, Flat(s)), Fold(0xFFFF_FFFF, Flat(t)));
  }

  // ---- A known value ----

  /** Eight bit rounds, one by one. */
  function EightRounds(x: bv32): bv32 {
    Round(Round(Round(Round(Round(Round(Round(Round(x))))))))
  }

  lemma StepIsEightRounds(c: bv32, b: bv32)
    ensures Step(c, b) == EightRounds(c ^ b)
  {
    hide Round;
    var x := c ^ b;
    assert Rounds(x, 1) == Round(Rounds(x, 0)) && Rounds(x, 2) == Round(Rounds(x, 1));
    assert Rounds(x, 3) == Round(Rounds(x, 2)) && Rounds(x, 4) == Round(Rounds(x, 3));
    assert Rounds(x, 5) == Round(Rounds(x, 4)) && Rounds(x, 6) == Round(Rounds(x, 5));
    assert Rounds(x, 7) == Round(Rounds(x, 6)) && Rounds(x, 8) == Round(Rounds(x, 7));
  }

  /** The register while the nine digits from 1 are folded in. */
  lemma NineSteps()
    ensures Step(0xFFFF_FFFF, 49) == 0x7C23_1048
    ensures Step(0x7C23_1048, 50) == 0xB0AC_BB32
    ensures Step(0xB0AC_BB32, 51) == 0x77B7_9C2D
    ensures Step(0x77B7_9C2D, 52) == 0x641C_1F5C
    ensures Step(0x641C_1F5C, 53) == 0x340A_C5E3
    ensures Step(0x340A_C5E3, 54) == 0xF68D_2C9E
    ensures Step(0xF68D_2C9E, 55) == 0xAFFC_9660
    ensures Step(0xAFFC_9660, 56) == 0x651F_2550
    ensures Step(0x651F_2550, 57) == 0x340B_C6D9
  {
    hide Step, Rounds;
    StepIsEightRounds(0xFFFF_FFFF, 49);
    StepIsEightRounds(0x7C23_1048, 50);
    StepIsEightRounds(0xB0AC_BB32, 51);
    StepIsEightRounds(0x77B7_9C2D, 52);
    StepIsEightRounds(0x641C_1F5C, 53);
    StepIsEightRounds(0x340A_C5E3, 54);
    StepIsEightRounds(0xF68D_2C9E, 55);
    StepIsEightRounds(0xAFFC_9660, 56);
    StepIsEightRounds(0x651F_2550, 57);
  }

  lemma FoldMore(c: bv32, d: seq<bv32>, b: bv32)
    ensures Fold(c, d + [b]) == Step(Fold(c, d), b)
  {
    hide Step;
    assert (d + [b])[..|d|] == d;
  }

  lemma {:induction false} FoldDigits(n: nat)
    requires n <= 9
    ensures Fold(0xFFFF_FFFF, Digits(n)) == Register(n)
  {
    if n == 0 {
      assert Digits(0) == [];
    } else {
      hide Step, Register, Digit, Fold;
      FoldDigits(n - 1);
      NextRegister(n - 1);
      FoldMore(0xFFFF_FFFF, Digits(n - 1), Digit(n - 1));
      assert Digits(n) == Digits(n - 1) + [Digit(n - 1)];
    }
  }

  lemma NextRegister(n: nat)
    requires n < 9
    ensures Step(Register(n), Digit(n)) == Register(n + 1)
  {
    hide Step;
    NineSteps();
    NthDigit(n);
  }

  lemma NthDigit(n: nat)
    requires n < 9
    ensures Digit(n) == [49, 50, 51, 52, 53, 54, 55, 56, 57][n]
  {
  }

  function Digit(k: nat): bv32
    requires k < 9
  {
    49 + k as bv32
  }

  function Digits(n: nat): seq<bv32>
    requires n <= 9
  {
    seq(n, k requires 0 <= k < n => Digit(k))
  }

  function Register(n: nat): bv32
    requires n <= 9
  {
    [0xFFFF_FFFF, 0x7C23_1048, 0xB0AC_BB32, 0x77B7_9C2D, 0x641C_1F5C, 0x340A_C5E3, 0xF68D_2C9E, 0xAFFC_9660, 0x651F_2550, 0x340B_C6D9][n]
  }

  const NINE := [Sample(49, 50, 51), Sample(52, 53, 54), Sample(55, 56, 57)]

  lemma FlatSnoc(s: seq<Sample>, x: Sample)
    ensures Flat(s + [x]) == Flat(s) + [x.r, x.g, x.b]
    ensures Sums(s + [x]) == var t := Sums(s); Totals(t.r + x.r as nat, t.g + x.g as nat, t.b + x.b as nat)
  {
    assert (s + [x])[..|s|] == s;
  }

  lemma FlatOfNine()
    ensures Flat(NINE) == [49, 50, 51, 52, 53, 54, 55, 56, 57] && Sums(NINE) == Totals(156, 159, 162)
  {
    hide Flat, Sums;
    NothingYet();
    FlatSnoc([], NINE[0]);
    FlatSnoc([NINE[0]], NINE[1]);
    FlatSnoc([NINE[0], NINE[1]], NINE[2]);
    assert [] + [NINE[0]] == [NINE[0]] && [NINE[0]] + [NINE[1]] == [NINE[0], NINE[1]];
    assert [NINE[0], NINE[1]] + [NINE[2]] == NINE;
  }

  lemma NothingYet()
    ensures Flat([]) == [] && Sums([]) == Totals(0, 0, 0)
  {
  }

  lemma DigitsAre()
    ensures Digits(9) == [49, 50, 51, 52, 53, 54, 55, 56, 57]
  {
    forall n | 0 <= n < 9 ensures Digits(9)[n] == [49, 50, 51, 52, 53, 54, 55, 56, 57][n] {
      NthDigit(n);
    }
  }

  /** The check value of this CRC, for the nine digits from 1, as three samples; and their sums. */
  lemma CheckValue()
    ensures HashOf(NINE) == Hash(156, 159, 162, 0xCBF4_3926)
  {
    hide Fold, Flat, Sums, Digits;
    FlatOfNine();
    DigitsAre();
    FoldDigits(9);
  }

  // ---- The shader's loops ----

  method Crc32Step(crc: bv32, b: bv32) returns (r: bv32)
    ensures r == Step(crc, b)
  {
    r := crc ^ b;
    for i := 0 to 8
      invariant r == Rounds(crc ^ b, i)
    {
      RoundByMask(r);
      r := (r >> 1) ^ (POLY & (0 - (r & 1)));
    }
  }

  ghost function Samples(r: seq<bv32>, g: seq<bv32>, b: seq<bv32>): seq<Sample>
    requires |r| == |g| == |b|
  {
    seq(|r|, k requires 0 <= k < |r| => Sample(r[k], g[k], b[k]))
  }

  lemma FoldPush(c: bv32, f: seq<bv32>, x: bv32)
    ensures Fold(c, f + [x]) == Step(Fold(c, f), x)
  {
    assert (f + [x])[..|f|] == f;
  }

  lemma FoldThreeMore(c: bv32, f: seq<bv32>, x: bv32, y: bv32, z: bv32)
    ensures Fold(c, f + [x, y, z]) == Step(Step(Step(Fold(c, f), x), y), z)
  {
    hide Step;
    assert f + [x, y, z] == ((f + [x]) + [y]) + [z];
    FoldPush(c, f, x);
    FoldPush(c, f + [x], y);
    FoldPush(c, (f + [x]) + [y], z);
  }

  /** The four registers of the reduction after the samples `s`. */
  ghost predicate Reduced(s: seq<Sample>, r: nat, g: nat, b: nat, c: bv32) {
    Totals(r, g, b) == Sums(s) && c == Fold(0xFFFF_FFFF, Flat(s))
  }

  lemma ReduceOne(s: seq<Sample>, x: Sample, r: nat, g: nat, b: nat, c: bv32)
    requires Reduced(s, r, g, b, c)
    ensures Reduced(s + [x], r + x.r as nat, g + x.g as nat, b + x.b as nat, Step(Step(Step(c, x.r), x.g), x.b))
  {
    hide Step;
    assert (s + [x])[..|s|] == s;
    FoldThreeMore(0xFFFF_FFFF, Flat(s), x.r, x.g, x.b);
  }

  /** The reduction thread 0 of a workgroup runs over the shared arrays. */
  method ReduceTile(sr: array<bv32>, sg: array<bv32>, sb: array<bv32>) returns (h: Hash)
    requires sr.Length == sg.Length == sb.Length == 64
    ensures h == HashOf(Samples(sr[..], sg[..], sb[..]))
  {
    ghost var s := Samples(sr[..], sg[..], sb[..]);
    var sumR: nat, sumG: nat, sumB: nat := 0, 0, 0;
    var crc: bv32 := 0xFFFF_FFFF;
    for k := 0 to THREADS
      invariant Reduced(s[..k], sumR, sumG, sumB, crc)
    {
      hide Reduced, Step;
      var x := Sample(sr[k], sg[k], sb[k]);
      assert s[..k + 1] == s[..k] + [x];
      ReduceOne(s[..k], x, sumR, sumG, sumB, crc);
      sumR := sumR + x.r as nat;
      sumG := sumG + x.g as nat;
      sumB := sumB + x.b as nat;
      crc := Crc32Step(crc, x.r);
      crc := Crc32Step(crc, x.g);
      crc := Crc32Step(crc, x.b);
    }
    assert s[..THREADS] == s;
    ComplementByMask(crc);
    h := Hash(sumR, sumG, sumB, !crc);
  }
}
