/**
 The byte run-length codec of libkirin_gpu/src/blit_rle.cpp: pairs `[count][value]`,
 with `count` from 1 to 255 and longer runs split.

 `Encoded` and `Expand` say what the two in-place loops compute; the lemmas after
 them say what that is worth: a round trip, an exact capacity bound, and that no
 other pair string for the same data is shorter.
 */
module Rle {
  import opened Bytes

  /** Unsigned 32-bit addition. */
  function Add32(x: u32, y: u32): u32 {
    (x + y) % 0x1_0000_0000
  }

  const DECODE_ERROR: u32 := 0xFFFF_FFFF

  /** The largest decoder capacity for which the 32-bit sum `oi + count` cannot wrap. */
  const MAX_DECODE_CAP: u32 := 0x1_0000_0000 - 256

  /** Length of the run that starts `s`, cut at 255. */
  function LeadRun(s: seq<byte>): (n: byte)
    requires s != []
    ensures 1 <= n <= 255 && n <= |s|
    ensures s[..n] == Repeat(n, s[0])
    ensures n < 255 && n < |s| ==> s[n] != s[0]
  {
    RunFrom(s, 1)
  }

  /** The run of `s[0]` is known to reach `k`; how far it goes. */
  function RunFrom(s: seq<byte>, k: byte): (n: byte)
    requires 1 <= k <= |s|
    requires s[..k] == Repeat(k, s[0])
    ensures k <= n <= 255 && n <= |s|
    ensures s[..n] == Repeat(n, s[0])
    ensures n < 255 && n < |s| ==> s[n] != s[0]
    decreases 255 - k
  {
    if k < |s| && s[k] == s[0] && k < 255 then
      assert s[..k + 1] == s[..k] + [s[k]];
      RunFrom(s, k + 1)
    else k
  }

  /** The pair string the encoder writes when it has room. */
  function Encoded(s: seq<byte>): seq<byte> {
    if s == [] then [] else [LeadRun(s), s[0]] + Encoded(s[LeadRun(s)..])
  }

  /** The data a pair string stands for; a count of zero contributes nothing, nor does a last odd byte. */
  function Expand(e: seq<byte>): seq<byte> {
    if |e| < 2 then [] else Repeat(e[0], e[1]) + Expand(e[2..])
  }

  /** Number of pairs the encoder needs. */
  function Runs(s: seq<byte>): nat {
    if s == [] then 0 else 1 + Runs(s[LeadRun(s)..])
  }

  lemma ExpandPair(c: byte, v: byte, rest: seq<byte>)
    ensures Expand([c, v] + rest) == Repeat(c, v) + Expand(rest)
  {
    assert ([c, v] + rest)[2..] == rest;
  }

  // ---- What the code is worth ----

  lemma {:induction false} EncodedLength(s: seq<byte>)
    ensures |Encoded(s)| == 2 * Runs(s)
  {
    if s != [] {
      EncodedLength(s[LeadRun(s)..]);
    }
  }

  /** Decoding undoes encoding, for every input. */
  lemma {:induction false} RoundTrip(s: seq<byte>)
    ensures Expand(Encoded(s)) == s
  {
    if s != [] {
      RoundTrip(s[LeadRun(s)..]);
      RoundTripRun(s);
    }
  }

  lemma RoundTripRun(s: seq<byte>)
    requires s != [] && Expand(Encoded(s[LeadRun(s)..])) == s[LeadRun(s)..]
    ensures Expand(Encoded(s)) == s
  {
    hide Expand, LeadRun;
    var n := LeadRun(s);
    ExpandPair(n, s[0], Encoded(s[n..]));
    assert s == s[..n] + s[n..];
  }

  /** Twice the input length always suffices, so a dirty map of `total` bytes fits in `2 * total`. */
  lemma {:induction false} TwiceTheLengthSuffices(s: seq<byte>)
    ensures Runs(s) <= |s|
    ensures |Encoded(s)| <= 2 * |s|
  {
    EncodedLength(s);
    if s != [] {
      TwiceTheLengthSuffices(s[LeadRun(s)..]);
    }
  }

  /** Dropping a prefix never needs more pairs. */
  lemma {:induction false} SuffixNeedsNoMore(s: seq<byte>, k: nat)
    requires k <= |s|
    ensures Runs(s[k..]) <= Runs(s)
    decreases |s|
  {
    if s == [] || k == 0 || k == |s| {
      assert k == 0 ==> s[k..] == s;
    } else {
      var n, t := LeadRun(s), s[k..];
      if n <= k {
        assert t == s[n..][k - n..];
        SuffixNeedsNoMore(s[n..], k - n);
      } else {
        // The first run of `t` reaches at least to the end of the first run of `s`.
        assert forall i | k <= i < n :: s[..n][i] == s[0];
        var m := LeadRun(t);
        assert m >= n - k by {
          assert forall j | 0 <= j < n - k :: t[j] == s[k + j] == s[..n][k + j];
        }
        assert t[m..] == s[n..][k + m - n..];
        SuffixNeedsNoMore(s[n..], k + m - n);
      }
    }
  }

  /** Taking any part of the first run away leaves at most one run less to write. */
  lemma OneRunAtMost(s: seq<byte>, c: nat)
    requires s != [] && c <= LeadRun(s)
    ensures c <= |s| && Runs(s) <= 1 + Runs(s[c..])
  {
    assert s[c..][LeadRun(s) - c..] == s[LeadRun(s)..];
    SuffixNeedsNoMore(s[c..], LeadRun(s) - c);
  }

  /** A block of equal bytes at the front of `s` lies within its first run. */
  lemma BlockWithinRun(s: seq<byte>, c: byte, v: byte, rest: seq<byte>)
    requires c > 0 && s == Repeat(c, v) + rest
    ensures c <= LeadRun(s)
  {
    assert forall i | 0 <= i < c :: s[i] == Repeat(c, v)[i];
  }

  /** No pair string that stands for the same data is shorter than the encoder's. */
  lemma {:induction false} EncodedIsShortest(e: seq<byte>, s: seq<byte>)
    requires Expand(e) == s
    ensures |Encoded(s)| <= |e|
  {
    RunsAtMostPairs(e);
    EncodedLength(s);
  }

  lemma {:induction false} RunsAtMostPairs(e: seq<byte>)
    ensures 2 * Runs(Expand(e)) <= |e|
  {
    if |e| >= 2 {
      var c, rest := e[0], Expand(e[2..]);
      var s := Repeat(c, e[1]) + rest;
      RunsAtMostPairs(e[2..]);
      if c == 0 {
        assert s == rest;
      } else {
        BlockWithinRun(s, c, e[1], rest);
        OneRunAtMost(s, c);
        assert s[c..] == rest;
      }
    }
  }

  /** Whether the decoder's 32-bit test `oi + count > cap` means what it says. */
  predicate TestIsExact(cap: u32, oi: u32, count: byte) {
    Add32(oi, count) > cap <==> oi + count > cap
  }

  /**
   The test means what it says at every reachable offset and for every count exactly
   when the capacity is at most `MAX_DECODE_CAP`.
   */
  lemma CapacityTestIsExact(cap: u32)
    ensures (forall oi: u32, count: byte | oi <= cap :: TestIsExact(cap, oi, count)) <==> cap <= MAX_DECODE_CAP
  {
    if cap > MAX_DECODE_CAP {
      assert !TestIsExact(cap, cap, 255);
    }
  }

  /** The 32-bit sum `oi + count` does not wrap at any pair the decoder gets to. */
  ghost predicate SumFits(e: seq<byte>, cap: nat) {
    SumFitsUpTo(e, cap, |e|)
  }

  ghost predicate SumFitsUpTo(e: seq<byte>, cap: nat, n: nat) {
    forall i | 0 <= i < n && i + 1 < |e| && i % 2 == 0 && |Expand(e[..i])| <= cap :: |Expand(e[..i])| + e[i] < 0x1_0000_0000
  }

  /** Behind the first pair that does not fit no other is reached. */
  lemma FitsWhenFull(e: seq<byte>, cap: nat, i: nat)
    requires i % 2 == 0 && i + 1 < |e| && SumFitsUpTo(e, cap, i)
    requires cap < |Expand(e[..i])| + e[i] < 0x1_0000_0000
    ensures SumFits(e, cap)
  {
    forall j | i < j && j + 1 < |e| && j % 2 == 0 ensures |Expand(e[..j])| > cap {
      ExpandPrefix(e[..j], i);
      assert e[..j][..i + 2] == e[..i + 2] && e[..j][..i] == e[..i];
    }
  }

  /** It never wraps, whatever the pairs, exactly for capacities up to `MAX_DECODE_CAP`. */
  lemma SumAlwaysFitsIff(cap: u32)
    ensures (forall e :: SumFits(e, cap)) <==> cap <= MAX_DECODE_CAP
  {
    if cap > MAX_DECODE_CAP {
      var full := Encoded(Repeat(cap, 0));
      var e := full + [255, 0];
      RoundTrip(Repeat(cap, 0));
      EncodedLength(Repeat(cap, 0));
      assert e[..|full|] == full && e[|full|] == 255;
      assert !SumFits(e, cap);
    }
  }

  // ---- The loops ----

  /** The inner loop of the encoder: how far the run that starts at `i` goes. */
  method MeasureRun(src: array<byte>, srcLen: u32, i: u32) returns (run: byte)
    requires i < srcLen <= src.Length
    ensures run == LeadRun(src[i..srcLen])
  {
    ghost var t := src[i..srcLen];
    var v := src[i];
    run := 1;
    while i + run < srcLen && src[i + run] == v && run < 255
      invariant 1 <= run && i + run <= srcLen
      invariant t[..run] == Repeat(run, t[0])
      invariant LeadRun(t) == RunFrom(t, run)
      decreases 255 - run
    {
      assert t[run] == src[i + run];
      assert t[..run + 1] == t[..run] + [t[run]];
      run := run + 1;
    }
  }

  /** What a call leaves behind: the returned length and the destination buffer. */
  ghost predicate Wrote(code: seq<byte>, cap: u32, was: seq<byte>, now: seq<byte>, n: u32)
    requires cap <= |was|
  {
    if |code| <= cap
    then n == |code| && now == code + was[n..]
    else var kept := cap - cap % 2; n == 0 && now == code[..kept] + was[kept..]
  }

  /**
   Writes the pairs into `dst[..dstCap]`; 0 means that they do not fit (or that there is
   nothing to write, or a null buffer). Whole pairs written before a failure stay there;
   nothing past them is touched.
   */
  method Encode(src: array?<byte>, srcLen: u32, dst: array?<byte>, dstCap: u32) returns (n: u32)
    requires src != null ==> srcLen <= src.Length
    requires dst != null ==> dstCap <= dst.Length
    requires src != null && dst != null ==> src != dst
    modifies dst
    ensures src == null || dst == null ==> n == 0 && (dst != null ==> dst[..] == old(dst[..]))
    ensures src != null && dst != null ==>
              Wrote(Encoded(src[..srcLen]), dstCap, old(dst[..]), dst[..], n)
  {
    if src == null || dst == null {
      return 0;
    }
    n := EncodePairs(src, srcLen, dst, dstCap);
  }

  /** After the first `i` bytes of `s` have been written as `oi` bytes of code. */
  ghost predicate Progress(was: seq<byte>, now: seq<byte>, s: seq<byte>, oi: nat, i: nat) {
    && oi <= |now| == |was| && i <= |s|
    && now[..oi] + Encoded(s[i..]) == Encoded(s)
    && now[oi..] == was[oi..]
  }

  lemma ProgressStart(was: seq<byte>, s: seq<byte>)
    ensures Progress(was, was, s, 0, 0) && Even(0)
  {
    assert s[0..] == s;
  }

  lemma ProgressMore(was: seq<byte>, now: seq<byte>, s: seq<byte>, oi: nat, i: nat, run: byte, after: seq<byte>)
    requires Progress(was, now, s, oi, i) && i < |s| && run == LeadRun(s[i..])
    requires oi + 2 <= |now| && after == now[oi := run][oi + 1 := s[i]]
    ensures i + run <= |s| && Progress(was, after, s, oi + 2, i + run)
  {
    hide LeadRun;
    var rest := Encoded(s[i + run..]);
    assert s[i..][run..] == s[i + run..];
    assert Encoded(s[i..]) == [run, s[i]] + rest;
    assert after[..oi + 2] == now[..oi] + [run, s[i]];
    assert after[oi + 2..] == now[oi..][2..];
    assert was[oi..][2..] == was[oi + 2..];
    hide Encoded;
    assert (now[..oi] + [run, s[i]]) + rest == now[..oi] + ([run, s[i]] + rest);
  }

  lemma ProgressDone(was: seq<byte>, now: seq<byte>, s: seq<byte>, oi: nat, i: nat, cap: u32)
    requires Progress(was, now, s, oi, i) && oi <= cap <= |was|
    ensures i == |s| ==> oi < 0x1_0000_0000 && Wrote(Encoded(s), cap, was, now, oi)
    ensures i < |s| && oi == cap - cap % 2 ==> Wrote(Encoded(s), cap, was, now, 0)
  {
    assert now == now[..oi] + now[oi..];
  }

  /** After the first `i` bytes of the source have been encoded into the first `oi` bytes of `dst`. */
  ghost predicate EncodedSoFar(src: array<byte>, srcLen: u32, dst: array<byte>, dstCap: u32, was: seq<byte>, oi: nat, i: nat)
    reads src, dst
  {
    && i <= srcLen <= src.Length && oi <= dstCap <= dst.Length && src != dst && Even(oi)
    && Progress(was, dst[..], src[..srcLen], oi, i)
  }

  lemma NothingEncoded(src: array<byte>, srcLen: u32, dst: array<byte>, dstCap: u32)
    requires srcLen <= src.Length && dstCap <= dst.Length && src != dst
    ensures EncodedSoFar(src, srcLen, dst, dstCap, dst[..], 0, 0)
  {
    ProgressStart(dst[..], src[..srcLen]);
  }

  lemma EncodingEnds(src: array<byte>, srcLen: u32, dst: array<byte>, dstCap: u32, was: seq<byte>, oi: nat, i: nat)
    requires EncodedSoFar(src, srcLen, dst, dstCap, was, oi, i)
    ensures dstCap <= |was|
    ensures i == srcLen ==> oi < 0x1_0000_0000 && Wrote(Encoded(src[..srcLen]), dstCap, was, dst[..], oi)
    ensures i < srcLen && oi == dstCap - dstCap % 2 ==> Wrote(Encoded(src[..srcLen]), dstCap, was, dst[..], 0)
  {
    hide Encoded;
    ProgressDone(was, dst[..], src[..srcLen], oi, i, dstCap);
  }

  /** `Encode` past its null test. */
  method EncodePairs(src: array<byte>, srcLen: u32, dst: array<byte>, dstCap: u32) returns (n: u32)
    requires srcLen <= src.Length && dstCap <= dst.Length && src != dst
    modifies dst
    ensures Wrote(Encoded(src[..srcLen]), dstCap, old(dst[..]), dst[..], n)
  {
    ghost var was := dst[..];
    NothingEncoded(src, srcLen, dst, dstCap);
    hide EncodedSoFar, Wrote, Encoded;
    var oi, i := 0, 0;
    while i < srcLen
      invariant 0 <= i <= srcLen && 0 <= oi
      invariant EncodedSoFar(src, srcLen, dst, dstCap, was, oi, i)
    {
      var run := EncodeRun(src, srcLen, dst, dstCap, oi, i, was);
      if run == 0 {
        return 0;
      }
      oi := oi + 2;
      i := i + run;
    }
    EncodingEnds(src, srcLen, dst, dstCap, was, oi, i);
    return oi;
  }

  /** One run, or 0 when there is no room for its pair. */
  method EncodeRun(src: array<byte>, srcLen: u32, dst: array<byte>, dstCap: u32, oi: nat, i: nat, ghost was: seq<byte>) returns (run: byte)
    requires EncodedSoFar(src, srcLen, dst, dstCap, was, oi, i) && i < srcLen
    modifies dst
    ensures run == 0 ==> dstCap <= |was| && srcLen <= src.Length && Wrote(Encoded(src[..srcLen]), dstCap, was, dst[..], 0)
    ensures run > 0 ==> i + run <= srcLen && EncodedSoFar(src, srcLen, dst, dstCap, was, oi + 2, i + run)
  {
    ghost var s := src[..srcLen];
    hide Progress, Wrote, Even, Add32, Encoded, LeadRun;
    run := MeasureRun(src, srcLen, i);
    assert src[i..srcLen] == s[i..];
    LeadRunIsPositive(s[i..]);
    // The offset is even and at most the capacity, so `oi + 1` cannot wrap.
    NextOffset(oi, dstCap);
    if Add32(oi, 1) >= dstCap {
      EncodingEnds(src, srcLen, dst, dstCap, was, oi, i);
      return 0;
    }
    PutPair(dst, oi, run, src[i], was, s, i);
  }

  lemma LeadRunIsPositive(s: seq<byte>)
    requires s != []
    ensures LeadRun(s) > 0
  {
  }

  /** The two stores of one pair. */
  method PutPair(dst: array<byte>, oi: nat, run: byte, v: byte, ghost was: seq<byte>, ghost s: seq<byte>, ghost i: nat)
    requires oi + 2 <= dst.Length && i < |s| && run == LeadRun(s[i..]) && v == s[i]
    requires Progress(was, dst[..], s, oi, i)
    modifies dst
    ensures i + run <= |s| && Progress(was, dst[..], s, oi + 2, i + run)
  {
    hide Progress;
    ghost var now := dst[..];
    dst[oi] := run;
    dst[oi + 1] := v;
    ProgressMore(was, now, s, oi, i, run, dst[..]);
  }

  predicate Even(n: nat) {
    n % 2 == 0
  }

  lemma NextOffset(oi: u32, cap: u32)
    requires Even(oi) && oi <= cap
    ensures Add32(oi, 1) >= cap ==> oi == cap - cap % 2
    ensures Add32(oi, 1) < cap ==> oi + 2 <= cap && Even(oi + 2)
  {
  }

  lemma {:induction false} ExpandPrefix(e: seq<byte>, i: nat)
    requires i % 2 == 0 && i + 1 < |e|
    ensures Expand(e[..i + 2]) == Expand(e[..i]) + Repeat(e[i], e[i + 1])
    ensures |Expand(e[..i + 2])| <= |Expand(e)|
    decreases i
  {
    if i == 0 {
      assert e[..2][2..] == [] && e[..0] == [];
    } else {
      ExpandPrefix(e[2..], i - 2);
      assert e[..i + 2][2..] == e[2..][..i];
      assert e[..i][2..] == e[2..][..i - 2];
    }
  }

  /**
   Fills `dst` with the data the pairs stand for and returns its length, or `DECODE_ERROR`
   for a null buffer, an odd length, or data longer than the capacity. Data of exactly
   `DECODE_ERROR` bytes cannot be told from a failure. Where the running sum would wrap, the
   source goes on to write outside the buffer: `overran` says so, and what it does then is
   left open.
   */
  method Decode(src: array?<byte>, srcLen: u32, dst: array?<byte>, dstCap: u32) returns (n: u32, overran: bool)
    requires src != null ==> srcLen <= src.Length
    requires dst != null ==> dstCap <= dst.Length
    requires src != null && dst != null ==> src != dst
    modifies dst
    ensures overran <==> src != null && dst != null && srcLen % 2 == 0 && !SumFits(src[..srcLen], dstCap)
    ensures !overran ==>
              (n == DECODE_ERROR <==>
                 src == null || dst == null || srcLen % 2 == 1
                 || |Expand(src[..srcLen])| > dstCap || |Expand(src[..srcLen])| == DECODE_ERROR)
    ensures !overran && n != DECODE_ERROR ==>
              var data := Expand(src[..srcLen]);
              n == |data| && dst[..] == data + old(dst[..])[n..]
  {
    n, overran := DECODE_ERROR, false;
    if src == null || dst == null {
      return;
    }
    if srcLen % 2 == 1 {
      return;
    }
    n, overran := DecodePairs(src, srcLen, dst, dstCap);
  }

  /** After the first `i` bytes of `e` have been read and `oi` bytes of data written. */
  ghost predicate Filled(e: seq<byte>, was: seq<byte>, now: seq<byte>, cap: nat, oi: nat, i: nat) {
    && oi <= cap <= |was| == |now| && i <= |e| && i % 2 == 0
    && now[..oi] == Expand(e[..i]) && now[oi..] == was[oi..]
    && SumFitsUpTo(e, cap, i)
  }

  lemma FilledStart(e: seq<byte>, was: seq<byte>, cap: nat)
    requires cap <= |was|
    ensures Filled(e, was, was, cap, 0, 0)
  {
  }

  lemma FilledDone(e: seq<byte>, was: seq<byte>, now: seq<byte>, cap: nat, oi: nat)
    requires Filled(e, was, now, cap, oi, |e|)
    ensures SumFits(e, cap) && oi == |Expand(e)| <= cap && now == Expand(e) + was[oi..]
  {
    assert e[..|e|] == e;
    assert now == now[..oi] + now[oi..];
  }

  lemma FullHere(e: seq<byte>, was: seq<byte>, now: seq<byte>, cap: nat, oi: nat, i: nat)
    requires Filled(e, was, now, cap, oi, i) && i + 1 < |e| && cap < oi + e[i] < 0x1_0000_0000
    ensures SumFits(e, cap) && |Expand(e)| > cap
  {
    ExpandPrefix(e, i);
    FitsWhenFull(e, cap, i);
  }

  /** `Decode` past its first tests. */
  method DecodePairs(src: array<byte>, srcLen: u32, dst: array<byte>, dstCap: u32) returns (n: u32, overran: bool)
    requires srcLen <= src.Length && dstCap <= dst.Length && src != dst && srcLen % 2 == 0
    modifies dst
    ensures overran <==> !SumFits(src[..srcLen], dstCap)
    ensures !overran ==> (n == DECODE_ERROR <==> |Expand(src[..srcLen])| > dstCap || |Expand(src[..srcLen])| == DECODE_ERROR)
    ensures !overran && n != DECODE_ERROR ==>
              var data := Expand(src[..srcLen]);
              n == |data| && dst[..] == data + old(dst[..])[n..]
  {
    ghost var e, was := src[..srcLen], dst[..];
    n, overran := DECODE_ERROR, false;
    var oi: u32, i := 0, 0;
    FilledStart(e, was, dstCap);
    hide Filled, Expand, SumFits;
    while i + 1 < srcLen
      invariant i <= srcLen && i % 2 == 0 && src[..srcLen] == e
      invariant oi <= dstCap && Filled(e, was, dst[..], dstCap, oi, i) && !overran && n == DECODE_ERROR
    {
      assert src[i] == e[i] && src[i + 1] == e[i + 1];
      var next;
      next, overran := DecodePair(dst, dstCap, oi, src[i], src[i + 1], e, was, i);
      if next == None {
        return;
      }
      oi := next.value;
      i := i + 2;
    }
    FilledDone(e, was, dst[..], dstCap, oi);
    n := oi;
  }

  /** One pair: the next offset, or nothing when the data do not fit or the source leaves the buffer. */
  method DecodePair(dst: array<byte>, dstCap: u32, oi: u32, count: byte, v: byte, ghost e: seq<byte>, ghost was: seq<byte>, ghost i: nat)
    returns (next: Option<u32>, overran: bool)
    requires dstCap <= dst.Length && i + 1 < |e| && count == e[i] && v == e[i + 1] && Filled(e, was, dst[..], dstCap, oi, i)
    modifies dst
    ensures next.None? ==> if overran then !SumFits(e, dstCap) else SumFits(e, dstCap) && |Expand(e)| > dstCap
    ensures next.Some? ==> !overran && next.value <= dstCap && Filled(e, was, dst[..], dstCap, next.value, i + 2)
  {
    if Add32(oi, count) > dstCap {
      FullHere(e, was, dst[..], dstCap, oi, i);
      return None, false;
    }
    if oi + count > dstCap {
      // The test has been passed by a sum that wrapped.
      return None, true;
    }
    hide Expand, SumFits, SumFitsUpTo, Filled, Add32;
    ghost var now := dst[..];
    Fill(dst, oi, v, count);
    FilledMore(e, was, now, dst[..], dstCap, oi, i);
    return Some(oi + count), false;
  }

  lemma FilledMore(e: seq<byte>, was: seq<byte>, now: seq<byte>, after: seq<byte>, cap: nat, oi: nat, i: nat)
    requires Filled(e, was, now, cap, oi, i) && i + 1 < |e| && oi + e[i] <= cap < 0x1_0000_0000 && |after| == |now|
    requires after[..oi + e[i]] == now[..oi] + Repeat(e[i], e[i + 1])
    requires forall k | oi + e[i] <= k < |now| :: after[k] == now[k]
    ensures Filled(e, was, after, cap, oi + e[i], i + 2)
  {
    ExpandPrefix(e, i);
    hide Expand;
    var at := oi + e[i];
    forall k | at <= k < |now| ensures after[k] == was[k] {
      assert now[k] == now[oi..][k - oi] && was[k] == was[oi..][k - oi];
    }
  }

  /** `memset(dst + at, v, count)`. */
  method Fill(dst: array<byte>, at: nat, v: byte, count: byte)
    requires at + count <= dst.Length
    modifies dst
    ensures dst[..at + count] == old(dst[..at]) + Repeat(count, v)
    ensures forall k | at + count <= k < dst.Length :: dst[k] == old(dst[k])
  {
    for k := 0 to count
      invariant dst[..at + k] == old(dst[..at]) + Repeat(k, v)
      invariant forall j | at + k <= j < dst.Length :: dst[j] == old(dst[j])
    {
      ghost var filled := dst[..at + k];
      dst[at + k] := v;
      assert dst[..at + k + 1] == filled + [v];
    }
  }
}
