/**
 Domain names on the wire, as dns/src/secure_resolver.rs reads them: length-prefixed
 labels, a zero byte at the end, and back pointers (section 4.1.4 of RFC 1035) of which
 the decoder follows at most ten. As in the code, any length byte below 0xC0 introduces
 a label, so labels may be up to 191 bytes long.

 `DecodeAt` is what the code computes. `Layout` is an independent description of a name
 as a finite tree of labels and pointers; `DecodeIff` says that the decoder accepts
 exactly the positions where such a tree with at most ten pointers is laid out.
 */
module DnsName {
  import opened Bytes

  const MAX_JUMPS := 10
  const POINTER_TAG := 0xC0
  const DOT: byte := 46

  type Label = seq<byte>

  /** The labels of a name, and where reading goes on after its first stretch. */
  datatype Decoded = Decoded(labels: seq<Label>, next: nat)

  // ---- What the decoder computes ----

  function PointerTarget(hi: byte, lo: byte): nat
    requires hi >= POINTER_TAG
  {
    (hi - POINTER_TAG) * 256 + lo
  }

  function DecodeAt(buf: seq<byte>, pos: nat, jumps: nat): (r: Option<Decoded>)
    requires jumps <= MAX_JUMPS
    ensures r.Some? ==> pos < r.value.next <= |buf|
    decreases MAX_JUMPS - jumps, |buf| - pos
  {
    if pos >= |buf| then None
    else
      var len := buf[pos];
      if len == 0 then Some(Decoded([], pos + 1))
      else if len >= POINTER_TAG then
        if pos + 1 >= |buf| then None
        else
          var target := PointerTarget(len, buf[pos + 1]);
          if jumps + 1 > MAX_JUMPS || target >= |buf| then None
          else
            (match DecodeAt(buf, target, jumps + 1)
             case None => None
             case Some(d) => Some(Decoded(d.labels, pos + 2)))
      else if pos + 1 + len > |buf| then None
      else
        match DecodeAt(buf, pos + 1 + len, jumps)
        case None => None
        case Some(d) => Some(Decoded([buf[pos + 1..pos + 1 + len]] + d.labels, d.next))
  }

  // ---- Names as trees ----

  /** `Pointer(offset, rest)`: the name goes on with `rest`, which is laid out at `offset`. */
  datatype Layout =
    | End
    | Cons(text: Label, rest: Layout)
    | Pointer(offset: nat, rest: Layout)

  function Labels(l: Layout): seq<Label> {
    match l
    case End => []
    case Cons(t, rest) => [t] + Labels(rest)
    case Pointer(_, rest) => Labels(rest)
  }

  function Hops(l: Layout): nat {
    match l
    case End => 0
    case Cons(_, rest) => Hops(rest)
    case Pointer(_, rest) => 1 + Hops(rest)
  }

  /** Bytes the name takes at its own place, up to and including the first pointer. */
  function Width(l: Layout): nat {
    match l
    case End => 1
    case Cons(t, rest) => 1 + |t| + Width(rest)
    case Pointer(_, _) => 2
  }

  predicate IsLabel(t: Label) {
    0 < |t| < POINTER_TAG
  }

  /** The bytes at `pos` spell `l`, and so do those at every pointer target. */
  predicate Laid(buf: seq<byte>, pos: nat, l: Layout)
    decreases l
  {
    match l
    case End => pos < |buf| && buf[pos] == 0
    case Cons(t, rest) =>
      && IsLabel(t) && pos + 1 + |t| <= |buf|
      && buf[pos] == |t| && buf[pos + 1..pos + 1 + |t|] == t
      && Laid(buf, pos + 1 + |t|, rest)
    case Pointer(offset, rest) =>
      && pos + 1 < |buf| && buf[pos] >= POINTER_TAG
      && offset == PointerTarget(buf[pos], buf[pos + 1]) < |buf|
      && Laid(buf, offset, rest)
  }

  /** One position carries at most one tree. */
  lemma {:induction false} LayoutUnique(buf: seq<byte>, pos: nat, l: Layout, m: Layout)
    requires Laid(buf, pos, l) && Laid(buf, pos, m)
    ensures l == m
    decreases l
  {
    match l {
      case End =>
      case Cons(t, rest) => LayoutUnique(buf, pos + 1 + |t|, rest, m.rest);
      case Pointer(offset, rest) => LayoutUnique(buf, offset, rest, m.rest);
    }
  }

  lemma {:induction false} DecodeComplete(buf: seq<byte>, pos: nat, l: Layout, jumps: nat)
    requires Laid(buf, pos, l) && jumps + Hops(l) <= MAX_JUMPS
    ensures DecodeAt(buf, pos, jumps) == Some(Decoded(Labels(l), pos + Width(l)))
    decreases l
  {
    match l {
      case End =>
      case Cons(t, rest) => DecodeComplete(buf, pos + 1 + |t|, rest, jumps);
      case Pointer(offset, rest) => DecodeComplete(buf, offset, rest, jumps + 1);
    }
  }

  lemma {:induction false} DecodeSound(buf: seq<byte>, pos: nat, jumps: nat) returns (l: Layout)
    requires jumps <= MAX_JUMPS && DecodeAt(buf, pos, jumps).Some?
    ensures Laid(buf, pos, l) && jumps + Hops(l) <= MAX_JUMPS
    ensures DecodeAt(buf, pos, jumps) == Some(Decoded(Labels(l), pos + Width(l)))
    decreases MAX_JUMPS - jumps, |buf| - pos
  {
    var len := buf[pos];
    if len == 0 {
      l := End;
    } else if len >= POINTER_TAG {
      var target := PointerTarget(len, buf[pos + 1]);
      var rest := DecodeSound(buf, target, jumps + 1);
      l := Pointer(target, rest);
    } else {
      var rest := DecodeSound(buf, pos + 1 + len, jumps);
      l := Cons(buf[pos + 1..pos + 1 + len], rest);
    }
  }

  /** `d` is what a tree of at most ten pointers at `pos` says. */
  ghost predicate Spells(buf: seq<byte>, pos: nat, d: Decoded) {
    exists l ::
      Laid(buf, pos, l) && Hops(l) <= 10 && d == Decoded(Labels(l), pos + Width(l))
  }

  /** The decoder accepts exactly the well-formed names, and reads each for what it is. */
  lemma DecodeIff(buf: seq<byte>, pos: nat, d: Decoded)
    ensures DecodeAt(buf, pos, 0) == Some(d) <==> Spells(buf, pos, d)
  {
    if DecodeAt(buf, pos, 0) == Some(d) {
      var l := DecodeSound(buf, pos, 0);
    }
    if Spells(buf, pos, d) {
      var l :| Laid(buf, pos, l) && Hops(l) <= MAX_JUMPS && d == Decoded(Labels(l), pos + Width(l));
      DecodeComplete(buf, pos, l, 0);
    }
  }

  // ---- Cycles ----

  /** Where the decoder looks for a length byte next, if the name goes on. */
  function Successor(buf: seq<byte>, pos: nat): Option<nat> {
    if pos >= |buf| || buf[pos] == 0 then None
    else if buf[pos] < POINTER_TAG then Some(pos + 1 + buf[pos])
    else if pos + 1 < |buf| then Some(PointerTarget(buf[pos], buf[pos + 1]))
    else None
  }

  predicate IsTrail(buf: seq<byte>, trail: seq<nat>) {
    forall i | 0 <= i < |trail| - 1 :: Successor(buf, trail[i]) == Some(trail[i + 1])
  }

  /** Number of length bytes read along a tree. */
  function Depth(l: Layout): nat {
    if l.End? then 1 else 1 + Depth(l.rest)
  }

  /** Along a trail that starts at `l`, what is left of `l` is laid out at every stop. */
  lemma {:induction false} TreeAlongTrail(buf: seq<byte>, trail: seq<nat>, l: Layout, i: nat) returns (m: Layout)
    requires i < |trail| && IsTrail(buf, trail) && Laid(buf, trail[0], l)
    ensures Laid(buf, trail[i], m) && Depth(m) + i == Depth(l)
  {
    if i == 0 {
      m := l;
    } else {
      var k := TreeAlongTrail(buf, trail, l, i - 1);
      assert Successor(buf, trail[i - 1]) == Some(trail[i]);
      m := k.rest;
    }
  }

  /** A name whose bytes lead back to a position already read is never accepted. */
  lemma CycleIsRejected(buf: seq<byte>, trail: seq<nat>, i: nat, j: nat)
    requires IsTrail(buf, trail) && i < j < |trail| && trail[i] == trail[j]
    ensures DecodeAt(buf, trail[0], 0) == None
  {
    if DecodeAt(buf, trail[0], 0).Some? {
      var l := DecodeSound(buf, trail[0], 0);
      var a := TreeAlongTrail(buf, trail, l, i);
      var b := TreeAlongTrail(buf, trail, l, j);
      LayoutUnique(buf, trail[i], a, b);
    }
  }

  // ---- Writing names ----

  /** The bytes of `l` at its own place; what a pointer leads to is not among them. */
  function Written(l: Layout): seq<byte>
    requires IsWritable(l)
    ensures |Written(l)| == Width(l)
  {
    match l
    case End => [0]
    case Cons(t, rest) => [|t|] + t + Written(rest)
    case Pointer(offset, _) => [POINTER_TAG + offset / 256, offset % 256]
  }

  predicate IsWritable(l: Layout) {
    match l
    case End => true
    case Cons(t, rest) => IsLabel(t) && IsWritable(rest)
    case Pointer(offset, _) => offset < 0x4000
  }

  /** The first pointer of `l`, if any, leads to the rest of `l` in `buf`. */
  predicate Resolves(buf: seq<byte>, l: Layout) {
    match l
    case End => true
    case Cons(_, rest) => Resolves(buf, rest)
    case Pointer(offset, rest) => offset < |buf| && Laid(buf, offset, rest)
  }

  /** `data` stands at `pos` in `buf`. */
  predicate At(buf: seq<byte>, pos: nat, data: seq<byte>) {
    pos + |data| <= |buf| && buf[pos..pos + |data|] == data
  }

  lemma AtSplit(buf: seq<byte>, pos: nat, a: seq<byte>, b: seq<byte>)
    requires At(buf, pos, a + b)
    ensures At(buf, pos, a) && At(buf, pos + |a|, b)
  {
    var whole := buf[pos..pos + |a + b|];
    assert whole[..|a|] == a && whole[|a|..] == b;
    assert whole[..|a|] == buf[pos..pos + |a|];
    assert whole[|a|..] == buf[pos + |a|..pos + |a| + |b|];
  }

  lemma AtByte(buf: seq<byte>, pos: nat, data: seq<byte>, i: nat)
    requires At(buf, pos, data) && i < |data|
    ensures buf[pos + i] == data[i]
  {
    assert buf[pos..pos + |data|][i] == data[i];
  }

  lemma {:induction false} WrittenIsLaid(buf: seq<byte>, pos: nat, l: Layout)
    requires IsWritable(l) && At(buf, pos, Written(l)) && Resolves(buf, l)
    ensures Laid(buf, pos, l)
    decreases l
  {
    match l {
      case End => AtByte(buf, pos, [0], 0);
      case Cons(t, rest) =>
        AtSplit(buf, pos, [|t|] + t, Written(rest));
        AtSplit(buf, pos, [|t|], t);
        AtByte(buf, pos, [|t|], 0);
        WrittenIsLaid(buf, pos + 1 + |t|, rest);
      case Pointer(offset, rest) =>
        AtByte(buf, pos, Written(l), 0);
        AtByte(buf, pos, Written(l), 1);
    }
  }

  /** A name written anywhere, with its pointer leading to the right place, is read back. */
  lemma NameRoundTrip(buf: seq<byte>, pos: nat, l: Layout)
    requires IsWritable(l) && At(buf, pos, Written(l)) && Resolves(buf, l) && Hops(l) <= MAX_JUMPS
    ensures DecodeAt(buf, pos, 0) == Some(Decoded(Labels(l), pos + |Written(l)|))
  {
    WrittenIsLaid(buf, pos, l);
    DecodeComplete(buf, pos, l, 0);
  }

  /** A name written out in full. */
  function Literal(labels: seq<Label>): (l: Layout)
    ensures Labels(l) == labels && Hops(l) == 0
  {
    if labels == [] then End else Cons(labels[0], Literal(labels[1..]))
  }

  lemma {:induction false} LiteralResolves(buf: seq<byte>, labels: seq<Label>)
    ensures Resolves(buf, Literal(labels))
    ensures (forall t | t in labels :: IsLabel(t)) ==> IsWritable(Literal(labels))
  {
    if labels != [] {
      LiteralResolves(buf, labels[1..]);
      assert labels == [labels[0]] + labels[1..];
    }
  }

  // ---- Text form ----

  function Join(labels: seq<Label>): seq<byte> {
    if labels == [] then []
    else if |labels| == 1 then labels[0]
    else labels[0] + [DOT] + Join(labels[1..])
  }

  /** `trim_end_matches('.')`. */
  function TrimDots(s: seq<byte>): (t: seq<byte>)
    ensures t <= s && (t != [] ==> t[|t| - 1] != DOT)
    ensures forall i | |t| <= i < |s| :: s[i] == DOT
  {
    if s != [] && s[|s| - 1] == DOT then TrimDots(s[..|s| - 1]) else s
  }

  // ---- The code's cursor and decoding loop ----

  /** A reading position in a byte string; a read past the end gives `None`. */
  class Cursor {
    const buf: seq<byte>
    var pos: nat

    constructor (buf: seq<byte>, pos: nat)
      ensures this.buf == buf && this.pos == pos
    {
      this.buf := buf;
      this.pos := pos;
    }

    method ReadU8() returns (r: Option<byte>)
      modifies this
      ensures r == if old(pos) < |buf| then Some(buf[old(pos)]) else None
      ensures pos == old(pos) + if r.Some? then 1 else 0
    {
      if pos >= |buf| {
        return None;
      }
      r := Some(buf[pos]);
      pos := pos + 1;
    }

    /** A missing second byte still consumes the first. */
    method ReadU16() returns (r: Option<u16>)
      modifies this
      ensures r == if old(pos) + 2 <= |buf| then Some(U16At(buf, old(pos))) else None
      ensures pos == if old(pos) + 2 <= |buf| then old(pos) + 2 else if old(pos) < |buf| then |buf| else old(pos)
    {
      var hi := ReadU8();
      if hi == None {
        return None;
      }
      var lo := ReadU8();
      if lo == None {
        return None;
      }
      r := Some(hi.value as int * 256 + lo.value);
    }

    method ReadU32() returns (r: Option<u32>)
      modifies this
      ensures r == if old(pos) + 4 <= |buf| then Some(U32At(buf, old(pos))) else None
      ensures r.Some? ==> pos == old(pos) + 4
    {
      var hi := ReadU16();
      if hi == None {
        return None;
      }
      var lo := ReadU16();
      if lo == None {
        return None;
      }
      r := Some(hi.value as int * 0x1_0000 + lo.value);
    }

    method ReadBytes(n: nat) returns (r: Option<seq<byte>>)
      modifies this
      ensures r == if old(pos) + n <= |buf| then Some(buf[old(pos)..old(pos) + n]) else None
      ensures pos == old(pos) + if r.Some? then n else 0
    {
      if pos + n > |buf| {
        return None;
      }
      r := Some(buf[pos..pos + n]);
      pos := pos + n;
    }
  }

  function U16At(buf: seq<byte>, pos: nat): u16
    requires pos + 2 <= |buf|
  {
    buf[pos] as int * 256 + buf[pos + 1]
  }

  function U32At(buf: seq<byte>, pos: nat): u32
    requires pos + 4 <= |buf|
  {
    U16At(buf, pos) as int * 0x1_0000 + U16At(buf, pos + 2)
  }

  /** What the loop has in hand, followed by what it will still find, is the whole name. */
  ghost predicate Pending(whole: Option<Decoded>, labels: seq<Label>, after: Option<nat>, here: Option<Decoded>) {
    && (here == None <==> whole == None)
    && (here.Some? ==>
          && whole.value.labels == labels + here.value.labels
          && whole.value.next == if after.Some? then after.value else here.value.next)
  }

  lemma PendingLabel(whole: Option<Decoded>, labels: seq<Label>, after: Option<nat>, t: Label, rest: Option<Decoded>)
    requires Pending(whole, labels, after, if rest.Some? then Some(Decoded([t] + rest.value.labels, rest.value.next)) else None)
    ensures Pending(whole, labels + [t], after, rest)
  {
    if rest.Some? {
      assert labels + ([t] + rest.value.labels) == (labels + [t]) + rest.value.labels;
    }
  }

  /** The decoding loop: at most ten jumps, so it ends on every input. */
  method DecodeName(buf: seq<byte>, pos: nat) returns (r: Option<Decoded>)
    ensures r == DecodeAt(buf, pos, 0)
  {
    ghost var whole := DecodeAt(buf, pos, 0);
    var cursor := new Cursor(buf, pos);
    var labels: seq<Label> := [];
    var jumps := 0;
    var posAfter: Option<nat> := None;
    while true
      invariant cursor.buf == buf && jumps <= MAX_JUMPS
      invariant Pending(whole, labels, posAfter, DecodeAt(buf, cursor.pos, jumps))
      decreases MAX_JUMPS - jumps, |buf| - cursor.pos
    {
      var len := cursor.ReadU8();
      if len == None {
        return None;
      }
      if len.value == 0 {
        assert labels + [] == labels;
        break;
      }
      if len.value >= POINTER_TAG {
        var lo := cursor.ReadU8();
        if lo == None {
          return None;
        }
        var offset := PointerTarget(len.value, lo.value);
        if posAfter == None {
          posAfter := Some(cursor.pos);
        }
        jumps := jumps + 1;
        if jumps > MAX_JUMPS || offset >= |buf| {
          return None;
        }
        cursor.pos := offset;
      } else {
        var bytes := cursor.ReadBytes(len.value);
        if bytes == None {
          return None;
        }
        PendingLabel(whole, labels, posAfter, bytes.value, DecodeAt(buf, cursor.pos, jumps));
        labels := labels + [bytes.value];
      }
    }
    r := Some(Decoded(labels, if posAfter.Some? then posAfter.value else cursor.pos));
  }
}
