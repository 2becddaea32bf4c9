/**
 The tile comparison of libkirin_gpu/src/tile_hash.cpp over the buffers of
 libkirin_gpu/src/d3d11_context.cpp, as steps on a value. Frames come as the tile hashes
 that pass 1 computes; which GPU and memory calls succeed is part of the frame.
 */
module TileContextSpec {
  import opened Bytes
  import opened TileCrc

  datatype Decision = Static | Incremental | FullFrame

  /** `Undefined`: GPU calls on buffers that were never made. */
  datatype Code = Ok | ErrInit | ErrParam | ErrDevice | Undefined

  /** Making the buffers works as a whole or stops, before or after the first one. */
  datatype Alloc = Whole | Partial(hasA: bool)

  datatype Frame = Frame(w: nat, h: nat, tiles: seq<Hash>, alloc: Alloc, binds: bool,
    countReads: bool, scratch: bool, mapReads: bool, mirrors: bool)

  /** `prev`: the buffer the next frame is compared with. */
  datatype Ctx = Ctx(w: nat, h: nat, hasA: bool, ready: bool, prev: seq<Hash>, mirrorCap: nat, mirrorLive: bool)

  datatype Output = Output(code: Code, decision: Decision, gridW: nat, gridH: nat, ratio: real, dirty: Option<seq<bool>>)

  const TILE := 64
  const ZERO := Hash(0, 0, 0, 0)

  function GridSide(n: nat): nat {
    (n + TILE - 1) / TILE
  }

  function Total(w: nat, h: nat): nat {
    GridSide(w) * GridSide(h)
  }

  predicate WellFormed(f: Frame) {
    |f.tiles| == Total(f.w, f.h)
  }

  function Zeros(n: nat): seq<Hash> {
    seq(n, _ => ZERO)
  }

  function Start(): Ctx {
    Ctx(0, 0, false, false, [], 0, false)
  }

  predicate Fits(c: Ctx) {
    c.ready ==> c.hasA && |c.prev| == Total(c.w, c.h)
  }

  /** The same size with a first buffer is taken as ready. */
  function EnsureGrid(c: Ctx, f: Frame): (Ctx, bool) {
    if f.w == 0 || f.h == 0 then (c, false)
    else if c.w == f.w && c.h == f.h && c.hasA then (c, true)
    else
      match f.alloc
      case Whole => (c.(w := f.w, h := f.h, hasA := true, ready := true, prev := Zeros(Total(f.w, f.h))), true)
      case Partial(hasA) => (c.(w := f.w, h := f.h, hasA := hasA, ready := false, prev := []), false)
  }

  // ---- The two passes ----

  function Moved(prev: seq<Hash>, tiles: seq<Hash>): (r: seq<bool>)
    requires |prev| == |tiles|
    ensures |r| == |tiles|
  {
    seq(|tiles|, i requires 0 <= i < |tiles| => Dirty(tiles[i], prev[i]))
  }

  function Ones(m: seq<bool>): (n: nat)
    ensures n <= |m|
  {
    if m == [] then 0 else Ones(m[..|m| - 1]) + if m[|m| - 1] then 1 else 0
  }

  /** Five percent as a fraction. */
  function Decide(dirty: nat, total: nat): Decision {
    if dirty == 0 then Static else if 20 * dirty < total then Incremental else FullFrame
  }

  function Ratio(dirty: nat, total: nat): real {
    if total == 0 then 0.0 else dirty as real / total as real
  }

  /** The CPU mirror is remade only when it is too small; its size counts even if that fails. */
  function EnsureMirror(c: Ctx, total: nat, works: bool): Ctx {
    if c.mirrorCap < total then c.(mirrorCap := total, mirrorLive := works) else c
  }

  function Failed(code: Code): Output {
    Output(code, Static, 0, 0, 0.0, None)
  }

  /** After the count was read back and the buffers swapped. */
  function ReadBack(c: Ctx, f: Frame, moved: seq<bool>): (Ctx, Output) {
    var total := |moved|;
    var out := Output(Ok, Decide(Ones(moved), total), GridSide(f.w), GridSide(f.h), Ratio(Ones(moved), total), None);
    if out.decision == Static then (c, out)
    else if !f.scratch then (c, out.(code := ErrInit))
    else if !f.mapReads then (c, out.(code := ErrDevice))
    else
      var d := EnsureMirror(c, total, f.mirrors);
      if d.mirrorLive then (d, out.(dirty := Some(moved))) else (d, out.(code := ErrInit))
  }

  function TileHash(c: Ctx, f: Frame): (Ctx, Output)
    requires Fits(c) && WellFormed(f)
  {
    if f.w == 0 || f.h == 0 then (c, Failed(ErrParam))
    else
      var (d, ok) := EnsureGrid(c, f);
      if !ok then (d, Failed(ErrInit))
      else if !d.ready then (d, Failed(Undefined))
      else if !f.binds then (d, Failed(ErrParam))
      else if !f.countReads then (d, Failed(ErrDevice))
      else ReadBack(d.(prev := f.tiles), f, Moved(d.prev, f.tiles))
  }

  lemma StaysFit(c: Ctx, f: Frame)
    requires Fits(c) && WellFormed(f)
    ensures Fits(TileHash(c, f).0)
  {
    hide Moved, Decide, Ratio;
  }
}
