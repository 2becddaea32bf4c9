/**
 The GPU context of libkirin_gpu/src/d3d11_context.cpp with its two hash buffers, the views
 onto them, and `kgpu_tile_hash`. A view is a second reference to its buffer.
 */
module TileContext {
  import opened Bytes
  import opened TileCrc
  import opened TileContextSpec

  class Context {
    var width: nat
    var height: nat
    var gridW: nat
    var gridH: nat
    var total: nat
    var hashBufA: array?<Hash>
    var hashBufB: array?<Hash>
    var hashSrvA: array?<Hash>
    var hashSrvB: array?<Hash>
    var hashUavA: array?<Hash>
    var dirtyMap: array?<bool>
    var dirtyCount: nat
    var lastDirty: array?<bool>
    var lastDirtyCap: nat
    /** Every buffer and view was made. */
    var complete: bool

    /** Each view is on its own buffer, and the two buffers are two. */
    ghost predicate Valid()
      reads this
    {
      && (complete ==>
            && hashBufA != null && hashBufB != null && hashBufA != hashBufB && dirtyMap != null
            && hashSrvA == hashBufA && hashUavA == hashBufA && hashSrvB == hashBufB
            && hashBufA.Length == hashBufB.Length == dirtyMap.Length == total
            && gridW == GridSide(width) && gridH == GridSide(height) && total == Total(width, height))
      && (lastDirty != null ==> lastDirty.Length == lastDirtyCap && lastDirty != dirtyMap)
    }

    ghost function Value(): Ctx
      reads this, hashBufB
      requires Valid()
    {
      Ctx(width, height, hashBufA != null, complete, if complete then hashBufB[..] else [], lastDirtyCap, lastDirty != null)
    }

    constructor ()
      ensures Valid() && Value() == Start()
    {
      width, height, gridW, gridH, total := 0, 0, 0, 0, 0;
      hashBufA, hashBufB, hashSrvA, hashSrvB, hashUavA, dirtyMap := null, null, null, null, null, null;
      dirtyCount, lastDirty, lastDirtyCap, complete := 0, null, 0, false;
    }

    method EnsureGridFor(f: Frame) returns (ok: bool)
      requires Valid()
      modifies this
      ensures Valid() && (Value(), ok) == EnsureGrid(old(Value()), f)
      ensures ok ==> (width, height) == (f.w, f.h)
      ensures complete ==> (hashBufA == old(hashBufA) && hashBufB == old(hashBufB)) || (fresh(hashBufA) && fresh(hashBufB))
      ensures complete ==> dirtyMap == old(dirtyMap) || fresh(dirtyMap)
      ensures lastDirty == old(lastDirty)
    {
      if f.w == 0 || f.h == 0 {
        return false;
      }
      if width == f.w && height == f.h && hashBufA != null {
        return true;
      }
      width, height := f.w, f.h;
      gridW := (f.w + TILE - 1) / TILE;
      gridH := (f.h + TILE - 1) / TILE;
      ok := AllocGridBuffers(f.alloc);
    }

    method AllocGridBuffers(alloc: Alloc) returns (ok: bool)
      requires gridW == GridSide(width) && gridH == GridSide(height)
      requires lastDirty != null ==> lastDirty.Length == lastDirtyCap
      modifies `total, `hashBufA, `hashBufB, `hashSrvA, `hashSrvB, `hashUavA, `dirtyMap, `complete
      ensures Valid() && ok == alloc.Whole? == complete
      ensures (hashBufA != null) == (ok || alloc.hasA)
      ensures complete ==> hashBufB[..] == Zeros(total) && fresh(hashBufA) && fresh(hashBufB) && fresh(dirtyMap)
    {
      hide GridSide, Zeros;
      hashBufA, hashBufB, hashSrvA, hashSrvB, hashUavA, dirtyMap := null, null, null, null, null, null;
      complete := false;
      total := gridW * gridH;
      ok := alloc.Whole?;
      if ok {
        MakeBuffers();
        complete := true;
      } else if alloc.hasA {
        hashBufA := NewZeros(total);
      }
    }

    method MakeBuffers()
      modifies `hashBufA, `hashBufB, `hashSrvA, `hashSrvB, `hashUavA, `dirtyMap
      ensures fresh(hashBufA) && fresh(hashBufB) && fresh(dirtyMap) && hashBufA != hashBufB
      ensures hashBufA.Length == hashBufB.Length == dirtyMap.Length == total && hashBufB[..] == Zeros(total)
      ensures hashSrvA == hashBufA && hashUavA == hashBufA && hashSrvB == hashBufB
    {
      hide Zeros;
      var d := new bool[total];
      var a := NewZeros(total);
      var b := NewZeros(total);
      hashBufA, hashBufB, dirtyMap := a, b, d;
      hashSrvA, hashSrvB, hashUavA := a, b, a;
    }

    method NewZeros(n: nat) returns (b: array<Hash>)
      ensures fresh(b) && b.Length == n && b[..] == Zeros(n)
    {
      b := new Hash[n](_ => ZERO);
      assert b[..] == Zeros(n);
    }

    /** Pass 1, through the view. */
    method HashPass(tiles: seq<Hash>)
      requires Valid() && complete && |tiles| == total
      modifies hashUavA
      ensures hashBufA[..] == tiles
    {
      for i := 0 to total
        invariant hashUavA[..i] == tiles[..i]
      {
        hashUavA[i] := tiles[i];
      }
    }

    /** Pass 2: compares through the two read views, and counts. */
    method DiffPass()
      requires Valid() && complete && dirtyCount == 0
      modifies `dirtyCount, dirtyMap
      ensures dirtyMap[..] == Moved(hashBufB[..], hashBufA[..]) && dirtyCount == Ones(dirtyMap[..])
    {
      for i := 0 to total
        invariant forall j :: 0 <= j < i ==> dirtyMap[j] == Dirty(hashSrvA[j], hashSrvB[j])
        invariant dirtyCount == Ones(dirtyMap[..i])
      {
        dirtyMap[i] := Dirty(hashSrvA[i], hashSrvB[i]);
        assert dirtyMap[..i + 1][..i] == dirtyMap[..i];
        if dirtyMap[i] {
          dirtyCount := dirtyCount + 1;
        }
      }
      assert dirtyMap[..total] == dirtyMap[..];
    }

    /** The frame just hashed becomes the one compared with; the write view follows its buffer. */
    method SwapHashBuffers()
      requires Valid() && complete
      modifies `hashBufA, `hashBufB, `hashSrvA, `hashSrvB, `hashUavA
      ensures Valid() && hashBufA == old(hashBufB) && hashBufB == old(hashBufA)
    {
      hashBufA, hashBufB := hashBufB, hashBufA;
      hashSrvA, hashSrvB := hashSrvB, hashSrvA;
      hashUavA := hashBufA;
    }

    method AllocDirtyMirror(bytes: nat, works: bool) returns (live: bool)
      requires Valid()
      modifies `lastDirty, `lastDirtyCap
      ensures Valid() && Value() == EnsureMirror(old(Value()), bytes, works) && live == (lastDirty != null)
      ensures live ==> lastDirty.Length >= bytes
      ensures lastDirty == old(lastDirty) || fresh(lastDirty) || lastDirty == null
    {
      if lastDirtyCap < bytes {
        lastDirty := null;
        if works {
          lastDirty := new bool[bytes](_ => false);
        }
        lastDirtyCap := bytes;
      }
      live := lastDirty != null;
    }

    /** `kgpu_tile_hash`. The outputs are cleared first, so a failure leaves them at rest. */
    method KgpuTileHash(f: Frame) returns (out: Output)
      requires Valid() && WellFormed(f)
      modifies this, hashBufA, hashBufB, dirtyMap, lastDirty
      ensures Valid() && Fits(old(Value())) && (Value(), out) == TileHash(old(Value()), f)
    {
      hide ReadBack, Moved, EnsureGrid, Total, GridSide;
      out := Failed(ErrParam);
      if f.w == 0 || f.h == 0 {
        return;
      }
      var ok := EnsureGridFor(f);
      if !ok {
        return out.(code := ErrInit);
      }
      if !complete {
        return out.(code := Undefined);
      }
      dirtyCount := 0;
      if !f.binds {
        return;
      }
      out := RunPasses(f);
    }

    method RunPasses(f: Frame) returns (out: Output)
      requires Valid() && complete && WellFormed(f) && (width, height) == (f.w, f.h) && dirtyCount == 0
      modifies this, hashBufA, dirtyMap, lastDirty
      ensures Valid()
      ensures
        var (c, d) := (old(Value()), old(Value()).(prev := f.tiles));
        (Value(), out) == if !f.countReads then (c, Failed(ErrDevice)) else ReadBack(d, f, Moved(c.prev, f.tiles))
    {
      hide ReadBack, Moved, Total, GridSide;
      HashPass(f.tiles);
      DiffPass();
      if !f.countReads {
        return Failed(ErrDevice);
      }
      SwapHashBuffers();
      out := FetchBitmap(f);
    }

    method FetchBitmap(f: Frame) returns (out: Output)
      requires Valid() && complete && (width, height) == (f.w, f.h) && dirtyCount == Ones(dirtyMap[..])
      modifies `lastDirty, `lastDirtyCap, lastDirty
      ensures Valid() && (Value(), out) == ReadBack(old(Value()), f, dirtyMap[..])
    {
      hide Total, GridSide, Ones;
      var ratio := if total == 0 then 0.0 else dirtyCount as real / total as real;
      var decision := Decide(dirtyCount, total);
      out := Output(Ok, decision, gridW, gridH, ratio, None);
      if decision == Static {
        return;
      }
      if !f.scratch {
        return out.(code := ErrInit);
      }
      if !f.mapReads {
        return out.(code := ErrDevice);
      }
      var live := AllocDirtyMirror(total, f.mirrors);
      if !live {
        return out.(code := ErrInit);
      }
      FillMirror();
      out := out.(dirty := Some(lastDirty[..total]));
    }

    method FillMirror()
      requires Valid() && complete && lastDirty != null && lastDirty.Length >= total
      modifies lastDirty
      ensures lastDirty[..total] == dirtyMap[..]
    {
      for i := 0 to total
        invariant lastDirty[..i] == dirtyMap[..i]
      {
        lastDirty[i] := dirtyMap[i];
      }
    }
  }
}
