/** What the tile comparison reports over a run of frames. */
module TileContextRuns {
  import opened Bytes
  import opened TileCrc
  import opened TileContextSpec

  function Run(fs: seq<Frame>): (c: Ctx)
    requires forall f :: f in fs ==> WellFormed(f)
    ensures Fits(c)
  {
    if fs == [] then Start()
    else
      StaysFit(Run(fs[..|fs| - 1]), fs[|fs| - 1]);
      TileHash(Run(fs[..|fs| - 1]), fs[|fs| - 1]).0
  }

  // ---- What the history says ----

  predicate Counted(f: Frame) {
    f.w > 0 && f.h > 0 && f.binds && f.countReads
  }

  /** The resolution of the last frame that had one. */
  function Size(fs: seq<Frame>): (nat, nat) {
    if fs == [] then (0, 0)
    else
      var f := fs[|fs| - 1];
      if f.w > 0 && f.h > 0 then (f.w, f.h) else Size(fs[..|fs| - 1])
  }

  /** Of `fs`: the last counted frame since the resolution became `size`, or else zeros. */
  function Baseline(fs: seq<Frame>, size: (nat, nat)): (r: seq<Hash>)
    requires forall f :: f in fs ==> WellFormed(f)
    ensures |r| == Total(size.0, size.1)
  {
    if fs == [] then Zeros(Total(size.0, size.1))
    else
      var f := fs[|fs| - 1];
      if f.w == 0 || f.h == 0 then Baseline(fs[..|fs| - 1], size)
      else if f.w != size.0 || f.h != size.1 then Zeros(Total(size.0, size.1))
      else if Counted(f) then
        assert f in fs && WellFormed(f);
        f.tiles
      else Baseline(fs[..|fs| - 1], size)
  }

  ghost predicate AllMade(fs: seq<Frame>) {
    forall f :: f in fs ==> WellFormed(f) && f.alloc.Whole?
  }

  /** One frame, when the buffers can be made. */
  lemma ContextAfter(c: Ctx, f: Frame)
    requires Fits(c) && WellFormed(f) && f.alloc.Whole? && c.hasA == c.ready
    ensures
      var d := TileHash(c, f).0;
      if f.w == 0 || f.h == 0 then d == c
      else
        && (d.w, d.h) == (f.w, f.h) && d.hasA && d.ready
        && d.prev == (if Counted(f) then f.tiles
                      else if c.ready && (c.w, c.h) == (f.w, f.h) then c.prev
                      else Zeros(Total(f.w, f.h)))
  {
    hide Moved, Total, ReadBack;
    var d := EnsureGrid(c, f).0;
    if f.w > 0 && f.h > 0 && Counted(f) {
      ReadBackKeepsPrev(d.(prev := f.tiles), f, Moved(d.prev, f.tiles));
    }
  }

  lemma {:induction false} BaselineIsKept(fs: seq<Frame>)
    requires AllMade(fs)
    ensures
      var c := Run(fs);
      && (c.w, c.h) == Size(fs)
      && c.hasA == c.ready
      && (c.ready <==> Size(fs) != (0, 0))
      && (Size(fs) != (0, 0) ==> Size(fs).0 > 0 && Size(fs).1 > 0)
      && (c.ready ==> c.prev == Baseline(fs, Size(fs)))
  {
    hide TileHash, Total;
    if fs != [] {
      var init, f := fs[..|fs| - 1], fs[|fs| - 1];
      assert forall g :: g in init ==> g in fs;
      BaselineIsKept(init);
      ContextAfter(Run(init), f);
      if f.w > 0 && f.h > 0 && Size(init) != (f.w, f.h) {
        BaselineOfOtherSize(init, (f.w, f.h));
      }
    }
  }

  /** Nothing is left of the frames before a change of resolution. */
  lemma {:induction false} BaselineOfOtherSize(fs: seq<Frame>, size: (nat, nat))
    requires forall f :: f in fs ==> WellFormed(f)
    requires Size(fs) != size
    ensures Baseline(fs, size) == Zeros(Total(size.0, size.1))
  {
    hide Total;
    if fs != [] && (fs[|fs| - 1].w == 0 || fs[|fs| - 1].h == 0) {
      BaselineOfOtherSize(fs[..|fs| - 1], size);
    }
  }

  /**
   After any run a frame that gets through is static exactly when no tile differs from the
   last counted frame of its resolution.
   */
  lemma StaticIff(fs: seq<Frame>, f: Frame)
    requires AllMade(fs + [f]) && Counted(f)
    ensures
      var (prev, out) := (Baseline(fs, (f.w, f.h)), TileHash(Run(fs), f).1);
      out.decision == Static <==> forall i :: 0 <= i < |f.tiles| ==> !Dirty(f.tiles[i], prev[i])
  {
    hide Ratio, Total, Dirty, ReadBack, TileHash, Run, Baseline;
    FrameSeesBaseline(fs, f);
    DecisionOf(fs, f);
    var prev := Baseline(fs, (f.w, f.h));
    var moved := Moved(prev, f.tiles);
    OnesIsZeroIff(moved);
    forall i | 0 <= i < |f.tiles| ensures moved[i] <==> Dirty(f.tiles[i], prev[i]) {}
  }

  lemma DecisionOf(fs: seq<Frame>, f: Frame)
    requires AllMade(fs + [f]) && Counted(f)
    ensures TileHash(Run(fs), f).1.decision == Static <==> Ones(Moved(Baseline(fs, (f.w, f.h)), f.tiles)) == 0
  {
    hide Moved, Total, Baseline, Run, TileHash, Ones, ReadBack;
    FrameSeesBaseline(fs, f);
    var moved := Moved(Baseline(fs, (f.w, f.h)), f.tiles);
    var d :| TileHash(Run(fs), f) == ReadBack(d, f, moved) && d.prev == f.tiles;
    DecisionOfReadBack(d, f, moved);
  }

  lemma FrameSeesBaseline(fs: seq<Frame>, f: Frame)
    requires AllMade(fs + [f]) && Counted(f)
    ensures
      var prev := Baseline(fs, (f.w, f.h));
      exists d :: TileHash(Run(fs), f) == ReadBack(d, f, Moved(prev, f.tiles)) && d.prev == f.tiles
  {
    hide Ratio, Total, Moved, Dirty, ReadBack;
    assert forall g :: g in fs ==> g in fs + [f];
    assert f in fs + [f];
    BaselineIsKept(fs);
    if Size(fs) != (f.w, f.h) {
      BaselineOfOtherSize(fs, (f.w, f.h));
    }
    var d := EnsureGrid(Run(fs), f).0.(prev := f.tiles);
    assert TileHash(Run(fs), f) == ReadBack(d, f, Moved(Baseline(fs, (f.w, f.h)), f.tiles));
  }

  lemma {:induction false} OnesIsZeroIff(m: seq<bool>)
    ensures Ones(m) == 0 <==> forall i :: 0 <= i < |m| ==> !m[i]
  {
    if m != [] {
      OnesIsZeroIff(m[..|m| - 1]);
    }
  }

  /** A bitmap that is handed out says of each tile whether it moved, and its ones give decision and ratio. */
  lemma BitmapIsRight(fs: seq<Frame>, f: Frame)
    requires AllMade(fs + [f]) && Counted(f) && TileHash(Run(fs), f).1.dirty.Some?
    ensures
      var (prev, out) := (Baseline(fs, (f.w, f.h)), TileHash(Run(fs), f).1);
      var (bits, total) := (out.dirty.value, Total(f.w, f.h));
      && out.code == Ok && |bits| == total
      && (forall i :: 0 <= i < total ==> (bits[i] <==> Dirty(f.tiles[i], prev[i])))
      && total > 0 && out.ratio == Ones(bits) as real / total as real
      && out.decision == (if 20 * Ones(bits) < total then Incremental else FullFrame)
      && Ones(bits) > 0
  {
    hide Total, Dirty, EnsureMirror;
    FrameSeesBaseline(fs, f);
  }

  lemma ReadBackKeepsPrev(c: Ctx, f: Frame, moved: seq<bool>)
    ensures
      var d := ReadBack(c, f, moved).0;
      (d.w, d.h, d.hasA, d.ready, d.prev) == (c.w, c.h, c.hasA, c.ready, c.prev)
  {
  }

  /**
   The same picture again is static exactly when the first frame was counted or nothing had
   moved; that the caller got the first frame's bitmap is not asked.
   */
  lemma RepeatIsStaticIff(c: Ctx, f: Frame, g: Frame)
    requires Fits(c) && c.ready && (c.w, c.h) == (f.w, f.h) && WellFormed(f) && f.w > 0 && f.h > 0
    requires Counted(g) && (g.w, g.h, g.tiles) == (f.w, f.h, f.tiles)
    ensures
      var d := TileHash(c, f).0;
      Fits(d) && (TileHash(d, g).1.decision == Static <==> Counted(f) || Ones(Moved(c.prev, f.tiles)) == 0)
  {
    hide Ratio, Total, Moved, EnsureMirror, Ones, ReadBack;
    StaysFit(c, f);
    SameTilesAreClean(f.tiles);
    ReadBackKeepsPrev(c.(prev := f.tiles), f, Moved(c.prev, f.tiles));
    var d := TileHash(c, f).0;
    DecisionOfReadBack(d.(prev := g.tiles), g, Moved(d.prev, g.tiles));
  }

  lemma DecisionOfReadBack(c: Ctx, f: Frame, moved: seq<bool>)
    ensures ReadBack(c, f, moved).1.decision == Static <==> Ones(moved) == 0
  {
  }

  lemma SameTilesAreClean(tiles: seq<Hash>)
    ensures Ones(Moved(tiles, tiles)) == 0
  {
    OnesIsZeroIff(Moved(tiles, tiles));
    forall i | 0 <= i < |tiles| ensures !Dirty(tiles[i], tiles[i]) {
      SameIsClean(tiles[i]);
    }
  }

  lemma SameIsClean(a: Hash)
    ensures !Dirty(a, a)
  {
    assert a.crc ^ a.crc == 0;
  }

  /** A frame whose bitmap could not be fetched is counted all the same: its change is never reported. */
  lemma ChangeCanBeLost(c: Ctx, f: Frame)
    requires Fits(c) && c.ready && (c.w, c.h) == (f.w, f.h) && WellFormed(f)
    requires Counted(f) && !f.mapReads && f.scratch && Ones(Moved(c.prev, f.tiles)) > 0
    ensures TileHash(c, f).1.code == ErrDevice
    ensures Fits(TileHash(c, f).0) && TileHash(TileHash(c, f).0, f).1.decision == Static
  {
    hide Ratio, Total, Moved, Ones;
    RepeatIsStaticIff(c, f, f);
  }

  /**
   How the last attempt to make buffers went: one is made when the resolution changes, or
   when the attempt before did not even give a first buffer.
   */
  function LastMade(fs: seq<Frame>): Option<Alloc> {
    if fs == [] then None
    else
      var (init, f) := (fs[..|fs| - 1], fs[|fs| - 1]);
      var before := LastMade(init);
      if f.w == 0 || f.h == 0 then before
      else if Size(init) == (f.w, f.h) && before.Some? && before != Some(Partial(false)) then before
      else Some(f.alloc)
  }

  /** Over every run, whatever fails, the state of the buffers is that of the last attempt to make them. */
  lemma {:induction false} BuffersAreAsLastMade(fs: seq<Frame>)
    requires forall f :: f in fs ==> WellFormed(f)
    ensures
      var c := Run(fs);
      && (c.w, c.h) == Size(fs) && (LastMade(fs).Some? ==> c.w > 0 && c.h > 0)
      && (c.ready <==> LastMade(fs) == Some(Whole))
      && (c.hasA <==> LastMade(fs).Some? && LastMade(fs) != Some(Partial(false)))
  {
    hide TileHash, Total;
    if fs != [] {
      var init, f := fs[..|fs| - 1], fs[|fs| - 1];
      BuffersAreAsLastMade(init);
      TileHashMakes(Run(init), f);
    }
  }

  lemma TileHashMakes(c: Ctx, f: Frame)
    requires Fits(c) && WellFormed(f)
    ensures
      var (d, e) := (TileHash(c, f).0, EnsureGrid(c, f).0);
      (d.w, d.h, d.hasA, d.ready) == (e.w, e.h, e.hasA, e.ready)
  {
    hide Moved, Total, ReadBack;
    var (d, ok) := EnsureGrid(c, f);
    if ok && d.ready {
      ReadBackKeepsPrev(d.(prev := f.tiles), f, Moved(d.prev, f.tiles));
    }
  }

  /**
   After any run the size check lets a frame through although buffers are missing exactly
   when it has the present resolution and the last attempt to make buffers at that
   resolution failed after the first one.
   */
  lemma PassesUnreadyIff(fs: seq<Frame>, f: Frame)
    requires (forall g :: g in fs ==> WellFormed(g)) && WellFormed(f)
    ensures TileHash(Run(fs), f).1.code == Undefined
            <==> f.w > 0 && f.h > 0 && (f.w, f.h) == Size(fs) && LastMade(fs) == Some(Partial(true))
  {
    hide Total, Moved, Run, LastMade, ReadBack;
    BuffersAreAsLastMade(fs);
    var m := LastMade(fs);
    assert m.Some? && m.value.Partial? ==> m == Some(Partial(m.value.hasA));
    var (d, ok) := EnsureGrid(Run(fs), f);
    if ok && d.ready {
      ReadBackIsDefined(d.(prev := f.tiles), f, Moved(d.prev, f.tiles));
    }
  }

  lemma ReadBackIsDefined(c: Ctx, f: Frame, moved: seq<bool>)
    ensures ReadBack(c, f, moved).1.code != Undefined
  {
  }

  /** After one failed attempt the mirror is missing for every frame that needs no larger one. */
  lemma MirrorStaysMissing(c: Ctx, total: nat, works: bool)
    requires c.mirrorCap < total
    ensures
      var d := EnsureMirror(c, total, false);
      forall n: nat :: EnsureMirror(d, n, works).mirrorLive <==> n > total && works
  {
  }

  /**
   Whenever a grid is reported, each pixel of the picture is in one of its tiles, no row or
   column of tiles is outside the picture, and a bitmap has one entry for each tile.
   */
  lemma GridCoversThePicture(c: Ctx, f: Frame)
    requires Fits(c) && WellFormed(f) && TileHash(c, f).1.gridW > 0
    ensures
      var out := TileHash(c, f).1;
      && (forall x: nat | x < f.w :: x / 64 < out.gridW)
      && (forall y: nat | y < f.h :: y / 64 < out.gridH)
      && (out.gridW - 1) * 64 < f.w && (out.gridH - 1) * 64 < f.h
      && |f.tiles| == out.gridW * out.gridH
      && (out.dirty.Some? ==> |out.dirty.value| == out.gridW * out.gridH)
  {
    hide Moved, Decide, Ratio, Ones;
  }

  /** A call that succeeds reports its grid. */
  lemma SuccessReportsTheGrid(c: Ctx, f: Frame)
    requires Fits(c) && WellFormed(f) && TileHash(c, f).1.code == Ok
    ensures TileHash(c, f).1.gridW > 0 && TileHash(c, f).1.gridH > 0 && f.w > 0 && f.h > 0
  {
    hide Moved, Decide, Ratio, Ones;
  }

  /** The buffers for this frame are there, or can be made. */
  predicate HasBuffers(c: Ctx, f: Frame) {
    if (c.w, c.h) == (f.w, f.h) && c.hasA then c.ready else f.alloc.Whole?
  }

  /** The CPU mirror is large enough, or can be remade. */
  predicate HasMirror(c: Ctx, f: Frame) {
    if c.mirrorCap < |f.tiles| then f.mirrors else c.mirrorLive
  }

  /**
   Once a frame has been counted its bitmap is given exactly when something moved and the
   scratch memory, the readback and the mirror are there; the code says which of them was not.
   */
  lemma BitmapIsGivenIff(c: Ctx, f: Frame)
    requires Fits(c) && WellFormed(f) && Counted(f) && HasBuffers(c, f)
    ensures
      var out := TileHash(c, f).1;
      && (out.dirty.Some? <==> out.decision != Static && f.scratch && f.mapReads && HasMirror(c, f))
      && (out.code == Ok <==> out.decision == Static || out.dirty.Some?)
      && (out.code == ErrDevice <==> out.decision != Static && f.scratch && !f.mapReads)
      && out.code in {Ok, ErrDevice, ErrInit}
  {
    hide Total, Moved, Decide, Ratio;
    MovedLength(c, f);
  }

  lemma MovedLength(c: Ctx, f: Frame)
    requires Fits(c) && WellFormed(f) && HasBuffers(c, f) && f.w > 0 && f.h > 0
    ensures |EnsureGrid(c, f).0.prev| == |f.tiles|
  {
  }

  /** A frame that is not counted leaves the outputs at rest, with the code of the first thing that failed. */
  lemma FailureIsAtRest(c: Ctx, f: Frame)
    requires Fits(c) && WellFormed(f) && !(Counted(f) && HasBuffers(c, f))
    ensures
      var out := TileHash(c, f).1;
      && out == Output(out.code, Static, 0, 0, 0.0, None)
      && out.code == if f.w == 0 || f.h == 0 then ErrParam
                     else if !HasBuffers(c, f) then if (c.w, c.h) == (f.w, f.h) && c.hasA then Undefined else ErrInit
                     else if !f.binds then ErrParam else ErrDevice
  {
    hide Total, Moved, ReadBack;
  }

  /** A new context makes its mirror with the first frame. */
  lemma FirstMirror(f: Frame)
    requires f.tiles != []
    ensures HasMirror(Start(), f) <==> f.mirrors
  {
  }

  /** The first frame of a new resolution is static exactly when all of its hashes are next to zero. */
  lemma NewSizeIsStaticIff(fs: seq<Frame>, f: Frame)
    requires AllMade(fs + [f]) && Counted(f) && Size(fs) != (f.w, f.h)
    ensures TileHash(Run(fs), f).1.decision == Static
            <==> forall i | 0 <= i < |f.tiles| :: f.tiles[i].r <= 6 && f.tiles[i].g <= 6 && f.tiles[i].b <= 6 && f.tiles[i].crc == 0
  {
    hide Ratio, Total, Dirty, EnsureMirror, TileHash, Run, Moved;
    assert forall g :: g in fs ==> g in fs + [f];
    assert f in fs + [f];
    BaselineOfOtherSize(fs, (f.w, f.h));
    StaticIff(fs, f);
    forall i | 0 <= i < |f.tiles|
      ensures Dirty(f.tiles[i], ZERO) <==> !(f.tiles[i].r <= 6 && f.tiles[i].g <= 6 && f.tiles[i].b <= 6 && f.tiles[i].crc == 0)
    {
      NextToZeroIff(f.tiles[i]);
    }
  }

  lemma NextToZeroIff(a: Hash)
    ensures Dirty(a, ZERO) <==> !(a.r <= 6 && a.g <= 6 && a.b <= 6 && a.crc == 0)
  {
    assert a.crc ^ 0 == a.crc;
  }

  // ---- From the samples ----

  function HashesOf(screen: seq<seq<Sample>>): seq<Hash> {
    seq(|screen|, i requires 0 <= i < |screen| => HashOf(screen[i]))
  }

  /** One thread's colour changed in one tile since the last counted frame: the frame is not static. */
  lemma OneChangeIsSeen(fs: seq<Frame>, f: Frame, before: seq<seq<Sample>>, now: seq<seq<Sample>>, i: nat, k: nat)
    requires AllMade(fs + [f]) && Counted(f)
    requires f.tiles == HashesOf(now) && Baseline(fs, (f.w, f.h)) == HashesOf(before)
    requires i < |now| && |before[i]| == |now[i]| == THREADS && k < THREADS
    requires AllColours(before[i]) && AllColours(now[i])
    requires before[i][k] != now[i][k] && forall j | 0 <= j < THREADS && j != k :: now[i][j] == before[i][j]
    ensures TileHash(Run(fs), f).1.decision != Static
    ensures TileHash(Run(fs), f).1.dirty.Some? ==> TileHash(Run(fs), f).1.dirty.value[i]
  {
    hide Dirty, Moved, Ratio, Total, HashOf, TileHash, Run, Baseline;
    OneThreadChangeIsDirty(now[i], before[i], k);
    assert f.tiles[i] == HashOf(now[i]) && Baseline(fs, (f.w, f.h))[i] == HashOf(before[i]);
    StaticIff(fs, f);
    if TileHash(Run(fs), f).1.dirty.Some? {
      BitmapIsRight(fs, f);
    }
  }
}
