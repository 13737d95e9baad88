/**
 * The synchronisation tracker (src/vulkan/sync_manager.rs): per buffer and
 * per image it remembers the last write and the reads since then, point by
 * point (bytes of a buffer, mip levels of an image), and from that history
 * derives the pipeline barriers a new access must wait on.
 *
 * `ResourceRW` holds its two `OptRangeMap`s by value inside the tracker's
 * hash maps; the model keeps their pointwise views, whose updates the
 * contracts of `RangeMap.OptRangeMap.Overwrite` and `Cut` show the range-map
 * representation to perform.
 */
module SyncManager {
  import opened Wrappers
  import opened Vk
  import opened RangeMap
  import opened ResourceAccess

  // ---------------------------------------------------------------------------
  // ResourceAccessInfo and its combine lattice

  /** `ResourceAccessInfo`: a remembered access, its stages and its access flags. */
  datatype AccessInfo = Read(stage: Flags, access: Flags) | Write(stage: Flags, access: Flags)

  /** `combine`: the union of stages and flags; a read only when both are reads. */
  function Combine(a: AccessInfo, b: AccessInfo): (r: AccessInfo)
  {
    if a.Read? && b.Read? then Read(a.stage + b.stage, a.access + b.access)
    else Write(a.stage + b.stage, a.access + b.access)
  }

  /** `empty`: a read of nothing at no stage. */
  const Empty: AccessInfo := Read(NONE, NONE)

  /** `a` is covered by `b`: `b` has all of `a`'s stages and flags, and writes if `a` does. */
  predicate Below(a: AccessInfo, b: AccessInfo)
  {
    && a.stage <= b.stage
    && a.access <= b.access
    && (a.Write? ==> b.Write?)
  }

  /**
   * `combine` is the least upper bound of `Below`: it covers both arguments
   * and is covered by anything that covers both; `empty` is the bottom.
   */
  lemma CombineIsLeastUpperBound(a: AccessInfo, b: AccessInfo, u: AccessInfo)
    ensures Below(a, Combine(a, b)) && Below(b, Combine(a, b))
    ensures Below(a, u) && Below(b, u) ==> Below(Combine(a, b), u)
    ensures Below(Empty, a)
  {
  }

  /** Two accesses that cover each other are equal. */
  lemma BelowAntisymmetric(a: AccessInfo, b: AccessInfo)
    requires Below(a, b) && Below(b, a)
    ensures a == b
  {
  }

  lemma BelowTransitive(a: AccessInfo, b: AccessInfo, c: AccessInfo)
    requires Below(a, b) && Below(b, c)
    ensures Below(a, c)
  {
  }

  /**
   * The lattice laws that make the order of the remembered accesses
   * irrelevant: `combine` is commutative, associative and idempotent, with
   * `empty` as identity.
   */
  lemma CombineLaws(a: AccessInfo, b: AccessInfo, c: AccessInfo)
    ensures Combine(a, b) == Combine(b, a)
    ensures Combine(Combine(a, b), c) == Combine(a, Combine(b, c))
    ensures Combine(a, a) == a
    ensures Combine(Empty, a) == a && Combine(a, Empty) == a
  {
    var ab, ba := Combine(a, b), Combine(b, a);
    CombineIsLeastUpperBound(a, b, ba);
    CombineIsLeastUpperBound(b, a, ab);
    BelowAntisymmetric(ab, ba);
    var l, r := Combine(ab, c), Combine(a, Combine(b, c));
    CombineIsLeastUpperBound(b, c, r);
    CombineIsLeastUpperBound(a, Combine(b, c), r);
    BelowTransitive(b, Combine(b, c), r);
    BelowTransitive(c, Combine(b, c), r);
    CombineIsLeastUpperBound(a, b, r);
    CombineIsLeastUpperBound(ab, c, r);
    CombineIsLeastUpperBound(a, b, l);
    CombineIsLeastUpperBound(ab, c, l);
    BelowTransitive(a, ab, l);
    BelowTransitive(b, ab, l);
    CombineIsLeastUpperBound(b, c, l);
    CombineIsLeastUpperBound(a, Combine(b, c), l);
    BelowAntisymmetric(l, r);
    CombineIsLeastUpperBound(a, a, a);
    BelowAntisymmetric(Combine(a, a), a);
    CombineIsLeastUpperBound(Empty, a, a);
    CombineIsLeastUpperBound(a, Empty, a);
    BelowAntisymmetric(Combine(Empty, a), a);
    BelowAntisymmetric(Combine(a, Empty), a);
  }

  /** `fold(empty(), into_combined)` over a list of accesses. */
  function Fold(s: seq<AccessInfo>): AccessInfo
  {
    if s == [] then Empty else Combine(Fold(s[..|s| - 1]), s[|s| - 1])
  }

  /** The fold covers every element and is covered by every common upper bound. */
  lemma {:induction false} FoldIsLeastUpperBound(s: seq<AccessInfo>, u: AccessInfo)
    ensures forall x | x in s :: Below(x, Fold(s))
    ensures (forall x | x in s :: Below(x, u)) ==> Below(Fold(s), u)
  {
    if s != [] {
      var init, last := s[..|s| - 1], s[|s| - 1];
      FoldIsLeastUpperBound(init, u);
      FoldIsLeastUpperBound(init, Fold(s));
      CombineIsLeastUpperBound(Fold(init), last, u);
      forall x | x in s
        ensures Below(x, Fold(s))
      {
        if x in init {
          assert Below(x, Fold(init));
        }
      }
    }
  }

  /**
   * The fold depends only on which accesses occur: any two lists with the
   * same elements, in any order and with any repetition, fold to the same
   * access. This is why the model may report old accesses point by point
   * where the source reports one per stored interval.
   */
  lemma FoldDependsOnlyOnElements(s1: seq<AccessInfo>, s2: seq<AccessInfo>)
    requires forall x :: x in s1 <==> x in s2
    ensures Fold(s1) == Fold(s2)
  {
    FoldIsLeastUpperBound(s1, Fold(s2));
    FoldIsLeastUpperBound(s2, Fold(s1));
    BelowAntisymmetric(Fold(s1), Fold(s2));
  }

  /** The folded flags are empty iff every element's flags are. */
  lemma {:induction false} FoldAccessNoneIff(s: seq<AccessInfo>)
    ensures Fold(s).access == NONE <==> forall x | x in s :: x.access == NONE
  {
    if s != [] {
      var init := s[..|s| - 1];
      FoldAccessNoneIff(init);
      assert forall x | x in s :: x in init || x == s[|s| - 1];
    }
  }

  // ---------------------------------------------------------------------------
  // Barriers (`add_accesses`)

  /** `BufferMemoryBarrier`, without the buffer handle and the ignored queue families. */
  datatype BufferMemoryBarrier = BufferMemoryBarrier(
    srcStage: Flags, srcAccess: Flags, dstStage: Flags, dstAccess: Flags, offset: nat, size: nat)

  /** `ImageMemoryBarrier`, without the image handle and the ignored queue families. */
  datatype ImageMemoryBarrier = ImageMemoryBarrier(
    srcStage: Flags, srcAccess: Flags, dstStage: Flags, dstAccess: Flags,
    oldLayout: ImageLayout, newLayout: ImageLayout, subresourceRange: SubresourceRange)

  /** The accesses whose flags are not empty. */
  function WithFlags(s: seq<AccessInfo>): (r: seq<AccessInfo>)
    ensures forall x :: x in r <==> x in s && x.access != NONE
  {
    if s == [] then []
    else
      assert forall x :: x in s <==> x == s[0] || x in s[1..];
      (if s[0].access != NONE then [s[0]] else []) + WithFlags(s[1..])
  }

  /**
   * The barrier for one buffer access: the old accesses with non-empty flags,
   * combined, as its source; none at all when the combined flags are empty.
   */
  function BufferBarrier(olds: seq<AccessInfo>, access: BufferAccess): Option<BufferMemoryBarrier>
  {
    var waitFor := Fold(WithFlags(olds));
    if waitFor.access == NONE then None
    else Some(BufferMemoryBarrier(waitFor.stage, waitFor.access, access.stage, access.access, access.offset, access.size))
  }

  /**
   * No barrier exactly when no old access has flags; a barrier waits on the
   * combined stages and flags of the old accesses that have flags (their
   * least upper bound, `FoldIsLeastUpperBound`), so on every stage and flag
   * of each of them, and hands over to the new access over its byte range.
   */
  lemma BufferBarrierWaitsOnOldFlags(olds: seq<AccessInfo>, access: BufferAccess)
    ensures BufferBarrier(olds, access).None? <==> forall x | x in olds :: x.access == NONE
    ensures BufferBarrier(olds, access).Some? ==>
      var b := BufferBarrier(olds, access).value;
      && b.srcStage == Fold(WithFlags(olds)).stage && b.srcAccess == Fold(olds).access
      && (forall x | x in olds && x.access != NONE :: x.stage <= b.srcStage && x.access <= b.srcAccess)
      && b.dstStage == access.stage && b.dstAccess == access.access
      && b.offset == access.offset && b.size == access.size
  {
    var f := WithFlags(olds);
    FoldAccessNoneIff(f);
    FoldAccessNoneIff(olds);
    FoldIsLeastUpperBound(f, Empty);
    if BufferBarrier(olds, access).Some? {
      FoldFlagsIgnoreEmpty(olds);
    }
  }

  /** Dropping accesses with empty flags does not change the combined flags. */
  lemma {:induction false} FoldFlagsIgnoreEmpty(s: seq<AccessInfo>)
    ensures Fold(WithFlags(s)).access == Fold(s).access
  {
    if s != [] {
      var init, last := s[..|s| - 1], s[|s| - 1];
      assert s == init + [last];
      FoldFlagsIgnoreEmpty(init);
      WithFlagsOfAppend(init, last);
      FoldAccessOfAppend(init, last);
      var t := WithFlags(init);
      if last.access != NONE {
        FoldAccessOfAppend(t, last);
      } else {
        assert WithFlags(s) == t;
      }
    }
  }

  /** Folding one more access adds its flags. */
  lemma FoldAccessOfAppend(s: seq<AccessInfo>, x: AccessInfo)
    ensures Fold(s + [x]).access == Fold(s).access + x.access
  {
    assert (s + [x])[..|s|] == s;
  }

  /** `WithFlags` of a list extended by one access. */
  lemma {:induction false} WithFlagsOfAppend(s: seq<AccessInfo>, x: AccessInfo)
    ensures WithFlags(s + [x]) == WithFlags(s) + (if x.access != NONE then [x] else [])
  {
    if s != [] {
      var head := if s[0].access != NONE then [s[0]] else [];
      var tail := if x.access != NONE then [x] else [];
      var sx := s + [x];
      assert sx != [] && sx[0] == s[0] && sx[1..] == s[1..] + [x];
      WithFlagsOfAppend(s[1..], x);
      calc {
        WithFlags(sx);
        head + WithFlags(sx[1..]);
        head + (WithFlags(s[1..]) + tail);
        (head + WithFlags(s[1..])) + tail;
        WithFlags(s) + tail;
      }
    } else {
      assert [x][1..] == [];
    }
  }

  /**
   * The barrier for one stored layout segment of an image: it waits on all
   * old accesses of the segment, even with empty flags, because it also
   * carries the layout transition. Its source is their combination, so it
   * covers every stage and flag of each; its destination is the new access
   * on the segment's levels, with the access's aspect and array layers.
   */
  function ImageBarrier(segment: Interval, oldLayout: ImageLayout, olds: seq<AccessInfo>, access: ImageAccess): (b: ImageMemoryBarrier)
    requires segment.IsValid() && segment.start >= 0
    ensures b.oldLayout == oldLayout && b.newLayout == access.layout
    ensures b.subresourceRange.baseMipLevel == segment.start
    ensures b.subresourceRange.baseMipLevel + b.subresourceRange.levelCount == segment.end + 1
    ensures b.srcStage == Fold(olds).stage && b.srcAccess == Fold(olds).access
    ensures forall x | x in olds :: x.stage <= b.srcStage && x.access <= b.srcAccess
    ensures b.dstStage == access.stage && b.dstAccess == access.access
    ensures b.subresourceRange.aspectMask == access.subresourceRange.aspectMask
    ensures b.subresourceRange.baseArrayLayer == access.subresourceRange.baseArrayLayer
    ensures b.subresourceRange.layerCount == access.subresourceRange.layerCount
  {
    FoldIsLeastUpperBound(olds, Empty);
    var combined := Fold(olds);
    ImageMemoryBarrier(combined.stage, combined.access, access.stage, access.access,
      oldLayout, access.layout,
      SubresourceRange(access.subresourceRange.aspectMask, segment.start, segment.end + 1 - segment.start,
        access.subresourceRange.baseArrayLayer, access.subresourceRange.layerCount))
  }

  // ---------------------------------------------------------------------------
  // ResourceRW

  /** The accesses stored at the points of `[lo, hi]`, in point order. */
  function PointValues(m: map<nat, AccessInfo>, lo: int, hi: int): (r: seq<AccessInfo>)
    ensures forall x :: x in r <==> x in ValuesIn(m, Interval(lo, hi))
    decreases hi - lo
  {
    if lo > hi then []
    else
      var rest := PointValues(m, lo + 1, hi);
      assert forall x :: x in ValuesIn(m, Interval(lo, hi)) <==>
        (lo >= 0 && lo in m && x == m[lo]) || x in ValuesIn(m, Interval(lo + 1, hi));
      (if lo >= 0 && lo in m then [m[lo]] else []) + rest
  }

  /**
   * `ResourceRW`: over the points of `maxRange`, the last write and the
   * reads since it.
   */
  datatype ResourceRW = ResourceRW(maxRange: Interval, write: map<nat, AccessInfo>, readsSince: map<nat, AccessInfo>)
  {
    predicate Valid()
    {
      && maxRange.IsValid()
      && maxRange.start >= 0
      && write.Keys <= Points(maxRange)
      && readsSince.Keys <= Points(maxRange)
    }

    /** Per point, the latest access: the readsSince, where there are any, else the write. */
    function Latest(): map<nat, AccessInfo>
    {
      map p | p in write.Keys + readsSince.Keys :: if p in readsSince then readsSince[p] else write[p]
    }
  }

  /** `ResourceRW::new`: nothing written or read yet. */
  function NewResourceRW(maxRange: Interval): (rw: ResourceRW)
    requires maxRange.IsValid() && maxRange.start >= 0
    ensures rw.Valid() && rw.maxRange == maxRange
    ensures rw.write == map[] && rw.readsSince == map[]
  {
    ResourceRW(maxRange, map[], map[])
  }

  /**
   * `add_write`: the range now holds the write and no readsSince; returns the
   * latest accesses it held (the readsSince since the last write, or that write).
   */
  function AddWrite(rw: ResourceRW, range: Interval, value: AccessInfo): (r: (ResourceRW, seq<AccessInfo>))
    requires rw.Valid() && FitsIn(rw.maxRange, range)
    ensures r.0.Valid() && r.0.maxRange == rw.maxRange
    ensures forall p | p in Points(rw.maxRange) && range.Contains(p) :: p in r.0.write && r.0.write[p] == value && p !in r.0.readsSince
    ensures forall p: nat | !range.Contains(p) ::
      (p in r.0.write <==> p in rw.write) && (p in rw.write ==> r.0.write[p] == rw.write[p])
      && (p in r.0.readsSince <==> p in rw.readsSince) && (p in rw.readsSince ==> r.0.readsSince[p] == rw.readsSince[p])
    ensures forall x :: x in r.1 <==> exists p | p in rw.Latest() && range.Contains(p) :: rw.Latest()[p] == x
  {
    var latest := rw.Latest();
    var olds := PointValues(latest, range.start, range.end);
    (rw.(write := Restrict(PointOverwrite(rw.write, range, value), rw.maxRange),
         readsSince := PointCut(rw.readsSince, range)),
     olds)
  }

  /** The readsSince after recording `value` over `range`: combined into the readsSince already there, or new. */
  function ReadsWith(rw: ResourceRW, range: Interval, value: AccessInfo): map<nat, AccessInfo>
  {
    map p | p in rw.readsSince.Keys + (Points(rw.maxRange) * Points(range)) ::
      if !range.Contains(p) then rw.readsSince[p]
      else if p in rw.readsSince then Combine(rw.readsSince[p], value)
      else value
  }

  /**
   * `add_read`: every point of the range records the read, combined with the
   * readsSince already there; the write is unchanged and returned for the range.
   */
  function AddRead(rw: ResourceRW, range: Interval, value: AccessInfo): (r: (ResourceRW, seq<AccessInfo>))
    requires rw.Valid() && FitsIn(rw.maxRange, range)
    ensures r.0.Valid() && r.0.maxRange == rw.maxRange && r.0.write == rw.write
    ensures forall p | p in Points(rw.maxRange) && range.Contains(p) :: p in r.0.readsSince && Below(value, r.0.readsSince[p])
    ensures forall p | p in rw.readsSince && range.Contains(p) :: Below(rw.readsSince[p], r.0.readsSince[p])
    ensures forall p | p in Points(rw.maxRange) && range.Contains(p) ::
      r.0.readsSince[p] == if p in rw.readsSince then Combine(rw.readsSince[p], value) else value
    ensures forall p: nat | !range.Contains(p) ::
      (p in r.0.readsSince <==> p in rw.readsSince) && (p in rw.readsSince ==> r.0.readsSince[p] == rw.readsSince[p])
    ensures forall x :: x in r.1 <==> exists p | p in rw.write && range.Contains(p) :: rw.write[p] == x
  {
    var readsSince := ReadsWith(rw, range, value);
    forall p | p in readsSince && range.Contains(p)
      ensures Below(value, readsSince[p])
    {
      if p in rw.readsSince {
        CombineIsLeastUpperBound(rw.readsSince[p], value, Empty);
      }
    }
    forall p | p in rw.readsSince && range.Contains(p)
      ensures Below(rw.readsSince[p], readsSince[p])
    {
      CombineIsLeastUpperBound(rw.readsSince[p], value, Empty);
    }
    (rw.(readsSince := readsSince), PointValues(rw.write, range.start, range.end))
  }

  /**
   * `add_read` as written: it cuts the range out of the readsSince and writes back
   * only the pieces that were there, so a point without an earlier read
   * never records this one.
   */
  function AddReadAsWritten(rw: ResourceRW, range: Interval, value: AccessInfo): (r: (ResourceRW, seq<AccessInfo>))
    requires rw.Valid() && FitsIn(rw.maxRange, range)
  {
    (rw.(readsSince := map p | p in rw.readsSince :: if range.Contains(p) then Combine(rw.readsSince[p], value) else rw.readsSince[p]),
     PointValues(rw.write, range.start, range.end))
  }

  // ---------------------------------------------------------------------------
  // Hazards: every earlier access a later one conflicts with is reported

  /** A write waits on the write before it (write after write). */
  lemma WriteAfterWriteWaits(rw: ResourceRW, range1: Interval, w1: AccessInfo, range2: Interval, w2: AccessInfo, p: nat)
    requires rw.Valid() && FitsIn(rw.maxRange, range1) && FitsIn(rw.maxRange, range2)
    requires p in Points(rw.maxRange) && range1.Contains(p) && range2.Contains(p)
    ensures w1 in AddWrite(AddWrite(rw, range1, w1).0, range2, w2).1
  {
    var rw1 := AddWrite(rw, range1, w1).0;
    assert rw1.Latest()[p] == w1;
  }

  /** A read waits on the write before it (read after write). */
  lemma ReadAfterWriteWaits(rw: ResourceRW, range1: Interval, w: AccessInfo, range2: Interval, r: AccessInfo, p: nat)
    requires rw.Valid() && FitsIn(rw.maxRange, range1) && FitsIn(rw.maxRange, range2)
    requires p in Points(rw.maxRange) && range1.Contains(p) && range2.Contains(p)
    ensures w in AddRead(AddWrite(rw, range1, w).0, range2, r).1
  {
    var rw1 := AddWrite(rw, range1, w).0;
    assert rw1.write[p] == w;
  }

  /**
   * A write waits on every read since the last write (write after read): the
   * barrier source covers the read.
   */
  lemma WriteAfterReadWaits(rw: ResourceRW, range1: Interval, r: AccessInfo, range2: Interval, w: AccessInfo, p: nat)
    requires rw.Valid() && FitsIn(rw.maxRange, range1) && FitsIn(rw.maxRange, range2)
    requires p in Points(rw.maxRange) && range1.Contains(p) && range2.Contains(p)
    ensures Below(r, Fold(AddWrite(AddRead(rw, range1, r).0, range2, w).1))
  {
    var rw1 := AddRead(rw, range1, r).0;
    var olds := AddWrite(rw1, range2, w).1;
    assert rw1.Latest()[p] == rw1.readsSince[p];
    FoldIsLeastUpperBound(olds, Empty);
    BelowTransitive(r, rw1.readsSince[p], Fold(olds));
  }

  /**
   * As written, the first read of a fresh buffer is never recorded, so a
   * write after it reports nothing and gets no barrier: reading byte 0 in a
   * fragment shader and then writing it by a transfer leaves the transfer
   * unordered after the read. The corrected read makes the write wait on it.
   */
  lemma FirstReadIsLostAsWritten()
    ensures var rw := NewResourceRW(Interval(0, 0));
      var read := Read(STAGE_FRAGMENT_SHADER, SHADER_READ);
      var write := Write(STAGE_TRANSFER, TRANSFER_WRITE);
      && AddWrite(AddReadAsWritten(rw, Interval(0, 0), read).0, Interval(0, 0), write).1 == []
      && BufferBarrier(AddWrite(AddReadAsWritten(rw, Interval(0, 0), read).0, Interval(0, 0), write).1,
           BufferAccess(STAGE_TRANSFER, TRANSFER_WRITE, 0, 1)).None?
      && AddWrite(AddRead(rw, Interval(0, 0), read).0, Interval(0, 0), write).1 == [read]
  {
    var rw := NewResourceRW(Interval(0, 0));
    var read := Read(STAGE_FRAGMENT_SHADER, SHADER_READ);
    var write := Write(STAGE_TRANSFER, TRANSFER_WRITE);
    var lost := AddReadAsWritten(rw, Interval(0, 0), read).0;
    assert lost.readsSince == map[] && lost.Latest() == map[];
    var kept := AddRead(rw, Interval(0, 0), read).0;
    assert Points(Interval(0, 0)) == {0} by {
      assert forall p: nat :: p in Points(Interval(0, 0)) <==> p == 0;
    }
    assert kept.readsSince == map[0 := read];
    assert kept.Latest() == map[0 := read];
    assert PointValues(kept.Latest(), 1, 0) == [];
  }

  // ---------------------------------------------------------------------------
  // Image layouts and the segments `add_image_access` works on

  /** One stored layout segment: a run of mip levels in the same layout. */
  datatype Segment = Segment(range: Interval, layout: ImageLayout)

  /** The layouts of an image's mip levels `maxRange`. */
  datatype Layouts = Layouts(maxRange: Interval, view: map<nat, ImageLayout>)
  {
    /** The invariant of `image_layouts`: every level of the image has a layout. */
    predicate Full()
    {
      maxRange.IsValid() && maxRange.start == 0 && view.Keys == Points(maxRange)
    }
  }

  /** A layout map as created on an image's first access: every level UNDEFINED. */
  function NewLayouts(maxRange: Interval): (l: Layouts)
    requires maxRange.IsValid() && maxRange.start == 0
    ensures l.Full() && forall p | p in l.view :: l.view[p] == UNDEFINED
  {
    Layouts(maxRange, map p | p in Points(maxRange) :: UNDEFINED)
  }

  /**
   * `segs` tile the levels `[s, e]` exactly, in order, each in one layout of
   * `view`, adjacent ones in different layouts.
   */
  ghost predicate SegmentsTile(segs: seq<Segment>, s: int, e: int, view: map<nat, ImageLayout>)
  {
    && |segs| > 0 && segs[0].range.start == s && segs[|segs| - 1].range.end == e
    && (forall i | 0 <= i < |segs| :: s <= segs[i].range.start <= segs[i].range.end <= e)
    && (forall i | 0 <= i < |segs| - 1 :: segs[i + 1].range.start == segs[i].range.end + 1)
    && (forall i | 0 <= i < |segs| - 1 :: segs[i].layout != segs[i + 1].layout)
    && (forall i, p: nat | 0 <= i < |segs| && segs[i].range.Contains(p) :: p in view && view[p] == segs[i].layout)
  }

  /** The last level of the run of equal layouts that starts at `s`, up to `e`. */
  function RunEnd(view: map<nat, ImageLayout>, s: nat, e: nat): (j: nat)
    requires s <= e && forall p | s <= p <= e :: p in view
    ensures s <= j <= e
    ensures forall p | s <= p <= j :: view[p] == view[s]
    ensures j < e ==> view[j + 1] != view[s]
    decreases e - s
  {
    if s == e || view[s + 1] != view[s] then s else RunEnd(view, s + 1, e)
  }

  /**
   * The layout segments over `[s, e]`, as the layout map's `overwrite`
   * reports them: maximal runs of one layout, in order, tiling the range.
   * These are the facts `add_image_access` asserts about them: there is at
   * least one, each lies in the range, the first starts and the last ends
   * with it.
   */
  function LayoutSegments(view: map<nat, ImageLayout>, s: nat, e: nat): (r: seq<Segment>)
    requires s <= e && forall p | s <= p <= e :: p in view
    ensures SegmentsTile(r, s, e, view)
    decreases e - s
  {
    var j := RunEnd(view, s, e);
    var head := Segment(Interval(s, j), view[s]);
    if j == e then [head]
    else
      var rest := LayoutSegments(view, j + 1, e);
      TileCons(head, rest, j, e, view);
      [head] + rest
  }

  /** A run of one layout followed by a tiling of the levels after it, in another layout, tiles them all. */
  lemma TileCons(head: Segment, rest: seq<Segment>, j: int, e: int, view: map<nat, ImageLayout>)
    requires head.range.start <= j < e && head.range.end == j
    requires forall p: nat | head.range.Contains(p) :: p in view && view[p] == head.layout
    requires j + 1 in view && view[j + 1] != head.layout
    requires SegmentsTile(rest, j + 1, e, view)
    ensures SegmentsTile([head] + rest, head.range.start, e, view)
  {
    var r := [head] + rest;
    assert r[|r| - 1] == rest[|rest| - 1];
    TileConsBounds(head, rest, e);
    TileConsAdjacent(head, rest);
    assert rest[0].range.Contains(j + 1);
    TileConsLayoutsDiffer(head, rest);
    TileConsLayouts(head, rest, view);
  }

  /** Segments in front of which one ends right before them all stay within the run from its start. */
  lemma TileConsBounds(head: Segment, rest: seq<Segment>, e: int)
    requires head.range.start <= head.range.end < e
    requires forall i | 0 <= i < |rest| :: head.range.end + 1 <= rest[i].range.start <= rest[i].range.end <= e
    ensures var r := [head] + rest;
      forall i | 0 <= i < |r| :: head.range.start <= r[i].range.start <= r[i].range.end <= e
  {
    var r := [head] + rest;
    forall i | 0 <= i < |r|
      ensures head.range.start <= r[i].range.start <= r[i].range.end <= e
    {
      if i > 0 {
        assert r[i] == rest[i - 1];
      }
    }
  }

  /** A segment that ends right before the first of adjacent segments keeps them adjacent. */
  lemma TileConsAdjacent(head: Segment, rest: seq<Segment>)
    requires |rest| > 0 && rest[0].range.start == head.range.end + 1
    requires forall i | 0 <= i < |rest| - 1 :: rest[i + 1].range.start == rest[i].range.end + 1
    ensures var r := [head] + rest;
      forall i | 0 <= i < |r| - 1 :: r[i + 1].range.start == r[i].range.end + 1
  {
    var r := [head] + rest;
    forall i | 0 <= i < |r| - 1
      ensures r[i + 1].range.start == r[i].range.end + 1
    {
      if i > 0 {
        assert r[i] == rest[i - 1] && r[i + 1] == rest[i];
      }
    }
  }

  /** A segment whose layout differs from the first of segments with alternating layouts keeps them alternating. */
  lemma TileConsLayoutsDiffer(head: Segment, rest: seq<Segment>)
    requires |rest| > 0 && rest[0].layout != head.layout
    requires forall i | 0 <= i < |rest| - 1 :: rest[i].layout != rest[i + 1].layout
    ensures var r := [head] + rest;
      forall i | 0 <= i < |r| - 1 :: r[i].layout != r[i + 1].layout
  {
    var r := [head] + rest;
    forall i | 0 <= i < |r| - 1
      ensures r[i].layout != r[i + 1].layout
    {
      if i > 0 {
        assert r[i] == rest[i - 1] && r[i + 1] == rest[i];
      }
    }
  }

  /** Every level of a segment in front of segments that keep their levels' layouts keeps its own. */
  lemma TileConsLayouts(head: Segment, rest: seq<Segment>, view: map<nat, ImageLayout>)
    requires forall p: nat | head.range.Contains(p) :: p in view && view[p] == head.layout
    requires forall i, p: nat | 0 <= i < |rest| && rest[i].range.Contains(p) :: p in view && view[p] == rest[i].layout
    ensures var r := [head] + rest;
      forall i, p: nat | 0 <= i < |r| && r[i].range.Contains(p) :: p in view && view[p] == r[i].layout
  {
    var r := [head] + rest;
    forall i, p: nat | 0 <= i < |r| && r[i].range.Contains(p)
      ensures p in view && view[p] == r[i].layout
    {
      if i > 0 {
        assert r[i] == rest[i - 1] && rest[i - 1].range.Contains(p);
      }
    }
  }

  /** One segment's update of `add_image_access`: a write or a read, as the layout change decides. */
  function SegmentStep(rw: ResourceRW, seg: Segment, access: ImageAccess): (r: (ResourceRW, seq<AccessInfo>))
    requires rw.Valid() && FitsIn(rw.maxRange, seg.range)
    ensures r.0.Valid() && r.0.maxRange == rw.maxRange
  {
    if access.IsWrite(Some(seg.layout)) then AddWrite(rw, seg.range, Write(access.stage, access.access))
    else AddRead(rw, seg.range, Read(access.stage, access.access))
  }

  /** What `add_image_access` returns per segment: its levels, its old layout, the accesses to wait on. */
  datatype SegmentResult = SegmentResult(range: Interval, oldLayout: ImageLayout, olds: seq<AccessInfo>)

  /** The segments inside `maxRange`. */
  predicate SegmentsWithin(segs: seq<Segment>, maxRange: Interval)
  {
    forall i | 0 <= i < |segs| :: segs[i].range.IsValid() && segs[i].range.Within(maxRange)
  }

  /** The segments' updates applied in order, with their results. */
  function ApplySegments(rw: ResourceRW, segs: seq<Segment>, access: ImageAccess): (r: (ResourceRW, seq<SegmentResult>))
    requires rw.Valid() && SegmentsWithin(segs, rw.maxRange)
    ensures r.0.Valid() && r.0.maxRange == rw.maxRange
    ensures |r.1| == |segs|
    ensures forall i | 0 <= i < |segs| :: r.1[i].range == segs[i].range && r.1[i].oldLayout == segs[i].layout
  {
    if segs == [] then (rw, [])
    else
      var init, last := segs[..|segs| - 1], segs[|segs| - 1];
      assert forall i | 0 <= i < |init| :: init[i] == segs[i];
      var prefix := ApplySegments(rw, init, access);
      var step := SegmentStep(prefix.0, last, access);
      (step.0, prefix.1 + [SegmentResult(last.range, last.layout, step.1)])
  }

  /** The levels of `range` (inside the image) that `access` writes, given their old layouts. */
  function WrittenLevels(rw: ResourceRW, range: Interval, view: map<nat, ImageLayout>, access: ImageAccess): set<nat>
  {
    set p | p in Points(range) * Points(rw.maxRange) && p in view && access.IsWrite(Some(view[p]))
  }

  /** The levels of `range` (inside the image) that `access` only reads, given their old layouts. */
  function ReadLevels(rw: ResourceRW, range: Interval, view: map<nat, ImageLayout>, access: ImageAccess): set<nat>
  {
    set p | p in Points(range) * Points(rw.maxRange) && p in view && !access.IsWrite(Some(view[p]))
  }

  /**
   * The effect of an image access level by level: a level whose layout
   * changes, or that the flags write, records the access as its write and
   * loses its reads; any other level adds the access to its reads.
   */
  function ImageUpdate(rw: ResourceRW, range: Interval, view: map<nat, ImageLayout>, access: ImageAccess): ResourceRW
  {
    var w := WrittenLevels(rw, range, view, access);
    var rd := ReadLevels(rw, range, view, access);
    var value := Read(access.stage, access.access);
    rw.(write := map p | p in rw.write.Keys + w :: if p in w then Write(access.stage, access.access) else rw.write[p],
        readsSince := map p | p in (rw.readsSince.Keys - w) + rd ::
          if p !in rd then rw.readsSince[p]
          else if p in rw.readsSince then Combine(rw.readsSince[p], value)
          else value)
  }

  /** An access over no levels changes nothing. */
  lemma ImageUpdateOfNothing(rw: ResourceRW, s: int, view: map<nat, ImageLayout>, access: ImageAccess)
    ensures ImageUpdate(rw, Interval(s, s - 1), view, access) == rw
  {
    assert Points(Interval(s, s - 1)) == {};
    var u := ImageUpdate(rw, Interval(s, s - 1), view, access);
    assert u.write == rw.write;
    assert u.readsSince == rw.readsSince;
  }

  /** Two maps agree at `p`. */
  predicate SameAt(m1: map<nat, AccessInfo>, m2: map<nat, AccessInfo>, p: nat)
  {
    (p in m1 <==> p in m2) && (p in m1 ==> m1[p] == m2[p])
  }

  lemma MapsAgreeEverywhere(m1: map<nat, AccessInfo>, m2: map<nat, AccessInfo>)
    requires forall p: nat :: SameAt(m1, m2, p)
    ensures m1 == m2
  {
    forall p | p in m1
      ensures p in m2 && m1[p] == m2[p]
    {
      assert SameAt(m1, m2, p);
    }
    forall p | p in m2
      ensures p in m1
    {
      assert SameAt(m1, m2, p);
    }
  }

  /** A written segment extends the level-by-level update. */
  lemma WrittenSegmentExtends(rw: ResourceRW, s: int, e: int, seg: Segment, view: map<nat, ImageLayout>, access: ImageAccess)
    requires rw.Valid() && seg.range.IsValid() && seg.range.Within(rw.maxRange)
    requires seg.range.start == e + 1 && s <= e + 1
    requires forall p: nat | seg.range.Contains(p) :: p in view && view[p] == seg.layout
    requires access.IsWrite(Some(seg.layout))
    ensures AddWrite(ImageUpdate(rw, Interval(s, e), view, access), seg.range, Write(access.stage, access.access)).0
      == ImageUpdate(rw, Interval(s, seg.range.end), view, access)
  {
    var after := AddWrite(ImageUpdate(rw, Interval(s, e), view, access), seg.range, Write(access.stage, access.access)).0;
    var target := ImageUpdate(rw, Interval(s, seg.range.end), view, access);
    forall p: nat
      ensures SameAt(after.write, target.write, p) && SameAt(after.readsSince, target.readsSince, p)
    {
      if seg.range.Contains(p) {
        WrittenSegmentExtendsInside(rw, s, e, seg, view, access, p);
      } else {
        WrittenSegmentExtendsOutside(rw, s, e, seg, view, access, p);
      }
    }
    MapsAgreeEverywhere(after.write, target.write);
    MapsAgreeEverywhere(after.readsSince, target.readsSince);
  }

  /** A level of a written segment: the write replaces its write and its reads. */
  lemma WrittenSegmentExtendsInside(rw: ResourceRW, s: int, e: int, seg: Segment, view: map<nat, ImageLayout>, access: ImageAccess, p: nat)
    requires rw.Valid() && seg.range.IsValid() && seg.range.Within(rw.maxRange)
    requires seg.range.start == e + 1 && s <= e + 1
    requires forall p: nat | seg.range.Contains(p) :: p in view && view[p] == seg.layout
    requires access.IsWrite(Some(seg.layout))
    requires seg.range.Contains(p)
    ensures var after := AddWrite(ImageUpdate(rw, Interval(s, e), view, access), seg.range, Write(access.stage, access.access)).0;
      var target := ImageUpdate(rw, Interval(s, seg.range.end), view, access);
      SameAt(after.write, target.write, p) && SameAt(after.readsSince, target.readsSince, p)
  {
    assert p in Points(rw.maxRange) && p in WrittenLevels(rw, Interval(s, seg.range.end), view, access)
      && p !in ReadLevels(rw, Interval(s, seg.range.end), view, access);
  }

  /** A level outside a written segment: the write changes nothing there. */
  lemma WrittenSegmentExtendsOutside(rw: ResourceRW, s: int, e: int, seg: Segment, view: map<nat, ImageLayout>, access: ImageAccess, p: nat)
    requires rw.Valid() && seg.range.IsValid() && seg.range.Within(rw.maxRange)
    requires seg.range.start == e + 1 && s <= e + 1
    requires !seg.range.Contains(p)
    ensures var after := AddWrite(ImageUpdate(rw, Interval(s, e), view, access), seg.range, Write(access.stage, access.access)).0;
      var target := ImageUpdate(rw, Interval(s, seg.range.end), view, access);
      SameAt(after.write, target.write, p) && SameAt(after.readsSince, target.readsSince, p)
  {
    assert p in WrittenLevels(rw, Interval(s, seg.range.end), view, access) <==> p in WrittenLevels(rw, Interval(s, e), view, access);
    assert p in ReadLevels(rw, Interval(s, seg.range.end), view, access) <==> p in ReadLevels(rw, Interval(s, e), view, access);
  }

  /** A read segment extends the level-by-level update. */
  lemma ReadSegmentExtends(rw: ResourceRW, s: int, e: int, seg: Segment, view: map<nat, ImageLayout>, access: ImageAccess)
    requires rw.Valid() && seg.range.IsValid() && seg.range.Within(rw.maxRange)
    requires seg.range.start == e + 1 && s <= e + 1
    requires forall p: nat | seg.range.Contains(p) :: p in view && view[p] == seg.layout
    requires !access.IsWrite(Some(seg.layout))
    ensures AddRead(ImageUpdate(rw, Interval(s, e), view, access), seg.range, Read(access.stage, access.access)).0
      == ImageUpdate(rw, Interval(s, seg.range.end), view, access)
  {
    var after := AddRead(ImageUpdate(rw, Interval(s, e), view, access), seg.range, Read(access.stage, access.access)).0;
    var target := ImageUpdate(rw, Interval(s, seg.range.end), view, access);
    forall p: nat
      ensures SameAt(after.write, target.write, p) && SameAt(after.readsSince, target.readsSince, p)
    {
      if seg.range.Contains(p) {
        ReadSegmentExtendsInside(rw, s, e, seg, view, access, p);
      } else {
        ReadSegmentExtendsOutside(rw, s, e, seg, view, access, p);
      }
    }
    MapsAgreeEverywhere(after.write, target.write);
    MapsAgreeEverywhere(after.readsSince, target.readsSince);
  }

  /** A level of a read segment: the read is added to its reads and its write stays. */
  lemma ReadSegmentExtendsInside(rw: ResourceRW, s: int, e: int, seg: Segment, view: map<nat, ImageLayout>, access: ImageAccess, p: nat)
    requires rw.Valid() && seg.range.IsValid() && seg.range.Within(rw.maxRange)
    requires seg.range.start == e + 1 && s <= e + 1
    requires forall p: nat | seg.range.Contains(p) :: p in view && view[p] == seg.layout
    requires !access.IsWrite(Some(seg.layout))
    requires seg.range.Contains(p)
    ensures var after := AddRead(ImageUpdate(rw, Interval(s, e), view, access), seg.range, Read(access.stage, access.access)).0;
      var target := ImageUpdate(rw, Interval(s, seg.range.end), view, access);
      SameAt(after.write, target.write, p) && SameAt(after.readsSince, target.readsSince, p)
  {
    var before := ImageUpdate(rw, Interval(s, e), view, access);
    var after := AddRead(before, seg.range, Read(access.stage, access.access)).0;
    assert after.readsSince == ReadsWith(before, seg.range, Read(access.stage, access.access));
    assert p in Points(rw.maxRange) && p !in WrittenLevels(rw, Interval(s, seg.range.end), view, access)
      && p in ReadLevels(rw, Interval(s, seg.range.end), view, access);
    assert p !in WrittenLevels(rw, Interval(s, e), view, access) && p !in ReadLevels(rw, Interval(s, e), view, access);
  }

  /** A level outside a read segment: the read changes nothing there. */
  lemma ReadSegmentExtendsOutside(rw: ResourceRW, s: int, e: int, seg: Segment, view: map<nat, ImageLayout>, access: ImageAccess, p: nat)
    requires rw.Valid() && seg.range.IsValid() && seg.range.Within(rw.maxRange)
    requires seg.range.start == e + 1 && s <= e + 1
    requires !seg.range.Contains(p)
    ensures var after := AddRead(ImageUpdate(rw, Interval(s, e), view, access), seg.range, Read(access.stage, access.access)).0;
      var target := ImageUpdate(rw, Interval(s, seg.range.end), view, access);
      SameAt(after.write, target.write, p) && SameAt(after.readsSince, target.readsSince, p)
  {
    assert p in WrittenLevels(rw, Interval(s, seg.range.end), view, access) <==> p in WrittenLevels(rw, Interval(s, e), view, access);
    assert p in ReadLevels(rw, Interval(s, seg.range.end), view, access) <==> p in ReadLevels(rw, Interval(s, e), view, access);
  }

  /**
   * Applying one more segment, adjacent to the levels already updated and
   * in one layout, extends the level-by-level update by that segment.
   */
  lemma SegmentStepExtends(rw: ResourceRW, s: int, e: int, seg: Segment, view: map<nat, ImageLayout>, access: ImageAccess)
    requires rw.Valid() && seg.range.IsValid() && seg.range.Within(rw.maxRange)
    requires seg.range.start == e + 1 && s <= e + 1
    requires forall p: nat | seg.range.Contains(p) :: p in view && view[p] == seg.layout
    ensures ImageUpdate(rw, Interval(s, e), view, access).Valid()
    ensures SegmentStep(ImageUpdate(rw, Interval(s, e), view, access), seg, access).0
      == ImageUpdate(rw, Interval(s, seg.range.end), view, access)
  {
    if access.IsWrite(Some(seg.layout)) {
      WrittenSegmentExtends(rw, s, e, seg, view, access);
    } else {
      ReadSegmentExtends(rw, s, e, seg, view, access);
    }
  }

  /** `segs` tile the levels from `s` on, in order, each in one layout of `view`. */
  ghost predicate Tiling(segs: seq<Segment>, s: int, view: map<nat, ImageLayout>, maxRange: Interval)
  {
    && SegmentsWithin(segs, maxRange)
    && (|segs| > 0 ==> segs[0].range.start == s)
    && (forall i | 0 <= i < |segs| :: s <= segs[i].range.start)
    && (forall i | 0 < i < |segs| :: segs[i].range.start == segs[i - 1].range.end + 1)
    && (forall i, p: nat | 0 <= i < |segs| && segs[i].range.Contains(p) :: p in view && view[p] == segs[i].layout)
  }

  /** Segments tiling `[s, e]` inside `maxRange` form a tiling that ends at `e`. */
  lemma TileIsTiling(segs: seq<Segment>, s: int, e: int, view: map<nat, ImageLayout>, maxRange: Interval)
    requires SegmentsTile(segs, s, e, view) && Interval(s, e).Within(maxRange)
    ensures Tiling(segs, s, view, maxRange) && TilingEnd(segs, s) == e
  {
  }

  /** The last level a tiling from `s` covers. */
  function TilingEnd(segs: seq<Segment>, s: int): int
  {
    if segs == [] then s - 1 else segs[|segs| - 1].range.end
  }

  /** Dropping the last segment of a tiling leaves a tiling, which ends just before it. */
  lemma TilingPrefix(segs: seq<Segment>, s: int, view: map<nat, ImageLayout>, maxRange: Interval)
    requires Tiling(segs, s, view, maxRange) && |segs| > 0
    ensures Tiling(segs[..|segs| - 1], s, view, maxRange)
    ensures segs[|segs| - 1].range.start == TilingEnd(segs[..|segs| - 1], s) + 1
    ensures segs[|segs| - 1].range.IsValid() && segs[|segs| - 1].range.Within(maxRange)
    ensures forall p: nat | segs[|segs| - 1].range.Contains(p) :: p in view && view[p] == segs[|segs| - 1].layout
  {
  }

  /** Running the segments of a tiling in order performs the level-by-level update over it. */
  lemma {:induction false} ApplyTilingIsImageUpdate(rw: ResourceRW, segs: seq<Segment>, s: int, view: map<nat, ImageLayout>, access: ImageAccess)
    requires rw.Valid() && Tiling(segs, s, view, rw.maxRange)
    ensures ApplySegments(rw, segs, access).0 == ImageUpdate(rw, Interval(s, TilingEnd(segs, s)), view, access)
  {
    if segs == [] {
      ImageUpdateOfNothing(rw, s, view, access);
    } else {
      var init := segs[..|segs| - 1];
      var last := segs[|segs| - 1];
      TilingPrefix(segs, s, view, rw.maxRange);
      ApplyTilingIsImageUpdate(rw, init, s, view, access);
      var e := TilingEnd(init, s);
      var mid := ApplySegments(rw, init, access).0;
      assert ApplySegments(rw, segs, access).0 == SegmentStep(mid, last, access).0;
      assert mid == ImageUpdate(rw, Interval(s, e), view, access);
      SegmentStepExtends(rw, s, e, last, view, access);
    }
  }

  /**
   * `add_image_access`'s segment loop performs the level-by-level update:
   * running the layout segments of `[s, e]` in order equals `ImageUpdate` over it.
   */
  lemma ApplySegmentsIsImageUpdate(rw: ResourceRW, view: map<nat, ImageLayout>, s: nat, e: nat, access: ImageAccess)
    requires rw.Valid() && s <= e && Interval(s, e).Within(rw.maxRange)
    requires forall p | s <= p <= e :: p in view
    ensures SegmentsWithin(LayoutSegments(view, s, e), rw.maxRange)
    ensures ApplySegments(rw, LayoutSegments(view, s, e), access).0 == ImageUpdate(rw, Interval(s, e), view, access)
  {
    var segs := LayoutSegments(view, s, e);
    TileIsTiling(segs, s, e, view, rw.maxRange);
    ApplyTilingIsImageUpdate(rw, segs, s, view, access);
  }

  // ---------------------------------------------------------------------------
  // SyncManagerInternal

  /** Every tracked buffer's history is well formed. */
  predicate BuffersValid(buffers: map<nat, ResourceRW>)
  {
    forall k | k in buffers :: buffers[k].Valid()
  }

  /**
   * Every tracked image's history is well formed and has a layout map over
   * the same mip levels, and every layout map covers all its levels (the
   * documented invariant of `image_layouts`).
   */
  predicate ImagesValid(images: map<nat, ResourceRW>, layouts: map<nat, Layouts>)
  {
    && (forall k | k in images :: images[k].Valid() && k in layouts && images[k].maxRange == layouts[k].maxRange)
    && (forall k | k in layouts :: layouts[k].Full())
  }

  /** The history of buffer `key`, or a fresh one over `[0, size)` when there is none (`or_insert_with`). */
  function BufferEntry(buffers: map<nat, ResourceRW>, key: nat, size: nat): (rw: ResourceRW)
    requires BuffersValid(buffers) && (key in buffers || size > 0)
    ensures rw.Valid()
    ensures key !in buffers ==> rw == NewResourceRW(Ie(0, size))
  {
    if key in buffers then buffers[key] else NewResourceRW(Ie(0, size))
  }

  /** The history of image `key`, or a fresh one over its `count` levels. */
  function ImageEntry(images: map<nat, ResourceRW>, layouts: map<nat, Layouts>, key: nat, count: nat): (rw: ResourceRW)
    requires ImagesValid(images, layouts) && count > 0
    requires key in layouts ==> layouts[key].maxRange == Ie(0, count)
    ensures rw.Valid() && rw.maxRange == Ie(0, count)
    ensures key !in images ==> rw == NewResourceRW(Ie(0, count))
  {
    if key in images then images[key] else NewResourceRW(Ie(0, count))
  }

  /** The layouts of image `key`, or all UNDEFINED over its `count` levels when it has none yet. */
  function LayoutsEntry(layouts: map<nat, Layouts>, key: nat, count: nat): (l: Layouts)
    requires (forall k | k in layouts :: layouts[k].Full()) && count > 0
    requires key in layouts ==> layouts[key].maxRange == Ie(0, count)
    ensures l.Full() && l.maxRange == Ie(0, count)
    ensures key !in layouts ==> l == NewLayouts(Ie(0, count))
  {
    if key in layouts then layouts[key] else NewLayouts(Ie(0, count))
  }

  /** A buffer access's update of its history: a write or a read, as its flags decide. */
  function BufferStep(rw: ResourceRW, range: Interval, access: BufferAccess): (r: (ResourceRW, seq<AccessInfo>))
    requires rw.Valid() && FitsIn(rw.maxRange, range)
    ensures r.0.Valid() && r.0.maxRange == rw.maxRange
    ensures access.IsWrite() ==> r == AddWrite(rw, range, Write(access.stage, access.access))
    ensures !access.IsWrite() ==> r == AddRead(rw, range, Read(access.stage, access.access))
  {
    if access.IsWrite() then AddWrite(rw, range, Write(access.stage, access.access))
    else AddRead(rw, range, Read(access.stage, access.access))
  }

  /** Whether `access` on an image of `count` levels is one the tracker accepts. */
  predicate ImageAccessFits(layouts: map<nat, Layouts>, key: nat, count: nat, access: ImageAccess)
  {
    && count > 0
    && access.subresourceRange.baseArrayLayer == 0 && access.subresourceRange.layerCount == 1
    && access.Range().IsValid() && access.Range().Within(Ie(0, count))
    && (key in layouts ==> layouts[key].maxRange == Ie(0, count))
  }

  /** The stored segments of old layouts over the levels of an image access. */
  function StoredSegments(layouts: map<nat, Layouts>, key: nat, count: nat, access: ImageAccess): (segs: seq<Segment>)
    requires (forall k | k in layouts :: layouts[k].Full()) && ImageAccessFits(layouts, key, count, access)
    ensures SegmentsWithin(segs, Ie(0, count))
  {
    LayoutSegments(LayoutsEntry(layouts, key, count).view, access.Range().start, access.Range().end)
  }

  /** The layouts of an image after an access: its levels take the access's layout. */
  function LayoutsAfter(layouts: map<nat, Layouts>, key: nat, count: nat, access: ImageAccess): (l: Layouts)
    requires (forall k | k in layouts :: layouts[k].Full()) && ImageAccessFits(layouts, key, count, access)
    ensures l.Full() && l.maxRange == Ie(0, count)
  {
    Layouts(Ie(0, count), PointOverwrite(LayoutsEntry(layouts, key, count).view, access.Range(), access.layout))
  }

  /** Recording the stored segments of an access one by one is the level-by-level update. */
  lemma StoredSegmentsUpdateImage(images: map<nat, ResourceRW>, layouts: map<nat, Layouts>, key: nat, count: nat, access: ImageAccess)
    requires ImagesValid(images, layouts) && ImageAccessFits(layouts, key, count, access)
    ensures ApplySegments(ImageEntry(images, layouts, key, count), StoredSegments(layouts, key, count, access), access).0
      == ImageUpdate(ImageEntry(images, layouts, key, count), access.Range(), LayoutsEntry(layouts, key, count).view, access)
  {
    ApplySegmentsIsImageUpdate(ImageEntry(images, layouts, key, count), LayoutsEntry(layouts, key, count).view,
      access.Range().start, access.Range().end, access);
  }

  /**
   * `add_image_access` on the tracker's maps: the levels of the access take
   * its layout, and the image's history after it is the level-by-level
   * `ImageUpdate` over the old layouts. It also returns, per stored segment
   * of old layouts, its levels, that layout and the accesses to wait on.
   */
  function ImageAccessStep(images: map<nat, ResourceRW>, layouts: map<nat, Layouts>, key: nat, count: nat, access: ImageAccess)
    : (r: (map<nat, ResourceRW>, map<nat, Layouts>, seq<SegmentResult>))
    requires ImagesValid(images, layouts) && ImageAccessFits(layouts, key, count, access)
    ensures ImagesValid(r.0, r.1)
    ensures r.1 == layouts[key := LayoutsAfter(layouts, key, count, access)]
  {
    var applied := ApplySegments(ImageEntry(images, layouts, key, count), StoredSegments(layouts, key, count, access), access);
    (images[key := applied.0], layouts[key := LayoutsAfter(layouts, key, count, access)], applied.1)
  }

  /**
   * Level by level, `add_image_access` records the access as a write where
   * the layout changes or the flags write, and as a read elsewhere.
   */
  lemma ImageAccessIsLevelwise(images: map<nat, ResourceRW>, layouts: map<nat, Layouts>, key: nat, count: nat, access: ImageAccess)
    requires ImagesValid(images, layouts) && ImageAccessFits(layouts, key, count, access)
    ensures ImageAccessStep(images, layouts, key, count, access).0[key]
      == ImageUpdate(ImageEntry(images, layouts, key, count), access.Range(), LayoutsEntry(layouts, key, count).view, access)
  {
    StoredSegmentsUpdateImage(images, layouts, key, count, access);
  }

  /** The segments and old layouts of `add_image_access`'s report. */
  function Reported(rs: seq<SegmentResult>): (segs: seq<Segment>)
    ensures |segs| == |rs|
    ensures forall i | 0 <= i < |rs| :: segs[i] == Segment(rs[i].range, rs[i].oldLayout)
  {
    seq(|rs|, i requires 0 <= i < |rs| => Segment(rs[i].range, rs[i].oldLayout))
  }

  /**
   * The segments `add_image_access` reports tile the accessed levels
   * exactly, in order, each in one old layout and adjacent ones in different
   * layouts: the facts the source asserts about them.
   */
  lemma ImageAccessReportsItsLevels(images: map<nat, ResourceRW>, layouts: map<nat, Layouts>, key: nat, count: nat, access: ImageAccess)
    requires ImagesValid(images, layouts) && ImageAccessFits(layouts, key, count, access)
    ensures var rs := ImageAccessStep(images, layouts, key, count, access).2;
      && SegmentsTile(Reported(rs), access.Range().start, access.Range().end, LayoutsEntry(layouts, key, count).view)
      && |rs| > 0 && forall i | 0 <= i < |rs| :: rs[i].range.IsValid() && rs[i].range.start >= 0
  {
    var l := LayoutsEntry(layouts, key, count);
    var range := access.Range();
    var segs := StoredSegments(layouts, key, count, access);
    var rw := ImageEntry(images, layouts, key, count);
    assert ImageAccessStep(images, layouts, key, count, access).2 == ApplySegments(rw, segs, access).1;
    ApplySegmentsReports(rw, segs, access);
    FullCovers(l, range);
  }

  /**
   * As written, the first access to a one-level image trips the assert that
   * old layouts were found (`old_layouts.len() > 0`): the layout map over
   * [0, 0] is created as `All(None)`, filling it with UNDEFINED is skipped
   * because the one-point key counts as empty, and so is the access's own
   * overwrite, which returns nothing. The corrected tracker reports the
   * level's old layout.
   */
  lemma OneLevelImageFindsNoLayoutsAsWritten(access: ImageAccess)
    requires access.subresourceRange.baseMipLevel == 0 && access.subresourceRange.levelCount == 1
    requires access.subresourceRange.baseArrayLayer == 0 && access.subresourceRange.layerCount == 1
    ensures var created := OverwriteAsWritten(Ie(0, 1), map[], All(None), Ie(0, 1), UNDEFINED).0;
      && created == All(None)
      && OverwriteAsWritten(Ie(0, 1), map[], created, access.Range(), access.layout).1 == {}
    ensures |ImageAccessStep(map[], map[], 0, 1, access).2| > 0
  {
    AsWrittenSkipsOnePointKeys(Ie(0, 1), map[], All(None), 0, UNDEFINED, UNDEFINED);
    ImageAccessReportsItsLevels(map[], map[], 0, 1, access);
  }

  /** A full layout map has a layout for every level of a range inside the image. */
  lemma FullCovers(l: Layouts, range: Interval)
    requires l.Full() && range.IsValid() && range.Within(l.maxRange)
    ensures range.start >= 0
    ensures forall p | range.start <= p <= range.end :: p in l.view
  {
    forall p | range.start <= p <= range.end
      ensures p in l.view
    {
      assert p in Points(l.maxRange);
    }
  }

  /** Applying segments reports each of them with its old layout. */
  lemma ApplySegmentsReports(rw: ResourceRW, segs: seq<Segment>, access: ImageAccess)
    requires rw.Valid() && SegmentsWithin(segs, rw.maxRange)
    ensures Reported(ApplySegments(rw, segs, access).1) == segs
    ensures forall i | 0 <= i < |segs| :: segs[i].range.IsValid() && segs[i].range.start >= rw.maxRange.start
  {
    var rs := ApplySegments(rw, segs, access).1;
    assert forall i | 0 <= i < |segs| :: Reported(rs)[i] == segs[i];
  }

  /** The barriers for one image access: one per stored segment of its levels. */
  function ImageBarriers(results: seq<SegmentResult>, access: ImageAccess): (r: seq<ImageMemoryBarrier>)
    requires forall i | 0 <= i < |results| :: results[i].range.IsValid() && results[i].range.start >= 0
    ensures |r| == |results|
    ensures forall i | 0 <= i < |r| ::
      r[i] == ImageBarrier(results[i].range, results[i].oldLayout, results[i].olds, access)
  {
    seq(|results|, i requires 0 <= i < |results| =>
      ImageBarrier(results[i].range, results[i].oldLayout, results[i].olds, access))
  }

  /**
   * The loop of `add_image_access` over the stored segments: each is recorded
   * in the image's history in turn and reported with what it waits on.
   */
  method RecordSegments(entry0: ResourceRW, segs: seq<Segment>, access: ImageAccess) returns (entry: ResourceRW, results: seq<SegmentResult>)
    requires entry0.Valid() && SegmentsWithin(segs, entry0.maxRange)
    ensures (entry, results) == ApplySegments(entry0, segs, access)
  {
    entry := entry0;
    results := [];
    var i := 0;
    while i < |segs|
      invariant 0 <= i <= |segs|
      invariant SegmentsWithin(segs[..i], entry0.maxRange)
      invariant (entry, results) == ApplySegments(entry0, segs[..i], access)
    {
      assert segs[..i + 1][..i] == segs[..i];
      var step := SegmentStep(entry, segs[i], access);
      results := results + [SegmentResult(segs[i].range, segs[i].layout, step.1)];
      entry := step.0;
      i := i + 1;
    }
    assert segs[..i] == segs;
  }

  /** The maps of `add_image_access` after recording an access: its segments one by one, then the new layouts. */
  method RecordImageAccess(images0: map<nat, ResourceRW>, layouts0: map<nat, Layouts>, key: nat, count: nat, access: ImageAccess)
    returns (images: map<nat, ResourceRW>, layouts: map<nat, Layouts>, results: seq<SegmentResult>)
    requires ImagesValid(images0, layouts0) && ImageAccessFits(layouts0, key, count, access)
    ensures (images, layouts, results) == ImageAccessStep(images0, layouts0, key, count, access)
  {
    var segs := StoredSegments(layouts0, key, count, access);
    var entry;
    entry, results := RecordSegments(ImageEntry(images0, layouts0, key, count), segs, access);
    images := images0[key := entry];
    layouts := layouts0[key := LayoutsAfter(layouts0, key, count, access)];
  }

  /** One entry of `add_accesses`' buffer list: the buffer's key and the access. */
  datatype BufferUse = BufferUse(key: nat, access: BufferAccess)

  /** One entry of `add_accesses`' image list: the image's key and the access. */
  datatype ImageUse = ImageUse(key: nat, access: ImageAccess)

  /** The `CmdPipelineBarrier` `add_accesses` builds (no global memory barriers, no dependency flags). */
  datatype PipelineBarrier = PipelineBarrier(bufferBarriers: seq<BufferMemoryBarrier>, imageBarriers: seq<ImageMemoryBarrier>)

  /** The tracked buffers' histories span their sizes (a buffer's size is fixed when it is created). */
  predicate SizesAgree(buffers: map<nat, ResourceRW>, sizes: map<nat, nat>)
  {
    forall k | k in buffers && k in sizes :: buffers[k].maxRange == Ie(0, sizes[k])
  }

  /** A buffer access the tracker accepts: a known, non-empty buffer and bytes inside it. */
  predicate BufferUseFits(sizes: map<nat, nat>, u: BufferUse)
  {
    && u.key in sizes && sizes[u.key] > 0
    && u.access.Range(sizes[u.key]).IsValid() && u.access.Range(sizes[u.key]).Within(Ie(0, sizes[u.key]))
  }

  /** The tracked images' layout maps span their mip levels (fixed when the image is created). */
  predicate CountsAgree(layouts: map<nat, Layouts>, counts: map<nat, nat>)
  {
    forall k | k in layouts && k in counts :: layouts[k].maxRange == Ie(0, counts[k])
  }

  /** An image access the tracker accepts. */
  predicate ImageUseFits(counts: map<nat, nat>, u: ImageUse)
  {
    && u.key in counts && counts[u.key] > 0
    && u.access.subresourceRange.baseArrayLayer == 0 && u.access.subresourceRange.layerCount == 1
    && u.access.Range().IsValid() && u.access.Range().Within(Ie(0, counts[u.key]))
  }

  /**
   * One buffer access of `add_accesses`: recorded in the buffer's history,
   * it yields a barrier exactly when an old access it waits on has flags,
   * and that barrier waits on the combined stages and flags of those old
   * accesses.
   */
  function BufferUseStep(buffers: map<nat, ResourceRW>, sizes: map<nat, nat>, u: BufferUse)
    : (r: (map<nat, ResourceRW>, seq<BufferMemoryBarrier>))
    requires BuffersValid(buffers) && SizesAgree(buffers, sizes) && BufferUseFits(sizes, u)
    ensures BuffersValid(r.0) && SizesAgree(r.0, sizes)
    ensures |r.1| <= 1
    ensures forall b | b in r.1 :: b.srcAccess != NONE && b.dstStage == u.access.stage && b.dstAccess == u.access.access
    ensures var olds := BufferStep(BufferEntry(buffers, u.key, sizes[u.key]), u.access.Range(sizes[u.key]), u.access).1;
      && (|r.1| == 0 <==> forall x | x in olds :: x.access == NONE)
      && (forall b | b in r.1 :: b.srcStage == Fold(WithFlags(olds)).stage && b.srcAccess == Fold(olds).access)
  {
    var size := sizes[u.key];
    var step := BufferStep(BufferEntry(buffers, u.key, size), u.access.Range(size), u.access);
    (buffers[u.key := step.0], BarrierList(step.1, u.access))
  }

  /** The barrier of one buffer access as a list: empty when it needs none. */
  function BarrierList(olds: seq<AccessInfo>, access: BufferAccess): (r: seq<BufferMemoryBarrier>)
    ensures |r| <= 1
    ensures |r| == 0 <==> forall x | x in olds :: x.access == NONE
    ensures forall b | b in r :: b.srcAccess != NONE && b.dstStage == access.stage && b.dstAccess == access.access
    ensures forall b | b in r :: b.srcStage == Fold(WithFlags(olds)).stage && b.srcAccess == Fold(olds).access
  {
    BufferBarrierWaitsOnOldFlags(olds, access);
    var b := BufferBarrier(olds, access);
    if b.Some? then [b.value] else []
  }

  /** The buffer half of `add_accesses`: the buffer accesses in order. */
  function BufferAccessesStep(buffers: map<nat, ResourceRW>, sizes: map<nat, nat>, uses: seq<BufferUse>)
    : (r: (map<nat, ResourceRW>, seq<BufferMemoryBarrier>))
    requires BuffersValid(buffers) && SizesAgree(buffers, sizes)
    requires forall i | 0 <= i < |uses| :: BufferUseFits(sizes, uses[i])
    ensures BuffersValid(r.0) && SizesAgree(r.0, sizes)
    ensures |r.1| <= |uses|
    ensures forall b | b in r.1 :: b.srcAccess != NONE
  {
    if uses == [] then (buffers, [])
    else
      var init := uses[..|uses| - 1];
      assert forall i | 0 <= i < |init| :: init[i] == uses[i];
      var prefix := BufferAccessesStep(buffers, sizes, init);
      var step := BufferUseStep(prefix.0, sizes, uses[|uses| - 1]);
      (step.0, prefix.1 + step.1)
  }

  /** The buffer accesses of a list extended by one. */
  lemma BufferAccessesStepSnoc(buffers: map<nat, ResourceRW>, sizes: map<nat, nat>, uses: seq<BufferUse>, i: nat)
    requires BuffersValid(buffers) && SizesAgree(buffers, sizes)
    requires forall j | 0 <= j < |uses| :: BufferUseFits(sizes, uses[j])
    requires i < |uses|
    ensures var prefix := BufferAccessesStep(buffers, sizes, uses[..i]);
      var step := BufferUseStep(prefix.0, sizes, uses[i]);
      BufferAccessesStep(buffers, sizes, uses[..i + 1]) == (step.0, prefix.1 + step.1)
  {
    assert uses[..i + 1][..i] == uses[..i];
  }

  /**
   * One image access of `add_accesses`: recorded in the image's history, it
   * yields one barrier per stored segment of its levels, so at least one,
   * even for a read in an unchanged layout; each moves its levels to the
   * access's layout.
   */
  function ImageUseStep(images: map<nat, ResourceRW>, layouts: map<nat, Layouts>, counts: map<nat, nat>, u: ImageUse)
    : (r: (map<nat, ResourceRW>, map<nat, Layouts>, seq<ImageMemoryBarrier>))
    requires ImagesValid(images, layouts) && CountsAgree(layouts, counts) && ImageUseFits(counts, u)
    ensures ImagesValid(r.0, r.1) && CountsAgree(r.1, counts)
    ensures |r.2| >= 1
  {
    assert ImageAccessFits(layouts, u.key, counts[u.key], u.access);
    var step := ImageAccessStep(images, layouts, u.key, counts[u.key], u.access);
    ImageAccessReportsItsLevels(images, layouts, u.key, counts[u.key], u.access);
    (step.0, step.1, ImageBarriers(step.2, u.access))
  }

  /** Every barrier of an image access moves its levels to the access's layout and makes them visible to it. */
  lemma ImageUseBarriersTarget(images: map<nat, ResourceRW>, layouts: map<nat, Layouts>, counts: map<nat, nat>, u: ImageUse)
    requires ImagesValid(images, layouts) && CountsAgree(layouts, counts) && ImageUseFits(counts, u)
    ensures var bs := ImageUseStep(images, layouts, counts, u).2;
      forall i | 0 <= i < |bs| :: bs[i].newLayout == u.access.layout && bs[i].dstStage == u.access.stage && bs[i].dstAccess == u.access.access
  {
    ImageAccessReportsItsLevels(images, layouts, u.key, counts[u.key], u.access);
  }

  /** The image accesses of a list extended by one. */
  lemma ImageAccessesStepSnoc(images: map<nat, ResourceRW>, layouts: map<nat, Layouts>, counts: map<nat, nat>, uses: seq<ImageUse>, i: nat)
    requires ImagesValid(images, layouts) && CountsAgree(layouts, counts)
    requires forall j | 0 <= j < |uses| :: ImageUseFits(counts, uses[j])
    requires i < |uses|
    ensures var prefix := ImageAccessesStep(images, layouts, counts, uses[..i]);
      var step := ImageUseStep(prefix.0, prefix.1, counts, uses[i]);
      ImageAccessesStep(images, layouts, counts, uses[..i + 1]) == (step.0, step.1, prefix.2 + step.2)
  {
    assert uses[..i + 1][..i] == uses[..i];
  }

  /** The image half of `add_accesses`: the image accesses in order. */
  function ImageAccessesStep(images: map<nat, ResourceRW>, layouts: map<nat, Layouts>, counts: map<nat, nat>, uses: seq<ImageUse>)
    : (r: (map<nat, ResourceRW>, map<nat, Layouts>, seq<ImageMemoryBarrier>))
    requires ImagesValid(images, layouts) && CountsAgree(layouts, counts)
    requires forall i | 0 <= i < |uses| :: ImageUseFits(counts, uses[i])
    ensures ImagesValid(r.0, r.1) && CountsAgree(r.1, counts)
    ensures |r.2| >= |uses|
  {
    if uses == [] then (images, layouts, [])
    else
      var init := uses[..|uses| - 1];
      assert forall i | 0 <= i < |init| :: init[i] == uses[i];
      var prefix := ImageAccessesStep(images, layouts, counts, init);
      var step := ImageUseStep(prefix.0, prefix.1, counts, uses[|uses| - 1]);
      (step.0, step.1, prefix.2 + step.2)
  }

  /** The state after the first `i` image accesses of `uses` are recorded, from `images0` and `layouts0`. */
  ghost predicate ImageUsesRecorded(images0: map<nat, ResourceRW>, layouts0: map<nat, Layouts>, counts: map<nat, nat>,
                                    uses: seq<ImageUse>, i: nat, images: map<nat, ResourceRW>, layouts: map<nat, Layouts>,
                                    barriers: seq<ImageMemoryBarrier>)
  {
    && ImagesValid(images0, layouts0) && CountsAgree(layouts0, counts)
    && (forall j | 0 <= j < |uses| :: ImageUseFits(counts, uses[j]))
    && i <= |uses|
    && (images, layouts, barriers) == ImageAccessesStep(images0, layouts0, counts, uses[..i])
  }

  /** The tracker behind `SyncManager`'s mutex. */
  class SyncManagerInternal {
    var buffers: map<nat, ResourceRW>
    var images: map<nat, ResourceRW>
    var imageLayouts: map<nat, Layouts>
    var bufferKeyCounter: nat
    var imageKeyCounter: nat

    predicate Valid()
      reads this
    {
      BuffersValid(buffers) && ImagesValid(images, imageLayouts)
    }

    /** `new`: nothing tracked, both counters at zero. */
    constructor ()
      ensures Valid()
      ensures buffers == map[] && images == map[] && imageLayouts == map[]
      ensures bufferKeyCounter == 0 && imageKeyCounter == 0
    {
      buffers, images, imageLayouts := map[], map[], map[];
      bufferKeyCounter, imageKeyCounter := 0, 0;
    }

    /**
     * `get_buffer`: hands out the counter and advances it, so every key is
     * larger than all keys handed out before. The `u64` counter must not
     * overflow.
     */
    method GetBuffer() returns (key: nat)
      requires bufferKeyCounter < 0xFFFF_FFFF_FFFF_FFFF
      modifies this
      ensures key == old(bufferKeyCounter) && bufferKeyCounter == key + 1
      ensures buffers == old(buffers) && images == old(images) && imageLayouts == old(imageLayouts)
      ensures imageKeyCounter == old(imageKeyCounter)
    {
      key := bufferKeyCounter;
      bufferKeyCounter := bufferKeyCounter + 1;
    }

    /** `get_image`: as `get_buffer`, with the image counter. */
    method GetImage() returns (key: nat)
      requires imageKeyCounter < 0xFFFF_FFFF_FFFF_FFFF
      modifies this
      ensures key == old(imageKeyCounter) && imageKeyCounter == key + 1
      ensures buffers == old(buffers) && images == old(images) && imageLayouts == old(imageLayouts)
      ensures bufferKeyCounter == old(bufferKeyCounter)
    {
      key := imageKeyCounter;
      imageKeyCounter := imageKeyCounter + 1;
    }

    /** `remove_buffer`: forgets the buffer's history. */
    method RemoveBuffer(key: nat)
      requires Valid()
      modifies this
      ensures Valid()
      ensures buffers == old(buffers) - {key}
      ensures images == old(images) && imageLayouts == old(imageLayouts)
      ensures bufferKeyCounter == old(bufferKeyCounter) && imageKeyCounter == old(imageKeyCounter)
    {
      buffers := buffers - {key};
    }

    /** `remove_image`: forgets both the image's history and its layouts. */
    method RemoveImage(key: nat)
      requires Valid()
      modifies this
      ensures Valid()
      ensures images == old(images) - {key} && imageLayouts == old(imageLayouts) - {key}
      ensures buffers == old(buffers)
      ensures bufferKeyCounter == old(bufferKeyCounter) && imageKeyCounter == old(imageKeyCounter)
    {
      images := images - {key};
      imageLayouts := imageLayouts - {key};
    }

    /**
     * `clear_all` (after the device is idle): forgets every access but keeps
     * the image layouts, which the images still have.
     */
    method ClearAll()
      requires Valid()
      modifies this
      ensures Valid()
      ensures buffers == map[] && images == map[] && imageLayouts == old(imageLayouts)
      ensures bufferKeyCounter == old(bufferKeyCounter) && imageKeyCounter == old(imageKeyCounter)
    {
      buffers := map[];
      images := map[];
    }

    /**
     * `add_buffer_access`: records the access in the buffer's history (created
     * over `[0, maxSize)` on first use) and returns the old accesses it must
     * wait on.
     */
    method AddBufferAccess(key: nat, maxSize: nat, access: BufferAccess) returns (olds: seq<AccessInfo>)
      requires Valid() && (key in buffers || maxSize > 0)
      requires FitsIn(BufferEntry(buffers, key, maxSize).maxRange, access.Range(maxSize))
      modifies this
      ensures Valid()
      ensures var r := BufferStep(old(BufferEntry(buffers, key, maxSize)), access.Range(maxSize), access);
        buffers == old(buffers)[key := r.0] && olds == r.1
      ensures images == old(images) && imageLayouts == old(imageLayouts)
      ensures bufferKeyCounter == old(bufferKeyCounter) && imageKeyCounter == old(imageKeyCounter)
    {
      var entry := BufferEntry(buffers, key, maxSize);
      var r := BufferStep(entry, access.Range(maxSize), access);
      buffers := buffers[key := r.0];
      olds := r.1;
    }

    /**
     * `add_image_access`: the accessed levels take the access's layout; every
     * stored segment of old layouts among them is recorded as a write (its
     * layout changes or the flags write) or a read, and reported with the
     * accesses it must wait on.
     */
    method AddImageAccess(key: nat, count: nat, access: ImageAccess) returns (results: seq<SegmentResult>)
      requires Valid() && ImageAccessFits(imageLayouts, key, count, access)
      modifies this
      ensures Valid()
      ensures (images, imageLayouts, results) == ImageAccessStep(old(images), old(imageLayouts), key, count, access)
      ensures buffers == old(buffers)
      ensures bufferKeyCounter == old(bufferKeyCounter) && imageKeyCounter == old(imageKeyCounter)
    {
      var images', layouts', results' := RecordImageAccess(images, imageLayouts, key, count, access);
      images, imageLayouts, results := images', layouts', results';
    }

    /** One buffer access of `add_accesses`, with the barrier it needs, if any. */
    method AddBufferUse(sizes: map<nat, nat>, u: BufferUse) returns (more: seq<BufferMemoryBarrier>)
      requires Valid() && SizesAgree(buffers, sizes) && BufferUseFits(sizes, u)
      modifies this
      ensures Valid()
      ensures (buffers, more) == BufferUseStep(old(buffers), sizes, u)
      ensures images == old(images) && imageLayouts == old(imageLayouts)
      ensures bufferKeyCounter == old(bufferKeyCounter) && imageKeyCounter == old(imageKeyCounter)
    {
      var olds := AddBufferAccess(u.key, sizes[u.key], u.access);
      var b := BufferBarrier(olds, u.access);
      more := if b.Some? then [b.value] else [];
    }

    /** One image access of `add_accesses`, with its barriers. */
    method AddImageUse(counts: map<nat, nat>, u: ImageUse) returns (more: seq<ImageMemoryBarrier>)
      requires Valid() && CountsAgree(imageLayouts, counts) && ImageUseFits(counts, u)
      modifies this
      ensures Valid()
      ensures (images, imageLayouts, more) == ImageUseStep(old(images), old(imageLayouts), counts, u)
      ensures buffers == old(buffers)
      ensures bufferKeyCounter == old(bufferKeyCounter) && imageKeyCounter == old(imageKeyCounter)
    {
      var results := AddImageAccess(u.key, counts[u.key], u.access);
      more := ImageBarriers(results, u.access);
    }

    /** The buffer half of `add_accesses`: each buffer access in turn. */
    method AddBufferUses(sizes: map<nat, nat>, uses: seq<BufferUse>) returns (barriers: seq<BufferMemoryBarrier>)
      requires Valid() && SizesAgree(buffers, sizes)
      requires forall i | 0 <= i < |uses| :: BufferUseFits(sizes, uses[i])
      modifies this
      ensures Valid()
      ensures (buffers, barriers) == BufferAccessesStep(old(buffers), sizes, uses)
      ensures images == old(images) && imageLayouts == old(imageLayouts)
      ensures bufferKeyCounter == old(bufferKeyCounter) && imageKeyCounter == old(imageKeyCounter)
    {
      barriers := [];
      for i := 0 to |uses|
        invariant Valid()
        invariant (buffers, barriers) == BufferAccessesStep(old(buffers), sizes, uses[..i])
        invariant images == old(images) && imageLayouts == old(imageLayouts)
        invariant bufferKeyCounter == old(bufferKeyCounter) && imageKeyCounter == old(imageKeyCounter)
      {
        barriers := AddBufferUseAt(sizes, uses, i, barriers, old(buffers));
      }
      assert uses[..|uses|] == uses;
    }

    /** One iteration of the buffer loop of `add_accesses`: access `i` is recorded and its barrier, if any, appended. */
    method AddBufferUseAt(sizes: map<nat, nat>, uses: seq<BufferUse>, i: nat, barriers: seq<BufferMemoryBarrier>,
                          ghost buffers0: map<nat, ResourceRW>)
      returns (next: seq<BufferMemoryBarrier>)
      requires BuffersValid(buffers0) && SizesAgree(buffers0, sizes)
      requires forall j | 0 <= j < |uses| :: BufferUseFits(sizes, uses[j])
      requires Valid() && i < |uses|
      requires (buffers, barriers) == BufferAccessesStep(buffers0, sizes, uses[..i])
      modifies this
      ensures Valid()
      ensures (buffers, next) == BufferAccessesStep(buffers0, sizes, uses[..i + 1])
      ensures images == old(images) && imageLayouts == old(imageLayouts)
      ensures bufferKeyCounter == old(bufferKeyCounter) && imageKeyCounter == old(imageKeyCounter)
    {
      BufferAccessesStepSnoc(buffers0, sizes, uses, i);
      var more := AddBufferUse(sizes, uses[i]);
      next := barriers + more;
    }

    /** The image half of `add_accesses`: each image access in turn. */
    method AddImageUses(counts: map<nat, nat>, uses: seq<ImageUse>) returns (barriers: seq<ImageMemoryBarrier>)
      requires Valid() && CountsAgree(imageLayouts, counts)
      requires forall i | 0 <= i < |uses| :: ImageUseFits(counts, uses[i])
      modifies this
      ensures Valid()
      ensures (images, imageLayouts, barriers) == ImageAccessesStep(old(images), old(imageLayouts), counts, uses)
      ensures buffers == old(buffers)
      ensures bufferKeyCounter == old(bufferKeyCounter) && imageKeyCounter == old(imageKeyCounter)
    {
      barriers := [];
      assert uses[..0] == [];
      for i := 0 to |uses|
        invariant Valid()
        invariant ImageUsesRecorded(old(images), old(imageLayouts), counts, uses, i, images, imageLayouts, barriers)
        invariant buffers == old(buffers)
        invariant bufferKeyCounter == old(bufferKeyCounter) && imageKeyCounter == old(imageKeyCounter)
      {
        barriers := AddImageUseAt(counts, uses, i, barriers, old(images), old(imageLayouts));
      }
      assert uses[..|uses|] == uses;
    }

    /** One iteration of the image loop of `add_accesses`: access `i` is recorded and its barriers appended. */
    method AddImageUseAt(counts: map<nat, nat>, uses: seq<ImageUse>, i: nat, barriers: seq<ImageMemoryBarrier>,
                         ghost images0: map<nat, ResourceRW>, ghost layouts0: map<nat, Layouts>)
      returns (next: seq<ImageMemoryBarrier>)
      requires Valid() && i < |uses|
      requires ImageUsesRecorded(images0, layouts0, counts, uses, i, images, imageLayouts, barriers)
      modifies this
      ensures Valid()
      ensures ImageUsesRecorded(images0, layouts0, counts, uses, i + 1, images, imageLayouts, next)
      ensures buffers == old(buffers)
      ensures bufferKeyCounter == old(bufferKeyCounter) && imageKeyCounter == old(imageKeyCounter)
    {
      ImageAccessesStepSnoc(images0, layouts0, counts, uses, i);
      var more := AddImageUse(counts, uses[i]);
      next := barriers + more;
    }

    /**
     * `add_accesses` (through the lock): records the buffer accesses, then
     * the image accesses, in order, and collects the barriers they need.
     */
    method AddAccesses(sizes: map<nat, nat>, bufferUses: seq<BufferUse>, counts: map<nat, nat>, imageUses: seq<ImageUse>)
      returns (barrier: PipelineBarrier)
      requires Valid() && SizesAgree(buffers, sizes) && CountsAgree(imageLayouts, counts)
      requires forall i | 0 <= i < |bufferUses| :: BufferUseFits(sizes, bufferUses[i])
      requires forall i | 0 <= i < |imageUses| :: ImageUseFits(counts, imageUses[i])
      modifies this
      ensures Valid()
      ensures (buffers, barrier.bufferBarriers) == BufferAccessesStep(old(buffers), sizes, bufferUses)
      ensures (images, imageLayouts, barrier.imageBarriers) == ImageAccessesStep(old(images), old(imageLayouts), counts, imageUses)
      ensures bufferKeyCounter == old(bufferKeyCounter) && imageKeyCounter == old(imageKeyCounter)
    {
      var bufferBarriers := AddBufferUses(sizes, bufferUses);
      var imageBarriers := AddImageUses(counts, imageUses);
      barrier := PipelineBarrier(bufferBarriers, imageBarriers);
    }
  }
}
