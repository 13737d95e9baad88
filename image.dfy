/**
 * Texture images (src/vulkan/image.rs): the mip-level count of an extent,
 * the full subresource range, the default create info, and the upload that
 * copies level 0 from a buffer and blits every further level from the one
 * above it. The recorded commands are returned as a sequence; the GPU and the
 * command buffer are not part of the model.
 */
module Image {
  import opened Wrappers
  import opened Vk
  import Utility

  const I32_MAX: nat := 0x7FFF_FFFF

  /** `floor(log2(x))` for a positive `x`: how often `x` halves before it is 1. */
  function ILog2(x: nat): nat
    requires x >= 1
  {
    if x == 1 then 0 else 1 + ILog2(x / 2)
  }

  /** `ILog2` is the exponent of the largest power of two not above `x` (`checked_ilog2`). */
  lemma {:induction false} ILog2Bounds(x: nat)
    requires x >= 1
    ensures Utility.Pow2(ILog2(x)) <= x < Utility.Pow2(ILog2(x) + 1)
  {
    if x > 1 {
      ILog2Bounds(x / 2);
    }
  }

  /**
   * `max_mip_levels`: `floor(log2(max(width, height))) + 1`; `None` where
   * `checked_ilog2` returns `None` and the source unwraps it, that is when both
   * sides are 0.
   */
  function MaxMipLevels(extent: Extent2D): (r: Option<nat>)
    ensures r.None? <==> extent.width == 0 && extent.height == 0
    ensures r.Some? ==> r.value >= 1
  {
    var m := if extent.width >= extent.height then extent.width else extent.height;
    if m == 0 then None else Some(ILog2(m) + 1)
  }

  /** `full_subresource_range`: colour aspect, every mip level, one array layer. */
  function FullSubresourceRange(mipLevels: nat, aspectMask: Flags): (r: SubresourceRange)
    ensures r.aspectMask == aspectMask
    ensures r.baseMipLevel == 0 && r.levelCount == mipLevels
    ensures r.baseArrayLayer == 0 && r.layerCount == 1
  {
    SubresourceRange(aspectMask, 0, mipLevels, 0, 1)
  }

  /** `VkExtent3D`. */
  datatype Extent3D = Extent3D(width: nat, height: nat, depth: nat)

  /** The fields of `VkImageCreateInfo` the renderer sets. */
  datatype ImageCreateInfo = ImageCreateInfo(
    flags: Flags,
    is2D: bool,
    format: Format,
    extent: Extent3D,
    mipLevels: nat,
    arrayLayers: nat,
    samples: nat,
    optimalTiling: bool,
    usage: Flags,
    exclusiveSharing: bool,
    initialLayout: ImageLayout)

  /** `simple_image_create_info`: a single-sample, single-level, single-layer 2D image, still to be filled in. */
  function SimpleImageCreateInfo(): (r: ImageCreateInfo)
    ensures r.mipLevels == 1 && r.arrayLayers == 1 && r.samples == 1
    ensures r.initialLayout == UNDEFINED && r.format == 0
    ensures r.is2D && r.optimalTiling && r.exclusiveSharing
    ensures r.flags == NONE && r.usage == NONE
    ensures r.extent == Extent3D(0, 0, 0)
  {
    ImageCreateInfo(NONE, true, 0, Extent3D(0, 0, 0), 1, 1, 1, true, NONE, true, UNDEFINED)
  }

  // ----- The mip chain -----

  /** One step of the loop: a side halves while it is larger than 1. */
  function Halve(x: nat): (r: nat)
  {
    if x > 1 then x / 2 else x
  }

  /** A side after `k` iterations of the loop. */
  function HalveN(x: nat, k: nat): nat
  {
    if k == 0 then x else Halve(HalveN(x, k - 1))
  }

  /** A positive side stays positive and never grows. */
  lemma {:induction false} HalveNBounds(x: nat, k: nat)
    requires x >= 1
    ensures 1 <= HalveN(x, k) <= x
  {
    if k > 0 {
      HalveNBounds(x, k - 1);
    }
  }

  lemma {:induction false} HalveNPeel(x: nat, k: nat)
    requires k >= 1
    ensures HalveN(x, k) == HalveN(Halve(x), k - 1)
  {
    if k > 1 {
      HalveNPeel(x, k - 1);
    }
  }

  lemma {:induction false} HalveNMonotone(x: nat, y: nat, k: nat)
    requires x <= y
    ensures HalveN(x, k) <= HalveN(y, k)
  {
    if k > 0 {
      HalveNMonotone(x, y, k - 1);
    }
  }

  /** `ILog2(x)` halvings take a positive side to exactly 1. */
  lemma {:induction false} HalveNReachesOne(x: nat)
    requires x >= 1
    ensures HalveN(x, ILog2(x)) == 1
  {
    if x > 1 {
      HalveNReachesOne(x / 2);
      HalveNPeel(x, ILog2(x));
    }
  }

  /**
   * With `MaxMipLevels` levels, the last level of a non-degenerate image is
   * 1 by 1: the level count is exactly the length of the halving chain.
   */
  lemma LastMipLevelIsOnePixel(extent: Extent2D)
    requires extent.width >= 1 && extent.height >= 1
    ensures MaxMipLevels(extent).Some?
    ensures HalveN(extent.width, MaxMipLevels(extent).value - 1) == 1
    ensures HalveN(extent.height, MaxMipLevels(extent).value - 1) == 1
  {
    var m := if extent.width >= extent.height then extent.width else extent.height;
    var k := ILog2(m);
    HalveNReachesOne(m);
    HalveNMonotone(extent.width, m, k);
    HalveNMonotone(extent.height, m, k);
    HalveNBounds(extent.width, k);
    HalveNBounds(extent.height, k);
  }

  /** With one side positive, `MaxMipLevels - 1` halvings leave no side above 1. */
  lemma LastMipLevelAtMostOne(extent: Extent2D)
    requires extent.width >= 1 || extent.height >= 1
    ensures MaxMipLevels(extent).Some?
    ensures HalveN(extent.width, MaxMipLevels(extent).value - 1) <= 1
    ensures HalveN(extent.height, MaxMipLevels(extent).value - 1) <= 1
  {
    var m := if extent.width >= extent.height then extent.width else extent.height;
    HalveNReachesOne(m);
    HalveNMonotone(extent.width, m, ILog2(m));
    HalveNMonotone(extent.height, m, ILog2(m));
  }

  /** `x as i32`: a `u32` reinterpreted as two's complement. */
  function AsI32(x: nat): int
    requires x <= Utility.U32_MAX
  {
    if x <= I32_MAX then x else x - (Utility.U32_MAX + 1)
  }

  /** `(x as i32 / 2).max(1)`: the division truncates towards zero. */
  function BlitSide(x: nat): (r: int)
    requires x <= Utility.U32_MAX
    ensures r >= 1
  {
    var s := AsI32(x);
    var half := if s >= 0 then s / 2 else -((-s) / 2);
    if half >= 1 then half else 1
  }

  /**
   * Each blit writes exactly the next level's size: for a positive side that
   * fits in an `i32`, `max(x / 2, 1)` is the halved side.
   */
  lemma BlitSideIsNextLevel(x: nat, k: nat)
    requires 1 <= x <= I32_MAX
    ensures HalveN(x, k) <= I32_MAX
    ensures BlitSide(HalveN(x, k)) == HalveN(x, k + 1)
  {
    HalveNBounds(x, k);
  }

  // ----- Recorded commands -----

  /** A command the upload records. Stage and access masks are sets of bit positions. */
  datatype Command =
    | Barrier(baseLevel: nat, levelCount: nat, oldLayout: ImageLayout, newLayout: ImageLayout,
              srcAccess: Flags, dstAccess: Flags, srcStage: Flags, dstStage: Flags)
    | CopyBufferToLevel0(width: nat, height: nat, depth: nat)
    | Blit(srcLevel: nat, srcWidth: int, srcHeight: int, dstLevel: nat, dstWidth: int, dstHeight: int)

  /** The three commands of loop iteration `level`, for the sides of level `level - 1`. */
  function LevelCommands(width: nat, height: nat, level: nat): (r: seq<Command>)
    requires 1 <= level && width <= Utility.U32_MAX && height <= Utility.U32_MAX
  {
    [ Barrier(level - 1, 1, TRANSFER_DST_OPTIMAL, TRANSFER_SRC_OPTIMAL,
              TRANSFER_WRITE, TRANSFER_READ, STAGE_TRANSFER, STAGE_TRANSFER),
      Blit(level - 1, AsI32(width), AsI32(height), level, BlitSide(width), BlitSide(height)),
      Barrier(level - 1, 1, TRANSFER_SRC_OPTIMAL, SHADER_READ_ONLY_OPTIMAL,
              TRANSFER_READ, SHADER_READ, STAGE_TRANSFER, STAGE_FRAGMENT_SHADER) ]
  }

  /** The sides the loop holds at the start of iteration `level`. */
  function MipSides(extent: Extent3D, level: nat): (r: (nat, nat))
    requires extent.width <= Utility.U32_MAX && extent.height <= Utility.U32_MAX
    ensures r.0 <= Utility.U32_MAX && r.1 <= Utility.U32_MAX
  {
    if level <= 1 then (extent.width, extent.height)
    else
      var prev := MipSides(extent, level - 1);
      (Halve(prev.0), Halve(prev.1))
  }

  /** Everything the loop records for iterations `1 .. levels - 1`. */
  function LoopCommands(extent: Extent3D, levels: nat): (r: seq<Command>)
    requires extent.width <= Utility.U32_MAX && extent.height <= Utility.U32_MAX
    ensures |r| == if levels <= 1 then 0 else 3 * (levels - 1)
  {
    if levels <= 1 then []
    else
      var sides := MipSides(extent, levels - 1);
      LoopCommands(extent, levels - 1) + LevelCommands(sides.0, sides.1, levels - 1)
  }

  /** The first two commands: every level to TRANSFER_DST, then the copy into level 0. */
  function UploadPrologue(extent: Extent3D, levels: nat): seq<Command>
  {
    [ Barrier(0, levels, UNDEFINED, TRANSFER_DST_OPTIMAL, NONE, TRANSFER_WRITE,
              STAGE_TOP_OF_PIPE, STAGE_TRANSFER),
      CopyBufferToLevel0(extent.width, extent.height, extent.depth) ]
  }

  /** The closing barrier: the last level, never blitted from, to SHADER_READ_ONLY. */
  function FinalBarrier(levels: nat): Command
    requires levels >= 1
  {
    Barrier(levels - 1, 1, TRANSFER_DST_OPTIMAL, SHADER_READ_ONLY_OPTIMAL,
            TRANSFER_WRITE, SHADER_READ, STAGE_TRANSFER, STAGE_FRAGMENT_SHADER)
  }

  /** All commands `copy_from_buffer_for_texture` records. */
  function UploadCommands(extent: Extent3D, levels: nat): (r: seq<Command>)
    requires levels >= 1
    requires extent.width <= Utility.U32_MAX && extent.height <= Utility.U32_MAX
    ensures |r| == 3 * levels
  {
    UploadPrologue(extent, levels) + LoopCommands(extent, levels) + [FinalBarrier(levels)]
  }

  /** The loop's sides are the halving chain: level `k` is read at `HalveN(side, k)`. */
  lemma {:induction false} MipSidesAreHalvings(extent: Extent3D, level: nat)
    requires level >= 1
    requires extent.width <= Utility.U32_MAX && extent.height <= Utility.U32_MAX
    ensures MipSides(extent, level) == (HalveN(extent.width, level - 1), HalveN(extent.height, level - 1))
  {
    if level > 1 {
      MipSidesAreHalvings(extent, level - 1);
    }
  }

  /**
   * Level `k` (for `1 <= k < levels`) is blitted from level `k - 1` at that
   * level's sides, into the halved sides; for a positive extent no side is 0.
   */
  lemma BlitOfLevel(extent: Extent3D, levels: nat, k: nat)
    requires 1 <= k < levels
    requires 1 <= extent.width <= I32_MAX && 1 <= extent.height <= I32_MAX
    ensures 3 * k + 1 < |UploadCommands(extent, levels)|
    ensures UploadCommands(extent, levels)[3 * k] ==
      Blit(k - 1, HalveN(extent.width, k - 1), HalveN(extent.height, k - 1),
           k, HalveN(extent.width, k), HalveN(extent.height, k))
    ensures HalveN(extent.width, k) >= 1 && HalveN(extent.height, k) >= 1
  {
    var all := UploadCommands(extent, levels);
    LoopCommandsAt(extent, levels, k);
    assert all[3 * k] == LoopCommands(extent, levels)[3 * (k - 1) + 1];
    MipSidesAreHalvings(extent, k);
    BlitSideIsNextLevel(extent.width, k - 1);
    BlitSideIsNextLevel(extent.height, k - 1);
    HalveNBounds(extent.width, k);
    HalveNBounds(extent.height, k);
  }

  /** Iteration `k`'s commands sit at positions `3 * (k - 1) ..` of the loop's output. */
  lemma {:induction false} LoopCommandsAt(extent: Extent3D, levels: nat, k: nat)
    requires 1 <= k < levels
    requires extent.width <= Utility.U32_MAX && extent.height <= Utility.U32_MAX
    ensures LoopCommands(extent, levels)[3 * (k - 1) .. 3 * k] ==
      LevelCommands(MipSides(extent, k).0, MipSides(extent, k).1, k)
  {
    var prefix := LoopCommands(extent, levels - 1);
    if k < levels - 1 {
      LoopCommandsAt(extent, levels - 1, k);
      assert LoopCommands(extent, levels)[3 * (k - 1) .. 3 * k] == prefix[3 * (k - 1) .. 3 * k];
    } else {
      assert |prefix| == 3 * (k - 1);
    }
  }

  // ----- Layout tracking over the recorded commands -----

  /**
   * The effect of one command on the per-level layouts, or `None` when the
   * command does not fit the layouts it finds: a barrier's old layout must be
   * the level's layout (UNDEFINED discards it and always fits), a copy writes a
   * TRANSFER_DST level, and a blit reads a TRANSFER_SRC level into a
   * TRANSFER_DST level.
   */
  function Apply(c: Command, layouts: seq<ImageLayout>): (r: Option<seq<ImageLayout>>)
    ensures r.Some? ==> |r.value| == |layouts|
  {
    match c
    case Barrier(base, count, from, to, _, _, _, _) =>
      if base + count <= |layouts| && forall i | base <= i < base + count :: from == UNDEFINED || layouts[i] == from
      then Some(seq(|layouts|, i requires 0 <= i < |layouts| => if base <= i < base + count then to else layouts[i]))
      else None
    case CopyBufferToLevel0(_, _, _) =>
      if 0 < |layouts| && layouts[0] == TRANSFER_DST_OPTIMAL then Some(layouts) else None
    case Blit(src, _, _, dst, _, _) =>
      if src < |layouts| && dst < |layouts| && layouts[src] == TRANSFER_SRC_OPTIMAL && layouts[dst] == TRANSFER_DST_OPTIMAL
      then Some(layouts) else None
  }

  /** Runs the commands in order; `None` as soon as one does not fit. */
  function Run(cs: seq<Command>, layouts: seq<ImageLayout>): (r: Option<seq<ImageLayout>>)
    ensures r.Some? ==> |r.value| == |layouts|
  {
    if cs == [] then Some(layouts)
    else
      match Apply(cs[0], layouts)
      case None => None
      case Some(next) => Run(cs[1..], next)
  }

  lemma {:induction false} RunAppend(a: seq<Command>, b: seq<Command>, layouts: seq<ImageLayout>)
    ensures Run(a + b, layouts) ==
      match Run(a, layouts) case None => None case Some(mid) => Run(b, mid)
  {
    if a != [] {
      assert (a + b)[0] == a[0];
      assert (a + b)[1..] == a[1..] + b;
      match Apply(a[0], layouts)
      case None =>
      case Some(next) => RunAppend(a[1..], b, next);
    } else {
      assert a + b == b;
    }
  }

  /** Levels below `done` are SHADER_READ_ONLY, the rest TRANSFER_DST. */
  function Progress(levels: nat, done: nat): seq<ImageLayout>
  {
    seq(levels, i => if i < done then SHADER_READ_ONLY_OPTIMAL else TRANSFER_DST_OPTIMAL)
  }

  /** A barrier that fits moves exactly its levels to its new layout. */
  lemma BarrierEffect(c: Command, layouts: seq<ImageLayout>, expected: seq<ImageLayout>)
    requires c.Barrier? && c.baseLevel + c.levelCount <= |layouts| == |expected|
    requires forall i | c.baseLevel <= i < c.baseLevel + c.levelCount :: c.oldLayout == UNDEFINED || layouts[i] == c.oldLayout
    requires forall i | 0 <= i < |layouts| ::
      expected[i] == if c.baseLevel <= i < c.baseLevel + c.levelCount then c.newLayout else layouts[i]
    ensures Apply(c, layouts) == Some(expected)
  {
    var got := Apply(c, layouts).value;
    assert forall i | 0 <= i < |got| :: got[i] == expected[i];
    assert got == expected;
  }

  /** One iteration hands level `level - 1` on to SHADER_READ_ONLY, blitting it into `level`. */
  lemma LevelStep(width: nat, height: nat, levels: nat, level: nat)
    requires 1 <= level < levels && width <= Utility.U32_MAX && height <= Utility.U32_MAX
    ensures Run(LevelCommands(width, height, level), Progress(levels, level - 1)) == Some(Progress(levels, level))
  {
    var cs := LevelCommands(width, height, level);
    var p0 := Progress(levels, level - 1);
    var p1 := p0[level - 1 := TRANSFER_SRC_OPTIMAL];
    var p2 := Progress(levels, level);
    BarrierEffect(cs[0], p0, p1);
    assert Apply(cs[1], p1) == Some(p1);
    BarrierEffect(cs[2], p1, p2);
    assert Run(cs[2..], p1) == Some(p2) by {
      assert cs[2..][1..] == [];
    }
    assert Run(cs[1..], p1) == Some(p2) by {
      assert cs[1..][1..] == cs[2..];
    }
  }

  lemma {:induction false} LoopProgress(extent: Extent3D, levels: nat, k: nat)
    requires 1 <= k <= levels
    requires extent.width <= Utility.U32_MAX && extent.height <= Utility.U32_MAX
    ensures Run(LoopCommands(extent, k), Progress(levels, 0)) == Some(Progress(levels, k - 1))
  {
    if k > 1 {
      LoopProgress(extent, levels, k - 1);
      var sides := MipSides(extent, k - 1);
      RunAppend(LoopCommands(extent, k - 1), LevelCommands(sides.0, sides.1, k - 1), Progress(levels, 0));
      LevelStep(sides.0, sides.1, levels, k - 1);
    }
  }

  /**
   * The recorded barriers are consistent with the layouts they find, the copy
   * and every blit meet their levels in the layouts they need, and at the end
   * every mip level is SHADER_READ_ONLY_OPTIMAL.
   */
  lemma UploadLeavesEveryLevelReadOnly(extent: Extent3D, levels: nat)
    requires levels >= 1
    requires extent.width <= Utility.U32_MAX && extent.height <= Utility.U32_MAX
    ensures Run(UploadCommands(extent, levels), seq(levels, i => UNDEFINED)) ==
      Some(seq(levels, i => SHADER_READ_ONLY_OPTIMAL))
  {
    var start := seq(levels, i => UNDEFINED);
    var pro := UploadPrologue(extent, levels);
    var loop := LoopCommands(extent, levels);
    BarrierEffect(pro[0], start, Progress(levels, 0));
    assert Run(pro, start) == Some(Progress(levels, 0)) by {
      assert Apply(pro[1], Progress(levels, 0)) == Some(Progress(levels, 0));
      assert Run(pro[1..], Progress(levels, 0)) == Some(Progress(levels, 0)) by {
        assert pro[1..][1..] == [];
      }
    }
    RunAppend(pro, loop, start);
    LoopProgress(extent, levels, levels);
    RunAppend(pro + loop, [FinalBarrier(levels)], start);
    BarrierEffect(FinalBarrier(levels), Progress(levels, levels - 1), Progress(levels, levels));
    assert [FinalBarrier(levels)][1..] == [];
    assert Progress(levels, levels) == seq(levels, i => SHADER_READ_ONLY_OPTIMAL);
  }

  // ----- The image object -----

  /** `Image`: the fields the upload reads and updates (the handle, memory and device are left out). */
  class Image {
    var format: Format
    var extent: Extent3D
    var layout: ImageLayout
    var mipLevels: nat

    /** `Image::new`: format, extent, layout and level count come from the create info. */
    constructor (createInfo: ImageCreateInfo)
      ensures format == createInfo.format && extent == createInfo.extent
      ensures layout == createInfo.initialLayout && mipLevels == createInfo.mipLevels
    {
      format := createInfo.format;
      extent := createInfo.extent;
      layout := createInfo.initialLayout;
      mipLevels := createInfo.mipLevels;
    }

    /**
     * `copy_from_buffer_for_texture`: records the upload and its mip chain and
     * sets the tracked layout to SHADER_READ_ONLY_OPTIMAL. Fails, changing
     * nothing, where the source panics: the format cannot be blitted linearly,
     * or the image has no mip level (`num_levels - 1` underflows).
     */
    method CopyFromBufferForTexture(supportsLinearBlit: bool) returns (r: Result<seq<Command>, string>)
      requires extent.width <= Utility.U32_MAX && extent.height <= Utility.U32_MAX
      modifies this
      ensures format == old(format) && extent == old(extent) && mipLevels == old(mipLevels)
      ensures r.Err? <==> !supportsLinearBlit || mipLevels == 0
      ensures r.Err? ==> layout == old(layout)
      ensures r.Ok? ==> r.value == UploadCommands(extent, mipLevels) && layout == SHADER_READ_ONLY_OPTIMAL
    {
      var numLevels := mipLevels;
      var commands := UploadPrologue(extent, numLevels);
      if !supportsLinearBlit {
        return Err("texture format does not support linear blitting");
      }
      var width, height := extent.width, extent.height;
      if numLevels >= 1 {
        var level := 1;
        while level < numLevels
          invariant 1 <= level <= numLevels
          invariant (width, height) == MipSides(extent, level)
          invariant commands == UploadPrologue(extent, numLevels) + LoopCommands(extent, level)
        {
          var levelCommands := LevelCommands(width, height, level);
          assert LoopCommands(extent, level + 1) == LoopCommands(extent, level) + levelCommands;
          commands := commands + levelCommands;
          assert commands == UploadPrologue(extent, numLevels) + (LoopCommands(extent, level) + levelCommands);
          if width > 1 {
            width := width / 2;
          }
          if height > 1 {
            height := height / 2;
          }
          level := level + 1;
        }
      }
      if numLevels == 0 {
        return Err("attempt to subtract with overflow");
      }
      commands := commands + [FinalBarrier(numLevels)];
      layout := SHADER_READ_ONLY_OPTIMAL;
      return Ok(commands);
    }
  }
}
