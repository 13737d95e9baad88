/**
 * How the synchronisation tracker classifies a buffer or image access
 * (src/vulkan/sync_manager/resource_access.rs).
 */
module ResourceAccess {
  import opened Wrappers
  import opened Vk
  import RangeMap

  /** Every access flag that writes memory. */
  const WRITE_FLAGS: Flags :=
    SHADER_WRITE + COLOR_ATTACHMENT_WRITE + DEPTH_STENCIL_ATTACHMENT_WRITE
    + TRANSFER_WRITE + HOST_WRITE + MEMORY_WRITE + SHADER_STORAGE_WRITE

  /** `is_write`: the access shares a bit with the write flags. */
  predicate IsWriteAccess(access: Flags)
  {
    access * WRITE_FLAGS != NONE
  }

  /** An access writes iff it holds one of the seven write flags. */
  lemma IsWriteIffHoldsWriteFlag(access: Flags)
    ensures IsWriteAccess(access) <==>
      || access * SHADER_WRITE != NONE
      || access * COLOR_ATTACHMENT_WRITE != NONE
      || access * DEPTH_STENCIL_ATTACHMENT_WRITE != NONE
      || access * TRANSFER_WRITE != NONE
      || access * HOST_WRITE != NONE
      || access * MEMORY_WRITE != NONE
      || access * SHADER_STORAGE_WRITE != NONE
  {
  }

  /** Read-only flags never count as a write; adding flags never turns a write into a read. */
  lemma IsWriteOfReadsAndUnions(a: Flags, b: Flags)
    ensures !IsWriteAccess(SHADER_READ + TRANSFER_READ + MEMORY_READ)
    ensures IsWriteAccess(a + b) <==> IsWriteAccess(a) || IsWriteAccess(b)
  {
  }

  /** `BufferAccess`: what one command does to a byte range of a buffer. */
  datatype BufferAccess = BufferAccess(stage: Flags, access: Flags, offset: nat, size: nat)
  {
    /** `BufferAccess::is_write`. */
    predicate IsWrite()
    {
      IsWriteAccess(access)
    }

    /**
     * The bytes accessed in a buffer of `bufferSize` bytes: `size` bytes from
     * `offset`, or up to the end when `size` is `WHOLE_SIZE`.
     */
    function Range(bufferSize: nat): RangeMap.Interval
    {
      if size == WHOLE_SIZE then RangeMap.Ie(offset, bufferSize)
      else RangeMap.Ie(offset, offset + size)
    }
  }

  /** `BufferAccess::wait_all`: every command, every memory access, the whole buffer. */
  function WaitAll(): (r: BufferAccess)
    ensures r.stage == STAGE_ALL_COMMANDS && r.access == MEMORY_READ + MEMORY_WRITE
    ensures r.IsWrite()
    ensures forall n: nat :: r.Range(n) == RangeMap.Ie(0, n)
  {
    BufferAccess(STAGE_ALL_COMMANDS, MEMORY_READ + MEMORY_WRITE, 0, WHOLE_SIZE)
  }

  /** `BufferAccess::entire_buffer`: the given stage and access over the whole buffer. */
  function EntireBuffer(stage: Flags, access: Flags): (r: BufferAccess)
    ensures r.stage == stage && r.access == access
    ensures r.IsWrite() == IsWriteAccess(access)
    ensures forall n: nat :: r.Range(n) == RangeMap.Ie(0, n)
  {
    BufferAccess(stage, access, 0, WHOLE_SIZE)
  }

  /** `ImageAccess`: what one command does to some mip levels of an image. */
  datatype ImageAccess = ImageAccess(stage: Flags, access: Flags, layout: ImageLayout, subresourceRange: SubresourceRange)
  {
    /**
     * `ImageAccess::is_write`: the flags write, or the image changes layout
     * (a layout transition rewrites the image memory).
     */
    predicate IsWrite(oldLayout: Option<ImageLayout>)
    {
      IsWriteAccess(access) || Some(layout) != oldLayout
    }

    /** The mip levels accessed. */
    function Range(): RangeMap.Interval
    {
      RangeMap.Ie(subresourceRange.baseMipLevel, subresourceRange.baseMipLevel + subresourceRange.levelCount)
    }
  }

  /** `ImageAccess::entire_image`: the fields as given. */
  function EntireImage(stage: Flags, access: Flags, layout: ImageLayout, range: SubresourceRange): (r: ImageAccess)
    ensures r.stage == stage && r.access == access && r.layout == layout && r.subresourceRange == range
  {
    ImageAccess(stage, access, layout, range)
  }

  /**
   * A layout transition is always a write, even for read-only flags; in an
   * unchanged layout the flags alone decide.
   */
  lemma ImageIsWriteCases(a: ImageAccess, previous: Option<ImageLayout>)
    ensures previous != Some(a.layout) ==> a.IsWrite(previous)
    ensures previous == Some(a.layout) ==> (a.IsWrite(previous) <==> IsWriteAccess(a.access))
    ensures !IsWriteAccess(a.access) && previous == Some(a.layout) ==> !a.IsWrite(previous)
  {
  }
}
