/**
 * `find_memorytype_index` (src/main.rs): the first memory type that the
 * resource allows (its bit in `memory_type_bits`) and that has every
 * requested property flag. Bit masks are sets of bit positions.
 */
module MemoryType {
  import opened Wrappers
  import opened Vk

  /** `VkMemoryType`: only its property flags are read. */
  datatype MemoryType = MemoryType(propertyFlags: Flags, heapIndex: nat)

  /** Memory type `index` is allowed by the requirements and has all of `flags`. */
  predicate Qualifies(memoryTypeBits: Flags, types: seq<MemoryType>, flags: Flags, index: nat)
    requires index < |types|
  {
    index in memoryTypeBits && flags <= types[index].propertyFlags
  }

  /** The iterator's `find` from position `from` on, over the first `count` types. */
  function FindFrom(memoryTypeBits: Flags, types: seq<MemoryType>, count: nat, flags: Flags, from: nat): (r: Option<nat>)
    requires count <= |types|
    ensures r.Some? ==> from <= r.value < count
    decreases count - from
  {
    if from >= count then None
    else if Qualifies(memoryTypeBits, types, flags, from) then Some(from)
    else FindFrom(memoryTypeBits, types, count, flags, from + 1)
  }

  /**
   * `find_memorytype_index`. Slicing the fixed array of memory types at
   * `memory_type_count` requires the count to be within it, as Vulkan promises.
   */
  function FindMemoryTypeIndex(memoryTypeBits: Flags, types: seq<MemoryType>, count: nat, flags: Flags): (r: Option<nat>)
    requires count <= |types|
  {
    FindFrom(memoryTypeBits, types, count, flags, 0)
  }

  lemma {:induction false} FindFromSpec(memoryTypeBits: Flags, types: seq<MemoryType>, count: nat, flags: Flags, from: nat)
    requires count <= |types|
    ensures var r := FindFrom(memoryTypeBits, types, count, flags, from);
      && (r.Some? ==> Qualifies(memoryTypeBits, types, flags, r.value)
                      && forall j | from <= j < r.value :: !Qualifies(memoryTypeBits, types, flags, j))
      && (r.None? ==> forall j | from <= j < count :: !Qualifies(memoryTypeBits, types, flags, j))
    decreases count - from
  {
    if from < count && !Qualifies(memoryTypeBits, types, flags, from) {
      FindFromSpec(memoryTypeBits, types, count, flags, from + 1);
    }
  }

  /**
   * The result is the smallest qualifying index below the count, and `None`
   * exactly when no index below the count qualifies.
   */
  lemma FindMemoryTypeIndexIsFirstMatch(memoryTypeBits: Flags, types: seq<MemoryType>, count: nat, flags: Flags)
    requires count <= |types|
    ensures var r := FindMemoryTypeIndex(memoryTypeBits, types, count, flags);
      && (r.Some? ==> r.value < count && r.value in memoryTypeBits && flags <= types[r.value].propertyFlags)
      && (r.Some? ==> forall j | 0 <= j < r.value :: !Qualifies(memoryTypeBits, types, flags, j))
      && (r.None? <==> forall j | 0 <= j < count :: !Qualifies(memoryTypeBits, types, flags, j))
  {
    FindFromSpec(memoryTypeBits, types, count, flags, 0);
  }

  /** With no required property, the first type the requirements allow is taken. */
  lemma EmptyFlagsTakeFirstAllowed(memoryTypeBits: Flags, types: seq<MemoryType>, count: nat)
    requires count <= |types|
    ensures var r := FindMemoryTypeIndex(memoryTypeBits, types, count, NONE);
      && (r.Some? ==> r.value in memoryTypeBits && forall j | 0 <= j < r.value :: j !in memoryTypeBits)
      && (r.None? <==> forall j | 0 <= j < count :: j !in memoryTypeBits)
  {
    FindMemoryTypeIndexIsFirstMatch(memoryTypeBits, types, count, NONE);
    assert forall j | 0 <= j < count :: Qualifies(memoryTypeBits, types, NONE, j) == (j in memoryTypeBits);
  }
}
