/**
 * The Vulkan constants the modelled code compares against, with the values
 * the Vulkan 1.3 headers give them. Enumerations are plain integers; a flag
 * mask (`VkAccessFlags2`, `VkPipelineStageFlags2`) is the set of positions of
 * its set bits, so `|` is union and `a & b != 0` is a shared position.
 */
module Vk {
  /** A flag mask, as the set of its bit positions. */
  type Flags = set<nat>

  const NONE: Flags := {}

  // Access flags (VkAccessFlagBits2)
  const SHADER_READ: Flags := {5}                      // 0x20
  const SHADER_WRITE: Flags := {6}                     // 0x40
  const COLOR_ATTACHMENT_WRITE: Flags := {8}           // 0x100
  const DEPTH_STENCIL_ATTACHMENT_WRITE: Flags := {10}  // 0x400
  const TRANSFER_READ: Flags := {11}                   // 0x800
  const TRANSFER_WRITE: Flags := {12}                  // 0x1000
  const HOST_WRITE: Flags := {14}                      // 0x4000
  const MEMORY_READ: Flags := {15}                     // 0x8000
  const MEMORY_WRITE: Flags := {16}                    // 0x10000
  const SHADER_STORAGE_WRITE: Flags := {34}            // 0x400000000

  // Pipeline stage flags (VkPipelineStageFlagBits2)
  const STAGE_TOP_OF_PIPE: Flags := {0}                // 0x1
  const STAGE_FRAGMENT_SHADER: Flags := {7}            // 0x80
  const STAGE_TRANSFER: Flags := {12}                  // 0x1000
  const STAGE_ALL_COMMANDS: Flags := {16}              // 0x10000

  /** `VK_WHOLE_SIZE`: `u64::MAX`, "up to the end of the buffer". */
  const WHOLE_SIZE: nat := 0xFFFF_FFFF_FFFF_FFFF

  /** `u32::MAX`, the value of `VK_REMAINING_*` and of an undefined surface extent. */
  const U32_MAX: nat := 0xFFFF_FFFF

  // VkImageLayout
  type ImageLayout = int
  const UNDEFINED: ImageLayout := 0
  const GENERAL: ImageLayout := 1
  const SHADER_READ_ONLY_OPTIMAL: ImageLayout := 5
  const TRANSFER_SRC_OPTIMAL: ImageLayout := 6
  const TRANSFER_DST_OPTIMAL: ImageLayout := 7

  // VkFormat
  type Format = int
  const R8_UNORM: Format := 9
  const R8_SRGB: Format := 15
  const R8G8_UNORM: Format := 16
  const R8G8_SRGB: Format := 22
  const R8G8B8A8_UNORM: Format := 37
  const R8G8B8A8_SRGB: Format := 43
  const B8G8R8A8_SRGB: Format := 50
  const R16_UNORM: Format := 70
  const R16G16_UNORM: Format := 77
  const R16G16B16A16_UNORM: Format := 91
  const R32G32B32_SFLOAT: Format := 106
  const R32G32B32A32_SFLOAT: Format := 109

  // VkColorSpaceKHR
  type ColorSpace = int
  const SRGB_NONLINEAR: ColorSpace := 0

  // VkPresentModeKHR
  type PresentMode = int
  const IMMEDIATE: PresentMode := 0
  const MAILBOX: PresentMode := 1
  const FIFO: PresentMode := 2

  /** `VkImageSubresourceRange`. */
  datatype SubresourceRange = SubresourceRange(
    aspectMask: Flags,
    baseMipLevel: nat,
    levelCount: nat,
    baseArrayLayer: nat,
    layerCount: nat)

  /** `VkImageAspectFlags::COLOR`. */
  const ASPECT_COLOR: Flags := {0}

  /** `VkExtent2D`. */
  datatype Extent2D = Extent2D(width: nat, height: nat)
}
