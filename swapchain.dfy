/**
 * Swapchain setup (src/vulkan/swapchain.rs): the choice of surface format,
 * present mode, extent and image count from what the surface offers, and
 * `recreate`, which rebuilds the swapchain for a new window size while
 * keeping the chosen format and present mode. Creating the swapchain, its
 * images and their views are driver calls; their results are parameters.
 */
module Swapchain {
  import opened Wrappers
  import opened Vk

  /** `VkSurfaceFormatKHR`. */
  datatype SurfaceFormat = SurfaceFormat(format: Format, colorSpace: ColorSpace)

  /** The fields of `VkSurfaceCapabilitiesKHR` the code reads. */
  datatype Capabilities = Capabilities(
    minImageCount: nat,
    currentExtent: Extent2D,
    minImageExtent: Extent2D,
    maxImageExtent: Extent2D)

  /** The preference key of `min_by_key`: B8G8R8A8_SRGB first, then R8G8B8A8_SRGB in sRGB non-linear space. */
  function FormatRank(f: SurfaceFormat): (r: nat)
    ensures 1 <= r <= 3
    ensures r == 1 <==> f.format == B8G8R8A8_SRGB
    ensures r == 2 <==> f.format == R8G8B8A8_SRGB && f.colorSpace == SRGB_NONLINEAR
  {
    if f.format == B8G8R8A8_SRGB then 1
    else if f.format == R8G8B8A8_SRGB && f.colorSpace == SRGB_NONLINEAR then 2
    else 3
  }

  /**
   * `min_by_key(FormatRank)`, as the index of the chosen format: a later
   * format replaces the current choice only with a strictly smaller rank.
   */
  function ChooseFormatIndex(formats: seq<SurfaceFormat>): (r: Option<nat>)
    ensures r.None? <==> |formats| == 0
    ensures r.Some? ==> r.value < |formats|
  {
    if |formats| == 0 then None
    else
      var prefix := ChooseFormatIndex(formats[..|formats| - 1]);
      if prefix.None? then Some(0)
      else if FormatRank(formats[|formats| - 1]) < FormatRank(formats[prefix.value]) then Some(|formats| - 1)
      else prefix
  }

  /**
   * The chosen format has the least rank of all, and every format before it
   * has a larger rank: the first minimum wins. No format, no choice (the
   * source panics with "Could not fetch image format").
   */
  lemma {:induction false} ChooseFormatIsFirstMinimum(formats: seq<SurfaceFormat>)
    ensures var r := ChooseFormatIndex(formats);
      && (r.Some? ==> forall j | 0 <= j < |formats| :: FormatRank(formats[r.value]) <= FormatRank(formats[j]))
      && (r.Some? ==> forall j | 0 <= j < r.value :: FormatRank(formats[r.value]) < FormatRank(formats[j]))
  {
    if |formats| > 1 {
      var init := formats[..|formats| - 1];
      ChooseFormatIsFirstMinimum(init);
      assert forall j | 0 <= j < |init| :: init[j] == formats[j];
    }
  }

  /** B8G8R8A8_SRGB is taken whenever it is offered. */
  lemma PreferredFormatWins(formats: seq<SurfaceFormat>, i: nat)
    requires i < |formats| && formats[i].format == B8G8R8A8_SRGB
    ensures ChooseFormatIndex(formats).Some?
    ensures formats[ChooseFormatIndex(formats).value].format == B8G8R8A8_SRGB
  {
    ChooseFormatIsFirstMinimum(formats);
  }

  /** The present mode: MAILBOX if offered, else FIFO, which every surface supports. */
  function ChoosePresentMode(modes: seq<PresentMode>): (r: PresentMode)
    ensures r == MAILBOX <==> MAILBOX in modes
    ensures r != MAILBOX ==> r == FIFO
  {
    if |modes| == 0 then FIFO
    else if modes[0] == MAILBOX then MAILBOX
    else ChoosePresentMode(modes[1..])
  }

  /** `u32::clamp`, which panics when `min > max`. */
  function Clamp(x: nat, lo: nat, hi: nat): (r: Option<nat>)
    ensures r.None? <==> lo > hi
    ensures r.Some? ==> lo <= r.value <= hi
    ensures r.Some? && lo <= x <= hi ==> r.value == x
  {
    if lo > hi then None
    else if x < lo then Some(lo)
    else if x > hi then Some(hi)
    else Some(x)
  }

  /**
   * The swapchain extent: the surface's current extent unless its width is the
   * special value `u32::MAX`, in which case the window size clamped to the
   * surface's limits, axis by axis.
   */
  function ChooseExtent(caps: Capabilities, windowSize: Extent2D): (r: Option<Extent2D>)
    ensures caps.currentExtent.width != U32_MAX ==> r == Some(caps.currentExtent)
    ensures caps.currentExtent.width == U32_MAX ==>
      (r.None? <==> caps.minImageExtent.width > caps.maxImageExtent.width
                    || caps.minImageExtent.height > caps.maxImageExtent.height)
    ensures caps.currentExtent.width == U32_MAX && r.Some? ==>
      && caps.minImageExtent.width <= r.value.width <= caps.maxImageExtent.width
      && caps.minImageExtent.height <= r.value.height <= caps.maxImageExtent.height
      && (caps.minImageExtent.width <= windowSize.width <= caps.maxImageExtent.width ==> r.value.width == windowSize.width)
      && (caps.minImageExtent.height <= windowSize.height <= caps.maxImageExtent.height ==> r.value.height == windowSize.height)
  {
    if caps.currentExtent.width != U32_MAX then Some(caps.currentExtent)
    else
      var w := Clamp(windowSize.width, caps.minImageExtent.width, caps.maxImageExtent.width);
      var h := Clamp(windowSize.height, caps.minImageExtent.height, caps.maxImageExtent.height);
      if w.None? || h.None? then None else Some(Extent2D(w.value, h.value))
  }

  /** The number of images asked for: the surface minimum, but at least 2. */
  function ImageCount(caps: Capabilities): (r: nat)
    ensures r >= 2 && r >= caps.minImageCount
    ensures r == caps.minImageCount || r == 2
  {
    if caps.minImageCount >= 2 then caps.minImageCount else 2
  }

  /** The parts of `VkSwapchainCreateInfoKHR` that the choices above fill in. */
  datatype SwapchainCreateInfo = SwapchainCreateInfo(
    minImageCount: nat,
    surfaceFormat: SurfaceFormat,
    extent: Extent2D,
    presentMode: PresentMode,
    oldSwapchain: Option<nat>)

  /** `SwapchainContainer`: handles are plain numbers. */
  class SwapchainContainer {
    var inner: nat
    var images: seq<nat>
    var imageviews: seq<nat>
    var format: Format
    var surfaceFormat: SurfaceFormat
    var extent: Extent2D
    var presentMode: PresentMode

    /** One view per swapchain image, made by `createView`. */
    static function ViewsOf(images: seq<nat>, createView: nat -> nat): (r: seq<nat>)
      ensures |r| == |images|
      ensures forall i | 0 <= i < |images| :: r[i] == createView(images[i])
    {
      seq(|images|, i requires 0 <= i < |images| => createView(images[i]))
    }

    /**
     * `SwapchainContainer::new`: picks format, present mode and extent; the
     * swapchain the driver creates is `handle` with images `swapchainImages`.
     * The source panics when the surface offers no format or when a clamp's
     * limits are inverted.
     */
    constructor (caps: Capabilities, formats: seq<SurfaceFormat>, presentModes: seq<PresentMode>,
                 windowSize: Extent2D, handle: nat, swapchainImages: seq<nat>, createView: nat -> nat)
      requires ChooseFormatIndex(formats).Some? && ChooseExtent(caps, windowSize).Some?
      ensures surfaceFormat == formats[ChooseFormatIndex(formats).value] && format == surfaceFormat.format
      ensures presentMode == ChoosePresentMode(presentModes)
      ensures extent == ChooseExtent(caps, windowSize).value
      ensures inner == handle && images == swapchainImages
      ensures imageviews == ViewsOf(swapchainImages, createView)
    {
      var chosen := formats[ChooseFormatIndex(formats).value];
      surfaceFormat := chosen;
      format := chosen.format;
      presentMode := ChoosePresentMode(presentModes);
      extent := ChooseExtent(caps, windowSize).value;
      inner := handle;
      images := swapchainImages;
      imageviews := ViewsOf(swapchainImages, createView);
    }

    /**
     * The create info `new` passes to the driver: the larger of the surface
     * minimum and 2 images, the chosen format (B8G8R8A8_SRGB whenever
     * offered), the chosen extent, MAILBOX if offered and FIFO otherwise,
     * and no predecessor. These are the values the constructor stores.
     */
    static function NewCreateInfo(caps: Capabilities, formats: seq<SurfaceFormat>, presentModes: seq<PresentMode>,
                                  windowSize: Extent2D): (r: SwapchainCreateInfo)
      requires ChooseFormatIndex(formats).Some? && ChooseExtent(caps, windowSize).Some?
      ensures r.minImageCount >= 2 && r.minImageCount >= caps.minImageCount
      ensures r.minImageCount == caps.minImageCount || r.minImageCount == 2
      ensures r.surfaceFormat == formats[ChooseFormatIndex(formats).value]
      ensures (exists i | 0 <= i < |formats| :: formats[i].format == B8G8R8A8_SRGB) ==> r.surfaceFormat.format == B8G8R8A8_SRGB
      ensures r.extent == ChooseExtent(caps, windowSize).value
      ensures r.presentMode == MAILBOX <==> MAILBOX in presentModes
      ensures r.presentMode != MAILBOX ==> r.presentMode == FIFO
      ensures r.oldSwapchain.None?
    {
      assert (exists i | 0 <= i < |formats| :: formats[i].format == B8G8R8A8_SRGB) ==>
        formats[ChooseFormatIndex(formats).value].format == B8G8R8A8_SRGB by {
        if exists i | 0 <= i < |formats| :: formats[i].format == B8G8R8A8_SRGB {
          var i :| 0 <= i < |formats| && formats[i].format == B8G8R8A8_SRGB;
          PreferredFormatWins(formats, i);
        }
      }
      SwapchainCreateInfo(ImageCount(caps), formats[ChooseFormatIndex(formats).value],
        ChooseExtent(caps, windowSize).value, ChoosePresentMode(presentModes), None)
    }

    /**
     * `recreate`: asks for a swapchain with the kept format and present mode,
     * the new extent and the old swapchain as predecessor; then replaces the
     * handle, extent, images and views. Returns the create info it used.
     */
    method Recreate(caps: Capabilities, windowSize: Extent2D, handle: nat, swapchainImages: seq<nat>,
                    createView: nat -> nat) returns (info: SwapchainCreateInfo)
      requires ChooseExtent(caps, windowSize).Some?
      modifies this
      ensures info == SwapchainCreateInfo(ImageCount(caps), old(surfaceFormat), ChooseExtent(caps, windowSize).value,
                                          old(presentMode), Some(old(inner)))
      ensures surfaceFormat == old(surfaceFormat) && format == old(format) && presentMode == old(presentMode)
      ensures inner == handle && extent == ChooseExtent(caps, windowSize).value
      ensures images == swapchainImages && imageviews == ViewsOf(swapchainImages, createView)
    {
      var numImages := ImageCount(caps);
      var swapchainExtent := ChooseExtent(caps, windowSize).value;
      info := SwapchainCreateInfo(numImages, surfaceFormat, swapchainExtent, presentMode, Some(inner));
      var views := ViewsOf(swapchainImages, createView);
      inner := handle;
      extent := swapchainExtent;
      images := swapchainImages;
      imageviews := views;
    }
  }
}
