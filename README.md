# rtr23-round-cat: a verified model of the renderer's bookkeeping

rtr23-round-cat is a Vulkan ray-tracing renderer with a separate asset server. Most of it records GPU commands. This project models the logic underneath that plumbing, one Dafny module per source file, and proves what that logic promises.

- **Synchronisation tracker** (`RangeMap`, `ResourceAccess`, `SyncManager`).
  - For every buffer byte and every image mip level, the tracker remembers the last write and the reads since it.
  - From that history it derives the buffer and image barriers that a new access must wait on.
  - The range maps are interval maps with a whole-range shortcut (`OptRangeMap`) or one slot per index (`SmallArrayRangeMap`).
  - Both are described by their pointwise view: the value stored at each point.
- **Resource arithmetic.**
  - `aligned_size` (`Utility`).
  - Mip-level counts and the mip-halving upload loop (`Image`).
  - The memory-type search (`MemoryType`).
  - Swapchain format, present-mode, extent and image-count selection (`Swapchain`).
  - The unit-cube mesh (`Mesh`).
  - The scene uploader's per-id caches, format mapping and acceleration-structure instance list (`SceneUploader`).
- **Asset server.**
  - File timestamps and their odd equality (`FileChange`).
  - The "outdated" rule (`AssetCompilation`).
  - Snapshot-versioned source files (`SourceFiles`).
  - The lazily compiled and loaded `Asset` (`ServerAsset`).
  - The registry with its inverse dependency index (`AssetServer`).
  - `'/'`-joined asset names and their byte encoding (`AssetRefs`, `AssetClient`).
  - Length-prefixed framing on the local socket (`Ipc`).
- **Small state machines.**
  - The input map (`InputMaps`).
  - The demo's asset-id generator (`IdGenerator`).
  - The keyframe search of animations (`Animations`).

Code that changes state step by step is modelled imperatively:
- classes for the tracker, the small-array range map, the image, the swapchain, the uploader, the asset registry, the asset, the socket, the input map and the id generator;
- loops with invariants where the source loops.

Pure code becomes functions, each with lemmas relating it to an independent description. `Vk` holds the Vulkan constants the code compares against, with their values from the Vulkan 1.3 headers. `Wrappers` holds `Option` and `Result`.

Driver calls, the GPU, the loader, the database and the filesystem are outside the model. Where the code depends on what they return, that result is a parameter.

## Model

| member | source | states |
|---|---|---|
| Animations.DurationBoundsKeyframes | src/loader/animation.rs:13-15 | with increasing timestamps, no keyframe lies after `duration`, which is the last timestamp or 0 without keyframes |
| Animations.FirstAtOrAfter | src/loader/animation.rs:34-41 | the keyframe found from `start` on has a timestamp at or after `t` and every one between `start` and it is before `t`; `None` exactly when every timestamp from `start` on is before `t` |
| Animations.GetKeyframe | src/loader/animation.rs:17-42 | the loop returns 0 without keyframes, else the first keyframe at or after `timestamp` from the search start (0 when the last keyframe lies after `timestamp`, else the last keyframe), or 0 when there is none; the result indexes the timestamps |
| Animations.ResumedSearchAgrees | src/loader/animation.rs:28-32 | with increasing timestamps, resuming the search at the last keyframe finds what a search from 0 finds |
| Animations.GetAndNextAsWritten | src/loader/animation.rs:62-70 | `get_and_next` as written panics (`rem_euclid` by 0) exactly when the sequence is empty |
| Animations.GetAndNext | src/loader/animation.rs:62-70 | the value at `index` and the one after it with wrap-around, the default where `index` is out of range, and both defaults for an empty sequence |
| Animations.GetAndNextAgrees | src/loader/animation.rs:62-70 | the corrected `get_and_next` agrees with the code as written on every non-empty sequence |
| Animations.EmptyTrackPanics | src/loader/animation.rs:62-70 | on an empty sequence the code as written panics where the corrected one returns the two defaults |
| IdGenerator.AssetIdGenerator.constructor | demo/src/loader/asset.rs:20-22 | a new generator starts at id 0 and has issued nothing |
| IdGenerator.AssetIdGenerator.Next | demo/src/loader/asset.rs:24-28 | `next` returns the current id and increments the counter; the id was never issued before |
| IdGenerator.NextTwice | demo/src/loader/asset.rs:24-28 | two successive ids strictly increase, so they differ |
| IdGenerator.Assets.constructor | demo/src/loader/asset.rs:35-40 | `Assets::new` holds no asset |
| FileChange.TimestampEqCases | asset_server/src/file_change.rs:30-38 | two timestamps are equal exactly when both are known and their times are equal; `Unknown` on either side is unequal |
| FileChange.TimestampEqSymmetricTransitive | asset_server/src/file_change.rs:31-37 | the equality is symmetric and transitive |
| FileChange.TimestampEqNotReflexive | asset_server/src/file_change.rs:34-40 | the equality is reflexive exactly on known times: `Unknown` is unequal to itself although the type implements `Eq` |
| AssetCompilation.SetEqIsEqualityWhenKnown | asset_server/src/asset_compilation.rs:27 | without unknown timestamps, `HashSet` equality of dependency sets is plain set equality, in both directions |
| AssetCompilation.UnknownDependencyNeverEqual | asset_server/src/asset_compilation.rs:27 | a dependency set holding an unknown timestamp equals no set, itself included |
| AssetCompilation.IsOutdatedCases | asset_server/src/asset_compilation.rs:25-29 | an unknown main timestamp on either side makes the compilation outdated; with known dependencies it is outdated exactly when the main timestamps differ or are unknown, or the dependency sets differ |
| AssetCompilation.IsOutdatedIgnoresIdAndPath | asset_server/src/asset_compilation.rs:25-29 | neither the compilation's id nor its main file's path takes part in `is_outdated` |
| SourceFiles.SourceFiles.constructor | asset_server/src/source_files.rs:53-75 | `new` keeps exactly the given files with their timestamps at version 0, and the global version starts at 0 |
| SourceFiles.SourceFiles.TakeSnapshot | asset_server/src/source_files.rs:77-83 | the lock carries the current version, the version moves one on (wrapping at 2^64), the files are unchanged |
| SourceFiles.SourceFiles.Get | asset_server/src/source_files.rs:89-101 | `NotFound` exactly for an unknown file; the timestamp exactly when the file's version is at most the lock's; `VersionChanged` otherwise |
| SourceFiles.FreshFilesReadUnderAnyLock | asset_server/src/source_files.rs:53-75 | files as `new` leaves them read under every lock with the timestamp they were given, and unknown files are not found |
| SourceFiles.LaterLocksSeeMore | asset_server/src/source_files.rs:96-100 | a file readable under one version stays readable, with the same timestamp, under every later version |
| InputMaps.MouseSlot | src/input_map.rs:33-47 | only the left and the right button have a slot, and it lies in the mouse-state array |
| InputMaps.MouseSlotsDistinct | src/input_map.rs:33-47 | two different buttons never share a slot |
| InputMaps.InputMap.constructor | src/input_map.rs:16-23 | `new`: no key and no button held, a zero delta, no capture |
| InputMaps.InputMap.IsMousePressed | src/input_map.rs:77-83 | only the left or the right button can read as pressed |
| InputMaps.InputMap.UpdateKeyPress | src/input_map.rs:25-27 | the key reads as pressed afterwards and no other key changes |
| InputMaps.InputMap.UpdateKeyRelease | src/input_map.rs:29-31 | the key reads as released afterwards and no other key changes |
| InputMaps.InputMap.UpdateMousePress | src/input_map.rs:33-39 | a tracked button reads as pressed afterwards; no other button changes; an untracked one changes nothing |
| InputMaps.InputMap.UpdateMouseRelease | src/input_map.rs:41-47 | the button reads as released afterwards; no other button changes; an untracked one changes nothing |
| InputMaps.InputMap.ClearMouseDelta | src/input_map.rs:49-51 | the delta is zero and nothing else changes |
| InputMaps.InputMap.AccumulateMouseDelta | src/input_map.rs:53-55 | the delta grows by the movement and nothing else changes |
| InputMaps.InputMap.StartCapturingMouse | src/input_map.rs:57-59 | the map captures the mouse and remembers the position; nothing else changes |
| InputMaps.InputMap.StopCapturingMouse | src/input_map.rs:61-63 | hands back the remembered position, if any, and capturing ends |
| InputMaps.InputMap.IsCapturingMouse | src/input_map.rs:65-67 | capturing exactly while a position is remembered |
| InputMaps.CaptureRoundTrip | src/input_map.rs:57-67 | capturing from `p` and stopping gives `p` back; stopping again gives nothing |
| Ipc.FromLeOfLeBytes | asset_common/src/ipc.rs:36-43 | reading back the `k` little-endian bytes of a number that fits in them gives the number |
| Ipc.LeBytesOfFromLe | asset_common/src/ipc.rs:36-43 | writing the number read from some bytes gives those bytes back |
| Ipc.U64LeRoundTrip | asset_common/src/ipc.rs:36-43 | `u64::to_le_bytes` and `u64::from_le_bytes` are inverse to each other, in both directions |
| Ipc.Frame | asset_common/src/ipc.rs:42-47 | a written message is eight header bytes followed by exactly the data |
| Ipc.ParseFrame | asset_common/src/ipc.rs:33-40 | a frame read from the stream is a header, then as many bytes as the header says, then the rest of the stream |
| Ipc.FrameRoundTrip | asset_common/src/ipc.rs:33-47 | reading a written frame gives back the data and leaves what followed it |
| Ipc.ShortInputFails | asset_common/src/ipc.rs:35-38 | a stream too short for the header, or for the body the header announces, reads as an error |
| Ipc.LocalSocketStream.ReadExact | asset_common/src/ipc.rs:35-38 | `read_exact` succeeds exactly when the stream holds enough bytes, and then fills the buffer with the next bytes and consumes them |
| Ipc.LocalSocketStream.WriteAll | asset_common/src/ipc.rs:44-45 | `write_all` appends the bytes to what was written |
| Ipc.LocalSocketStream.ReadLenPrefixed | asset_common/src/ipc.rs:33-40 | `read_len_prefixed` succeeds exactly when a whole frame is there, returns its data and leaves the rest of the stream |
| Ipc.LocalSocketStream.WriteLenPrefixed | asset_common/src/ipc.rs:42-47 | `write_len_prefixed` appends the frame of the data |
| Ipc.WriteThenRead | asset_common/src/ipc.rs:33-47 | what one end writes the other reads back unchanged, whatever follows it on the stream |
| AssetRefs.Join | asset_common/src/asset.rs:36 | the join of no segments is empty; otherwise it starts with the first segment, followed by a `'/'` when there are more |
| AssetRefs.JoinCons | asset_common/src/asset.rs:36 | joining one more segment in front puts it and a `'/'` before the join of the rest |
| AssetRefs.Display | asset_common/src/asset.rs:34-38 | a reference is shown as its segments joined with `'/'`: an empty name shows as nothing, a single segment as itself |
| AssetRefs.AsBytes | asset_common/src/asset.rs:22-24 | the archive starts with the segment count as eight little-endian bytes |
| AssetRefs.DecodeSegments | asset_common/src/asset.rs:26-31 | decoding `count` segments returns exactly `count` segments whose encoding is the input consumed |
| AssetRefs.FromBytes | asset_common/src/asset.rs:26-31 | an accepted archive is exactly the encoding of the reference returned; a malformed archive, where the source panics, gives `None` |
| AssetRefs.DecodeEncodeSegments | asset_common/src/asset.rs:22-31 | decoding encoded segments gives them back and leaves what followed them |
| AssetRefs.AsBytesRoundTrip | asset_common/src/asset.rs:22-31 | `from_bytes(as_bytes(r)) == r` |
| AssetRefs.NewUnchecked | asset_common/src/asset.rs:92-103 | `AssetHandle::new_unchecked(k).get_ref()` is `k` |
| AssetClient.Split | asset_client/src/lib.rs:75 | splitting on `'/'` always gives at least one piece |
| AssetClient.SplitCount | asset_client/src/lib.rs:75 | there is one piece more than there are `'/'` bytes: empty pieces are kept |
| AssetClient.SplitPiecesHaveNoSlash | asset_client/src/lib.rs:75 | no piece contains a `'/'` |
| AssetClient.JoinSplit | asset_client/src/lib.rs:75 | joining the pieces with `'/'` gives back the string |
| AssetClient.SplitJoin | asset_client/src/lib.rs:75 | splitting the join of at least one segment without `'/'` gives back the segments |
| AssetClient.VisitStr | asset_client/src/lib.rs:70-78 | `visit_str` never fails, displays back as the string it read, and has one segment more than the string has `'/'` bytes |
| AssetClient.DisplayThenVisit | asset_client/src/lib.rs:70-78 | a reference with at least one segment, shown and read back, names the same asset whenever no segment holds a `'/'` |
| ServerAsset.AssetDatabase.Get | asset_server/src/asset_database.rs:58-78 | a stored compilation record is found exactly when one was stored under the key, and it is the stored one |
| ServerAsset.AssetDatabase.Set | asset_server/src/asset_database.rs:80-96 | storing a record replaces the one under that key and leaves every other key alone |
| ServerAsset.Asset.constructor | asset_server/src/asset.rs:52-59 | `Asset::new` keeps the key and main file, with no dependencies and no data |
| ServerAsset.Asset.PopulateFromCacheFile | asset_server/src/asset.rs:69-73 | takes over the cached record's main timestamp and dependencies, for the same main file; key and data unchanged |
| ServerAsset.Asset.CompileIfOutdated | asset_server/src/asset.rs:75-93 | a current stored record is returned with nothing changed; otherwise a failed compile changes nothing, and a successful one is stored in the database and its data replaces the cached data |
| ServerAsset.Asset.Load | asset_server/src/asset.rs:96-113 | a current record leaves the database alone and answers with the cached data, or loads from the record; an outdated one stores the new compilation record in the database under the asset's key (or, when compiling fails, returns that error and changes nothing), then answers with the compiled data or loads from the new record; a successful result is the cached data afterwards, and a failed load leaves no data cached |
| ServerAsset.LoadTwice | asset_server/src/asset.rs:96-113 | a second `load` of an asset whose record is current gives what the first one gave, and the database is untouched |
| AssetServer.Assets.constructor | asset_server/src/asset_server.rs:120-126 | `Assets::new` holds no asset and no inverse dependency |
| AssetServer.Assets.AppendToIndex | asset_server/src/asset_server.rs:129-134 | the loop appends the key once per visited dependency to the end of that dependency's file's list, creating missing lists, and changes nothing else |
| AssetServer.Assets.AddAsset | asset_server/src/asset_server.rs:128-136 | the asset is stored under its key, replacing an earlier one; every file's list gains the key once per dependency on that file, at its end, and loses nothing |
| AssetServer.AllAssets.constructor | asset_server/src/asset_server.rs:20-24 | no asset type is registered |
| AssetServer.AllAssets.WithAssetType | asset_server/src/asset_server.rs:26-33 | the type is registered with a new, empty `Assets`, replacing an earlier registration; other types are unchanged |
| AssetServer.AllAssets.AddAsset | asset_server/src/asset_server.rs:91-136 | in its type's `Assets`, the asset is stored under its key, and the list of every file it depends on gains the key at its end, once per dependency on that file, losing nothing; the registry itself is unchanged; the type must be registered (the source panics otherwise, 35-42) |
| AssetServer.AllAssets.LoadAsset | asset_server/src/asset_server.rs:73-89 | "Asset not found" exactly when the key is absent, and then nothing changes; otherwise only the requested asset and the database change, the asset keeps its key, main file and dependencies, and the answer is the asset's `load` (cached data, a fresh compilation, or a load from the record) with a failure wrapped as "load failed"; a fresh compilation record is stored under the asset's key, a loaded value is then the asset's cached data, and a failed load leaves none |
| Mesh.FlattenLength | asset_common/src/asset/scene/mesh.rs:81-95 | `flat_map` over blocks of `n` elements yields `n` times as many elements |
| Mesh.FlattenIndex | asset_common/src/asset/scene/mesh.rs:81-109 | with blocks of `n` elements, element `j` of block `i` lands at position `n * i + j` |
| Mesh.FaceVertices | asset_common/src/asset/scene/mesh.rs:83-94 | every face contributes four vertices |
| Mesh.FaceIndices | asset_common/src/asset/scene/mesh.rs:105-108 | every face contributes six indices |
| Mesh.FacesWellFormed | asset_common/src/asset/scene/mesh.rs:41-72 | six faces, each naming four existing corners |
| Mesh.UnitCubeVertexLayout | asset_common/src/asset/scene/mesh.rs:81-95 | 24 vertices; vertex `k` is corner `k % 4` of face `k / 4`, with that face's normal, the UV of its corner position and a zero tangent |
| Mesh.UnitCubeIndexLayout | asset_common/src/asset/scene/mesh.rs:97-109 | 36 indices; index `k` is `4 * (k / 6)` plus the schema's entry `k % 6`, so every index is below 24 |
| Mesh.UnitCubeLayout | asset_common/src/asset/scene/mesh.rs:81-115 | `new_unit_cube` builds exactly that layout, and every index names one of its vertices |
| Mesh.UnitCubeVerticesOnTheirFaces | asset_common/src/asset/scene/mesh.rs:85-92 | every vertex lies on the plane of its face, its normal is a unit vector, and every tangent is zero |
| Mesh.FaceOnItsPlane | asset_common/src/asset/scene/mesh.rs:28-72 | corner `i` of face `f` lies at distance 0.5 along the face's unit normal |
| Mesh.UnitCubeTrianglesStayOnOneFace | asset_common/src/asset/scene/mesh.rs:97-109 | each of the twelve triangles uses three distinct vertices of one face, all carrying its normal |
| Mesh.NewUnitCube | asset_common/src/asset/scene/mesh.rs:111-115 | the mesh carries the id it was asked for (its layout is stated by the lemmas above) |
| Swapchain.FormatRank | src/vulkan/swapchain.rs:48-52 | rank 1 exactly for B8G8R8A8_SRGB, rank 2 exactly for R8G8B8A8_SRGB in sRGB non-linear space, 3 otherwise |
| Swapchain.ChooseFormatIndex | src/vulkan/swapchain.rs:46-53 | no choice exactly when the surface offers no format; otherwise an index into the offered formats |
| Swapchain.ChooseFormatIsFirstMinimum | src/vulkan/swapchain.rs:46-53 | the chosen format has the least rank, and every format before it has a strictly larger rank (`min_by_key` keeps the first minimum) |
| Swapchain.PreferredFormatWins | src/vulkan/swapchain.rs:46-53 | whenever B8G8R8A8_SRGB is offered, it is chosen |
| Swapchain.ChoosePresentMode | src/vulkan/swapchain.rs:55-58 | MAILBOX exactly when offered, FIFO otherwise |
| Swapchain.Clamp | src/vulkan/swapchain.rs:65-72 | `clamp` fails exactly when its limits are inverted; otherwise the result is within them, and a value already within them is kept |
| Swapchain.ChooseExtent | src/vulkan/swapchain.rs:60-75 | the current extent unless its width is `u32::MAX`; then the window size clamped axis by axis, kept where it fits, and no extent exactly when a limit pair is inverted |
| Swapchain.ImageCount | src/vulkan/swapchain.rs:77 | at least 2 and at least the surface minimum, and one of the two |
| Swapchain.SwapchainContainer.ViewsOf | src/vulkan/swapchain.rs:102-121 | one view per swapchain image, in order |
| Swapchain.SwapchainContainer.NewCreateInfo | src/vulkan/swapchain.rs:77-96 | asks for the larger of the surface minimum and two images, the chosen format (B8G8R8A8_SRGB whenever offered), the chosen extent, MAILBOX exactly when offered and FIFO otherwise, and no predecessor |
| Swapchain.SwapchainContainer.constructor | src/vulkan/swapchain.rs:24-138 | the container holds the chosen format, present mode and extent, the driver's swapchain and images, and one view per image |
| Swapchain.SwapchainContainer.Recreate | src/vulkan/swapchain.rs:143-233 | the request keeps the format and present mode, uses the new extent and names the old swapchain as predecessor; afterwards the handle, extent, images and views are the new ones and format and present mode are unchanged |
| MemoryType.FindFrom | src/main.rs:476-483 | a found index lies between the starting position and the memory type count |
| MemoryType.FindFromSpec | src/main.rs:476-483 | `find` from a position returns the first qualifying index from there on, and nothing exactly when none from there on qualifies |
| MemoryType.FindMemoryTypeIndexIsFirstMatch | src/main.rs:471-484 | the result is below the count, allowed by `memory_type_bits` and has every requested flag, no earlier index qualifies, and `None` exactly when no index below the count qualifies |
| MemoryType.EmptyFlagsTakeFirstAllowed | src/main.rs:471-484 | with no requested flags the first index allowed by `memory_type_bits` is chosen |
| Utility.AlignMask | src/utility.rs:16 | masking with `!(alignment - 1)` on 32 bits rounds down to a multiple of a power-of-two alignment |
| Utility.AlignedSize | src/utility.rs:14-17 | no result exactly where the source panics: an alignment that is not a power of two, or the addition `value + alignment`, evaluated before the `- 1`, overflowing `u32` |
| Utility.AlignedSizeRoundsUp | src/utility.rs:14-17 | the result is a multiple of the alignment, at least `value` and less than `value + alignment`: the least such multiple |
| Utility.AlignedOfMultiple | src/utility.rs:14-17 | a value that is already a multiple of the alignment is returned unchanged, unless adding the alignment to it overflows `u32`, where the source panics |
| Utility.AlignedSizeIdempotent | src/utility.rs:14-17 | aligning an aligned size gives the same size, unless that size plus the alignment overflows `u32` |
| Utility.AlignedSizeOverflowsAtTop | src/utility.rs:16 | the second alignment can panic where the first did not: 0xFFFF_FFF9 aligns to 0xFFFF_FFFC with alignment 4, and aligning 0xFFFF_FFFC overflows |
| Image.ILog2Bounds | src/vulkan/image.rs:261-266 | `ilog2(x)` is the exponent of the largest power of two not above `x` |
| Image.MaxMipLevels | src/vulkan/image.rs:261-266 | no level count exactly when both sides are 0 (the `unwrap` panics); otherwise at least one level |
| Image.LastMipLevelIsOnePixel | src/vulkan/image.rs:261-266 | with both sides positive, halving `max_mip_levels - 1` times leaves both sides at exactly 1 |
| Image.LastMipLevelAtMostOne | src/vulkan/image.rs:261-266 | with one side positive, `max_mip_levels - 1` halvings leave no side above 1 |
| Image.FullSubresourceRange | src/vulkan/image.rs:268-279 | covers the given aspect, every mip level from 0 and exactly one array layer |
| Image.SimpleImageCreateInfo | src/vulkan/image.rs:282-301 | the default create info: a 2D, optimally tiled, exclusively shared image with one level, one layer, one sample, no usage and an undefined format, extent and layout |
| Image.HalveNBounds | src/vulkan/image.rs:231-237 | halving a positive side while it exceeds 1 never reaches 0 and never grows |
| Image.HalveNMonotone | src/vulkan/image.rs:231-237 | halving keeps the order of two sides |
| Image.HalveNReachesOne | src/vulkan/image.rs:231-237 | `ilog2(x)` halvings bring a positive side to exactly 1 |
| Image.BlitSide | src/vulkan/image.rs:189-190 | `(x as i32 / 2).max(1)` with truncating division is at least 1 |
| Image.BlitSideIsNextLevel | src/vulkan/image.rs:171-237 | for a side that fits in `i32`, the blit's destination side equals the loop's halved side for the next level |
| Image.MipSides | src/vulkan/image.rs:150-237 | the loop's sides stay within `u32` |
| Image.MipSidesAreHalvings | src/vulkan/image.rs:150-237 | at iteration `level` the loop holds the extent halved `level - 1` times |
| Image.LoopCommands | src/vulkan/image.rs:150-237 | iterations `1 .. levels - 1` record three commands each |
| Image.UploadCommands | src/vulkan/image.rs:64-258 | the upload records three commands per mip level |
| Image.LoopCommandsAt | src/vulkan/image.rs:150-228 | iteration `k` records its barrier, blit and barrier at positions `3(k-1) .. 3k` of the loop's commands |
| Image.BlitOfLevel | src/vulkan/image.rs:171-212 | level `k` is blitted from level `k - 1` at that level's sides into the halved sides, none of which is 0 |
| Image.Apply | src/vulkan/image.rs:74-256 | a command that fits keeps the number of levels |
| Image.Run | src/vulkan/image.rs:64-258 | running commands that fit keeps the number of levels |
| Image.RunAppend | src/vulkan/image.rs:64-258 | running two command lists one after the other is running their concatenation |
| Image.BarrierEffect | src/vulkan/image.rs:150-156 | a barrier whose old layout matches moves exactly its levels to its new layout |
| Image.LevelStep | src/vulkan/image.rs:150-228 | one loop iteration moves level `level - 1` to SHADER_READ_ONLY, with its blit finding the source level in TRANSFER_SRC and the destination in TRANSFER_DST |
| Image.LoopProgress | src/vulkan/image.rs:150-237 | after iterations `1 .. k - 1` levels below `k - 1` are SHADER_READ_ONLY and the rest TRANSFER_DST |
| Image.UploadLeavesEveryLevelReadOnly | src/vulkan/image.rs:64-258 | every recorded barrier finds the layout it names, the copy and every blit find their levels in the layouts they need, and at the end every level is SHADER_READ_ONLY_OPTIMAL |
| Image.Image.constructor | src/vulkan/image.rs:24-61 | format, extent, layout and level count come from the create info |
| Image.Image.CopyFromBufferForTexture | src/vulkan/image.rs:64-259 | fails, changing nothing, exactly when linear blitting is unsupported or there is no mip level; otherwise records the whole upload and sets the tracked layout to SHADER_READ_ONLY_OPTIMAL |
| ResourceAccess.IsWriteIffHoldsWriteFlag | src/vulkan/sync_manager/resource_access.rs:3-12 | an access writes exactly when it holds one of the seven write flags |
| ResourceAccess.IsWriteOfReadsAndUnions | src/vulkan/sync_manager/resource_access.rs:3-12 | read flags alone never write, and a union of flags writes exactly when one of its parts does |
| ResourceAccess.WaitAll | src/vulkan/sync_manager/resource_access.rs:23-30 | all commands, memory read and write, which counts as a write, over the whole buffer whatever its size |
| ResourceAccess.EntireBuffer | src/vulkan/sync_manager/resource_access.rs:32-43 | the given stage and access over the whole buffer whatever its size; a write exactly when the access flags write |
| ResourceAccess.EntireImage | src/vulkan/sync_manager/resource_access.rs:55-67 | stage, access, layout and subresource range as given |
| ResourceAccess.ImageIsWriteCases | src/vulkan/sync_manager/resource_access.rs:69-71 | a layout change is always a write; in an unchanged layout the access flags alone decide |
| RangeMap.Ie | src/vulkan/sync_manager/range_map.rs:3 | `ie(a, b)` holds exactly the points from `a` up to, not including, `b` |
| RangeMap.EmptyRangeOnlyWhenInvalid | src/vulkan/sync_manager/range_map.rs:248-252 | the corrected emptiness test holds exactly for intervals without a point and never for a valid one, while the test as written holds for every valid one-point interval |
| RangeMap.Restrict | src/vulkan/sync_manager/range_map.rs:119-163 | the entries of a map at the points of an interval, with their values |
| RangeMap.PointOverwrite | src/vulkan/sync_manager/range_map.rs:145-150 | `insert_overwrite`: afterwards the map holds the old points plus every point of the key |
| RangeMap.PointCut | src/vulkan/sync_manager/range_map.rs:152-154 | `cut`: afterwards the map holds the old points minus those of the key |
| RangeMap.MaxRangeCoversAll | src/vulkan/sync_manager/range_map.rs:36-38 | a key containing both ends of the covered range covers every point of it |
| RangeMap.GetAllIsViewValues | src/vulkan/sync_manager/range_map.rs:52-64 | on a map whose inner map stays within the covered range and a fitting key, `get_all` reports exactly the values stored at the key's points |
| RangeMap.OptRangeMap.constructor | src/vulkan/sync_manager/range_map.rs:22-27 | a new map over the range stores nothing |
| RangeMap.OptRangeMap.GetAll | src/vulkan/sync_manager/range_map.rs:52-64 | for a valid key, the values stored at the key's points (nothing on a new map) |
| RangeMap.OptRangeMap.SplitAll | src/vulkan/sync_manager/range_map.rs:78-85 | a partial update of a map covered by one value starts from that value at every point of the range |
| RangeMap.OptRangeMap.Overwrite | src/vulkan/sync_manager/range_map.rs:66-88 | the key's points hold the value and all other points keep theirs; returns the values the key held; a covering key collapses the map to one value, a partial key makes it granular |
| RangeMap.OptRangeMap.Cut | src/vulkan/sync_manager/range_map.rs:90-116 | the key's points hold nothing and all other points keep their values; returns the values the key held; a covering key empties the map |
| RangeMap.OptRangeMap.InsertIfEmpty | src/vulkan/sync_manager/range_map.rs:268-279 | stores the value exactly when nothing overlaps the key; otherwise hands the value back and changes nothing |
| RangeMap.AsWrittenSkipsOnePointKeys | src/vulkan/sync_manager/range_map.rs:52-116 | as written, a one-point key reads nothing from a map holding a value everywhere (the corrected `get_all` reads that value), overwriting or cutting it changes nothing and returns nothing, and `insert_if_empty` answers `Ok` without storing anything; so a one-level map filled over [0, 0] stays empty |
| RangeMap.OverwriteAsWrittenForgetsCoveringValue | src/vulkan/sync_manager/range_map.rs:78-85 | as written, overwriting [0, 1] of a map over [0, 2] covered by `w` leaves point 2 without a value, where the corrected overwrite keeps `w` there |
| RangeMap.CutAsWrittenForgetsCoveringValue | src/vulkan/sync_manager/range_map.rs:99-107 | as written, cutting [0, 1] of a map over [0, 2] covered by `w` leaves nothing, where the corrected cut keeps `w` at point 2 |
| RangeMap.DedupConsecutive | src/vulkan/sync_manager/range_map.rs:198-209 | drops repeats of the previous element: no two neighbours equal, the first element kept, the same set of elements, never longer |
| RangeMap.SmallArrayRangeMap.constructor | src/vulkan/sync_manager/range_map.rs:176-183 | every index holds the given value |
| RangeMap.SmallArrayRangeMap.GetAll | src/vulkan/sync_manager/range_map.rs:194-210 | the values at the key's indices in order with consecutive duplicates dropped: it starts with the value at the key's start, no two neighbours are equal, and it holds exactly the values stored there |
| RangeMap.SmallArrayRangeMap.Overwrite | src/vulkan/sync_manager/range_map.rs:212-224 | every index of the key holds the value and the others keep theirs; returns the key's old values with consecutive repeats removed |
| RangeMap.SmallOverwriteAsWrittenSkipsOneIndex | src/vulkan/sync_manager/range_map.rs:212-224 | as written, overwriting one index leaves the array unchanged, so that index does not hold the new value |
| SyncManager.CombineIsLeastUpperBound | src/vulkan/sync_manager.rs:236-260 | `combine` covers both accesses (their stages, their flags, a write if either writes) and is covered by every access that covers both; `empty` is covered by everything |
| SyncManager.CombineLaws | src/vulkan/sync_manager.rs:236-260 | `combine` is commutative, associative and idempotent, with `empty` as identity, so the order in which old accesses are folded does not matter |
| SyncManager.FoldIsLeastUpperBound | src/vulkan/sync_manager.rs:95-98 | folding with `into_combined` from `empty` covers every element and is covered by every common upper bound |
| SyncManager.FoldDependsOnlyOnElements | src/vulkan/sync_manager.rs:95-98 | two lists with the same elements, in any order and with any repetition, fold to the same access |
| SyncManager.FoldAccessNoneIff | src/vulkan/sync_manager.rs:95-100 | the folded flags are empty exactly when every element's flags are |
| SyncManager.WithFlags | src/vulkan/sync_manager.rs:93 | keeps exactly the old accesses whose flags are not empty |
| SyncManager.FoldFlagsIgnoreEmpty | src/vulkan/sync_manager.rs:91-98 | dropping accesses without flags does not change the combined flags |
| SyncManager.BufferBarrierWaitsOnOldFlags | src/vulkan/sync_manager.rs:85-116 | a buffer access gets no barrier exactly when no old access has flags; otherwise the barrier's source stage and flags are the combination of the old accesses with flags, covering every stage and flag of each, and its destination is the new access over its bytes |
| SyncManager.ImageBarrier | src/vulkan/sync_manager.rs:132-155 | the barrier moves the segment's levels from its old layout to the access's layout; its source stage and flags are the combination of all old accesses of the segment, so they cover each of them; its destination is the access's stage and flags, with the access's aspect, base array layer and layer count |
| SyncManager.NewResourceRW | src/vulkan/sync_manager.rs:446-451 | a new history over the range holds no write and no read |
| SyncManager.AddWrite | src/vulkan/sync_manager.rs:453-468 | the range now holds the write and no reads, every other point keeps its history, and the returned accesses are exactly the latest ones the range held (its reads since the last write where there are any, else that write) |
| SyncManager.AddRead | src/vulkan/sync_manager.rs:470-480 | every point of the range records exactly the read combined with its earlier read (the read alone where there was none), the write is unchanged, other points keep their reads, and the returned accesses are exactly the writes the range held |
| SyncManager.WriteAfterWriteWaits | src/vulkan/sync_manager.rs:453-468 | a write overlapping an earlier write reports that write |
| SyncManager.ReadAfterWriteWaits | src/vulkan/sync_manager.rs:453-480 | a read overlapping an earlier write reports that write |
| SyncManager.WriteAfterReadWaits | src/vulkan/sync_manager.rs:453-480 | a write overlapping an earlier read reports accesses whose fold covers that read |
| SyncManager.FirstReadIsLostAsWritten | src/vulkan/sync_manager.rs:470-480 | as written, the first read of a fresh buffer is not recorded, so a later write gets no barrier; the corrected read makes the write report it |
| SyncManager.NewLayouts | src/vulkan/sync_manager.rs:351-355 | a new layout map gives every level of the image the layout UNDEFINED |
| SyncManager.LayoutSegments | src/vulkan/sync_manager.rs:357-370 | the old layouts over the accessed levels come as maximal runs of one layout that tile the levels exactly, in order, adjacent runs in different layouts |
| SyncManager.SegmentStep | src/vulkan/sync_manager.rs:385-409 | recording one segment keeps the history well formed over the same range |
| SyncManager.ApplySegments | src/vulkan/sync_manager.rs:385-411 | the segments are recorded in order and reported one each, with their levels and old layouts |
| SyncManager.WrittenSegmentExtends | src/vulkan/sync_manager.rs:391-398 | recording a written segment after the levels before it extends the level-by-level update by that segment |
| SyncManager.ReadSegmentExtends | src/vulkan/sync_manager.rs:399-407 | recording a read segment after the levels before it extends the level-by-level update by that segment |
| SyncManager.SegmentStepExtends | src/vulkan/sync_manager.rs:385-409 | recording one more adjacent segment in one layout extends the level-by-level update by that segment |
| SyncManager.ApplyTilingIsImageUpdate | src/vulkan/sync_manager.rs:385-411 | recording the segments of a tiling in order performs the level-by-level update over the levels they tile |
| SyncManager.ApplySegmentsIsImageUpdate | src/vulkan/sync_manager.rs:357-411 | recording the layout segments of the accessed levels in order is the level-by-level update: a level whose layout changes or whose flags write records a write and loses its reads, any other level adds a read |
| SyncManager.BufferEntry | src/vulkan/sync_manager.rs:313-316 | the buffer's history, or a new one over `[0, size)` when it has none |
| SyncManager.ImageEntry | src/vulkan/sync_manager.rs:380-383 | the image's history, or a new one over its levels when it has none |
| SyncManager.LayoutsEntry | src/vulkan/sync_manager.rs:351-355 | the image's layouts, or every level UNDEFINED when it has none; a full map over its levels either way |
| SyncManager.BufferStep | src/vulkan/sync_manager.rs:318-335 | a buffer access is recorded as a write when its flags write and as a read otherwise |
| SyncManager.StoredSegments | src/vulkan/sync_manager.rs:357 | the old-layout segments of an access lie within the image's levels |
| SyncManager.LayoutsAfter | src/vulkan/sync_manager.rs:357 | after an access every level of the image still has a layout |
| SyncManager.StoredSegmentsUpdateImage | src/vulkan/sync_manager.rs:351-411 | recording the stored segments of an access one by one is the level-by-level update of the image's history |
| SyncManager.ImageAccessStep | src/vulkan/sync_manager.rs:338-412 | the tracker stays well formed and the image's layout map becomes the one after the access |
| SyncManager.ImageAccessIsLevelwise | src/vulkan/sync_manager.rs:338-412 | after `add_image_access` the image's history is the level-by-level update over its old layouts |
| SyncManager.ImageAccessReportsItsLevels | src/vulkan/sync_manager.rs:357-370 | the reported segments tile the accessed levels exactly, in order, each in one old layout and adjacent ones in different layouts; there is at least one (the facts the source asserts) |
| SyncManager.FullCovers | src/vulkan/sync_manager.rs:269-270 | a layout map that fills its slots has a layout for every level of a range inside the image |
| SyncManager.ApplySegmentsReports | src/vulkan/sync_manager.rs:385-411 | the report lists exactly the recorded segments with their old layouts |
| SyncManager.ImageBarriers | src/vulkan/sync_manager.rs:132-155 | one barrier per reported segment, built from that segment |
| SyncManager.RecordSegments | src/vulkan/sync_manager.rs:385-411 | the loop over the segments computes what recording them in order does |
| SyncManager.RecordImageAccess | src/vulkan/sync_manager.rs:338-412 | the maps and report after the segment loop and the layout update are those of `add_image_access` |
| SyncManager.BufferUseStep | src/vulkan/sync_manager.rs:85-116 | one buffer access keeps the histories well formed and yields a barrier exactly when an old access it meets has flags; the barrier's source is the combined stages and flags of those old accesses, and it hands over to the access |
| SyncManager.BufferAccessesStep | src/vulkan/sync_manager.rs:85-116 | the buffer accesses in order yield at most one barrier each, all waiting on non-empty flags |
| SyncManager.ImageUseStep | src/vulkan/sync_manager.rs:118-157 | one image access keeps the tracker well formed and yields at least one barrier, even for a read in an unchanged layout |
| SyncManager.ImageUseBarriersTarget | src/vulkan/sync_manager.rs:132-155 | every barrier of an image access moves its levels to the access's layout and makes them visible to its stage and flags |
| SyncManager.OneLevelImageFindsNoLayoutsAsWritten | src/vulkan/sync_manager.rs:351-361 | as written, a one-level image's layout map stays `All(None)` after being filled with UNDEFINED and the access's overwrite returns no old layouts, so the `old_layouts.len() > 0` assert fails; the corrected tracker reports at least one segment |
| SyncManager.ImageAccessesStep | src/vulkan/sync_manager.rs:118-158 | the image accesses in order keep the tracker well formed and yield at least one barrier each |
| SyncManager.SyncManagerInternal.constructor | src/vulkan/sync_manager.rs:276-284 | nothing tracked, both counters at zero |
| SyncManager.SyncManagerInternal.GetBuffer | src/vulkan/sync_manager.rs:286-290 | hands out the buffer counter and advances it by one; nothing else changes |
| SyncManager.SyncManagerInternal.GetImage | src/vulkan/sync_manager.rs:292-296 | hands out the image counter and advances it by one; nothing else changes |
| SyncManager.SyncManagerInternal.RemoveBuffer | src/vulkan/sync_manager.rs:298-300 | forgets exactly that buffer's history |
| SyncManager.SyncManagerInternal.RemoveImage | src/vulkan/sync_manager.rs:302-305 | forgets exactly that image's history and layouts |
| SyncManager.SyncManagerInternal.ClearAll | src/vulkan/sync_manager.rs:414-418 | forgets every access but keeps the image layouts |
| SyncManager.SyncManagerInternal.AddBufferAccess | src/vulkan/sync_manager.rs:307-336 | the buffer's history (new on first use) records the access as a write or read, and the old accesses it must wait on are returned; nothing else changes |
| SyncManager.SyncManagerInternal.AddImageAccess | src/vulkan/sync_manager.rs:338-412 | the tracker's images, layouts and report become those of the image access step; nothing else changes |
| SyncManager.SyncManagerInternal.AddBufferUse | src/vulkan/sync_manager.rs:85-116 | one buffer access of `add_accesses` with its barrier, if any |
| SyncManager.SyncManagerInternal.AddImageUse | src/vulkan/sync_manager.rs:118-157 | one image access of `add_accesses` with its barriers |
| SyncManager.SyncManagerInternal.AddBufferUseAt | src/vulkan/sync_manager.rs:85-116 | one more buffer access extends the buffer accesses recorded so far |
| SyncManager.SyncManagerInternal.AddBufferUses | src/vulkan/sync_manager.rs:85-116 | the loop over the buffer accesses computes the buffer half of `add_accesses` |
| SyncManager.SyncManagerInternal.AddImageUseAt | src/vulkan/sync_manager.rs:118-158 | one more image access extends the image accesses recorded so far |
| SyncManager.SyncManagerInternal.AddImageUses | src/vulkan/sync_manager.rs:118-158 | the loop over the image accesses computes the image half of `add_accesses` |
| SyncManager.SyncManagerInternal.AddAccesses | src/vulkan/sync_manager.rs:76-166 | records the buffer accesses, then the image accesses, in order, and the pipeline barrier carries the barriers those steps yield |
| SceneUploader.ConvertFormat | src/scene_uploader.rs:563-599 | no format exactly for 16- and 32-bit channels in sRGB space, where the source panics |
| SceneUploader.ConvertFormatShape | src/scene_uploader.rs:563-599 | every linear format converts, distinct linear formats to distinct Vulkan formats, and a convertible sRGB image gets the sRGB twin of its linear format |
| SceneUploader.MipLevelCount | src/scene_uploader.rs:601-609 | one level without mipmapping; with it, `max_mip_levels` of the image extent, which is no count exactly for an empty image and otherwise a count whose last level is at most one pixel on each side |
| SceneUploader.CreateImage | src/scene_uploader.rs:557-629 | the view belongs to the loaded image, has the converted format of its format and colour space, and has `MipLevelCount` levels: the full chain with mipmapping and one level without |
| SceneUploader.GeometryOf | src/scene_uploader.rs:237-247 | the bottom-level structure of a mesh has one triangle per three indices, rounded down, and its last vertex index as `max_vertex` |
| SceneUploader.InstancesMatchPrimitives | src/scene_uploader.rs:314-332 | there are exactly as many instances as primitives, and instance `k` places primitive `k`'s bottom-level structure |
| SceneUploader.InstanceBufferSize | src/scene_uploader.rs:314-339 | the instance buffer holds 64 bytes per primitive of the scene |
| SceneUploader.TextureOfKept | src/scene_uploader.rs:476-512 | a cached texture stays the same while the caches only grow |
| SceneUploader.ViewsAfter | src/scene_uploader.rs:488-497 | the view cache after one `load_texture` keeps every entry and gains exactly the image id of a present texture |
| SceneUploader.SamplersAfter | src/scene_uploader.rs:499-502 | the sampler cache after one `load_texture` keeps every entry and gains exactly the sampler id of a present texture |
| SceneUploader.MaterialViews | src/scene_uploader.rs:136-170 | the view cache after a new material's three loads keeps every entry and gains exactly the image ids of its present textures |
| SceneUploader.MaterialSamplers | src/scene_uploader.rs:136-170 | the sampler cache after a new material's three loads keeps every entry and gains exactly the sampler ids of its present textures |
| SceneUploader.MaterialViewsUseTheFlags | src/scene_uploader.rs:136-170 | a new base color or normal-map image gets the full mip chain and a new metallic-roughness image one level, unless an earlier texture of the material already built that image id; views cached before are kept |
| SceneUploader.ViewsBuiltStep | src/scene_uploader.rs:488-497 | caching the view of a new image keeps every cached view equal to `create_image` of its recorded image and flag |
| SceneUploader.Uploader.MaterialsBuiltKept | src/scene_uploader.rs:133-228 | growing the texture caches keeps every cached material equal to the one made of its source's cached textures |
| SceneUploader.Uploader.MaterialsBuiltStep | src/scene_uploader.rs:133-228 | caching a new material made of cached textures keeps every cached material equal to the one made of its source's textures |
| SceneUploader.ModelIsInScene | src/scene_uploader.rs:126-132 | a model's materials and the images they ask for are among the scene's |
| SceneUploader.BuiltOncePerDistinctId | src/scene_uploader.rs:119-123 | starting from empty caches, a cache's build count is the number of distinct ids asked for |
| SceneUploader.PrimsMatchKept | src/scene_uploader.rs:132-309 | growing the caches keeps the primitives uploaded earlier equal to their cached objects |
| SceneUploader.ModelsMatchStep | src/scene_uploader.rs:126-312 | one more uploaded model extends the match between uploaded and loaded models while the caches grow |
| SceneUploader.Uploader.constructor | src/scene_uploader.rs:119-123 | all caches empty, nothing built, and the given defaults |
| SceneUploader.Uploader.LoadImage | src/scene_uploader.rs:488-497 | a view is built and cached only when the image id is new, as `create_image` of the image with the caller's flag, recorded as its source; the cached view is returned, and no other cache changes |
| SceneUploader.Uploader.LoadSampler | src/scene_uploader.rs:499-502 | a sampler is built and cached only when the sampler id is new; the cached sampler is returned, and no other cache changes |
| SceneUploader.Uploader.BuildImage | src/scene_uploader.rs:488-497 | the view of a new image id is `create_image` of the image with the given flag, cached and recorded with its source; no other cache changes |
| SceneUploader.Uploader.LoadTexture | src/scene_uploader.rs:476-512 | an absent texture gives the default view and sampler and changes nothing; a present one is cached, the view cache becomes exactly `ViewsAfter` (a new image id gains `create_image` with the caller's flag) and the sampler cache `SamplersAfter`, and the cached view and sampler are returned |
| SceneUploader.Uploader.LoadMaterialTextures | src/scene_uploader.rs:136-170 | the view cache becomes exactly `MaterialViews` (base color, then normal map, then metallic-roughness, with the flags true, true, false) and the sampler cache `MaterialSamplers`; every present texture is cached, and each returned texture is its cached view and sampler, or its default when absent |
| SceneUploader.Uploader.UploadMaterial | src/scene_uploader.rs:133-228 | a cached id returns the cached material and changes no cache; a new id loads the textures as `LoadMaterialTextures` says and caches the material made of them, each with its default, recording the loaded material as its source; the material cache gains exactly that id |
| SceneUploader.Uploader.BuildMaterial | src/scene_uploader.rs:133-228 | a new material's textures are loaded as `LoadMaterialTextures` says, the material is the one made of its cached textures with the defaults, and the material cache gains exactly its id |
| SceneUploader.Uploader.CacheMaterial | src/scene_uploader.rs:133-228 | a new material id is cached with the material built from its cached textures and recorded with its source; no other cache changes |
| SceneUploader.Uploader.UploadMesh | src/scene_uploader.rs:229-235 | a mesh is built only when its id is new; the cached mesh is returned and the mesh cache gains exactly that id |
| SceneUploader.Uploader.UploadGeometry | src/scene_uploader.rs:237-302 | a mesh's bottom-level structure is built only when its id is new, from the cached mesh; the cached one is returned |
| SceneUploader.Uploader.UploadPrimitive | src/scene_uploader.rs:132-309 | the primitive is the cached material, mesh and bottom-level structure of its ids, each cache gains exactly those ids, and any new view or material comes from this primitive's material |
| SceneUploader.Uploader.UploadModel | src/scene_uploader.rs:126-311 | the model keeps its transform and its primitives are, one for one, the cached objects of the loaded ones; the caches gain exactly their ids, and any new view or material comes from the model's materials |
| SceneUploader.Uploader.UploadPrimitiveAt | src/scene_uploader.rs:132-309 | one more primitive joins the uploaded ones, its ids join the caches, and new views and materials still come from the model's materials |
| SceneUploader.Uploader.UploadModels | src/scene_uploader.rs:126-312 | every model is uploaded in order, primitives sharing an id share the cached object, the caches gain exactly the scene's ids, and every new view and material comes from a material of the scene |
| SceneUploader.Uploader.UploadModelAt | src/scene_uploader.rs:126-312 | one more model joins the uploaded ones, its ids join the caches, and new views and materials still come from the scene's materials |
| SceneUploader.BuildInstances | src/scene_uploader.rs:314-332 | the instance loop produces one instance per primitive, model by model |
| SceneUploader.Setup | src/scene_uploader.rs:32-335 | the uploaded models match the scene through the caches, one instance per primitive, one material per distinct material id and one mesh and one bottom-level structure per distinct mesh id are built; every cached view is `create_image` of an image a scene material asks for, with the flag of the texture asking, and every cached material is made of the cached textures of a scene material |


## Left out

- GPU and driver work is not modelled: Vulkan command recording, pipeline, descriptor and render-pass creation, queue submission and presentation. Handles that the driver returns (swapchain images, views, created images) are parameters. Recorded commands are values in a sequence.
- Vulkan flag masks are sets of bit positions and enumerations are integers. Only the constants the modelled code compares against are defined, in `Vk`.
- `f32` values (animation timestamps, mesh coordinates, mouse positions) are reals: there is no NaN and no rounding. `Animation::sample` and the camera maths interpolate floats and are not modelled.
- I/O is left out. That covers the redb asset database (`ServerAsset.AssetDatabase` is its table as a map, with no I/O or deserialisation errors), the filesystem and `glslc` behind the asset loader, and the socket transport. The loader's compile and load results are parameters of `ServerAsset.Asset.CompileIfOutdated` and `ServerAsset.Asset.Load`.
- The iteration order of a `HashSet` is the `order` parameter of `AssetServer.Assets.AddAsset`: any enumeration of the dependency set.
- Out-of-memory is not modelled.
- rkyv's archive format is not modelled. `AssetRefs.AsBytes` is a length-prefixed encoding of the segments, and `AssetRefs.FromBytes` inverts it. Only the round trip that `as_bytes`/`from_bytes` promise is claimed.
- `AssetHandle<T>`'s type parameter is not modelled.
- The asset registry holds every asset type's assets with one data type parameter, so the downcast of `AllAssets` to `Assets<T>` cannot fail in the model.
- Registration of asset types (`asset_server.rs` 35-42) is a requirement of `AssetServer.AllAssets.AddAsset` and `AssetServer.AllAssets.LoadAsset`; the source panics instead.
- The number of winit key codes is a parameter of `InputMaps.InputMap.constructor`.
- The `SyncManager` wrapper, which puts `SyncManagerInternal` behind `Arc<Mutex<…>>` (`sync_manager.rs` 26-62), is not modelled, and neither is `SyncManagerLock` (64-167). Both only lock and delegate. The same holds for the `Drop` handlers of `BufferResource`/`ImageResource` (195-207), which call `remove_buffer`/`remove_image`.
- The source files disagree on the tracker's API. The model follows the data flow and makes the access ranges explicit parameters:
  - `sync_manager.rs` calls `is_write` with a second argument (the old layout), which `resource_access.rs` does not take;
  - `sync_manager.rs` uses `BufferAccessInfo`/`ImageAccessInfo` and range-map methods that return `(range, value)` pairs, which the shipped `resource_access.rs` and `range_map.rs` lack;
  - `scene_uploader.rs` passes an `Extent3D` to `max_mip_levels`, which takes an `Extent2D`.
- `RangeMap::new_from` (`range_map.rs` 29-34) is unused and not modelled.
- The `discrete_range_map` wrapper `RangeMap` (`range_map.rs` 119-163) is modelled only through the pointwise update functions `RangeMap.PointOverwrite`, `RangeMap.PointCut` and `RangeMap.Restrict`.
- `SmallArrayRangeMap::insert_if_empty` and `cut` (`range_map.rs` 226-236) panic with "Not implemented" and are not modelled.
- SyncManager.SyncManagerInternal.AddImageAccess: the source's assert on layer 0 and one layer (`sync_manager.rs` 345-349) and the nodit "Invalid range" panics become requirements of the caller, not error results.
- SyncManager.SyncManagerInternal.AddBufferAccess: same as `AddImageAccess`; an invalid range is a precondition rather than a panic.
- RangeMap.OptRangeMap.Overwrite: an invalid key is a precondition rather than the "Invalid range" panic. The same holds for `RangeMap.OptRangeMap.Cut`, `RangeMap.OptRangeMap.GetAll` and `RangeMap.SmallArrayRangeMap.Overwrite`.
- RangeMap.OptRangeMap.GetAll: the early return for an empty key uses the corrected emptiness test (first row of "## Findings"), which no valid key meets. As written, a one-point key reports nothing, as `RangeMap.AsWrittenSkipsOnePointKeys` shows.
- RangeMap.OptRangeMap.InsertIfEmpty: built on the corrected `GetAll` and `Overwrite`. As written, a one-point key answers `Ok` and stores nothing, even where a value is held, as `RangeMap.AsWrittenSkipsOnePointKeys` shows.
- SyncManager.AddWrite: the tracker's history update is built on the corrected range maps (first three rows of "## Findings"), and `SyncManager.AddRead` also on the corrected `add_read` (fourth row). The same holds for `SyncManager.SyncManagerInternal.AddBufferAccess`, `SyncManager.SyncManagerInternal.AddImageAccess` and `SyncManager.SyncManagerInternal.AddAccesses`, and for the step functions under them. As written, an access to a one-byte buffer range is never recorded, so no later access waits on it. An access to a single mip level finds no old layouts and fails the `old_layouts.len() > 0` assert (`sync_manager.rs` 358-361); for a one-level image that is its first access, as `SyncManager.OneLevelImageFindsNoLayoutsAsWritten` shows.
- RangeMap.OptRangeMap.Overwrite: returns the overwritten values as a set, where the source returns a `Vec` with one entry per stored segment in key order (`range_map.rs` 66-88). The same holds for `RangeMap.OptRangeMap.Cut` (90-116) and `RangeMap.OptRangeMap.GetAll` (52-64). The only consumers fold what they get with `combine` (`sync_manager.rs` 85-98 and 133-136), which is associative, commutative and idempotent, so the fold depends only on which values occur, as `SyncManager.FoldDependsOnlyOnElements` shows.
- SyncManager.AddWrite: the returned accesses are stated only by which values occur, not by their order or how often each occurs, where the source returns a `Vec` (`sync_manager.rs` 453-468); the same holds for `SyncManager.AddRead` (470-480). The reason is the one given for `RangeMap.OptRangeMap.Overwrite`.
- IdGenerator.AssetIdGenerator.Next: requires that the `u32` counter does not overflow; the source wraps in release builds and panics in debug builds.
- SyncManager.SyncManagerInternal.GetBuffer: requires that the `u64` counter does not overflow. The same holds for `SyncManager.SyncManagerInternal.GetImage`. (`SourceFiles.SourceFiles.TakeSnapshot` wraps at 2^64, like `fetch_add`.)
- ServerAsset.Asset.PopulateFromCacheFile: the source's `assert!` that the cached record names the same main file (`asset.rs` 71) is a requirement of the caller, not a panic. The model also does not show the timestamp that the source has already written when that assertion fails.
- Animations.GetKeyframe: the source indexes `timestamps[last_keyframe]` (`animation.rs` 28). A last keyframe outside a non-empty list is a requirement of the caller, not an index panic.
- SceneUploader.PrimitiveCanLoad: `max_vertex: num_vertices - 1` (`scene_uploader.rs` 246) underflows for a mesh without vertices. The model requires at least one vertex, where the source panics in debug builds. `SceneUploader.SceneCanLoad` and the uploader methods that require them make the same demand.
- SceneUploader.MaterialCanLoad: every texture of a material must be creatable, that is, its format converts and its mip count exists (`scene_uploader.rs` 563-609, where the source panics). `SceneUploader.Uploader.UploadMaterial`, `SceneUploader.Uploader.BuildMaterial`, `SceneUploader.Uploader.LoadMaterialTextures`, `SceneUploader.Uploader.UploadPrimitive`, `SceneUploader.Uploader.UploadModel`, `SceneUploader.Uploader.UploadModels` and `SceneUploader.Setup` demand this even for a material or image id that is already cached, where the source creates nothing and cannot panic. `SceneUploader.Uploader.LoadImage` and `SceneUploader.Uploader.LoadTexture` demand it only for an image id that is not cached yet.
- Swapchain.SwapchainContainer.constructor: the source panics when the surface offers no format (the `expect` at `swapchain.rs` 53) or when a clamp's limits are inverted (65-72). The model requires a format and well-ordered limits instead. `Swapchain.SwapchainContainer.NewCreateInfo` demands the same. `Swapchain.SwapchainContainer.Recreate` demands well-ordered limits. The pure choices `Swapchain.ChooseFormatIndex`, `Swapchain.Clamp` and `Swapchain.ChooseExtent` do return `None` in these cases.
- InputMaps.InputMap.UpdateKeyPress: a key code outside winit's range is a precondition; the source would panic on the index. The same holds for `UpdateKeyRelease` and `IsPressed`.
- Ipc.LocalSocketStream.ReadExact: a short read leaves the stream empty. The model does not say how many of the available bytes the real socket consumed before the end of file.
- Animations.Duration is a one-line accessor. Its contract repeats its body, so it has no row of its own; `Animations.DurationBoundsKeyframes` states what it means.
- MemoryType.FindMemoryTypeIndex is the iterator search itself. Its properties are stated by `MemoryType.FindMemoryTypeIndexIsFirstMatch` and `MemoryType.EmptyFlagsTakeFirstAllowed`.
- The following functions model source functions directly but carry no contract of their own; what each one means is stated by the members named beside it.
- FileChange.TimestampEq (`file_change.rs` 30-38): `FileChange.TimestampEqCases`, `FileChange.TimestampEqSymmetricTransitive` and `FileChange.TimestampEqNotReflexive`.
- AssetCompilation.SetEq (`HashSet` equality, used at `asset_compilation.rs` 28): `AssetCompilation.SetEqIsEqualityWhenKnown` and `AssetCompilation.UnknownDependencyNeverEqual`.
- AssetCompilation.IsOutdated (`asset_compilation.rs` 25-29): `AssetCompilation.IsOutdatedCases` and `AssetCompilation.IsOutdatedIgnoresIdAndPath`.
- ResourceAccess.IsWriteAccess (`resource_access.rs` 3-12): `ResourceAccess.IsWriteIffHoldsWriteFlag` and `ResourceAccess.IsWriteOfReadsAndUnions`. `ResourceAccess.BufferAccess.IsWrite` applies it to a buffer access, and `ResourceAccess.ImageAccess.IsWrite` (69-71) is stated by `ResourceAccess.ImageIsWriteCases`.
- SyncManager.Combine (`sync_manager.rs` 236-260): `SyncManager.CombineIsLeastUpperBound` and `SyncManager.CombineLaws`.
- SyncManager.Fold (`sync_manager.rs` 95-98): `SyncManager.FoldIsLeastUpperBound`, `SyncManager.FoldDependsOnlyOnElements` and `SyncManager.FoldAccessNoneIff`.
- SyncManager.BufferBarrier (`sync_manager.rs` 85-116): `SyncManager.BufferBarrierWaitsOnOldFlags`.
- SyncManager.AddReadAsWritten (`sync_manager.rs` 470-480, as written): `SyncManager.FirstReadIsLostAsWritten`.
- InputMaps.InputMap.IsPressed (`input_map.rs` 73-75): the contracts of `InputMaps.InputMap.constructor`, `InputMaps.InputMap.UpdateKeyPress` and `InputMaps.InputMap.UpdateKeyRelease`.
- Image.ILog2 (`u32::ilog2`, `image.rs` 261-266): `Image.ILog2Bounds`.
- Image.Halve (one step of the loop at `image.rs` 231-237): `Image.HalveNBounds`, `Image.HalveNMonotone` and `Image.HalveNReachesOne`.
- SceneUploader.GetVecSize (`scene_uploader.rs` 663-667): `SceneUploader.InstanceBufferSize`.
- RangeMap.IsEmptyRangeAsWritten (`range_map.rs` 248-252): `RangeMap.EmptyRangeOnlyWhenInvalid`. `RangeMap.GetAllAsWritten` (52-64), `RangeMap.InsertIfEmptyAsWritten` (268-279), `RangeMap.OverwriteAsWritten` (66-88) and `RangeMap.CutAsWritten` (90-116) are stated by `RangeMap.AsWrittenSkipsOnePointKeys`, `RangeMap.OverwriteAsWrittenForgetsCoveringValue` and `RangeMap.CutAsWrittenForgetsCoveringValue`. `RangeMap.SmallOverwriteAsWritten` (212-224) is stated by `RangeMap.SmallOverwriteAsWrittenSkipsOneIndex`.
- Everything outside the modelled files is not modelled: the render passes, the Vulkan wrappers and command plumbing, the `main.rs` event loop and UI, the older swapchain and scene-uploader copies, the camera and transform maths, shader compilation, glTF loading, configuration and JSON-schema files, and the asset server's startup and duplicate registry code. These are either foreign calls with no logic of their own, or copies of logic modelled here.

## Findings

| source | as written | input that shows it | evidently intended | confidence | as-written member | corrected member |
|---|---|---|---|---|---|---|
| src/vulkan/sync_manager/range_map.rs:248-252 | `is_empty_range` tests `start >= end` on nodit's inclusive intervals, so a one-point range counts as empty: `get_all` on it yields nothing, `overwrite`/`cut` on it return `[]` and change nothing, and the default `insert_if_empty` answers `Ok` without storing the value | `overwrite(ie(k, k + 1), v)`, i.e. the inclusive interval `[k, k]`, for example mip level `k` alone | a range is empty only when `start > end`; a one-point overwrite stores the value at that point, and `get_all` and `insert_if_empty` see what is stored there | not executed | RangeMap.AsWrittenSkipsOnePointKeys | RangeMap.OptRangeMap.Overwrite |
| src/vulkan/sync_manager/range_map.rs:78-85 | on `All(Some(w))`, a partial `overwrite` replaces the map with a fresh granular map holding only the new key, so `w` disappears outside the key | max range `[0, 2]`, map `All(Some(w))`, `overwrite([0, 1], v)`: point 2 ends up empty instead of `w` | points outside the key keep `w` | not executed | RangeMap.OverwriteAsWrittenForgetsCoveringValue | RangeMap.OptRangeMap.Overwrite |
| src/vulkan/sync_manager/range_map.rs:99-107 | on `All(Some(w))`, a partial `cut` leaves an empty granular map, so `w` disappears outside the key as well | max range `[0, 2]`, map `All(Some(w))`, `cut([0, 1])`: point 2 ends up empty instead of `w` | points outside the key keep `w` | not executed | RangeMap.CutAsWrittenForgetsCoveringValue | RangeMap.OptRangeMap.Cut |
| src/vulkan/sync_manager.rs:470-480 | `add_read` cuts the reads in the range and writes back only the combinations of reads that were already there, so a read of a range with no earlier read is never recorded | a fresh buffer read by a fragment shader, then written by a transfer: the write finds no earlier access and emits no barrier | the new read is stored, combined with any earlier read, and a later write waits on it | not executed | SyncManager.FirstReadIsLostAsWritten | SyncManager.WriteAfterReadWaits |
| src/vulkan/sync_manager.rs:351-361 | the layout map of a new image is created with `overwrite(max_range, UNDEFINED)`; for a one-level image `max_range` is the one-point `[0, 0]`, so nothing is stored, the access's own `overwrite` returns no old layouts, and `assert!(old_layouts.len() > 0)` panics | the first access to an image with `mip_level_count == 1` on level 0 | every level starts UNDEFINED and the access finds the stored layout of each of its levels | not executed | SyncManager.OneLevelImageFindsNoLayoutsAsWritten | SyncManager.ImageAccessReportsItsLevels |
| src/loader/animation.rs:62-70 | `(index + 1).rem_euclid(values.len())` divides by zero when `values` is empty, and it panics before the `unwrap_or_else` defaults can apply | an animation channel with no keyframes, `get_and_next(&vec![], 0, default)` | both values fall back to the defaults | not executed | Animations.EmptyTrackPanics | Animations.GetAndNext |
