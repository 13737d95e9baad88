/**
 * Scene upload (src/scene_uploader.rs): turning a loaded scene into GPU
 * resources. Materials, meshes, bottom-level acceleration structures, image
 * views and samplers are each built once per asset id and cached in a map;
 * later primitives reuse the cached value. A loaded texture that is absent
 * falls back to a default view and sampler. The GPU objects themselves are
 * values naming what they were built from, and every creation is appended
 * to a log, so "built once" is a statement about the log.
 */
module SceneUploader {
  import opened Wrappers
  import opened Vk
  import Image

  /** The pixel formats the loader produces. */
  datatype ImageFormat = R8 | R8G8 | R8G8B8A8 | R16 | R16G16 | R16G16B16A16 | R32G32B32A32Float

  datatype ColorSpace = Linear | Srgb

  /**
   * `convert_format`: the Vulkan format of a loaded image. `None` where the
   * source panics ("Unsupported texture format"): 16- and 32-bit channels in
   * sRGB space.
   */
  function ConvertFormat(format: ImageFormat, colorSpace: ColorSpace): (r: Option<Format>)
    ensures r.None? <==> colorSpace == Srgb && format in {R16, R16G16, R16G16B16A16, R32G32B32A32Float}
  {
    match (format, colorSpace)
    case (R8, Linear) => Some(R8_UNORM)
    case (R8G8, Linear) => Some(R8G8_UNORM)
    case (R8G8B8A8, Linear) => Some(R8G8B8A8_UNORM)
    case (R16, Linear) => Some(R16_UNORM)
    case (R16G16, Linear) => Some(R16G16_UNORM)
    case (R16G16B16A16, Linear) => Some(R16G16B16A16_UNORM)
    case (R32G32B32A32Float, Linear) => Some(R32G32B32A32_SFLOAT)
    case (R8, Srgb) => Some(R8_SRGB)
    case (R8G8, Srgb) => Some(R8G8_SRGB)
    case (R8G8B8A8, Srgb) => Some(R8G8B8A8_SRGB)
    case (_, Srgb) => None
  }

  /** The sRGB twin of an 8-bit UNORM Vulkan format. */
  function SrgbVariant(f: Format): Format
  {
    if f == R8_UNORM then R8_SRGB
    else if f == R8G8_UNORM then R8G8_SRGB
    else if f == R8G8B8A8_UNORM then R8G8B8A8_SRGB
    else f
  }

  /**
   * Linear formats map one to one onto distinct Vulkan formats; an sRGB image
   * that converts at all gets the sRGB twin of its linear format.
   */
  lemma ConvertFormatShape(f: ImageFormat, g: ImageFormat)
    ensures ConvertFormat(f, Linear).Some?
    ensures ConvertFormat(f, Linear) == ConvertFormat(g, Linear) ==> f == g
    ensures ConvertFormat(f, Srgb).Some? ==>
      ConvertFormat(f, Srgb).value == SrgbVariant(ConvertFormat(f, Linear).value) != ConvertFormat(f, Linear).value
  {
  }

  // ----- Loaded assets (ids identify them) -----

  datatype LoadedImage = LoadedImage(id: nat, width: nat, height: nat, format: ImageFormat, colorSpace: ColorSpace)
  datatype LoadedSampler = LoadedSampler(id: nat)
  datatype LoadedTexture = LoadedTexture(image: LoadedImage, sampler: LoadedSampler)
  datatype LoadedMaterial = LoadedMaterial(
    id: nat,
    baseColorTexture: Option<LoadedTexture>,
    normalTexture: Option<LoadedTexture>,
    metallicRoughnessTexture: Option<LoadedTexture>)
  datatype LoadedMesh = LoadedMesh(id: nat, numVertices: nat, numIndices: nat)
  datatype LoadedPrimitive = LoadedPrimitive(material: LoadedMaterial, mesh: LoadedMesh)
  /** `transform` stands for the model's transform, which is only copied. */
  datatype LoadedModel = LoadedModel(transform: nat, primitives: seq<LoadedPrimitive>)

  /** The mip level count of an uploaded texture: the full chain with mipmapping, else one level. */
  function MipLevelCount(image: LoadedImage, mipmapping: bool): (r: Option<nat>)
    ensures !mipmapping ==> r == Some(1)
    ensures mipmapping ==> r == Image.MaxMipLevels(Extent2D(image.width, image.height))
    ensures mipmapping ==> (r.None? <==> image.width == 0 && image.height == 0)
    ensures mipmapping && r.Some? ==>
      r.value >= 1 && Image.HalveN(image.width, r.value - 1) <= 1 && Image.HalveN(image.height, r.value - 1) <= 1
  {
    if mipmapping then
      var levels := Image.MaxMipLevels(Extent2D(image.width, image.height));
      if levels.Some? then
        Image.LastMipLevelAtMostOne(Extent2D(image.width, image.height));
        levels
      else levels
    else Some(1)
  }

  /** `create_image` does not panic: the format converts and, with mipmapping, the image is not empty. */
  predicate CanCreate(image: LoadedImage, mipmapping: bool)
  {
    ConvertFormat(image.format, image.colorSpace).Some? && MipLevelCount(image, mipmapping).Some?
  }

  /** Every texture of the material can be created as `load_texture` will be asked to. */
  predicate MaterialCanLoad(m: LoadedMaterial)
  {
    && (m.baseColorTexture.Some? ==> CanCreate(m.baseColorTexture.value.image, true))
    && (m.normalTexture.Some? ==> CanCreate(m.normalTexture.value.image, true))
    && (m.metallicRoughnessTexture.Some? ==> CanCreate(m.metallicRoughnessTexture.value.image, false))
  }

  /** A primitive uploads without a panic; `max_vertex: num_vertices - 1` underflows for a mesh without vertices. */
  predicate PrimitiveCanLoad(p: LoadedPrimitive)
  {
    MaterialCanLoad(p.material) && p.mesh.numVertices >= 1
  }

  predicate SceneCanLoad(scene: seq<LoadedModel>)
  {
    forall m, p | 0 <= m < |scene| && 0 <= p < |scene[m].primitives| :: PrimitiveCanLoad(scene[m].primitives[p])
  }

  // ----- Uploaded values -----

  datatype ImageView = ImageView(imageId: nat, format: Format, mipLevels: nat)
  datatype Sampler = Sampler(samplerId: nat)
  datatype Texture = Texture(view: ImageView, sampler: Sampler)
  datatype Material = Material(materialId: nat, baseColor: Texture, normal: Texture, metallicRoughness: Texture)
  datatype Mesh = Mesh(meshId: nat, numIndices: nat, numVertices: nat)
  /** A bottom-level acceleration structure over a mesh. */
  datatype Geometry = Geometry(meshId: nat, triangleCount: nat, maxVertex: nat)
  datatype Primitive = Primitive(material: Material, mesh: Mesh, geometry: Geometry)
  datatype Model = Model(transform: nat, primitives: seq<Primitive>)
  /** One top-level instance: a transform and the geometry it places. */
  datatype Instance = Instance(transform: nat, blas: Geometry)

  /** `create_image`: an image view over the converted format with the chosen mip count. */
  function CreateImage(image: LoadedImage, mipmapping: bool): (v: ImageView)
    requires CanCreate(image, mipmapping)
    ensures v.imageId == image.id && v.format == ConvertFormat(image.format, image.colorSpace).value
    ensures v.mipLevels == MipLevelCount(image, mipmapping).value && v.mipLevels >= 1
    ensures !mipmapping ==> v.mipLevels == 1
  {
    ImageView(image.id, ConvertFormat(image.format, image.colorSpace).value, MipLevelCount(image, mipmapping).value)
  }

  /**
   * The bottom-level structure of a mesh: one triangle per three indices and
   * the last vertex index as `max_vertex`.
   */
  function GeometryOf(mesh: Mesh): (g: Geometry)
    requires mesh.numVertices >= 1
    ensures g.meshId == mesh.meshId
    ensures 3 * g.triangleCount <= mesh.numIndices < 3 * g.triangleCount + 3
    ensures g.maxVertex + 1 == mesh.numVertices
  {
    Geometry(mesh.meshId, mesh.numIndices / 3, mesh.numVertices - 1)
  }

  /** Every primitive of every model, in order. */
  function AllPrimitives(models: seq<Model>): (r: seq<Primitive>)
  {
    if |models| == 0 then [] else AllPrimitives(models[..|models| - 1]) + models[|models| - 1].primitives
  }

  /** The top-level instances: one per (model, primitive) pair, model by model. */
  function InstancesOf(models: seq<Model>): (r: seq<Instance>)
  {
    if |models| == 0 then []
    else
      var last := models[|models| - 1];
      InstancesOf(models[..|models| - 1]) + seq(|last.primitives|, p requires 0 <= p < |last.primitives| => Instance(last.transform, last.primitives[p].geometry))
  }

  /** There are exactly as many instances as primitives, and instance `k` places primitive `k`'s geometry. */
  lemma {:induction false} InstancesMatchPrimitives(models: seq<Model>)
    ensures |InstancesOf(models)| == |AllPrimitives(models)|
    ensures forall k | 0 <= k < |InstancesOf(models)| :: InstancesOf(models)[k].blas == AllPrimitives(models)[k].geometry
  {
    if |models| > 0 {
      InstancesMatchPrimitives(models[..|models| - 1]);
    }
  }

  /** `get_vec_size`: the byte size of a vector, element size times length. */
  function GetVecSize(elementSize: nat, length: nat): nat
  {
    elementSize * length
  }

  /** `VkAccelerationStructureInstanceKHR` is 64 bytes. */
  const INSTANCE_SIZE: nat := 64

  /** The instance buffer holds 64 bytes per primitive of the scene. */
  lemma InstanceBufferSize(models: seq<Model>)
    ensures GetVecSize(INSTANCE_SIZE, |InstancesOf(models)|) == 64 * |AllPrimitives(models)|
  {
    InstancesMatchPrimitives(models);
  }

  /** The material ids of a scene. */
  ghost function MaterialIds(scene: seq<LoadedModel>): set<nat>
  {
    set m, p | 0 <= m < |scene| && 0 <= p < |scene[m].primitives| :: scene[m].primitives[p].material.id
  }

  /** The mesh ids of a scene. */
  ghost function MeshIds(scene: seq<LoadedModel>): set<nat>
  {
    set m, p | 0 <= m < |scene| && 0 <= p < |scene[m].primitives| :: scene[m].primitives[p].mesh.id
  }

  /** Every key of `a` is in `b` with the same value: cached entries are never replaced. */
  predicate Extends<K, V(==)>(a: map<K, V>, b: map<K, V>)
  {
    forall k | k in a :: k in b && b[k] == a[k]
  }

  /** The texture a (possibly absent) loaded texture stands for under the given caches. */
  function TextureOf(loaded: Option<LoadedTexture>, defaultView: ImageView, defaultSampler: Sampler,
                     textures: map<nat, ImageView>, samplers: map<nat, Sampler>): Texture
  {
    if loaded.Some? && loaded.value.image.id in textures && loaded.value.sampler.id in samplers
    then Texture(textures[loaded.value.image.id], samplers[loaded.value.sampler.id])
    else Texture(defaultView, defaultSampler)
  }

  /** A present texture's image and sampler are cached. */
  predicate Cached(loaded: Option<LoadedTexture>, textures: map<nat, ImageView>, samplers: map<nat, Sampler>)
  {
    loaded.Some? ==> loaded.value.image.id in textures && loaded.value.sampler.id in samplers
  }

  /** Once cached, a texture stays the same while the caches only grow. */
  lemma TextureOfKept(loaded: Option<LoadedTexture>, defaultView: ImageView, defaultSampler: Sampler,
                      textures: map<nat, ImageView>, samplers: map<nat, Sampler>,
                      textures': map<nat, ImageView>, samplers': map<nat, Sampler>)
    requires Cached(loaded, textures, samplers)
    requires Extends(textures, textures') && Extends(samplers, samplers')
    ensures Cached(loaded, textures', samplers')
    ensures TextureOf(loaded, defaultView, defaultSampler, textures', samplers')
         == TextureOf(loaded, defaultView, defaultSampler, textures, samplers)
  {
  }

  /** All three textures of a loaded material that are present are cached. */
  predicate TexturesCached(m: LoadedMaterial, textures: map<nat, ImageView>, samplers: map<nat, Sampler>)
  {
    Cached(m.baseColorTexture, textures, samplers) && Cached(m.normalTexture, textures, samplers)
    && Cached(m.metallicRoughnessTexture, textures, samplers)
  }

  /** An image as a texture asks for it: the image and whether it is mipmapped. */
  datatype ImageUse = ImageUse(image: LoadedImage, mipmapping: bool)

  /** The image a (possibly absent) texture asks for. */
  function TextureUses(loaded: Option<LoadedTexture>, mipmapping: bool): set<ImageUse>
  {
    if loaded.Some? then {ImageUse(loaded.value.image, mipmapping)} else {}
  }

  /** The images a material's textures ask for: base color and normal map mipmapped, metallic-roughness not. */
  function MaterialUses(m: LoadedMaterial): set<ImageUse>
  {
    TextureUses(m.baseColorTexture, true) + TextureUses(m.normalTexture, true)
    + TextureUses(m.metallicRoughnessTexture, false)
  }

  /** The image ids of a material's present textures. */
  function MaterialImageIds(m: LoadedMaterial): set<nat>
  {
    (if m.baseColorTexture.Some? then {m.baseColorTexture.value.image.id} else {})
    + (if m.normalTexture.Some? then {m.normalTexture.value.image.id} else {})
    + (if m.metallicRoughnessTexture.Some? then {m.metallicRoughnessTexture.value.image.id} else {})
  }

  /** The sampler ids of a material's present textures. */
  function MaterialSamplerIds(m: LoadedMaterial): set<nat>
  {
    (if m.baseColorTexture.Some? then {m.baseColorTexture.value.sampler.id} else {})
    + (if m.normalTexture.Some? then {m.normalTexture.value.sampler.id} else {})
    + (if m.metallicRoughnessTexture.Some? then {m.metallicRoughnessTexture.value.sampler.id} else {})
  }

  /**
   * The view cache after `load_texture` of `loaded` with `mipmapping`: a
   * present texture whose image id is new adds `create_image` of its image
   * with that flag; otherwise the cache stays as it is.
   */
  function ViewsAfter(textures: map<nat, ImageView>, loaded: Option<LoadedTexture>, mipmapping: bool)
    : (r: map<nat, ImageView>)
    requires loaded.Some? && loaded.value.image.id !in textures ==> CanCreate(loaded.value.image, mipmapping)
    ensures Extends(textures, r)
    ensures r.Keys == textures.Keys + (if loaded.Some? then {loaded.value.image.id} else {})
  {
    if loaded.Some? && loaded.value.image.id !in textures
    then textures[loaded.value.image.id := CreateImage(loaded.value.image, mipmapping)]
    else textures
  }

  /** The sampler cache after `load_texture` of `loaded`: a new sampler id adds its sampler. */
  function SamplersAfter(samplers: map<nat, Sampler>, loaded: Option<LoadedTexture>): (r: map<nat, Sampler>)
    ensures Extends(samplers, r)
    ensures r.Keys == samplers.Keys + (if loaded.Some? then {loaded.value.sampler.id} else {})
  {
    if loaded.Some? && loaded.value.sampler.id !in samplers
    then samplers[loaded.value.sampler.id := Sampler(loaded.value.sampler.id)]
    else samplers
  }

  /** The view cache after a new material's three `load_texture` calls, in the source's order and with its flags. */
  function MaterialViews(textures: map<nat, ImageView>, m: LoadedMaterial): (r: map<nat, ImageView>)
    requires MaterialCanLoad(m)
    ensures Extends(textures, r)
    ensures r.Keys == textures.Keys + MaterialImageIds(m)
  {
    ViewsAfter(ViewsAfter(ViewsAfter(textures, m.baseColorTexture, true), m.normalTexture, true),
               m.metallicRoughnessTexture, false)
  }

  /** The sampler cache after a new material's three `load_texture` calls. */
  function MaterialSamplers(samplers: map<nat, Sampler>, m: LoadedMaterial): (r: map<nat, Sampler>)
    ensures Extends(samplers, r)
    ensures r.Keys == samplers.Keys + MaterialSamplerIds(m)
  {
    SamplersAfter(SamplersAfter(SamplersAfter(samplers, m.baseColorTexture), m.normalTexture),
                  m.metallicRoughnessTexture)
  }

  /** Whether a (possibly absent) texture uses the image `id`. */
  predicate UsesImage(loaded: Option<LoadedTexture>, id: nat)
  {
    loaded.Some? && loaded.value.image.id == id
  }

  /**
   * A new material's textures are built with the source's flags: the base
   * color and the normal map with the full mip chain, the metallic-roughness
   * texture with one level. An image id that an earlier texture of the same
   * material already used keeps the view that texture built, and an image id
   * cached before keeps its view.
   */
  lemma MaterialViewsUseTheFlags(textures: map<nat, ImageView>, m: LoadedMaterial)
    requires MaterialCanLoad(m)
    ensures var r := MaterialViews(textures, m);
      && (forall id | id in textures :: r[id] == textures[id])
      && (m.baseColorTexture.Some? && m.baseColorTexture.value.image.id !in textures ==>
            r[m.baseColorTexture.value.image.id] == CreateImage(m.baseColorTexture.value.image, true))
      && (m.normalTexture.Some? && m.normalTexture.value.image.id !in textures
          && !UsesImage(m.baseColorTexture, m.normalTexture.value.image.id) ==>
            r[m.normalTexture.value.image.id] == CreateImage(m.normalTexture.value.image, true))
      && (m.metallicRoughnessTexture.Some? && m.metallicRoughnessTexture.value.image.id !in textures
          && !UsesImage(m.baseColorTexture, m.metallicRoughnessTexture.value.image.id)
          && !UsesImage(m.normalTexture, m.metallicRoughnessTexture.value.image.id) ==>
            r[m.metallicRoughnessTexture.value.image.id] == CreateImage(m.metallicRoughnessTexture.value.image, false))
  {
  }

  /** `after` extends `before`, and every entry it adds is one of `allowed`. */
  ghost predicate DrawnFrom<V>(before: map<nat, V>, after: map<nat, V>, allowed: set<V>)
  {
    Extends(before, after) && forall id | id in after && id !in before :: after[id] in allowed
  }

  lemma DrawnFromTrans<V>(a: map<nat, V>, b: map<nat, V>, c: map<nat, V>, x: set<V>, y: set<V>, z: set<V>)
    requires DrawnFrom(a, b, x) && DrawnFrom(b, c, y) && x <= z && y <= z
    ensures DrawnFrom(a, c, z)
  {
  }

  /** The loaded materials of a model's primitives. */
  ghost function PrimMaterials(ps: seq<LoadedPrimitive>): set<LoadedMaterial>
  {
    set p | 0 <= p < |ps| :: ps[p].material
  }

  /** The images the materials of a model's primitives ask for. */
  ghost function PrimUses(ps: seq<LoadedPrimitive>): set<ImageUse>
  {
    set p, u | 0 <= p < |ps| && u in MaterialUses(ps[p].material) :: u
  }

  /** The loaded materials of a scene. */
  ghost function SceneMaterials(scene: seq<LoadedModel>): set<LoadedMaterial>
  {
    set m, p | 0 <= m < |scene| && 0 <= p < |scene[m].primitives| :: scene[m].primitives[p].material
  }

  /** The images the materials of a scene ask for, each with the flag of the texture asking. */
  ghost function SceneUses(scene: seq<LoadedModel>): set<ImageUse>
  {
    set m, p, u | 0 <= m < |scene| && 0 <= p < |scene[m].primitives| && u in MaterialUses(scene[m].primitives[p].material) :: u
  }

  /** A model's materials and images are among its scene's. */
  lemma ModelIsInScene(scene: seq<LoadedModel>, i: nat)
    requires i < |scene|
    ensures PrimMaterials(scene[i].primitives) <= SceneMaterials(scene)
    ensures PrimUses(scene[i].primitives) <= SceneUses(scene)
  {
    var ps := scene[i].primitives;
    forall u | u in PrimUses(ps) ensures u in SceneUses(scene) {
      var p :| 0 <= p < |ps| && u in MaterialUses(ps[p].material);
      assert scene[i].primitives[p] == ps[p];
    }
  }

  /** Each cached view is `create_image` of the image it was first asked for, with that request's flag. */
  ghost predicate ViewsBuilt(sources: map<nat, ImageUse>, textures: map<nat, ImageView>)
  {
    && sources.Keys == textures.Keys
    && forall id {:trigger sources[id]} | id in sources :: ViewBuilt(id, sources[id], textures[id])
  }

  /** The view cached under `id` is the one built from the image and flag recorded for it. */
  ghost predicate ViewBuilt(id: nat, src: ImageUse, view: ImageView)
  {
    src.image.id == id && CanCreate(src.image, src.mipmapping) && view == CreateImage(src.image, src.mipmapping)
  }

  /** Building the view of a new image keeps every cached view built from its source. */
  lemma ViewsBuiltStep(sources: map<nat, ImageUse>, textures: map<nat, ImageView>, image: LoadedImage, mipmapping: bool)
    requires ViewsBuilt(sources, textures) && image.id !in textures && CanCreate(image, mipmapping)
    ensures ViewsBuilt(sources[image.id := ImageUse(image, mipmapping)],
                       textures[image.id := CreateImage(image, mipmapping)])
  {
  }

  /** `built` objects were made for the cache `m`: one per key. */
  ghost predicate Counted<V>(m: map<nat, V>, built: nat)
  {
    built == |m|
  }

  /** Caching a new key counts one more build. */
  lemma CountedStep<V>(m: map<nat, V>, built: nat, k: nat, v: V)
    requires Counted(m, built) && k !in m
    ensures Counted(m[k := v], built + 1)
  {
  }

  ghost predicate SamplersKeyed(m: map<nat, Sampler>) { forall id | id in m :: m[id].samplerId == id }
  ghost predicate MeshesKeyed(m: map<nat, Mesh>) { forall id | id in m :: m[id].meshId == id && m[id].numVertices >= 1 }
  ghost predicate GeometriesKeyed(m: map<nat, Geometry>) { forall id | id in m :: m[id].meshId == id }

  /** `after` is `before` with the keys `added` cached as well and nothing replaced. */
  ghost predicate Grown<V>(before: map<nat, V>, after: map<nat, V>, added: set<nat>)
  {
    Extends(before, after) && after.Keys == before.Keys + added
  }

  lemma GrownTrans<V>(a: map<nat, V>, b: map<nat, V>, c: map<nat, V>, ab: set<nat>, bc: set<nat>, ac: set<nat>)
    requires Grown(a, b, ab) && Grown(b, c, bc) && ac == ab + bc
    ensures Grown(a, c, ac)
  {
  }

  /** Starting from empty caches, the build count of a cache is the number of distinct ids it was asked for. */
  lemma {:induction false} BuiltOncePerDistinctId<V>(m: map<nat, V>, built: nat, ids: set<nat>)
    requires Counted(m, built) && Grown(map[], m, ids)
    ensures built == |ids|
  {
    assert m.Keys == ids;
    assert |m.Keys| == |m|;
  }

  /** The material ids of a model's primitives. */
  ghost function PrimMaterialIds(ps: seq<LoadedPrimitive>): set<nat>
  {
    set p | 0 <= p < |ps| :: ps[p].material.id
  }

  /** The mesh ids of a model's primitives. */
  ghost function PrimMeshIds(ps: seq<LoadedPrimitive>): set<nat>
  {
    set p | 0 <= p < |ps| :: ps[p].mesh.id
  }

  lemma PrimIdsSnoc(ps: seq<LoadedPrimitive>, i: nat)
    requires i < |ps|
    ensures PrimMaterialIds(ps[..i + 1]) == PrimMaterialIds(ps[..i]) + {ps[i].material.id}
    ensures PrimMeshIds(ps[..i + 1]) == PrimMeshIds(ps[..i]) + {ps[i].mesh.id}
  {
    var s0, s1 := ps[..i], ps[..i + 1];
    assert forall p | 0 <= p < i :: s1[p] == s0[p];
    assert s1[i] == ps[i];
  }

  /** Uploaded primitives `prims` are, one for one, the cached objects of the loaded primitives `lps`. */
  ghost predicate PrimsMatch(prims: seq<Primitive>, lps: seq<LoadedPrimitive>, materials: map<nat, Material>,
                             meshes: map<nat, Mesh>, geometries: map<nat, Geometry>)
  {
    && |prims| == |lps|
    && forall p | 0 <= p < |lps| ::
      && lps[p].material.id in materials && lps[p].mesh.id in meshes && lps[p].mesh.id in geometries
      && prims[p] == Primitive(materials[lps[p].material.id], meshes[lps[p].mesh.id], geometries[lps[p].mesh.id])
  }

  /** Growing the caches keeps an earlier upload valid. */
  lemma PrimsMatchKept(prims: seq<Primitive>, lps: seq<LoadedPrimitive>,
                       materials: map<nat, Material>, meshes: map<nat, Mesh>, geometries: map<nat, Geometry>,
                       materials': map<nat, Material>, meshes': map<nat, Mesh>, geometries': map<nat, Geometry>)
    requires PrimsMatch(prims, lps, materials, meshes, geometries)
    requires Extends(materials, materials') && Extends(meshes, meshes') && Extends(geometries, geometries')
    ensures PrimsMatch(prims, lps, materials', meshes', geometries')
  {
  }

  /** One more matching primitive extends a match by one. */
  lemma PrimsMatchSnoc(prims: seq<Primitive>, lps: seq<LoadedPrimitive>, i: nat, prim: Primitive,
                       materials: map<nat, Material>, meshes: map<nat, Mesh>, geometries: map<nat, Geometry>)
    requires i < |lps| && PrimsMatch(prims, lps[..i], materials, meshes, geometries)
    requires lps[i].material.id in materials && lps[i].mesh.id in meshes && lps[i].mesh.id in geometries
    requires prim == Primitive(materials[lps[i].material.id], meshes[lps[i].mesh.id], geometries[lps[i].mesh.id])
    ensures PrimsMatch(prims + [prim], lps[..i + 1], materials, meshes, geometries)
  {
    var l0, l1, p1 := lps[..i], lps[..i + 1], prims + [prim];
    assert forall p | 0 <= p < i :: p1[p] == prims[p] && l1[p] == l0[p];
    assert p1[i] == prim && l1[i] == lps[i];
  }

  /**
   * After the first `i` primitives of `ps`, the caches grew from the `0`
   * ones by their ids and `prims` are their uploads.
   */
  ghost predicate PrimsUploaded(ps: seq<LoadedPrimitive>, i: nat, prims: seq<Primitive>,
                                materials0: map<nat, Material>, meshes0: map<nat, Mesh>, geometries0: map<nat, Geometry>,
                                materials: map<nat, Material>, meshes: map<nat, Mesh>, geometries: map<nat, Geometry>)
  {
    && i <= |ps|
    && PrimsMatch(prims, ps[..i], materials, meshes, geometries)
    && Grown(materials0, materials, PrimMaterialIds(ps[..i]))
    && Grown(meshes0, meshes, PrimMeshIds(ps[..i]))
    && Grown(geometries0, geometries, PrimMeshIds(ps[..i]))
  }

  /** The state after the first `i` models of a scene are uploaded into caches that started as the `0` maps. */
  ghost predicate ModelsUploaded(scene: seq<LoadedModel>, i: nat, models: seq<Model>,
                                 materials0: map<nat, Material>, meshes0: map<nat, Mesh>, geometries0: map<nat, Geometry>,
                                 materials: map<nat, Material>, meshes: map<nat, Mesh>, geometries: map<nat, Geometry>)
  {
    && i <= |scene|
    && ModelsMatch(models, scene[..i], materials, meshes, geometries)
    && Grown(materials0, materials, MaterialIds(scene[..i]))
    && Grown(meshes0, meshes, MeshIds(scene[..i]))
    && Grown(geometries0, geometries, MeshIds(scene[..i]))
  }

  /** Uploaded models are, one for one, the uploads of the loaded models. */
  ghost predicate ModelsMatch(models: seq<Model>, scene: seq<LoadedModel>, materials: map<nat, Material>,
                              meshes: map<nat, Mesh>, geometries: map<nat, Geometry>)
  {
    && |models| == |scene|
    && forall m | 0 <= m < |scene| ::
      models[m].transform == scene[m].transform
      && PrimsMatch(models[m].primitives, scene[m].primitives, materials, meshes, geometries)
  }

  /** The step of the model loop: earlier models stay matched while the caches grow, and the new one is added. */
  lemma ModelsMatchStep(models: seq<Model>, scene: seq<LoadedModel>, i: nat, model: Model,
                        materials: map<nat, Material>, meshes: map<nat, Mesh>, geometries: map<nat, Geometry>,
                        materials': map<nat, Material>, meshes': map<nat, Mesh>, geometries': map<nat, Geometry>)
    requires i < |scene| && ModelsMatch(models, scene[..i], materials, meshes, geometries)
    requires Extends(materials, materials') && Extends(meshes, meshes') && Extends(geometries, geometries')
    requires model.transform == scene[i].transform
    requires PrimsMatch(model.primitives, scene[i].primitives, materials', meshes', geometries')
    ensures ModelsMatch(models + [model], scene[..i + 1], materials', meshes', geometries')
  {
    var s0, s1, m1 := scene[..i], scene[..i + 1], models + [model];
    forall m | 0 <= m < i
      ensures m1[m].transform == s1[m].transform
      ensures PrimsMatch(m1[m].primitives, s1[m].primitives, materials', meshes', geometries')
    {
      assert m1[m] == models[m] && s1[m] == s0[m];
      PrimsMatchKept(models[m].primitives, s0[m].primitives, materials, meshes, geometries,
                     materials', meshes', geometries');
    }
    assert m1[i] == model && s1[i] == scene[i];
  }

  /**
   * The caches of `setup` (`texture_map`, `sampler_map`, `material_map`,
   * `model_map`, `raytracing_geometry_map`) and the creation log.
   */
  class Uploader {
    var textureMap: map<nat, ImageView>
    var samplerMap: map<nat, Sampler>
    var materialMap: map<nat, Material>
    var modelMap: map<nat, Mesh>
    var geometryMap: map<nat, Geometry>
    /** How many image views, samplers, materials, meshes and acceleration structures were built. */
    var imagesBuilt: nat
    var samplersBuilt: nat
    var materialsBuilt: nat
    var meshesBuilt: nat
    var geometriesBuilt: nat
    const defaultSampler: Sampler
    const defaultBaseColorView: ImageView
    const defaultNormalView: ImageView
    /** The loaded material each cached material was built from. */
    ghost var materialSources: map<nat, LoadedMaterial>
    /** The image and mipmapping flag each cached view was built from. */
    ghost var viewSources: map<nat, ImageUse>

    /** One object built per cached id, and nothing else: no id is ever built twice. */
    ghost predicate BuiltOncePerId()
      reads this
    {
      && Counted(textureMap, imagesBuilt) && Counted(samplerMap, samplersBuilt)
      && Counted(materialMap, materialsBuilt) && Counted(modelMap, meshesBuilt)
      && Counted(geometryMap, geometriesBuilt)
    }

    /**
     * A cached sampler, mesh or acceleration structure belongs to its key; a
     * cached mesh has a vertex (views and materials belong to their keys by
     * `ViewsBuilt` and `MaterialsBuilt`).
     */
    ghost predicate Keyed()
      reads this
    {
      && SamplersKeyed(samplerMap) && MeshesKeyed(modelMap) && GeometriesKeyed(geometryMap)
    }

    /** The material a loaded material's three textures give under the given caches, each with its default. */
    function MaterialFrom(m: LoadedMaterial, textures: map<nat, ImageView>, samplers: map<nat, Sampler>): Material
    {
      Material(m.id,
        TextureOf(m.baseColorTexture, defaultBaseColorView, defaultSampler, textures, samplers),
        TextureOf(m.normalTexture, defaultNormalView, defaultSampler, textures, samplers),
        TextureOf(m.metallicRoughnessTexture, defaultBaseColorView, defaultSampler, textures, samplers))
    }

    /** Each cached material is built from the cached textures of the loaded material it came from. */
    ghost predicate MaterialsBuilt(sources: map<nat, LoadedMaterial>, materials: map<nat, Material>,
                                   textures: map<nat, ImageView>, samplers: map<nat, Sampler>)
    {
      && sources.Keys == materials.Keys
      && forall id {:trigger sources[id]} | id in sources :: MaterialBuilt(id, sources[id], materials[id], textures, samplers)
    }

    /** The material cached under `id` is the one built from the cached textures of its source. */
    ghost predicate MaterialBuilt(id: nat, src: LoadedMaterial, mat: Material,
                                  textures: map<nat, ImageView>, samplers: map<nat, Sampler>)
    {
      src.id == id && TexturesCached(src, textures, samplers) && mat == MaterialFrom(src, textures, samplers)
    }

    /** Growing the texture caches keeps every cached material built from its textures. */
    lemma MaterialsBuiltKept(sources: map<nat, LoadedMaterial>, materials: map<nat, Material>,
                             textures: map<nat, ImageView>, samplers: map<nat, Sampler>,
                             textures': map<nat, ImageView>, samplers': map<nat, Sampler>)
      requires MaterialsBuilt(sources, materials, textures, samplers)
      requires Extends(textures, textures') && Extends(samplers, samplers')
      ensures MaterialsBuilt(sources, materials, textures', samplers')
    {
      forall id | id in sources
        ensures TexturesCached(sources[id], textures', samplers')
        ensures MaterialFrom(sources[id], textures', samplers') == MaterialFrom(sources[id], textures, samplers)
      {
        var m := sources[id];
        TextureOfKept(m.baseColorTexture, defaultBaseColorView, defaultSampler, textures, samplers, textures', samplers');
        TextureOfKept(m.normalTexture, defaultNormalView, defaultSampler, textures, samplers, textures', samplers');
        TextureOfKept(m.metallicRoughnessTexture, defaultBaseColorView, defaultSampler, textures, samplers, textures', samplers');
      }
    }

    /** Caching a new material built from cached textures keeps every cached material built from its source. */
    lemma MaterialsBuiltStep(sources: map<nat, LoadedMaterial>, materials: map<nat, Material>,
                             textures: map<nat, ImageView>, samplers: map<nat, Sampler>, m: LoadedMaterial)
      requires MaterialsBuilt(sources, materials, textures, samplers) && m.id !in materials
      requires TexturesCached(m, textures, samplers)
      ensures MaterialsBuilt(sources[m.id := m], materials[m.id := MaterialFrom(m, textures, samplers)], textures, samplers)
    {
    }

    ghost predicate Valid()
      reads this
    {
      && BuiltOncePerId() && Keyed()
      && ViewsBuilt(viewSources, textureMap)
      && MaterialsBuilt(materialSources, materialMap, textureMap, samplerMap)
    }

    constructor (sampler: Sampler, baseColorView: ImageView, normalView: ImageView)
      ensures Valid()
      ensures textureMap == map[] && samplerMap == map[] && materialMap == map[]
      ensures modelMap == map[] && geometryMap == map[]
      ensures imagesBuilt == 0 && samplersBuilt == 0 && materialsBuilt == 0 && meshesBuilt == 0 && geometriesBuilt == 0
      ensures defaultSampler == sampler && defaultBaseColorView == baseColorView && defaultNormalView == normalView
      ensures materialSources == map[] && viewSources == map[]
    {
      textureMap, samplerMap, materialMap := map[], map[], map[];
      materialSources, viewSources := map[], map[];
      modelMap, geometryMap := map[], map[];
      imagesBuilt, samplersBuilt, materialsBuilt, meshesBuilt, geometriesBuilt := 0, 0, 0, 0, 0;
      defaultSampler, defaultBaseColorView, defaultNormalView := sampler, baseColorView, normalView;
    }

    /** The image half of `load_texture`: a view is built only when the image id is new. */
    method LoadImage(image: LoadedImage, mipmapping: bool) returns (view: ImageView)
      requires Valid() && (image.id in textureMap || CanCreate(image, mipmapping))
      modifies this
      ensures Valid()
      ensures textureMap == (if image.id in old(textureMap) then old(textureMap)
                             else old(textureMap)[image.id := CreateImage(image, mipmapping)])
      ensures view == textureMap[image.id]
      ensures samplerMap == old(samplerMap) && materialMap == old(materialMap)
      ensures modelMap == old(modelMap) && geometryMap == old(geometryMap)
      ensures viewSources == (if image.id in old(textureMap) then old(viewSources)
                              else old(viewSources)[image.id := ImageUse(image, mipmapping)])
      ensures materialSources == old(materialSources)
    {
      if image.id !in textureMap {
        BuildImage(image, mipmapping);
      }
      view := textureMap[image.id];
    }

    /** Building and caching the view of an image whose id is new, with the mipmapping flag recorded. */
    method BuildImage(image: LoadedImage, mipmapping: bool)
      requires Valid() && image.id !in textureMap && CanCreate(image, mipmapping)
      modifies this
      ensures Valid()
      ensures textureMap == old(textureMap)[image.id := CreateImage(image, mipmapping)]
      ensures viewSources == old(viewSources)[image.id := ImageUse(image, mipmapping)]
      ensures samplerMap == old(samplerMap) && materialMap == old(materialMap)
      ensures modelMap == old(modelMap) && geometryMap == old(geometryMap)
      ensures materialSources == old(materialSources)
    {
      var v := CreateImage(image, mipmapping);
      var textures := textureMap[image.id := v];
      CountedStep(textureMap, imagesBuilt, image.id, v);
      ViewsBuiltStep(viewSources, textureMap, image, mipmapping);
      MaterialsBuiltKept(materialSources, materialMap, textureMap, samplerMap, textures, samplerMap);
      textureMap, imagesBuilt, viewSources := textures, imagesBuilt + 1, viewSources[image.id := ImageUse(image, mipmapping)];
    }

    /** The sampler half of `load_texture`: a sampler is built only when its id is new. */
    method LoadSampler(sampler: LoadedSampler) returns (r: Sampler)
      requires Valid()
      modifies this
      ensures Valid()
      ensures samplerMap == (if sampler.id in old(samplerMap) then old(samplerMap)
                             else old(samplerMap)[sampler.id := Sampler(sampler.id)])
      ensures r == samplerMap[sampler.id]
      ensures textureMap == old(textureMap) && materialMap == old(materialMap)
      ensures modelMap == old(modelMap) && geometryMap == old(geometryMap)
      ensures viewSources == old(viewSources) && materialSources == old(materialSources)
    {
      if sampler.id !in samplerMap {
        CountedStep(samplerMap, samplersBuilt, sampler.id, Sampler(sampler.id));
        MaterialsBuiltKept(materialSources, materialMap, textureMap, samplerMap,
                           textureMap, samplerMap[sampler.id := Sampler(sampler.id)]);
        samplerMap, samplersBuilt := samplerMap[sampler.id := Sampler(sampler.id)], samplersBuilt + 1;
      }
      r := samplerMap[sampler.id];
    }

    /**
     * `load_texture`: an absent texture gives the default view and sampler;
     * otherwise the view is built once per image id, with the caller's
     * mipmapping flag, and the sampler once per sampler id, and the cached
     * ones are returned.
     */
    method LoadTexture(loaded: Option<LoadedTexture>, defaultView: ImageView, mipmapping: bool) returns (t: Texture)
      requires Valid()
      requires loaded.Some? ==> loaded.value.image.id in textureMap || CanCreate(loaded.value.image, mipmapping)
      modifies this
      ensures Valid()
      ensures materialMap == old(materialMap) && modelMap == old(modelMap) && geometryMap == old(geometryMap)
      ensures loaded.None? ==> t == Texture(defaultView, defaultSampler) && unchanged(this)
      ensures textureMap == ViewsAfter(old(textureMap), loaded, mipmapping)
      ensures samplerMap == SamplersAfter(old(samplerMap), loaded)
      ensures Cached(loaded, textureMap, samplerMap)
      ensures loaded.Some? ==> t == Texture(textureMap[loaded.value.image.id], samplerMap[loaded.value.sampler.id])
      ensures t == TextureOf(loaded, defaultView, defaultSampler, textureMap, samplerMap)
      ensures DrawnFrom(old(viewSources), viewSources, TextureUses(loaded, mipmapping))
      ensures materialSources == old(materialSources)
    {
      if loaded.None? {
        return Texture(defaultView, defaultSampler);
      }
      var view := LoadImage(loaded.value.image, mipmapping);
      var sampler := LoadSampler(loaded.value.sampler);
      t := Texture(view, sampler);
    }

    /**
     * The three textures of a new material, base color and normal with
     * mipmaps, metallic-roughness without (`MaterialViewsUseTheFlags`), each
     * cached and falling back to its default only when absent.
     */
    method LoadMaterialTextures(m: LoadedMaterial) returns (baseColor: Texture, normal: Texture, metallicRoughness: Texture)
      requires Valid() && MaterialCanLoad(m)
      modifies this
      ensures Valid()
      ensures materialMap == old(materialMap) && modelMap == old(modelMap) && geometryMap == old(geometryMap)
      ensures textureMap == MaterialViews(old(textureMap), m) && samplerMap == MaterialSamplers(old(samplerMap), m)
      ensures TexturesCached(m, textureMap, samplerMap)
      ensures DrawnFrom(old(viewSources), viewSources, MaterialUses(m)) && materialSources == old(materialSources)
      ensures baseColor == TextureOf(m.baseColorTexture, defaultBaseColorView, defaultSampler, textureMap, samplerMap)
      ensures normal == TextureOf(m.normalTexture, defaultNormalView, defaultSampler, textureMap, samplerMap)
      ensures metallicRoughness
        == TextureOf(m.metallicRoughnessTexture, defaultBaseColorView, defaultSampler, textureMap, samplerMap)
    {
      ghost var v0 := viewSources;
      baseColor := LoadTexture(m.baseColorTexture, defaultBaseColorView, true);
      ghost var t1, s1, v1 := textureMap, samplerMap, viewSources;
      normal := LoadTexture(m.normalTexture, defaultNormalView, true);
      ghost var t2, s2, v2 := textureMap, samplerMap, viewSources;
      metallicRoughness := LoadTexture(m.metallicRoughnessTexture, defaultBaseColorView, false);
      DrawnFromTrans(v0, v1, v2, TextureUses(m.baseColorTexture, true), TextureUses(m.normalTexture, true), MaterialUses(m));
      DrawnFromTrans(v0, v2, viewSources, MaterialUses(m), TextureUses(m.metallicRoughnessTexture, false), MaterialUses(m));
      TextureOfKept(m.baseColorTexture, defaultBaseColorView, defaultSampler, t1, s1, t2, s2);
      TextureOfKept(m.baseColorTexture, defaultBaseColorView, defaultSampler, t2, s2, textureMap, samplerMap);
      TextureOfKept(m.normalTexture, defaultNormalView, defaultSampler, t2, s2, textureMap, samplerMap);
    }

    /**
     * The material step of the loop in `setup`: a material is built only when
     * its id is new, as `BuildMaterial` says; otherwise the cached one is
     * returned and no cache changes.
     */
    method UploadMaterial(m: LoadedMaterial) returns (mat: Material)
      requires Valid() && MaterialCanLoad(m)
      modifies this
      ensures Valid()
      ensures m.id in materialMap && mat == materialMap[m.id]
      ensures Grown(old(materialMap), materialMap, {m.id})
      ensures modelMap == old(modelMap) && geometryMap == old(geometryMap)
      ensures Extends(old(textureMap), textureMap) && Extends(old(samplerMap), samplerMap)
      ensures m.id in old(materialMap) ==>
        && textureMap == old(textureMap) && samplerMap == old(samplerMap)
        && viewSources == old(viewSources) && materialSources == old(materialSources)
      ensures m.id !in old(materialMap) ==>
        && textureMap == MaterialViews(old(textureMap), m) && samplerMap == MaterialSamplers(old(samplerMap), m)
        && TexturesCached(m, textureMap, samplerMap)
        && materialSources == old(materialSources)[m.id := m]
        && mat == MaterialFrom(m, textureMap, samplerMap)
      ensures DrawnFrom(old(viewSources), viewSources, MaterialUses(m))
      ensures DrawnFrom(old(materialSources), materialSources, {m})
    {
      if m.id in materialMap {
        assert materialMap.Keys + {m.id} == materialMap.Keys;
        return materialMap[m.id];
      }
      mat := BuildMaterial(m);
    }

    /**
     * Building a material whose id is new: its three textures are loaded as
     * `LoadMaterialTextures` says, and the material made of them, each with
     * its default when absent, is cached with `m` recorded as its source.
     */
    method BuildMaterial(m: LoadedMaterial) returns (mat: Material)
      requires Valid() && MaterialCanLoad(m) && m.id !in materialMap
      modifies this
      ensures Valid()
      ensures materialMap == old(materialMap)[m.id := mat] && materialSources == old(materialSources)[m.id := m]
      ensures Grown(old(materialMap), materialMap, {m.id})
      ensures modelMap == old(modelMap) && geometryMap == old(geometryMap)
      ensures textureMap == MaterialViews(old(textureMap), m) && samplerMap == MaterialSamplers(old(samplerMap), m)
      ensures TexturesCached(m, textureMap, samplerMap)
      ensures mat == MaterialFrom(m, textureMap, samplerMap)
      ensures DrawnFrom(old(viewSources), viewSources, MaterialUses(m))
    {
      var baseColor, normal, metallicRoughness := LoadMaterialTextures(m);
      mat := Material(m.id, baseColor, normal, metallicRoughness);
      CacheMaterial(m, mat);
    }

    /** Caching a new material built from the cached textures of `m`, with `m` recorded as its source. */
    method CacheMaterial(m: LoadedMaterial, mat: Material)
      requires Valid() && m.id !in materialMap
      requires TexturesCached(m, textureMap, samplerMap) && mat == MaterialFrom(m, textureMap, samplerMap)
      modifies this
      ensures Valid()
      ensures materialMap == old(materialMap)[m.id := mat] && materialSources == old(materialSources)[m.id := m]
      ensures textureMap == old(textureMap) && samplerMap == old(samplerMap) && viewSources == old(viewSources)
      ensures modelMap == old(modelMap) && geometryMap == old(geometryMap)
    {
      CountedStep(materialMap, materialsBuilt, m.id, mat);
      MaterialsBuiltStep(materialSources, materialMap, textureMap, samplerMap, m);
      materialMap, materialsBuilt, materialSources := materialMap[m.id := mat], materialsBuilt + 1, materialSources[m.id := m];
    }

    /** The mesh step of the loop in `setup`: a mesh is built only when its id is new. */
    method UploadMesh(lm: LoadedMesh) returns (mesh: Mesh)
      requires Valid() && lm.numVertices >= 1
      modifies this
      ensures Valid()
      ensures lm.id in modelMap && mesh == modelMap[lm.id]
      ensures Grown(old(modelMap), modelMap, {lm.id})
      ensures lm.id !in old(modelMap) ==> mesh == Mesh(lm.id, lm.numIndices, lm.numVertices)
      ensures textureMap == old(textureMap) && samplerMap == old(samplerMap)
      ensures materialMap == old(materialMap) && geometryMap == old(geometryMap)
      ensures viewSources == old(viewSources) && materialSources == old(materialSources)
    {
      if lm.id !in modelMap {
        CountedStep(modelMap, meshesBuilt, lm.id, Mesh(lm.id, lm.numIndices, lm.numVertices));
        modelMap, meshesBuilt := modelMap[lm.id := Mesh(lm.id, lm.numIndices, lm.numVertices)], meshesBuilt + 1;
      }
      mesh := modelMap[lm.id];
    }

    /**
     * The acceleration-structure step of the loop in `setup`: the
     * bottom-level structure of a cached mesh is built only when its id is new.
     */
    method UploadGeometry(meshId: nat) returns (geometry: Geometry)
      requires Valid() && meshId in modelMap
      modifies this
      ensures Valid()
      ensures meshId in geometryMap && geometry == geometryMap[meshId]
      ensures Grown(old(geometryMap), geometryMap, {meshId})
      ensures textureMap == old(textureMap) && samplerMap == old(samplerMap)
      ensures materialMap == old(materialMap) && modelMap == old(modelMap)
      ensures viewSources == old(viewSources) && materialSources == old(materialSources)
      ensures meshId !in old(geometryMap) ==> geometry == GeometryOf(modelMap[meshId])
    {
      if meshId !in geometryMap {
        var g := GeometryOf(modelMap[meshId]);
        CountedStep(geometryMap, geometriesBuilt, meshId, g);
        geometryMap, geometriesBuilt := geometryMap[meshId := g], geometriesBuilt + 1;
      }
      geometry := geometryMap[meshId];
    }

    /** One primitive of the loop in `setup`: the cached material, mesh and acceleration structure of its ids. */
    method UploadPrimitive(p: LoadedPrimitive) returns (prim: Primitive)
      requires Valid() && PrimitiveCanLoad(p)
      modifies this
      ensures Valid()
      ensures p.material.id in materialMap && p.mesh.id in modelMap && p.mesh.id in geometryMap
      ensures prim == Primitive(materialMap[p.material.id], modelMap[p.mesh.id], geometryMap[p.mesh.id])
      ensures Grown(old(materialMap), materialMap, {p.material.id})
      ensures Grown(old(modelMap), modelMap, {p.mesh.id}) && Grown(old(geometryMap), geometryMap, {p.mesh.id})
      ensures Extends(old(textureMap), textureMap) && Extends(old(samplerMap), samplerMap)
      ensures DrawnFrom(old(viewSources), viewSources, MaterialUses(p.material))
      ensures DrawnFrom(old(materialSources), materialSources, {p.material})
    {
      var mat := UploadMaterial(p.material);
      var mesh := UploadMesh(p.mesh);
      var geometry := UploadGeometry(p.mesh.id);
      prim := Primitive(mat, mesh, geometry);
    }

    /** The inner loop of `setup`: every primitive of one model, in order. */
    method UploadModel(lm: LoadedModel) returns (m: Model)
      requires Valid()
      requires forall p | 0 <= p < |lm.primitives| :: PrimitiveCanLoad(lm.primitives[p])
      modifies this
      ensures Valid() && m.transform == lm.transform
      ensures PrimsMatch(m.primitives, lm.primitives, materialMap, modelMap, geometryMap)
      ensures Grown(old(materialMap), materialMap, PrimMaterialIds(lm.primitives))
      ensures Grown(old(modelMap), modelMap, PrimMeshIds(lm.primitives))
      ensures Grown(old(geometryMap), geometryMap, PrimMeshIds(lm.primitives))
      ensures DrawnFrom(old(viewSources), viewSources, PrimUses(lm.primitives))
      ensures DrawnFrom(old(materialSources), materialSources, PrimMaterials(lm.primitives))
    {
      ghost var materials0, meshes0, geometries0 := materialMap, modelMap, geometryMap;
      ghost var views0, sources0 := viewSources, materialSources;
      var ps := lm.primitives;
      var prims: seq<Primitive> := [];
      assert ps[..0] == [];
      for i := 0 to |ps|
        invariant Valid()
        invariant PrimsUploaded(ps, i, prims, materials0, meshes0, geometries0, materialMap, modelMap, geometryMap)
        invariant DrawnFrom(views0, viewSources, PrimUses(ps)) && DrawnFrom(sources0, materialSources, PrimMaterials(ps))
      {
        prims := UploadPrimitiveAt(ps, i, prims, materials0, meshes0, geometries0, views0, sources0);
      }
      assert ps[..|ps|] == ps;
      m := Model(lm.transform, prims);
    }

    /** One iteration of the inner loop of `setup`: primitive `i` joins the uploaded ones. */
    method UploadPrimitiveAt(ps: seq<LoadedPrimitive>, i: nat, prims: seq<Primitive>,
                             ghost materials0: map<nat, Material>, ghost meshes0: map<nat, Mesh>,
                             ghost geometries0: map<nat, Geometry>,
                             ghost views0: map<nat, ImageUse>, ghost sources0: map<nat, LoadedMaterial>)
      returns (next: seq<Primitive>)
      requires i < |ps| && PrimitiveCanLoad(ps[i])
      requires Valid() && PrimsUploaded(ps, i, prims, materials0, meshes0, geometries0, materialMap, modelMap, geometryMap)
      requires DrawnFrom(views0, viewSources, PrimUses(ps)) && DrawnFrom(sources0, materialSources, PrimMaterials(ps))
      modifies this
      ensures Valid() && PrimsUploaded(ps, i + 1, next, materials0, meshes0, geometries0, materialMap, modelMap, geometryMap)
      ensures DrawnFrom(views0, viewSources, PrimUses(ps)) && DrawnFrom(sources0, materialSources, PrimMaterials(ps))
    {
      ghost var materials, meshes, geometries := materialMap, modelMap, geometryMap;
      ghost var views, sources := viewSources, materialSources;
      var prim := UploadPrimitive(ps[i]);
      assert MaterialUses(ps[i].material) <= PrimUses(ps);
      assert ps[i].material in PrimMaterials(ps);
      DrawnFromTrans(views0, views, viewSources, PrimUses(ps), MaterialUses(ps[i].material), PrimUses(ps));
      DrawnFromTrans(sources0, sources, materialSources, PrimMaterials(ps), {ps[i].material}, PrimMaterials(ps));
      PrimsMatchKept(prims, ps[..i], materials, meshes, geometries, materialMap, modelMap, geometryMap);
      PrimsMatchSnoc(prims, ps, i, prim, materialMap, modelMap, geometryMap);
      PrimIdsSnoc(ps, i);
      GrownTrans(materials0, materials, materialMap, PrimMaterialIds(ps[..i]), {ps[i].material.id},
                 PrimMaterialIds(ps[..i + 1]));
      GrownTrans(meshes0, meshes, modelMap, PrimMeshIds(ps[..i]), {ps[i].mesh.id}, PrimMeshIds(ps[..i + 1]));
      GrownTrans(geometries0, geometries, geometryMap, PrimMeshIds(ps[..i]), {ps[i].mesh.id}, PrimMeshIds(ps[..i + 1]));
      next := prims + [prim];
    }

    /**
     * The model loop of `setup`: every model in order. Each primitive gets
     * the cached material, mesh and acceleration structure of its ids, so
     * primitives sharing an id share the object, and the counters show each
     * was built once.
     */
    method UploadModels(scene: seq<LoadedModel>) returns (models: seq<Model>)
      requires Valid() && SceneCanLoad(scene)
      modifies this
      ensures Valid()
      ensures ModelsMatch(models, scene, materialMap, modelMap, geometryMap)
      ensures Grown(old(materialMap), materialMap, MaterialIds(scene))
      ensures Grown(old(modelMap), modelMap, MeshIds(scene))
      ensures Grown(old(geometryMap), geometryMap, MeshIds(scene))
      ensures DrawnFrom(old(viewSources), viewSources, SceneUses(scene))
      ensures DrawnFrom(old(materialSources), materialSources, SceneMaterials(scene))
    {
      ghost var materials0, meshes0, geometries0 := materialMap, modelMap, geometryMap;
      ghost var views0, sources0 := viewSources, materialSources;
      models := [];
      assert scene[..0] == [];
      for i := 0 to |scene|
        invariant Valid()
        invariant ModelsUploaded(scene, i, models, materials0, meshes0, geometries0, materialMap, modelMap, geometryMap)
        invariant DrawnFrom(views0, viewSources, SceneUses(scene))
        invariant DrawnFrom(sources0, materialSources, SceneMaterials(scene))
      {
        models := UploadModelAt(scene, i, models, materials0, meshes0, geometries0, views0, sources0);
      }
      assert scene[..|scene|] == scene;
    }

    /** One iteration of the model loop of `setup`: model `i` joins the uploaded ones. */
    method UploadModelAt(scene: seq<LoadedModel>, i: nat, models: seq<Model>,
                         ghost materials0: map<nat, Material>, ghost meshes0: map<nat, Mesh>,
                         ghost geometries0: map<nat, Geometry>,
                         ghost views0: map<nat, ImageUse>, ghost sources0: map<nat, LoadedMaterial>)
      returns (next: seq<Model>)
      requires Valid() && SceneCanLoad(scene) && i < |scene|
      requires ModelsUploaded(scene, i, models, materials0, meshes0, geometries0, materialMap, modelMap, geometryMap)
      requires DrawnFrom(views0, viewSources, SceneUses(scene)) && DrawnFrom(sources0, materialSources, SceneMaterials(scene))
      modifies this
      ensures Valid()
      ensures ModelsUploaded(scene, i + 1, next, materials0, meshes0, geometries0, materialMap, modelMap, geometryMap)
      ensures DrawnFrom(views0, viewSources, SceneUses(scene)) && DrawnFrom(sources0, materialSources, SceneMaterials(scene))
    {
      ghost var materials, meshes, geometries := materialMap, modelMap, geometryMap;
      ghost var views, sources := viewSources, materialSources;
      var model := UploadModel(scene[i]);
      ModelIsInScene(scene, i);
      DrawnFromTrans(views0, views, viewSources, SceneUses(scene), PrimUses(scene[i].primitives), SceneUses(scene));
      DrawnFromTrans(sources0, sources, materialSources, SceneMaterials(scene), PrimMaterials(scene[i].primitives),
                     SceneMaterials(scene));
      ModelsMatchStep(models, scene, i, model, materials, meshes, geometries, materialMap, modelMap, geometryMap);
      IdsOfSnoc(scene, i);
      GrownTrans(materials0, materials, materialMap, MaterialIds(scene[..i]), PrimMaterialIds(scene[i].primitives),
                 MaterialIds(scene[..i + 1]));
      GrownTrans(meshes0, meshes, modelMap, MeshIds(scene[..i]), PrimMeshIds(scene[i].primitives),
                 MeshIds(scene[..i + 1]));
      GrownTrans(geometries0, geometries, geometryMap, MeshIds(scene[..i]), PrimMeshIds(scene[i].primitives),
                 MeshIds(scene[..i + 1]));
      next := models + [model];
    }

    /** The ids of the first `i + 1` models are those of the first `i` and those of model `i`. */
    static lemma IdsOfSnoc(scene: seq<LoadedModel>, i: nat)
      requires i < |scene|
      ensures MaterialIds(scene[..i + 1]) == MaterialIds(scene[..i]) + PrimMaterialIds(scene[i].primitives)
      ensures MeshIds(scene[..i + 1]) == MeshIds(scene[..i]) + PrimMeshIds(scene[i].primitives)
    {
      var s0, s1 := scene[..i], scene[..i + 1];
      assert forall m | 0 <= m < i :: s1[m] == s0[m];
      assert s1[i] == scene[i];
    }
  }

  /** The instance loop of `setup`: one instance per primitive, model by model. */
  method BuildInstances(models: seq<Model>) returns (instances: seq<Instance>)
    ensures instances == InstancesOf(models)
  {
    instances := [];
    var m := 0;
    while m < |models|
      invariant 0 <= m <= |models|
      invariant instances == InstancesOf(models[..m])
    {
      var model := models[m];
      var p := 0;
      ghost var before := instances;
      while p < |model.primitives|
        invariant 0 <= p <= |model.primitives|
        invariant instances == before + seq(p, k requires 0 <= k < p => Instance(model.transform, model.primitives[k].geometry))
      {
        instances := instances + [Instance(model.transform, model.primitives[p].geometry)];
        p := p + 1;
      }
      assert models[..m + 1][..m] == models[..m];
      m := m + 1;
    }
    assert models[..m] == models;
  }

  /**
   * The upload part of `setup`: fresh caches, every model and primitive in
   * order, then one instance per primitive. Every distinct material id
   * builds one material and every distinct mesh id one mesh and one
   * acceleration structure. Every cached view is `create_image` of an image
   * some material of the scene asks for, with the mipmapping flag of the
   * texture asking (`MaterialViewsUseTheFlags`), and every cached material
   * is built from the cached textures of a material of the scene.
   */
  method Setup(scene: seq<LoadedModel>, sampler: Sampler, baseColorView: ImageView, normalView: ImageView)
    returns (uploader: Uploader, models: seq<Model>, instances: seq<Instance>)
    requires SceneCanLoad(scene)
    ensures uploader.Valid()
    ensures ModelsMatch(models, scene, uploader.materialMap, uploader.modelMap, uploader.geometryMap)
    ensures instances == InstancesOf(models)
    ensures uploader.materialsBuilt == |MaterialIds(scene)|
    ensures uploader.meshesBuilt == |MeshIds(scene)| && uploader.geometriesBuilt == |MeshIds(scene)|
    ensures ViewsBuilt(uploader.viewSources, uploader.textureMap)
    ensures forall id | id in uploader.viewSources :: uploader.viewSources[id] in SceneUses(scene)
    ensures uploader.MaterialsBuilt(uploader.materialSources, uploader.materialMap, uploader.textureMap, uploader.samplerMap)
    ensures forall id | id in uploader.materialSources :: uploader.materialSources[id] in SceneMaterials(scene)
  {
    uploader := new Uploader(sampler, baseColorView, normalView);
    models := uploader.UploadModels(scene);
    BuiltOncePerDistinctId(uploader.materialMap, uploader.materialsBuilt, MaterialIds(scene));
    BuiltOncePerDistinctId(uploader.modelMap, uploader.meshesBuilt, MeshIds(scene));
    BuiltOncePerDistinctId(uploader.geometryMap, uploader.geometriesBuilt, MeshIds(scene));
    instances := BuildInstances(models);
  }
}
