/**
 * The asset registry (asset_server/src/asset_server.rs): per asset type, the
 * assets by key, and an inverse index from each source file to the assets
 * that depend on it, so that a changed file can be traced to the assets to
 * rebuild.
 *
 * The registry is keyed by the asset type's id; every type's assets share
 * one data type parameter here, so the source's downcast to the concrete
 * `Assets<T>` cannot fail in the model.
 */
module AssetServer {
  import opened Wrappers
  import opened FileChange
  import opened AssetCompilation
  import opened AssetRefs
  import opened ServerAsset

  /** `AssetTypeId`. */
  type TypeId = string

  /** `order` lists every element of `deps` exactly once: one iteration order of the `HashSet`. */
  predicate Enumerates(order: seq<AssetDependency>, deps: set<AssetDependency>)
  {
    && (forall i, j | 0 <= i < j < |order| :: order[i] != order[j])
    && (forall d | d in deps :: d in order)
    && (forall i | 0 <= i < |order| :: order[i] in deps)
  }

  /** The files named by a set of dependencies. */
  ghost function FilesOf(deps: set<AssetDependency>): set<SourceFileRef>
  {
    set d | d in deps :: d.file
  }

  /** How many of the dependencies are on `file` (several, with different timestamps). */
  ghost function DependentsOn(deps: set<AssetDependency>, file: SourceFileRef): nat
  {
    |set d | d in deps && d.file == file|
  }

  /** How many entries of `order` are on `file`. */
  function CountFile(order: seq<AssetDependency>, file: SourceFileRef): nat
  {
    if |order| == 0 then 0
    else CountFile(order[..|order| - 1], file) + (if order[|order| - 1].file == file then 1 else 0)
  }

  /** `n` copies of `key`. */
  function Repeat(key: AssetRef, n: nat): (r: seq<AssetRef>)
    ensures |r| == n && forall i | 0 <= i < n :: r[i] == key
  {
    if n == 0 then [] else Repeat(key, n - 1) + [key]
  }

  /** The assets listed under `file`, none when it has no entry (`or_default`). */
  function Listed(inverse: map<SourceFileRef, seq<AssetRef>>, file: SourceFileRef): seq<AssetRef>
  {
    if file in inverse then inverse[file] else []
  }

  /** Counting along any enumeration of the set gives the number of its dependencies on the file. */
  lemma {:induction false} CountFileOfEnumeration(order: seq<AssetDependency>, file: SourceFileRef)
    requires forall i, j | 0 <= i < j < |order| :: order[i] != order[j]
    ensures CountFile(order, file) == |set d | d in order && d.file == file|
  {
    if |order| > 0 {
      var prefix := order[..|order| - 1];
      var last := order[|order| - 1];
      CountFileOfEnumeration(prefix, file);
      assert order == prefix + [last];
      assert last !in prefix;
      var before := set d | d in prefix && d.file == file;
      var after := set d | d in order && d.file == file;
      if last.file == file {
        assert after == before + {last};
      } else {
        assert after == before;
      }
    }
  }

  /** The files named along `order`. */
  ghost function FilesIn(order: seq<AssetDependency>): set<SourceFileRef>
  {
    set k | 0 <= k < |order| :: order[k].file
  }

  lemma EnumerationFiles(order: seq<AssetDependency>, deps: set<AssetDependency>)
    requires Enumerates(order, deps)
    ensures FilesIn(order) == FilesOf(deps)
  {
    forall d | d in deps
      ensures d.file in FilesIn(order)
    {
      var k :| 0 <= k < |order| && order[k] == d;
    }
  }

  lemma EnumerationCounts(order: seq<AssetDependency>, deps: set<AssetDependency>, file: SourceFileRef)
    requires Enumerates(order, deps)
    ensures CountFile(order, file) == DependentsOn(deps, file)
  {
    CountFileOfEnumeration(order, file);
    assert (set d | d in order && d.file == file) == (set d | d in deps && d.file == file);
  }

  lemma DependentsOfMember(deps: set<AssetDependency>, d: AssetDependency)
    requires d in deps
    ensures DependentsOn(deps, d.file) >= 1
  {
    var on := set e | e in deps && e.file == d.file;
    assert d in on;
    assert on != {};
  }

  /** After the entries `prefix`, each file's list is what it was with `key` appended once per entry on it. */
  ghost predicate Indexed(before: map<SourceFileRef, seq<AssetRef>>, after: map<SourceFileRef, seq<AssetRef>>,
                          key: AssetRef, prefix: seq<AssetDependency>)
  {
    && after.Keys == before.Keys + FilesIn(prefix)
    && forall f :: Listed(after, f) == Listed(before, f) + Repeat(key, CountFile(prefix, f))
  }

  lemma FilesInSnoc(prefix: seq<AssetDependency>, d: AssetDependency)
    ensures FilesIn(prefix + [d]) == FilesIn(prefix) + {d.file}
  {
    var next := prefix + [d];
    forall f | f in FilesIn(prefix)
      ensures f in FilesIn(next)
    {
      var k :| 0 <= k < |prefix| && prefix[k].file == f;
      assert next[k] == prefix[k];
    }
    assert next[|prefix|] == d;
  }

  lemma CountFileSnoc(prefix: seq<AssetDependency>, d: AssetDependency, f: SourceFileRef)
    ensures CountFile(prefix + [d], f) == CountFile(prefix, f) + (if d.file == f then 1 else 0)
  {
    assert (prefix + [d])[..|prefix|] == prefix;
  }

  lemma ListedSnoc(start: seq<AssetRef>, after: map<SourceFileRef, seq<AssetRef>>,
                   key: AssetRef, prefix: seq<AssetDependency>, d: AssetDependency, f: SourceFileRef)
    requires Listed(after, f) == start + Repeat(key, CountFile(prefix, f))
    ensures Listed(after[d.file := Listed(after, d.file) + [key]], f) == start + Repeat(key, CountFile(prefix + [d], f))
  {
    CountFileSnoc(prefix, d, f);
  }

  lemma IndexedSnoc(before: map<SourceFileRef, seq<AssetRef>>, after: map<SourceFileRef, seq<AssetRef>>,
                    key: AssetRef, prefix: seq<AssetDependency>, d: AssetDependency)
    requires Indexed(before, after, key, prefix)
    ensures Indexed(before, after[d.file := Listed(after, d.file) + [key]], key, prefix + [d])
  {
    var updated := after[d.file := Listed(after, d.file) + [key]];
    forall f
      ensures Listed(updated, f) == Listed(before, f) + Repeat(key, CountFile(prefix + [d], f))
    {
      ListedSnoc(Listed(before, f), after, key, prefix, d, f);
    }
    FilesInSnoc(prefix, d);
    assert updated.Keys == after.Keys + {d.file};
  }

  class Assets<Data> {
    var assets: map<AssetRef, Asset<Data>>
    var inverse: map<SourceFileRef, seq<AssetRef>>

    /** `Assets::new`: no assets, no dependencies. */
    constructor ()
      ensures assets == map[] && inverse == map[]
    {
      assets := map[];
      inverse := map[];
    }

    /**
     * `Assets::add_asset`, visiting the dependencies in the order `order`:
     * the asset is stored under its key, replacing any earlier one, and the
     * key is appended once per dependency to that dependency's file's list.
     * Nothing is removed from the index, even when the key was there before.
     */
    method AddAsset(asset: Asset<Data>, order: seq<AssetDependency>)
      requires Enumerates(order, asset.dependencies)
      modifies this
      ensures assets == old(assets)[asset.key := asset]
      ensures inverse.Keys == old(inverse).Keys + FilesOf(asset.dependencies)
      ensures forall f | f in inverse ::
        inverse[f] == Listed(old(inverse), f) + Repeat(asset.key, DependentsOn(asset.dependencies, f))
      ensures forall d | d in asset.dependencies :: |inverse[d.file]| > 0 && inverse[d.file][|inverse[d.file]| - 1] == asset.key
    {
      AppendToIndex(asset.key, order);
      EnumerationFiles(order, asset.dependencies);
      forall f | f in inverse
        ensures inverse[f] == Listed(old(inverse), f) + Repeat(asset.key, DependentsOn(asset.dependencies, f))
      {
        EnumerationCounts(order, asset.dependencies, f);
      }
      forall d | d in asset.dependencies
        ensures DependentsOn(asset.dependencies, d.file) >= 1
      {
        DependentsOfMember(asset.dependencies, d);
      }
      assets := assets[asset.key := asset];
    }

    /** The loop of `add_asset`: `key` goes to the end of the list of every file in `order`, once per entry. */
    method AppendToIndex(key: AssetRef, order: seq<AssetDependency>)
      modifies this
      ensures assets == old(assets)
      ensures Indexed(old(inverse), inverse, key, order)
    {
      var start := inverse;
      var index := start;
      var i := 0;
      assert FilesIn(order[..0]) == {};
      while i < |order|
        invariant 0 <= i <= |order|
        invariant Indexed(start, index, key, order[..i])
        modifies {}
      {
        IndexedSnoc(start, index, key, order[..i], order[i]);
        assert order[..i] + [order[i]] == order[..i + 1];
        index := index[order[i].file := Listed(index, order[i].file) + [key]];
        i := i + 1;
      }
      assert order[..|order|] == order;
      inverse := index;
    }
  }

  datatype ServerError = AssetNotFound(request: AssetRef) | LoadFailed(cause: LoadError)

  /** A load's answer as the server gives it: a failure is wrapped in `LoadFailed`. */
  function Served<Data>(loaded: Result<Data, LoadError>): (r: Result<Data, ServerError>)
    ensures r.Ok? <==> loaded.Ok?
    ensures r.Ok? ==> r.value == loaded.value
    ensures r.Err? ==> r.error == LoadFailed(loaded.error)
  {
    match loaded
    case Ok(v) => Ok(v)
    case Err(e) => Err(LoadFailed(e))
  }

  /** `AllAssets`: the assets of every registered type. */
  class AllAssets<Data> {
    var allAssets: map<TypeId, Assets<Data>>

    constructor ()
      ensures allAssets == map[]
    {
      allAssets := map[];
    }

    /** `with_asset_type`: registers the type with no assets yet, replacing an earlier registration. */
    method WithAssetType(typeId: TypeId)
      modifies this
      ensures allAssets.Keys == old(allAssets).Keys + {typeId}
      ensures fresh(allAssets[typeId])
      ensures allAssets[typeId].assets == map[] && allAssets[typeId].inverse == map[]
      ensures forall t | t in old(allAssets) && t != typeId :: allAssets[t] == old(allAssets)[t]
    {
      var assets := new Assets<Data>();
      allAssets := allAssets[typeId := assets];
    }

    /** `AllAssets::add_asset`; a type that was never registered panics, so registration is required. */
    method AddAsset(typeId: TypeId, asset: Asset<Data>, order: seq<AssetDependency>)
      requires typeId in allAssets
      requires Enumerates(order, asset.dependencies)
      modifies allAssets[typeId]
      ensures allAssets == old(allAssets)
      ensures allAssets[typeId].assets == old(allAssets[typeId].assets)[asset.key := asset]
      ensures allAssets[typeId].inverse.Keys == old(allAssets[typeId].inverse).Keys + FilesOf(asset.dependencies)
      ensures forall f | f in allAssets[typeId].inverse ::
        allAssets[typeId].inverse[f]
          == Listed(old(allAssets[typeId].inverse), f) + Repeat(asset.key, DependentsOn(asset.dependencies, f))
      ensures forall d | d in asset.dependencies ::
        var list := allAssets[typeId].inverse[d.file];
        |list| > 0 && list[|list| - 1] == asset.key
    {
      allAssets[typeId].AddAsset(asset, order);
    }

    /**
     * `load_asset`: an unknown key is `AssetNotFound` and changes nothing; a
     * known asset is loaded as `ServerAsset.Asset.Load` describes, changing
     * only that asset and the database, and a failure is wrapped in
     * `LoadFailed`.
     */
    method LoadAsset(typeId: TypeId, request: AssetRef, db: AssetDatabase,
                     compiled: Result<CompileResult<Data>, LoadError>,
                     loadAsset: AssetCompilationFile -> Result<Data, LoadError>)
      returns (r: Result<Data, ServerError>)
      requires typeId in allAssets
      modifies db, if request in allAssets[typeId].assets then {allAssets[typeId].assets[request]} else {}
      ensures request !in allAssets[typeId].assets <==> r == Err(AssetNotFound(request))
      ensures request !in allAssets[typeId].assets ==> unchanged(db)
      ensures request in allAssets[typeId].assets ==>
        var asset := allAssets[typeId].assets[request];
        && asset.key == old(asset.key) && asset.mainFile == old(asset.mainFile)
        && asset.dependencies == old(asset.dependencies)
        && (r.Ok? ==> asset.data == Some(r.value))
        && (!old(asset.NeedsCompile(db)) ==> db.files == old(db.files))
        && (!old(asset.NeedsCompile(db)) && old(asset.data).Some? ==> r == Ok(old(asset.data).value))
        && (!old(asset.NeedsCompile(db)) && old(asset.data).None? ==>
              r == Served(loadAsset(old(db.files)[asset.key])) && (r.Err? ==> asset.data == None))
        && (old(asset.NeedsCompile(db)) && compiled.Err? ==>
              r == Err(LoadFailed(compiled.error)) && db.files == old(db.files) && asset.data == old(asset.data))
        && (old(asset.NeedsCompile(db)) && compiled.Ok? ==>
              db.files == old(db.files)[asset.key := compiled.value.compilationFile])
        && (old(asset.NeedsCompile(db)) && compiled.Ok? && compiled.value.data.Some? ==>
              r == Ok(compiled.value.data.value) && asset.data == compiled.value.data)
        && (old(asset.NeedsCompile(db)) && compiled.Ok? && compiled.value.data.None? ==>
              r == Served(loadAsset(compiled.value.compilationFile)) && (r.Err? ==> asset.data == None))
    {
      var assets := allAssets[typeId];
      if request !in assets.assets {
        return Err(AssetNotFound(request));
      }
      var asset := assets.assets[request];
      var loaded := asset.Load(db, compiled, loadAsset);
      r := Served(loaded);
    }
  }
}
