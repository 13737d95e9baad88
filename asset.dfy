/**
 * `Asset` (asset_server/src/asset.rs): a lazily loaded asset. It knows its
 * main file and dependencies as last seen, keeps the compilation record in
 * the asset database up to date, and caches the loaded data.
 *
 * The loader and the database are outside the model: what the loader
 * compiles and loads is given as parameters, and the database is the map of
 * compilation records it stores, one per asset.
 */
module ServerAsset {
  import opened Wrappers
  import opened FileChange
  import opened AssetCompilation
  import opened AssetRefs

  /** The loader's error (`anyhow::Error`). */
  datatype LoadError = LoadError(message: string)

  /** `CompileResult`: the new compilation record, and the data when compiling also produced it. */
  datatype CompileResult<Data> = CompileResult(compilationFile: AssetCompilationFile, data: Option<Data>)

  /** The asset database's table of compilation records. */
  class AssetDatabase {
    var files: map<AssetRef, AssetCompilationFile>

    constructor ()
      ensures files == map[]
    {
      files := map[];
    }

    /** `get_asset_compilation_file`. */
    function Get(key: AssetRef): (r: Option<AssetCompilationFile>)
      reads this
      ensures r.Some? <==> key in files
      ensures r.Some? ==> r.value == files[key]
    {
      if key in files then Some(files[key]) else None
    }

    /** `set_asset_compilation_file`. */
    method Set(key: AssetRef, file: AssetCompilationFile)
      modifies this
      ensures files == old(files)[key := file]
    {
      files := files[key := file];
    }
  }

  class Asset<Data> {
    var key: AssetRef
    var mainFile: AssetDependency
    /** Files the asset was built from, possibly missing ones; the main file counts implicitly. */
    var dependencies: set<AssetDependency>
    var data: Option<Data>

    /** `Asset::new`: no dependencies known and nothing loaded. */
    constructor (key: AssetRef, mainFile: AssetDependency)
      ensures this.key == key && this.mainFile == mainFile
      ensures dependencies == {} && data == None
    {
      this.key := key;
      this.mainFile := mainFile;
      dependencies := {};
      data := None;
    }

    /**
     * `populate_from_cache_file`: takes over the cached timestamp and
     * dependencies. The source writes the timestamp before it asserts that
     * the record is about the same main file; the assertion becomes the
     * caller's obligation.
     */
    method PopulateFromCacheFile(cacheFile: AssetCompilationFile)
      requires mainFile.file == cacheFile.mainFile.file
      modifies this
      ensures mainFile == cacheFile.mainFile
      ensures dependencies == cacheFile.dependencies
      ensures key == old(key) && data == old(data)
    {
      mainFile := mainFile.(timestamp := cacheFile.mainFile.timestamp);
      dependencies := cacheFile.dependencies;
    }

    /** The stored record no longer describes the asset, or there is none: compiling is due. */
    predicate NeedsCompile(db: AssetDatabase)
      reads this, db
    {
      key !in db.files || IsOutdated(db.files[key], mainFile, dependencies)
    }

    /**
     * `compile_if_outdated`: the stored record when it is still current;
     * otherwise the outcome of compiling (`compiled`), which is stored and
     * whose data replaces the cached data.
     */
    method CompileIfOutdated(db: AssetDatabase, compiled: Result<CompileResult<Data>, LoadError>)
      returns (r: Result<AssetCompilationFile, LoadError>)
      modifies this, db
      ensures key == old(key) && mainFile == old(mainFile) && dependencies == old(dependencies)
      ensures !old(NeedsCompile(db)) ==>
        r == Ok(old(db.files)[key]) && db.files == old(db.files) && data == old(data)
      ensures old(NeedsCompile(db)) && compiled.Err? ==>
        r == Err(compiled.error) && db.files == old(db.files) && data == old(data)
      ensures old(NeedsCompile(db)) && compiled.Ok? ==>
        && r == Ok(compiled.value.compilationFile)
        && db.files == old(db.files)[key := compiled.value.compilationFile]
        && data == compiled.value.data
    {
      var cached := db.Get(key);
      if cached.Some? && !IsOutdated(cached.value, mainFile, dependencies) {
        return Ok(cached.value);
      }
      if compiled.Err? {
        return Err(compiled.error);
      }
      db.Set(key, compiled.value.compilationFile);
      data := compiled.value.data;
      return Ok(compiled.value.compilationFile);
    }

    /**
     * `load`: compiles when outdated, then answers with the cached data, or
     * loads it from the compilation record with `loadAsset` and caches it.
     */
    method Load(db: AssetDatabase, compiled: Result<CompileResult<Data>, LoadError>,
                loadAsset: AssetCompilationFile -> Result<Data, LoadError>)
      returns (r: Result<Data, LoadError>)
      modifies this, db
      ensures key == old(key) && mainFile == old(mainFile) && dependencies == old(dependencies)
      ensures r.Ok? ==> data == Some(r.value)
      ensures !old(NeedsCompile(db)) ==> db.files == old(db.files)
      ensures !old(NeedsCompile(db)) && old(data).Some? ==> r == Ok(old(data).value)
      ensures !old(NeedsCompile(db)) && old(data).None? ==>
        r == loadAsset(old(db.files)[key]) && (r.Err? ==> data == None)
      ensures old(NeedsCompile(db)) && compiled.Err? ==>
        r == Err(compiled.error) && db.files == old(db.files) && data == old(data)
      ensures old(NeedsCompile(db)) && compiled.Ok? ==>
        db.files == old(db.files)[key := compiled.value.compilationFile]
      ensures old(NeedsCompile(db)) && compiled.Ok? && compiled.value.data.Some? ==>
        r == Ok(compiled.value.data.value) && data == compiled.value.data
      ensures old(NeedsCompile(db)) && compiled.Ok? && compiled.value.data.None? ==>
        r == loadAsset(compiled.value.compilationFile) && (r.Err? ==> data == None)
    {
      var compileResult := CompileIfOutdated(db, compiled);
      if compileResult.Err? {
        return Err(compileResult.error);
      }
      if data.Some? {
        return Ok(data.value);
      }
      var loaded := loadAsset(compileResult.value);
      if loaded.Err? {
        return Err(loaded.error);
      }
      data := Some(loaded.value);
      return Ok(loaded.value);
    }
  }

  /**
   * A second `load` of an asset whose record is current gives what the
   * first one gave, without compiling or loading again.
   */
  method LoadTwice<Data>(asset: Asset<Data>, db: AssetDatabase,
                         compiled: Result<CompileResult<Data>, LoadError>,
                         loadAsset: AssetCompilationFile -> Result<Data, LoadError>)
    returns (first: Result<Data, LoadError>, second: Result<Data, LoadError>)
    requires !asset.NeedsCompile(db)
    modifies asset, db
    ensures first.Ok? ==> second == first
    ensures db.files == old(db.files)
  {
    first := asset.Load(db, compiled, loadAsset);
    second := asset.Load(db, compiled, loadAsset);
  }
}
