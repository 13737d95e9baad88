/**
 * `AssetCompilationFile` and `is_outdated`
 * (asset_server/src/asset_compilation.rs): a compiled asset remembers the
 * timestamp of its main file and the set of its dependencies; it is outdated
 * when either differs from the asset's current view.
 *
 * Both comparisons go through `FileTimestamp`'s equality, which never
 * equates `Unknown`: the main timestamps are compared with it directly, and
 * the dependency sets with `HashSet`'s equality (same length, and every
 * element of one is contained in the other), whose `contains` uses the
 * derived equality of `AssetDependency` and so the timestamp equality too.
 */
module AssetCompilation {
  import opened FileChange

  /** `SourceFileRef`: a path relative to the asset folder. */
  datatype SourceFileRef = SourceFileRef(path: string)

  /** `AssetDependency`: a file and the timestamp it had. */
  datatype AssetDependency = AssetDependency(file: SourceFileRef, timestamp: FileTimestamp)

  /** `AssetCompilationFile`; the `Uuid` is a number. */
  datatype AssetCompilationFile = AssetCompilationFile(
    mainFile: AssetDependency,
    dependencies: set<AssetDependency>,
    id: nat)

  /** The derived `PartialEq` of `AssetDependency`. */
  predicate DependencyEq(a: AssetDependency, b: AssetDependency)
  {
    a.file == b.file && TimestampEq(a.timestamp, b.timestamp)
  }

  /** `HashSet::contains`. */
  predicate Contains(s: set<AssetDependency>, d: AssetDependency)
  {
    exists e | e in s :: DependencyEq(e, d)
  }

  /** `<HashSet as PartialEq>::eq`: equal lengths and every element of `a` is in `b`. */
  predicate SetEq(a: set<AssetDependency>, b: set<AssetDependency>)
  {
    |a| == |b| && forall d | d in a :: Contains(b, d)
  }

  /** `is_outdated`, given the asset's main file and dependencies. */
  predicate IsOutdated(file: AssetCompilationFile, assetMainFile: AssetDependency,
                       assetDependencies: set<AssetDependency>)
  {
    !TimestampEq(file.mainFile.timestamp, assetMainFile.timestamp)
    || !SetEq(file.dependencies, assetDependencies)
  }

  /** No dependency of the set has an unknown timestamp. */
  predicate AllKnown(s: set<AssetDependency>)
  {
    forall d | d in s :: d.timestamp.Timestamp?
  }

  /** A set equal to a set of the same size that it is contained in. */
  lemma {:induction false} SubsetOfSameSize<T>(a: set<T>, b: set<T>)
    requires a <= b && |a| == |b|
    ensures a == b
  {
    if a != b {
      var x :| x in b && x !in a;
      assert a <= b - {x};
      SubsetCardinality(a, b - {x});
      assert false;
    }
  }

  lemma {:induction false} SubsetCardinality<T>(a: set<T>, b: set<T>)
    requires a <= b
    ensures |a| <= |b|
    decreases |b|
  {
    if a != {} {
      var x :| x in a;
      SubsetCardinality(a - {x}, b - {x});
    }
  }

  /**
   * Without unknown timestamps the `HashSet` comparison is plain set
   * equality.
   */
  lemma {:induction false} SetEqIsEqualityWhenKnown(a: set<AssetDependency>, b: set<AssetDependency>)
    requires AllKnown(a) && AllKnown(b)
    ensures SetEq(a, b) <==> a == b
  {
    if SetEq(a, b) {
      forall d | d in a
        ensures d in b
      {
        var e :| e in b && DependencyEq(e, d);
        assert e == d;
      }
      SubsetOfSameSize(a, b);
    }
    if a == b {
      forall d | d in a
        ensures Contains(b, d)
      {
        assert DependencyEq(d, d);
      }
    }
  }

  /** An unknown dependency is never found, so a set holding one never equals any set. */
  lemma UnknownDependencyNeverEqual(a: set<AssetDependency>, b: set<AssetDependency>, d: AssetDependency)
    requires d in a && d.timestamp.Unknown?
    ensures !SetEq(a, b)
  {
  }

  /**
   * The outdated rule: a compilation whose main timestamp and dependencies
   * are those of the asset, all known, is up to date; a different known
   * main timestamp, or an unknown one on either side, makes it outdated.
   */
  lemma {:induction false} IsOutdatedCases(file: AssetCompilationFile, assetMainFile: AssetDependency,
                                           assetDependencies: set<AssetDependency>)
    ensures file.mainFile.timestamp.Unknown? || assetMainFile.timestamp.Unknown? ==>
      IsOutdated(file, assetMainFile, assetDependencies)
    ensures AllKnown(file.dependencies) && AllKnown(assetDependencies) ==>
      (IsOutdated(file, assetMainFile, assetDependencies) <==>
        file.mainFile.timestamp.Unknown? || file.mainFile.timestamp != assetMainFile.timestamp
        || file.dependencies != assetDependencies)
  {
    if AllKnown(file.dependencies) && AllKnown(assetDependencies) {
      SetEqIsEqualityWhenKnown(file.dependencies, assetDependencies);
    }
  }

  /** Neither the compilation's id nor its main file's path takes part in the comparison. */
  lemma IsOutdatedIgnoresIdAndPath(file: AssetCompilationFile, path: SourceFileRef, id: nat,
                                   assetMainFile: AssetDependency, assetDependencies: set<AssetDependency>)
    ensures var other := file.(id := id, mainFile := file.mainFile.(file := path));
      IsOutdated(other, assetMainFile, assetDependencies) == IsOutdated(file, assetMainFile, assetDependencies)
  {
  }
}
