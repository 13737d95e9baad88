/**
 * Interval maps of the synchronisation tracker (src/vulkan/sync_manager/range_map.rs).
 *
 * Keys are nodit inclusive intervals. A map is described by its pointwise view:
 * the value stored at every point. `OptRangeMap` keeps a whole-range shortcut
 * (`All`) in front of an inner map; `SmallArrayRangeMap` stores one value per
 * index in a fixed array.
 */
module RangeMap {
  import opened Wrappers

  /** A nodit inclusive interval [start, end]. */
  datatype Interval = Interval(start: int, end: int) {
    /** nodit's `is_valid`: the interval holds at least one point. */
    predicate IsValid() { start <= end }

    predicate Contains(p: int) { start <= p <= end }

    /** Every point of `this` lies in `outer`. */
    predicate Within(outer: Interval) { outer.start <= start && end <= outer.end }
  }

  /** nodit's `interval::ie(a, b)`: the points a, a + 1, ..., b - 1. */
  function Ie(a: int, b: int): (r: Interval)
    ensures forall p :: r.Contains(p) <==> a <= p < b
  {
    Interval(a, b - 1)
  }

  /** The natural-number points of an interval. */
  function Points(r: Interval): set<nat>
  {
    set p: nat | p <= r.end && r.Contains(p)
  }

  /** `is_empty_range` as written: `range.start() >= range.end()`. */
  predicate IsEmptyRangeAsWritten(r: Interval)
  {
    r.start >= r.end
  }

  /** `is_empty_range` as intended for inclusive intervals: no point at all. */
  predicate IsEmptyRange(r: Interval)
  {
    r.start > r.end
  }

  /**
   * The corrected test never fires on a valid interval, while the test as
   * written rejects every valid one-point interval [k, k].
   */
  lemma EmptyRangeOnlyWhenInvalid(r: Interval, k: nat)
    ensures r.IsValid() ==> !IsEmptyRange(r)
    ensures r.start >= 0 ==> (IsEmptyRange(r) <==> Points(r) == {})
    ensures Interval(k, k).IsValid() && Points(Interval(k, k)) == {k}
    ensures IsEmptyRangeAsWritten(Interval(k, k))
  {
    if IsEmptyRange(r) {
      assert Points(r) == {};
    } else if r.start >= 0 {
      assert r.start in Points(r);
    }
    assert k in Points(Interval(k, k));
  }

  // ---------------------------------------------------------------------------
  // Pointwise maps: the value stored at each point.

  /** The entries of `m` at points of `r`. */
  function Restrict<V>(m: map<nat, V>, r: Interval): (res: map<nat, V>)
    ensures res.Keys == m.Keys * Points(r)
    ensures forall p | p in res :: res[p] == m[p]
  {
    map p | p in m && r.Contains(p) :: m[p]
  }

  /** Every point of `key` now holds `value`; the other points keep theirs. */
  function PointOverwrite<V>(m: map<nat, V>, key: Interval, value: V): (res: map<nat, V>)
    ensures res.Keys == m.Keys + Points(key)
  {
    map p | p in m.Keys + Points(key) :: if key.Contains(p) then value else m[p]
  }

  /** The points of `key` hold nothing any more. */
  function PointCut<V>(m: map<nat, V>, key: Interval): (res: map<nat, V>)
    ensures res.Keys == m.Keys - Points(key)
  {
    map p | p in m && !key.Contains(p) :: m[p]
  }

  /** The values stored at points of `key`. */
  function ValuesIn<V(==)>(m: map<nat, V>, key: Interval): set<V>
  {
    set p | p in m && key.Contains(p) :: m[p]
  }

  // ---------------------------------------------------------------------------
  // OptRangeMap

  /** `FullRangeOpt`: the whole range holds one value (or none), or an inner map. */
  datatype FullRangeOpt<V> = All(value: Option<V>) | Granular(inner: map<nat, V>)

  /** The value stored at every point of `maxRange` by a map in state `inner`. */
  function ViewOf<V>(maxRange: Interval, inner: FullRangeOpt<V>): map<nat, V>
  {
    match inner
    case All(None) => map[]
    case All(Some(v)) => map p | p in Points(maxRange) :: v
    case Granular(m) => Restrict(m, maxRange)
  }

  /** `is_max_range`: `range` contains both ends of the covered range. */
  predicate IsMaxRangeOf(maxRange: Interval, range: Interval)
  {
    range.Contains(maxRange.start) && range.Contains(maxRange.end)
  }

  /** A key a map over `maxRange` is updated with: inside the range, or covering it. */
  predicate FitsIn(maxRange: Interval, key: Interval)
  {
    key.IsValid() && (IsMaxRangeOf(maxRange, key) || key.Within(maxRange))
  }

  /** A covering key covers every point of the range. */
  lemma MaxRangeCoversAll(maxRange: Interval, key: Interval)
    requires IsMaxRangeOf(maxRange, key)
    ensures Points(maxRange) <= Points(key)
  {
  }

  /** The values of a map in state `inner` overlapping `key`, as `get_all` reports them. */
  function GetAllOf<V(==)>(inner: FullRangeOpt<V>, key: Interval): set<V>
  {
    match inner
    case All(v) => OptionToSet(v)
    case Granular(m) => ValuesIn(m, key)
  }

  /** On a valid map and a fitting key, `get_all` reports exactly the values the view holds on `key`. */
  lemma GetAllIsViewValues<V>(maxRange: Interval, inner: FullRangeOpt<V>, key: Interval)
    requires maxRange.IsValid() && maxRange.start >= 0
    requires inner.Granular? ==> inner.inner.Keys <= Points(maxRange)
    requires FitsIn(maxRange, key)
    ensures GetAllOf(inner, key) == ValuesIn(ViewOf(maxRange, inner), key)
  {
    match inner
    case All(None) =>
    case All(Some(v)) =>
      var p: nat := if IsMaxRangeOf(maxRange, key) then maxRange.start else key.start;
      assert p in ViewOf(maxRange, inner) && key.Contains(p);
    case Granular(m) =>
      assert ViewOf(maxRange, inner) == m;
  }

  /**
   * `OptRangeMap`: a map over `maxRange` that stores a value covering the
   * whole range without an inner map. `innerDefault` is the content of the
   * inner map type's `Default` (empty for a `RangeMap`, one default value per
   * index for a `SmallArrayRangeMap`).
   */
  class OptRangeMap<V(==)> {
    const maxRange: Interval
    const innerDefault: map<nat, V>
    var inner: FullRangeOpt<V>

    /** The covered range holds natural points and the inner maps stay inside it. */
    predicate Valid()
      reads this
    {
      && maxRange.IsValid()
      && maxRange.start >= 0
      && innerDefault.Keys <= Points(maxRange)
      && (inner.Granular? ==> inner.inner.Keys <= Points(maxRange))
    }

    /**
     * An empty `All` hides the inner type's default, which shows up once such
     * a map goes granular. The maps of reads and writes have an empty default;
     * the layout map never returns to `All(None)` once filled.
     */
    predicate DefaultHidden()
      reads this
    {
      inner == All(None) ==> innerDefault == map[]
    }

    /** The value stored at every point of the covered range. */
    function View(): map<nat, V>
      reads this
    {
      ViewOf(maxRange, inner)
    }

    predicate IsMaxRange(range: Interval)
    {
      IsMaxRangeOf(maxRange, range)
    }

    /** `OptRangeMap::new`: nothing is stored. */
    constructor (maxRange: Interval, innerDefault: map<nat, V>)
      requires maxRange.IsValid() && maxRange.start >= 0 && innerDefault.Keys <= Points(maxRange)
      ensures this.maxRange == maxRange && this.innerDefault == innerDefault
      ensures inner == All(None)
      ensures Valid() && View() == map[]
    {
      this.maxRange := maxRange;
      this.innerDefault := innerDefault;
      inner := All(None);
    }

    /**
     * `get_all`: the values overlapping `key` (an invalid key panics). On a
     * fitting key these are exactly the values the view holds there, so a
     * new map reports nothing. The early return for an empty key uses the
     * corrected test `IsEmptyRange`, which no valid key meets; as written a
     * one-point key reports nothing (`AsWrittenSkipsOnePointKeys`).
     */
    function GetAll(key: Interval): (r: set<V>)
      reads this
      requires key.IsValid()
      ensures Valid() && FitsIn(maxRange, key) ==> r == ValuesIn(View(), key)
      ensures inner == All(None) ==> r == {}
    {
      // A valid key is never empty under the corrected emptiness test.
      assert !IsEmptyRange(key);
      var r := GetAllOf(inner, key);
      assert Valid() && FitsIn(maxRange, key) ==> r == ValuesIn(View(), key) by {
        if Valid() && FitsIn(maxRange, key) {
          GetAllIsViewValues(maxRange, inner, key);
        }
      }
      r
    }

    /**
     * The inner map a partial update starts from: the inner type's default,
     * with the covering value (if any) spread over the whole range first.
     */
    function SplitAll(v: Option<V>): (m: map<nat, V>)
      ensures v.Some? ==> forall p | p in Points(maxRange) :: p in m && m[p] == v.value
    {
      match v
      case None => innerDefault
      case Some(w) => PointOverwrite(innerDefault, maxRange, w)
    }

    /**
     * `overwrite`: `key` now holds `value` and the rest of the range keeps its
     * values; returns the values `key` held. A covering key collapses the map
     * to `All(Some(value))`; a partial key makes it granular.
     */
    method Overwrite(key: Interval, value: V) returns (overwritten: set<V>)
      requires Valid() && FitsIn(maxRange, key)
      requires DefaultHidden() || IsMaxRange(key)
      modifies this
      ensures Valid() && DefaultHidden()
      ensures View() == Restrict(PointOverwrite(old(View()), key, value), maxRange)
      ensures overwritten == ValuesIn(old(View()), key)
      ensures IsMaxRange(key) ==> inner == All(Some(value)) && overwritten == old(GetAll(key))
      ensures !IsMaxRange(key) ==> inner.Granular?
      ensures !IsMaxRange(key) && old(inner).All? ==> overwritten == OptionToSet(old(inner).value)
    {
      // A valid key is never empty, so the emptiness test never fires.
      GetAllIsViewValues(maxRange, inner, key);
      ghost var before := View();
      ghost var expected := Restrict(PointOverwrite(before, key, value), maxRange);
      if IsMaxRange(key) {
        MaxRangeCoversAll(maxRange, key);
        overwritten := GetAll(key);
        inner := All(Some(value));
        assert View().Keys == expected.Keys;
      } else {
        match inner
        case All(v) =>
          overwritten := OptionToSet(v);
          inner := Granular(PointOverwrite(SplitAll(v), key, value));
          assert View().Keys == expected.Keys;
        case Granular(m) =>
          assert before == m;
          overwritten := ValuesIn(m, key);
          inner := Granular(PointOverwrite(m, key, value));
          assert View().Keys == expected.Keys;
      }
    }

    /**
     * `cut`: `key` holds nothing any more and the rest of the range keeps its
     * values; returns the values `key` held. Cutting a covering key leaves
     * `All(None)`.
     */
    method Cut(key: Interval) returns (removed: set<V>)
      requires Valid() && FitsIn(maxRange, key)
      requires DefaultHidden() || IsMaxRange(key)
      modifies this
      ensures Valid()
      ensures innerDefault == map[] ==> DefaultHidden()
      ensures View() == PointCut(old(View()), key)
      ensures removed == ValuesIn(old(View()), key)
      ensures IsMaxRange(key) ==> inner == All(None)
      ensures !IsMaxRange(key) ==> inner.Granular?
    {
      GetAllIsViewValues(maxRange, inner, key);
      ghost var before := View();
      var isMaxRange := IsMaxRange(key);
      if isMaxRange {
        MaxRangeCoversAll(maxRange, key);
      }
      match inner
      case All(v) =>
        removed := OptionToSet(v);
        if isMaxRange {
          inner := All(None);
        } else {
          inner := Granular(PointCut(SplitAll(v), key));
          assert View().Keys == PointCut(before, key).Keys;
        }
      case Granular(m) =>
        assert before == m;
        removed := ValuesIn(m, key);
        if isMaxRange {
          inner := All(None);
        } else {
          inner := Granular(PointCut(m, key));
        }
    }

    /**
     * The default `insert_if_empty`: writes `value` only when nothing overlaps
     * `key`; otherwise hands the value back and changes nothing. It is built
     * on the corrected `GetAll` and `Overwrite`; as written a one-point key
     * answers `Ok` and stores nothing (`AsWrittenSkipsOnePointKeys`).
     */
    method InsertIfEmpty(key: Interval, value: V) returns (r: Result<(), V>)
      requires Valid() && FitsIn(maxRange, key)
      requires DefaultHidden() || IsMaxRange(key)
      modifies this
      ensures r.Ok? <==> ValuesIn(old(View()), key) == {}
      ensures r.Ok? ==> View() == Restrict(PointOverwrite(old(View()), key, value), maxRange)
      ensures r.Err? ==> unchanged(this) && r.error == value
    {
      if GetAll(key) == {} {
        var _ := Overwrite(key, value);
        r := Ok(());
      } else {
        r := Err(value);
      }
    }
  }

  // ---------------------------------------------------------------------------
  // OptRangeMap as written

  /** `overwrite` as written: the emptiness test skips one-point keys, and a partial key on an `All` map starts from the bare default. */
  function OverwriteAsWritten<V(==)>(maxRange: Interval, innerDefault: map<nat, V>, inner: FullRangeOpt<V>, key: Interval, value: V): (r: (FullRangeOpt<V>, set<V>))
    requires key.IsValid()
  {
    if IsEmptyRangeAsWritten(key) then (inner, {})
    else if IsMaxRangeOf(maxRange, key) then (All(Some(value)), GetAllOf(inner, key))
    else
      match inner
      case All(v) => (Granular(PointOverwrite(innerDefault, key, value)), OptionToSet(v))
      case Granular(m) => (Granular(PointOverwrite(m, key, value)), ValuesIn(m, key))
  }

  /** `get_all` as written: a one-point key is "empty" and reports nothing. */
  function GetAllAsWritten<V(==)>(inner: FullRangeOpt<V>, key: Interval): set<V>
    requires key.IsValid()
  {
    if IsEmptyRangeAsWritten(key) then {} else GetAllOf(inner, key)
  }

  /**
   * The default `insert_if_empty` on top of `get_all` and `overwrite` as
   * written: the new inner map and whether it answered `Ok`.
   */
  function InsertIfEmptyAsWritten<V(==)>(maxRange: Interval, innerDefault: map<nat, V>, inner: FullRangeOpt<V>, key: Interval, value: V): (r: (FullRangeOpt<V>, bool))
    requires key.IsValid()
  {
    if GetAllAsWritten(inner, key) == {} then (OverwriteAsWritten(maxRange, innerDefault, inner, key, value).0, true)
    else (inner, false)
  }

  /** `cut` as written: a partial key on an `All` map leaves only the bare default. */
  function CutAsWritten<V(==)>(maxRange: Interval, innerDefault: map<nat, V>, inner: FullRangeOpt<V>, key: Interval): (r: (FullRangeOpt<V>, set<V>))
    requires key.IsValid()
  {
    if IsEmptyRangeAsWritten(key) then (inner, {})
    else
      match inner
      case All(v) =>
        (if IsMaxRangeOf(maxRange, key) then All(None) else Granular(innerDefault), OptionToSet(v))
      case Granular(m) =>
        (if IsMaxRangeOf(maxRange, key) then All(None) else Granular(PointCut(m, key)), ValuesIn(m, key))
  }

  /**
   * As written, a one-point key is "empty": nothing is read, overwritten or
   * cut, and `insert_if_empty` answers `Ok` without storing anything, even
   * where a value is already held. So a one-level image's layout map,
   * created as `All(None)` over [0, 0], stays empty after being filled with
   * UNDEFINED, and a map holding `w` everywhere reports nothing at [k, k].
   */
  lemma AsWrittenSkipsOnePointKeys<V>(maxRange: Interval, innerDefault: map<nat, V>, inner: FullRangeOpt<V>, k: nat, value: V, w: V)
    ensures OverwriteAsWritten(maxRange, innerDefault, inner, Interval(k, k), value) == (inner, {})
    ensures CutAsWritten(maxRange, innerDefault, inner, Interval(k, k)) == (inner, {})
    ensures GetAllAsWritten(All(Some(w)), Interval(k, k)) == {} && GetAllOf(All(Some(w)), Interval(k, k)) == {w}
    ensures InsertIfEmptyAsWritten(maxRange, innerDefault, inner, Interval(k, k), value) == (inner, true)
    ensures ViewOf(Interval(0, 0), OverwriteAsWritten(Interval(0, 0), innerDefault, All(None), Interval(0, 0), value).0) == map[]
  {
  }

  /** The points of [0, 2] and [0, 1]. */
  lemma PointsZeroToTwo()
    ensures Points(Interval(0, 2)) == {0, 1, 2}
    ensures Points(Interval(0, 1)) == {0, 1}
  {
    assert forall p: nat :: p in Points(Interval(0, 2)) <==> p == 0 || p == 1 || p == 2;
    assert forall p: nat :: p in Points(Interval(0, 1)) <==> p == 0 || p == 1;
  }

  /**
   * As written, a partial overwrite of `All(Some(w))` forgets `w` on the rest
   * of the range: over [0, 2] holding `w`, overwriting [0, 1] leaves point 2
   * without a value, where the contract of `OptRangeMap.Overwrite` keeps `w`
   * there.
   */
  lemma OverwriteAsWrittenForgetsCoveringValue(w: int, value: int)
    ensures var range := Interval(0, 2);
      && 2 in ViewOf(range, All(Some(w)))
      && ViewOf(range, OverwriteAsWritten(range, map[], All(Some(w)), Interval(0, 1), value).0) == map[0 := value, 1 := value]
      && Restrict(PointOverwrite(ViewOf(range, All(Some(w))), Interval(0, 1), value), range) == map[0 := value, 1 := value, 2 := w]
  {
    PointsZeroToTwo();
    var range := Interval(0, 2);
    assert ViewOf(range, All(Some(w))) == map[0 := w, 1 := w, 2 := w];
    assert Restrict(PointOverwrite(ViewOf(range, All(Some(w))), Interval(0, 1), value), range) == map[0 := value, 1 := value, 2 := w];
    assert ViewOf(range, OverwriteAsWritten(range, map[], All(Some(w)), Interval(0, 1), value).0) == map[0 := value, 1 := value];
  }

  /**
   * As written, a partial cut of `All(Some(w))` forgets `w` everywhere,
   * including outside the cut key, where the contract of `OptRangeMap.Cut`
   * keeps it.
   */
  lemma CutAsWrittenForgetsCoveringValue(w: int)
    ensures var range := Interval(0, 2);
      && 2 in ViewOf(range, All(Some(w)))
      && ViewOf(range, CutAsWritten(range, map[], All(Some(w)), Interval(0, 1)).0) == map[]
      && PointCut(ViewOf(range, All(Some(w))), Interval(0, 1)) == map[2 := w]
  {
    PointsZeroToTwo();
    var range := Interval(0, 2);
    assert ViewOf(range, All(Some(w))) == map[0 := w, 1 := w, 2 := w];
    assert PointCut(ViewOf(range, All(Some(w))), Interval(0, 1)) == map[2 := w];
  }

  // ---------------------------------------------------------------------------
  // SmallArrayRangeMap

  /** The `scan` in `get_all`: drop every element equal to the one before it. */
  function DedupConsecutive<V(==,!new)>(s: seq<V>): (r: seq<V>)
    ensures |r| <= |s|
    ensures s == [] <==> r == []
    ensures s != [] ==> r[0] == s[0]
    ensures forall i | 0 <= i < |r| - 1 :: r[i] != r[i + 1]
    ensures forall x :: x in r <==> x in s
  {
    if |s| <= 1 then s
    else if s[0] == s[1] then DedupConsecutive(s[1..])
    else
      var rest := DedupConsecutive(s[1..]);
      assert forall x :: x in s <==> x == s[0] || x in s[1..];
      [s[0]] + rest
  }

  /** A map with one value per index 0 .. size - 1. */
  class SmallArrayRangeMap<V(==,!new)> {
    var values: array<V>

    /** `SmallArrayRangeMap::new(value)`: every index holds `value`. */
    constructor (size: nat, value: V)
      ensures fresh(values)
      ensures values[..] == seq(size, _ => value)
    {
      values := new V[size](_ => value);
    }

    /** A key inside the array. */
    predicate Fits(key: Interval)
      reads this
    {
      key.IsValid() && 0 <= key.start && key.end < values.Length
    }

    /**
     * `get_all`: the values at the indices of `key` in order, consecutive
     * duplicates removed: it starts with the value at `key.start`, no two
     * neighbours are equal, and it holds exactly the values found there.
     */
    function GetAll(key: Interval): (r: seq<V>)
      reads this, values
      requires Fits(key)
      ensures r == DedupConsecutive(values[key.start..key.end + 1])
      ensures |r| > 0 && r[0] == values[key.start]
      ensures forall i | 0 <= i < |r| - 1 :: r[i] != r[i + 1]
      ensures forall x :: x in r <==> exists i :: key.start <= i <= key.end && values[i] == x
    {
      var s := values[key.start..key.end + 1];
      assert forall x :: x in s <==> exists i :: key.start <= i <= key.end && values[i] == x by {
        forall x | x in s ensures exists i :: key.start <= i <= key.end && values[i] == x {
          var j :| 0 <= j < |s| && s[j] == x;
          assert values[key.start + j] == x;
        }
        forall x | exists i :: key.start <= i <= key.end && values[i] == x ensures x in s {
          var i :| key.start <= i <= key.end && values[i] == x;
          assert s[i - key.start] == x;
        }
      }
      DedupConsecutive(s)
    }

    /**
     * `overwrite`: every index of `key` holds `value` and the others keep
     * theirs; returns the old values of `key` with consecutive duplicates
     * removed.
     */
    method Overwrite(key: Interval, value: V) returns (overwritten: seq<V>)
      requires Fits(key)
      modifies values
      ensures forall i | key.start <= i <= key.end :: values[i] == value
      ensures forall i | 0 <= i < values.Length && !key.Contains(i) :: values[i] == old(values[i])
      ensures overwritten == DedupConsecutive(old(values[key.start..key.end + 1]))
      ensures forall x :: x in overwritten <==> exists i :: key.start <= i <= key.end && old(values[i]) == x
    {
      // A valid key is never empty, so the emptiness test never fires.
      overwritten := GetAll(key);
      var i := key.start;
      while i <= key.end
        invariant key.start <= i <= key.end + 1
        invariant forall j | 0 <= j < values.Length ::
          values[j] == if key.start <= j < i then value else old(values[j])
      {
        values[i] := value;
        i := i + 1;
      }
    }
  }

  /** The array contents after `SmallArrayRangeMap::overwrite` as written, where a one-index key counts as empty. */
  function SmallOverwriteAsWritten<V>(s: seq<V>, key: Interval, value: V): (r: seq<V>)
    requires key.IsValid() && 0 <= key.start && key.end < |s|
  {
    if IsEmptyRangeAsWritten(key) then s
    else seq(|s|, i requires 0 <= i < |s| => if key.Contains(i) then value else s[i])
  }

  /**
   * As written, overwriting index k alone leaves the array unchanged, where
   * the contract of `SmallArrayRangeMap.Overwrite` stores the value at k.
   */
  lemma SmallOverwriteAsWrittenSkipsOneIndex<V>(s: seq<V>, k: nat, value: V)
    requires k < |s| && s[k] != value
    ensures SmallOverwriteAsWritten(s, Interval(k, k), value) == s
    ensures SmallOverwriteAsWritten(s, Interval(k, k), value)[k] != value
  {
  }
}
