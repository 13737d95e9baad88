/**
 * `AssetHandleVisitor::visit_str` (asset_client/src/lib.rs): a handle
 * written in a JSON file as a string is read by splitting that string on
 * every `'/'`, empty segments included, so that splitting inverts the
 * `'/'`-join that displays an `AssetRef`.
 */
module AssetClient {
  import opened Wrappers
  import opened AssetRefs

  /** `str::split('/')`: the pieces between the slashes; a string without one is a single piece. */
  function Split(s: Str): (r: seq<Str>)
    ensures |r| >= 1
  {
    if |s| == 0 then [[]]
    else
      var tail := Split(s[1..]);
      if s[0] == SLASH then [[]] + tail
      else [[s[0]] + tail[0]] + tail[1..]
  }

  /** The number of `'/'` bytes in `s`. */
  function CountSlashes(s: Str): nat
  {
    if |s| == 0 then 0 else (if s[0] == SLASH then 1 else 0) + CountSlashes(s[1..])
  }

  /** `s` has no `'/'`. */
  predicate NoSlash(s: Str)
  {
    forall i | 0 <= i < |s| :: s[i] != SLASH
  }

  /** A deserialisation error; `visit_str` never produces one. */
  datatype DeError = DeError

  /** `visit_str`: the handle of the asset whose name is `v` split on `'/'`. */
  function VisitStr(v: Str): (r: Result<AssetHandle, DeError>)
    ensures r.Ok?
    ensures r.Ok? ==> Display(r.value.GetRef()) == v
    ensures r.Ok? ==> |r.value.GetRef().name| == 1 + CountSlashes(v)
  {
    JoinSplit(v);
    SplitCount(v);
    Ok(NewUnchecked(AssetRef(Split(v))))
  }

  /** Joining the pieces with `'/'` gives back the string. */
  lemma {:induction false} JoinSplit(s: Str)
    ensures Join(Split(s)) == s
  {
    if |s| > 0 {
      var tail := Split(s[1..]);
      JoinSplit(s[1..]);
      if s[0] == SLASH {
        JoinCons([], tail);
        assert [SLASH] + s[1..] == s;
      } else if |tail| == 1 {
        assert [s[0]] + s[1..] == s;
      } else {
        JoinCons(tail[0], tail[1..]);
        assert [tail[0]] + tail[1..] == tail;
        JoinCons([s[0]] + tail[0], tail[1..]);
        assert [s[0]] + s[1..] == s;
      }
    }
  }

  /** One piece more than there are slashes: empty pieces are kept. */
  lemma {:induction false} SplitCount(s: Str)
    ensures |Split(s)| == 1 + CountSlashes(s)
  {
    if |s| > 0 {
      SplitCount(s[1..]);
    }
  }

  /** No piece contains a `'/'`. */
  lemma {:induction false} SplitPiecesHaveNoSlash(s: Str)
    ensures forall i | 0 <= i < |Split(s)| :: NoSlash(Split(s)[i])
  {
    if |s| > 0 {
      SplitPiecesHaveNoSlash(s[1..]);
    }
  }

  /**
   * Splitting a join gives the segments back, provided there is at least one
   * and none contains a `'/'`: so a handle read from the display of an
   * `AssetRef` names the same asset.
   */
  lemma {:induction false} SplitJoin(segs: seq<Str>)
    requires |segs| >= 1
    requires forall i | 0 <= i < |segs| :: NoSlash(segs[i])
    ensures Split(Join(segs)) == segs
    decreases |segs|, |segs[0]|, 1
  {
    if |segs[0]| == 0 {
      SplitJoinEmptyHead(segs);
    } else {
      SplitJoinByteHead(segs);
    }
  }

  /** The case of an empty first segment: the join starts with the `'/'` before the rest, if any. */
  lemma {:induction false} SplitJoinEmptyHead(segs: seq<Str>)
    requires |segs| >= 1 && |segs[0]| == 0
    requires forall i | 0 <= i < |segs| :: NoSlash(segs[i])
    ensures Split(Join(segs)) == segs
    decreases |segs|, 0, 0
  {
    if |segs| > 1 {
      JoinCons([], segs[1..]);
      assert Join(segs) == [SLASH] + Join(segs[1..]);
      assert Join(segs)[1..] == Join(segs[1..]);
      SplitJoin(segs[1..]);
      assert [[]] + segs[1..] == segs;
    }
  }

  /** The case of a non-empty first segment: its first byte, then the join with that byte dropped. */
  lemma {:induction false} SplitJoinByteHead(segs: seq<Str>)
    requires |segs| >= 1 && |segs[0]| > 0
    requires forall i | 0 <= i < |segs| :: NoSlash(segs[i])
    ensures Split(Join(segs)) == segs
    decreases |segs|, |segs[0]|, 0
  {
    var first := segs[0];
    var shorter := [first[1..]] + segs[1..];
    assert shorter[1..] == segs[1..];
    assert NoSlash(first[1..]);
    SplitJoin(shorter);
    if |segs| > 1 {
      JoinCons(first, segs[1..]);
      JoinCons(first[1..], segs[1..]);
    }
    assert Join(segs) == [first[0]] + Join(shorter);
    assert Join(segs)[1..] == Join(shorter);
    assert [first[0]] + first[1..] == first;
  }

  /** A name shown and read back is the same name, whenever no segment holds a `'/'`. */
  lemma DisplayThenVisit(r: AssetRef)
    requires |r.name| >= 1
    requires forall i | 0 <= i < |r.name| :: NoSlash(r.name[i])
    ensures VisitStr(Display(r)) == Ok(AssetHandle(r))
  {
    SplitJoin(r.name);
  }
}
