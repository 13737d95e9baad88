/**
 * Keyframe lookup for node animations (src/loader/animation.rs). An
 * animation has a timestamp per keyframe; playing it finds the keyframe at
 * or after the current time, resuming the search from the keyframe found
 * last time.
 *
 * `f32` timestamps are modelled as reals (no NaN).
 */
module Animations {
  import opened Wrappers

  datatype Animation = Animation(timestamps: seq<real>)

  /** `AnimationKeyframe`: an index into the timestamps; its default is 0. */
  type Keyframe = nat

  /** `duration`: the last timestamp, or 0 without keyframes. */
  function Duration(a: Animation): (d: real)
    ensures |a.timestamps| == 0 ==> d == 0.0
    ensures |a.timestamps| > 0 ==> d == a.timestamps[|a.timestamps| - 1]
  {
    if |a.timestamps| == 0 then 0.0 else a.timestamps[|a.timestamps| - 1]
  }

  predicate StrictlyIncreasing(ts: seq<real>)
  {
    forall i, j | 0 <= i < j < |ts| :: ts[i] < ts[j]
  }

  /** In increasing timestamps the duration is the latest time of any keyframe. */
  lemma DurationBoundsKeyframes(a: Animation)
    requires StrictlyIncreasing(a.timestamps)
    ensures forall i | 0 <= i < |a.timestamps| :: a.timestamps[i] <= Duration(a)
  {
  }

  /**
   * The first index from `start` on whose timestamp is at or after `t`,
   * or `None` when every later timestamp is before `t`.
   */
  function FirstAtOrAfter(ts: seq<real>, t: real, start: nat): (r: Option<nat>)
    ensures r.Some? ==> start <= r.value < |ts| && ts[r.value] >= t
    ensures r.Some? ==> forall j | start <= j < r.value :: ts[j] < t
    ensures r.None? ==> forall j | start <= j < |ts| :: ts[j] < t
    decreases |ts| - start
  {
    if start >= |ts| then None
    else if ts[start] >= t then Some(start)
    else FirstAtOrAfter(ts, t, start + 1)
  }

  /** Where the search begins: back at 0 when the last keyframe lies after `t`, else at it. */
  function SearchStart(ts: seq<real>, t: real, last: Keyframe): Keyframe
    requires last < |ts|
  {
    if ts[last] > t then 0 else last
  }

  /** What `get_keyframe` answers. */
  function KeyframeAt(ts: seq<real>, t: real, last: Keyframe): Keyframe
    requires |ts| > 0 ==> last < |ts|
  {
    if |ts| == 0 then 0
    else match FirstAtOrAfter(ts, t, SearchStart(ts, t, last))
      case Some(i) => i
      case None => 0
  }

  /**
   * `get_keyframe`: 0 without keyframes; otherwise the first keyframe at or
   * after `timestamp` from the search start on, or 0 when there is none.
   * The source indexes the timestamps with the last keyframe, so that has
   * to be in range.
   */
  method GetKeyframe(a: Animation, timestamp: real, lastKeyframe: Keyframe) returns (k: Keyframe)
    requires |a.timestamps| > 0 ==> lastKeyframe < |a.timestamps|
    ensures k == KeyframeAt(a.timestamps, timestamp, lastKeyframe)
    ensures |a.timestamps| > 0 ==> k < |a.timestamps|
  {
    var ts := a.timestamps;
    if |ts| == 0 {
      return 0;
    }
    var start := if ts[lastKeyframe] > timestamp then 0 else lastKeyframe;
    var keyframeIndex: Option<nat> := None;
    var i := start;
    while i < |ts|
      invariant start <= i <= |ts|
      invariant FirstAtOrAfter(ts, timestamp, start) == FirstAtOrAfter(ts, timestamp, i)
      invariant keyframeIndex == None
    {
      if ts[i] >= timestamp {
        keyframeIndex := Some(i);
        break;
      }
      i := i + 1;
    }
    k := if keyframeIndex.Some? then keyframeIndex.value else 0;
  }

  /**
   * With increasing timestamps, resuming from the last keyframe finds the
   * same keyframe as a search from the start: every keyframe before the
   * resumed search lies before `t`.
   */
  lemma {:induction false} ResumedSearchAgrees(ts: seq<real>, t: real, last: Keyframe)
    requires StrictlyIncreasing(ts) && last < |ts|
    ensures KeyframeAt(ts, t, last) == KeyframeAt(ts, t, 0)
  {
    var start := SearchStart(ts, t, last);
    if start != 0 {
      SkipEarlier(ts, t, 0, start);
    }
  }

  /** The search may skip a run of timestamps before `t`. */
  lemma {:induction false} SkipEarlier(ts: seq<real>, t: real, lo: nat, hi: nat)
    requires lo <= hi <= |ts|
    requires forall j | lo <= j < hi :: ts[j] < t
    ensures FirstAtOrAfter(ts, t, lo) == FirstAtOrAfter(ts, t, hi)
    decreases hi - lo
  {
    if lo < hi {
      SkipEarlier(ts, t, lo + 1, hi);
    }
  }

  /**
   * `get_and_next` as written: the value at `index` and the one after it,
   * wrapping to the front, each replaced by `default` when out of range.
   * `rem_euclid` by a length of 0 panics, shown here as `None`.
   */
  function GetAndNextAsWritten<T>(values: seq<T>, index: nat, default: T): (r: Option<(T, T)>)
    ensures r.None? <==> |values| == 0
  {
    if |values| == 0 then None
    else
      var value := if index < |values| then values[index] else default;
      var next := (index + 1) % |values|;
      Some((value, values[next]))
  }

  /** `get_and_next` as its defaults show it is meant: defaults for an empty sequence as well. */
  function GetAndNext<T>(values: seq<T>, index: nat, default: T): (r: (T, T))
    ensures index < |values| ==> r.0 == values[index] && r.1 == values[(index + 1) % |values|]
    ensures index >= |values| ==> r.0 == default
    ensures |values| == 0 ==> r == (default, default)
  {
    var value := if index < |values| then values[index] else default;
    var next := if |values| == 0 then default else values[(index + 1) % |values|];
    (value, next)
  }

  /** The two agree wherever the code as written does not panic. */
  lemma GetAndNextAgrees<T>(values: seq<T>, index: nat, default: T)
    requires |values| > 0
    ensures GetAndNextAsWritten(values, index, default) == Some(GetAndNext(values, index, default))
  {
  }

  /** An animation without translations panics as written, where the defaults were meant to apply. */
  lemma EmptyTrackPanics<T>(default: T)
    ensures GetAndNextAsWritten([], 0, default).None?
    ensures GetAndNext([], 0, default) == (default, default)
  {
  }
}
