/**
 * `FileTimestamp` (asset_server/src/file_change.rs): a file's modification
 * time, or `Unknown`. Timestamps are only ever compared for equality, and
 * the hand-written equality makes `Unknown` unequal to everything, itself
 * included, so an unknown time always reads as "changed".
 */
module FileChange {
  /** `SystemTime`, as a count of ticks since the epoch. */
  type Time = int

  datatype FileTimestamp = Timestamp(time: Time) | Unknown

  /** `FileTimestamp::new`. */
  function New(time: Time): FileTimestamp
  {
    Timestamp(time)
  }

  /** `<FileTimestamp as PartialEq>::eq`. */
  predicate TimestampEq(a: FileTimestamp, b: FileTimestamp)
  {
    match (a, b)
    case (Timestamp(l), Timestamp(r)) => l == r
    case (Unknown, _) => false
    case (_, Unknown) => false
  }

  /** Two known times are equal exactly when the times are; anything involving `Unknown` is unequal. */
  lemma TimestampEqCases(a: FileTimestamp, b: FileTimestamp)
    ensures TimestampEq(a, b) <==> a.Timestamp? && b.Timestamp? && a.time == b.time
    ensures a.Unknown? || b.Unknown? ==> !TimestampEq(a, b)
  {
  }

  /** The equality is symmetric and transitive ... */
  lemma TimestampEqSymmetricTransitive(a: FileTimestamp, b: FileTimestamp, c: FileTimestamp)
    ensures TimestampEq(a, b) == TimestampEq(b, a)
    ensures TimestampEq(a, b) && TimestampEq(b, c) ==> TimestampEq(a, c)
  {
  }

  /**
   * ... but not reflexive, although the type also implements `Eq`: a known
   * time equals itself and `Unknown` does not.
   */
  lemma TimestampEqNotReflexive(a: FileTimestamp)
    ensures TimestampEq(a, a) <==> a.Timestamp?
    ensures !TimestampEq(Unknown, Unknown)
  {
  }
}
