/**
 Counters by key, as `Uploads` and the XposedOrNot queue keep them: raised when something starts,
 lowered when it ends, and gone when nothing is left.
 */
module Counters {

  type Counts = map<string, nat>

  function Get(counts: Counts, key: string): nat {
    if key in counts then counts[key] else 0
  }

  function Raise(counts: Counts, key: string): Counts {
    counts[key := Get(counts, key) + 1]
  }

  /** One less; a counter that reaches zero is taken away. */
  function Lower(counts: Counts, key: string): Counts
    requires key in counts ==> counts[key] > 0
  {
    if key !in counts then counts
    else if counts[key] == 1 then counts - {key}
    else counts[key := counts[key] - 1]
  }

  ghost predicate NoZero(counts: Counts) {
    forall key | key in counts :: counts[key] > 0
  }

  lemma RaiseLower(counts: Counts, key: string)
    requires NoZero(counts)
    ensures NoZero(Raise(counts, key)) && NoZero(Lower(counts, key))
    ensures forall k :: Get(Raise(counts, key), k) == Get(counts, k) + (if k == key then 1 else 0)
    ensures forall k :: Get(Lower(counts, key), k) == (if k == key && key in counts then Get(counts, k) - 1 else Get(counts, k))
    ensures Lower(Raise(counts, key), key) == counts
  {
  }
}
