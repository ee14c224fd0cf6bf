/**
  The deduplication of `Cache::encache` (src/cache.cpp:17-23) on bare sequence numbers: a
  number passes when it exceeds the watermark, and then becomes the watermark.
 */
module Watermark {
  import opened Bits
  import opened Seqs

  /** The watermark after offering `us`. */
  function Final(w: uint64, us: seq<uint64>): uint64 {
    if us == [] then w
    else if Last(us) <= Final(w, ButLast(us)) then Final(w, ButLast(us))
    else Last(us)
  }

  /** The numbers that pass. */
  function Filter(w: uint64, us: seq<uint64>): seq<uint64> {
    if us == [] then []
    else if Last(us) <= Final(w, ButLast(us)) then Filter(w, ButLast(us))
    else Filter(w, ButLast(us)) + [Last(us)]
  }

  ghost predicate Increasing(us: seq<uint64>) {
    forall i, j :: 0 <= i < j < |us| ==> us[i] < us[j]
  }

  ghost predicate AllAbove(w: uint64, us: seq<uint64>) {
    forall i :: 0 <= i < |us| ==> w < us[i]
  }

  /** `w` is the greatest of the start value and the offered numbers. */
  ghost predicate IsMaximum(w: uint64, start: uint64, us: seq<uint64>) {
    && start <= w && (forall i :: 0 <= i < |us| ==> us[i] <= w)
    && (w == start || w in us)
  }

  lemma {:induction false} FinalIsMaximum(w: uint64, us: seq<uint64>)
    ensures IsMaximum(Final(w, us), w, us)
  {
    if us != [] {
      FinalIsMaximum(w, ButLast(us));
      assert us == ButLast(us) + [Last(us)];
    }
  }

  /** A strict left-to-right maximum: above the start value and everything before it. */
  ghost predicate IsRecord(w: uint64, us: seq<uint64>, i: nat)
    requires i < |us|
  {
    w < us[i] && forall j :: 0 <= j < i ==> us[j] < us[i]
  }

  /** The filter keeps exactly the strict left-to-right maxima, in order. */
  lemma {:induction false} FilterKeepsRecords(w: uint64, us: seq<uint64>) returns (at: seq<nat>)
    ensures forall k :: 0 <= k < |at| ==> at[k] < |us|
    ensures forall k, l :: 0 <= k < l < |at| ==> at[k] < at[l]
    ensures forall i: nat :: i < |us| ==> (IsRecord(w, us, i) <==> i in at)
    ensures |Filter(w, us)| == |at| && forall k :: 0 <= k < |at| ==> Filter(w, us)[k] == us[at[k]]
  {
    if us == [] {
      at := [];
    } else {
      at := FilterKeepsRecords(w, ButLast(us));
      RecordsOfLonger(w, us);
      if Last(us) > Final(w, ButLast(us)) {
        at := at + [|us| - 1];
      }
    }
  }

  /** Earlier records stay records, and the last number is one when it passes. */
  lemma RecordsOfLonger(w: uint64, us: seq<uint64>)
    requires us != []
    ensures forall i: nat :: i < |us| - 1 ==> (IsRecord(w, us, i) <==> IsRecord(w, ButLast(us), i))
    ensures IsRecord(w, us, |us| - 1) <==> Last(us) > Final(w, ButLast(us))
  {
    FinalIsMaximum(w, ButLast(us));
    assert us == ButLast(us) + [Last(us)];
  }

  /** What passes is strictly increasing and above the start value; its last is the watermark. */
  lemma {:induction false} FilterIncreasing(w: uint64, us: seq<uint64>)
    ensures Increasing(Filter(w, us)) && AllAbove(w, Filter(w, us))
    ensures Final(w, us) == if Filter(w, us) == [] then w else Last(Filter(w, us))
  {
    if us != [] {
      FilterIncreasing(w, ButLast(us));
    }
  }

  /** The filter changes nothing exactly when the offer is already deduplicated. */
  lemma {:induction false} FilterFixedPoint(w: uint64, us: seq<uint64>)
    ensures Filter(w, us) == us <==> Increasing(us) && AllAbove(w, us)
  {
    FilterIncreasing(w, us);
    if Increasing(us) && AllAbove(w, us) && us != [] {
      FilterFixedPoint(w, ButLast(us));
      FinalIsMaximum(w, ButLast(us));
      assert Last(us) > Final(w, ButLast(us));
    }
  }

  /** Filtering what already passed, from the same start, changes nothing. */
  lemma {:induction false} FilterIdempotent(w: uint64, us: seq<uint64>)
    ensures Filter(w, Filter(w, us)) == Filter(w, us)
    ensures Final(w, Filter(w, us)) == Final(w, us)
  {
    FilterIncreasing(w, us);
    FilterFixedPoint(w, Filter(w, us));
    FilterIncreasing(w, Filter(w, us));
  }

  /** Filtering a concatenation is filtering the parts with the watermark carried across. */
  lemma {:induction false} FilterConcatenation(w: uint64, us: seq<uint64>, vs: seq<uint64>)
    ensures Final(w, us + vs) == Final(Final(w, us), vs)
    ensures Filter(w, us + vs) == Filter(w, us) + Filter(Final(w, us), vs)
    decreases |vs|
  {
    if vs == [] {
      assert us + vs == us;
    } else {
      assert ButLast(us + vs) == us + ButLast(vs);
      FilterConcatenation(w, us, ButLast(vs));
    }
  }
}
