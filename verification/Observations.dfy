// What a list of records shows, whatever their order: whether some record has a property, and the largest
// value among those that have it. Only the records that count are looked at.
module Observations {
  import opened Model

  function Larger(a: real, b: real): real { if b > a then b else a }

  ghost predicate Present(records: seq<Evidence>, counts: Evidence -> bool, property: Evidence -> bool) {
    exists r :: r in records && counts(r) && property(r)
  }

  // The largest value with a property, or zero.
  ghost predicate IsPeak(peak: real, records: seq<Evidence>, counts: Evidence -> bool, property: Evidence -> bool) {
    && peak >= 0.0
    && (forall r :: r in records && counts(r) && property(r) ==> r.scalar <= peak)
    && (peak == 0.0 || exists r :: r in records && counts(r) && property(r) && r.scalar == peak)
  }

  lemma PresentNext(records: seq<Evidence>, last: Evidence, counts: Evidence -> bool, property: Evidence -> bool)
    ensures Present(records + [last], counts, property)
      <==> Present(records, counts, property) || (counts(last) && property(last))
  {
    assert last in records + [last];
  }

  lemma PeakNext(peak: real, records: seq<Evidence>, last: Evidence, counts: Evidence -> bool, property: Evidence -> bool)
    requires IsPeak(peak, records, counts, property)
    ensures IsPeak(if counts(last) && property(last) then Larger(peak, last.scalar) else peak, records + [last], counts, property)
  {
    assert last in records + [last];
    if peak != 0.0 {
      var r :| r in records && counts(r) && property(r) && r.scalar == peak;
      assert r in records + [last];
    }
  }

  lemma SourcesNext(records: seq<Evidence>, last: Evidence, counts: Evidence -> bool)
    ensures (set r | r in records + [last] && counts(r) :: r.source)
      == (set r | r in records && counts(r) :: r.source) + if counts(last) then {last.source} else {}
  {
    assert last in records + [last];
  }

  lemma PeakUnique(x: real, y: real, a: seq<Evidence>, b: seq<Evidence>, counts: Evidence -> bool, property: Evidence -> bool)
    requires forall r :: counts(r) ==> (r in a <==> r in b)
    requires IsPeak(x, a, counts, property) && IsPeak(y, b, counts, property)
    ensures x == y
  {
  }
}
