/**
 Time-bounded assignment records and the overlap rule that every fetch in
 the library applies to them.

 An assignment (of a device to an environment, a calibration to a camera,
 a position to a device, an entity to a device) carries a `start` and an
 `end`, either of which may be null: a null start means "since the
 beginning of time", a null end "still active". A query window's bounds
 may be null too, meaning the window is unbounded on that side.
 */
module Temporal {
  import opened Base
  import Seqs

  /** The `start`/`end` pair of one assignment record. */
  datatype Interval = Interval(start: Option<Instant>, end: Option<Instant>)

  /** When both bounds are present, the record starts no later than it ends. */
  predicate WellFormed(span: Interval) {
    span.start.Some? && span.end.Some? ==> span.start.value <= span.end.value
  }

  /** A record overlaps the window unless it starts after the window ends
      or ends before the window starts; both comparisons are inclusive and
      a null on either side makes that comparison pass. */
  predicate Overlaps(span: Interval, windowStart: Option<Instant>, windowEnd: Option<Instant>) {
    && (span.start.None? || windowEnd.None? || span.start.value <= windowEnd.value)
    && (span.end.None? || windowStart.None? || span.end.value >= windowStart.value)
  }

  /** A record is active at `t` when it overlaps the one-instant window [t, t]. */
  predicate ActiveAt(span: Interval, t: Instant) {
    Overlaps(span, Some(t), Some(t))
  }

  /** For a well-formed record and a non-empty window, overlapping the
      window means sharing at least one instant with it. */
  lemma OverlapIsSharedInstant(span: Interval, s: Instant, e: Instant)
    requires WellFormed(span) && s <= e
    ensures Overlaps(span, Some(s), Some(e)) <==> exists t :: s <= t <= e && ActiveAt(span, t)
  {
    if Overlaps(span, Some(s), Some(e)) {
      var t := if span.start.Some? && span.start.value > s then span.start.value else s;
      assert s <= t <= e && ActiveAt(span, t);
    }
  }

  /** `minimal_honeycomb.filter_assignments(xs, windowStart, windowEnd)`:
      the records that overlap the window, in their original order. The
      collaborator lives outside this repository; it is modelled by the
      overlap rule it is documented to implement. */
  function FilterAssignments<T(==,!new)>(
    xs: seq<T>, span: T -> Interval, windowStart: Option<Instant>, windowEnd: Option<Instant>): (r: seq<T>)
    ensures Seqs.IsSubsequence(r, xs)
    ensures forall i :: 0 <= i < |r| ==> Overlaps(span(r[i]), windowStart, windowEnd)
    ensures forall x :: x in r <==> x in xs && Overlaps(span(x), windowStart, windowEnd)
  {
    var keep := x => Overlaps(span(x), windowStart, windowEnd);
    Seqs.FilterSpec(xs, keep);
    forall x
      ensures x in Seqs.Filter(xs, keep) <==> x in xs && keep(x)
    {
      Seqs.FilterMembership(xs, keep, x);
    }
    Seqs.Filter(xs, keep)
  }

  /** With both window bounds null every record is kept. */
  lemma OpenWindowKeepsAll<T(!new)>(xs: seq<T>, span: T -> Interval)
    ensures FilterAssignments(xs, span, None, None) == xs
  {
    Seqs.FilterKeepsAll(xs, x => Overlaps(span(x), None, None));
  }

  /** Filtering an already filtered list by the same window changes nothing. */
  lemma FilterAssignmentsIdempotent<T(!new)>(
    xs: seq<T>, span: T -> Interval, windowStart: Option<Instant>, windowEnd: Option<Instant>)
    ensures FilterAssignments(FilterAssignments(xs, span, windowStart, windowEnd), span, windowStart, windowEnd)
         == FilterAssignments(xs, span, windowStart, windowEnd)
  {
    Seqs.FilterIdempotent(xs, x => Overlaps(span(x), windowStart, windowEnd));
  }

  /** Each occurrence of a record is kept exactly when it overlaps: the
      filter neither drops nor duplicates an overlapping record. */
  lemma FilterAssignmentsCounts<T(!new)>(
    xs: seq<T>, span: T -> Interval, windowStart: Option<Instant>, windowEnd: Option<Instant>, x: T)
    ensures multiset(FilterAssignments(xs, span, windowStart, windowEnd))[x]
         == if Overlaps(span(x), windowStart, windowEnd) then multiset(xs)[x] else 0
  {
    Seqs.FilterSpec(xs, y => Overlaps(span(y), windowStart, windowEnd));
  }

  /** Filtering the window's records further by `q` is a single filter by
      `both`, any predicate that holds exactly when a record overlaps the
      window and passes `q`. */
  lemma FilterAssignmentsThen<T(!new)>(
    xs: seq<T>, span: T -> Interval, windowStart: Option<Instant>, windowEnd: Option<Instant>,
    q: T -> bool, both: T -> bool)
    requires forall x :: both(x) == (Overlaps(span(x), windowStart, windowEnd) && q(x))
    ensures Seqs.Filter(FilterAssignments(xs, span, windowStart, windowEnd), q) == Seqs.Filter(xs, both)
  {
    Seqs.FilterFilter(xs, x => Overlaps(span(x), windowStart, windowEnd), q, both);
  }
}
