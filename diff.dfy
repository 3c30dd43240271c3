/** The comparison of the next day with the previous one: the periods of each
    day whose subject the other day does not have. A period whose subject is
    the placeholder "None" counts as matched by any period of the other day. */
module Diff {
  import opened Seqs
  import opened Timetable

  /** The closure given to `any`: `x` matches `period` when the subjects are
      equal, or whenever `period` is a placeholder. */
  predicate Covers(x: Period, period: Period)
  {
    period.subject == x.subject || period.subject == NoneSubject
  }

  /** `others.iter().any(..)` with that closure. */
  predicate AnyCovers(others: seq<Period>, period: Period)
  {
    exists i :: 0 <= i < |others| && Covers(others[i], period)
  }

  /** The subjects of a list of periods. */
  function Subjects(periods: seq<Period>): (r: set<string>)
    ensures forall i :: 0 <= i < |periods| ==> periods[i].subject in r
    ensures forall s :: s in r ==> exists i :: 0 <= i < |periods| && periods[i].subject == s
  {
    set i | 0 <= i < |periods| :: periods[i].subject
  }

  /** The test each loop applies: `others` has no match for the period. */
  function NotCovered(others: seq<Period>): Period -> bool
  {
    p => !AnyCovers(others, p)
  }

  /** The periods of `periods` that no period of `others` matches, in order. */
  function Unmatched(periods: seq<Period>, others: seq<Period>): seq<Period>
  {
    Filter(periods, NotCovered(others))
  }

  /** A period is matched exactly when the other day has its subject, or
      when it is a placeholder and the other day has any period at all. */
  lemma AnyCoversRule(others: seq<Period>, period: Period)
    ensures AnyCovers(others, period) <==>
      period.subject in Subjects(others) || (|others| > 0 && period.subject == NoneSubject)
  {
    if period.subject in Subjects(others) {
      var i :| 0 <= i < |others| && others[i].subject == period.subject;
      assert Covers(others[i], period);
    }
    if |others| > 0 && period.subject == NoneSubject {
      assert Covers(others[0], period);
    }
  }

  /** A period is reported as often as it occurs in its day when the other
      day lacks its subject and, for a placeholder, has no period at all;
      otherwise it is not reported. */
  lemma UnmatchedCount(periods: seq<Period>, others: seq<Period>, p: Period)
    ensures multiset(Unmatched(periods, others))[p] ==
      if p.subject !in Subjects(others) && (|others| == 0 || p.subject != NoneSubject)
      then multiset(periods)[p] else 0
  {
    FilterCount(periods, NotCovered(others), p);
    AnyCoversRule(others, p);
  }

  /** The report keeps the order of the day: reporting two stretches of a
      day is reporting each of them, one after the other. */
  lemma UnmatchedAppend(a: seq<Period>, b: seq<Period>, others: seq<Period>)
    ensures Unmatched(a + b, others) == Unmatched(a, others) + Unmatched(b, others)
  {
    FilterAppend(a, b, NotCovered(others));
  }

  /** Every reported subject is a subject of the day and not of the other
      day, and every such subject other than the placeholder is reported. */
  lemma UnmatchedSubjects(periods: seq<Period>, others: seq<Period>)
    ensures Subjects(Unmatched(periods, others)) ==
      if |others| == 0 then Subjects(periods)
      else Subjects(periods) - Subjects(others) - {NoneSubject}
  {
    var keep := NotCovered(others);
    var r := Unmatched(periods, others);
    forall s | s in Subjects(r)
      ensures s in Subjects(periods) && (|others| > 0 ==> s !in Subjects(others) && s != NoneSubject)
    {
      var i :| 0 <= i < |r| && r[i].subject == s;
      FilterMembership(periods, keep, r[i]);
      AnyCoversRule(others, r[i]);
      var j :| 0 <= j < |periods| && periods[j] == r[i];
    }
    forall s | s in Subjects(periods) &&
        (|others| == 0 || (s !in Subjects(others) && s != NoneSubject))
      ensures s in Subjects(r)
    {
      var i :| 0 <= i < |periods| && periods[i].subject == s;
      AnyCoversRule(others, periods[i]);
      FilterMembership(periods, keep, periods[i]);
      var j :| 0 <= j < |r| && r[j] == periods[i];
    }
  }

  /** A day compared with itself reports nothing. */
  lemma UnmatchedSelf(periods: seq<Period>)
    ensures Unmatched(periods, periods) == []
  {
    forall i | 0 <= i < |periods|
      ensures AnyCovers(periods, periods[i])
    {
      assert Covers(periods[i], periods[i]);
    }
    FilterNone(periods, NotCovered(periods));
  }

  /** Against a day with no periods, every period is reported, the
      placeholders included. */
  lemma UnmatchedAgainstEmpty(periods: seq<Period>)
    ensures Unmatched(periods, []) == periods
  {
    FilterAll(periods, NotCovered([]));
  }

  /** Against a day with at least one period, a placeholder is never
      reported. */
  lemma PlaceholderNotReported(periods: seq<Period>, others: seq<Period>)
    requires |others| > 0
    ensures forall p :: p in Unmatched(periods, others) ==> p.subject != NoneSubject
  {
    forall p | p in Unmatched(periods, others)
      ensures p.subject != NoneSubject
    {
      FilterMembership(periods, NotCovered(others), p);
      AnyCoversRule(others, p);
    }
  }

  /** One of the two loops: each period of `periods` is pushed when `any`
      over `others` finds no match. */
  method CollectUnmatched(periods: seq<Period>, others: seq<Period>) returns (found: seq<Period>)
    ensures found == Unmatched(periods, others)
  {
    found := [];
    var n := 0;
    while n < |periods|
      invariant n <= |periods|
      invariant found == Unmatched(periods[..n], others)
    {
      var period := periods[n];
      var any := false;
      var i := 0;
      while i < |others| && !any
        invariant i <= |others|
        invariant any <==> exists j :: 0 <= j < i && Covers(others[j], period)
      {
        any := period.subject == others[i].subject || period.subject == NoneSubject;
        i := i + 1;
      }
      FilterSnoc(periods, n, NotCovered(others));
      if !any {
        found := found + [period];
      }
      n := n + 1;
    }
    assert periods[..n] == periods;
  }

  /** The comparison in `main`: the next day's periods not in the previous
      day, and the previous day's periods not in the next day. */
  method CompareDays(next: Day, prev: Day) returns (newPeriods: seq<Period>, oldPeriods: seq<Period>)
    ensures newPeriods == Unmatched(next.periods, prev.periods)
    ensures oldPeriods == Unmatched(prev.periods, next.periods)
  {
    newPeriods := CollectUnmatched(next.periods, prev.periods);
    oldPeriods := CollectUnmatched(prev.periods, next.periods);
  }

  /** The placeholder rule the comparison is meant to follow: a placeholder
      is never reported, whatever the other day holds. */
  function IntendedUnmatched(periods: seq<Period>, others: seq<Period>): seq<Period>
  {
    Filter(periods, NewSubject(others))
  }

  /** The intended test: a real subject that `others` does not have. */
  function NewSubject(others: seq<Period>): Period -> bool
  {
    (p: Period) => p.subject != NoneSubject && p.subject !in Subjects(others)
  }

  /** As written, a placeholder is reported when the other day has no
      periods: the next day's slot "1" with no class, against an empty
      previous day, shows up as a new subject "None". */
  lemma PlaceholderReportedAgainstEmpty()
    ensures Unmatched([NonePeriod("1")], []) == [NonePeriod("1")]
    ensures IntendedUnmatched([NonePeriod("1")], []) == []
  {
    UnmatchedAgainstEmpty([NonePeriod("1")]);
    FilterNone([NonePeriod("1")], NewSubject([]));
  }

  /** The intended rule reports exactly the non-placeholder periods whose
      subject the other day lacks, never a placeholder, and agrees with the
      code whenever the other day has a period. */
  lemma IntendedUnmatchedRule(periods: seq<Period>, others: seq<Period>, p: Period)
    ensures multiset(IntendedUnmatched(periods, others))[p] ==
      if p.subject != NoneSubject && p.subject !in Subjects(others) then multiset(periods)[p] else 0
    ensures p in IntendedUnmatched(periods, others) ==> p.subject != NoneSubject
    ensures |others| > 0 ==> IntendedUnmatched(periods, others) == Unmatched(periods, others)
  {
    var intended := NewSubject(others);
    var written := NotCovered(others);
    FilterCount(periods, intended, p);
    FilterMembership(periods, intended, p);
    if |others| > 0 {
      forall q
        ensures intended(q) == written(q)
      {
        AnyCoversRule(others, q);
      }
      FilterSameKeep(periods, intended, written);
    }
  }

  /** Two tests that agree everywhere filter alike. */
  lemma {:induction false} FilterSameKeep(s: seq<Period>, f: Period -> bool, g: Period -> bool)
    requires forall q :: f(q) == g(q)
    ensures Filter(s, f) == Filter(s, g)
    decreases |s|
  {
    if |s| > 0 {
      FilterSameKeep(s[..|s| - 1], f, g);
    }
  }
}
