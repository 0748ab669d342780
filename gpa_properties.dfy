/** What the aggregation promises, proved about the specification functions
    that the calculator methods are verified against. */
module GpaProperties {
  import opened Rounding
  import opened GpaCalculator

  // ---------------------------------------------------------------------
  // Sums

  lemma {:induction false} TotalAppend(a: seq<EnrollmentForCalc>, b: seq<EnrollmentForCalc>, w: EnrollmentForCalc -> real)
    ensures Total(a + b, w) == Total(a, w) + Total(b, w)
    decreases |b|
  {
    if b == [] {
      assert a + b == a;
    } else {
      var b' := b[..|b| - 1];
      assert (a + b)[..|a + b| - 1] == a + b';
      TotalAppend(a, b', w);
    }
  }

  lemma {:induction false} TotalPointwise(es: seq<EnrollmentForCalc>, w1: EnrollmentForCalc -> real, w2: EnrollmentForCalc -> real)
    requires forall i :: 0 <= i < |es| ==> w1(es[i]) == w2(es[i])
    ensures Total(es, w1) == Total(es, w2)
    decreases |es|
  {
    if es != [] {
      TotalPointwise(es[..|es| - 1], w1, w2);
    }
  }

  // ---------------------------------------------------------------------
  // Per-semester GPA

  /** An enrollment that does not count towards CGPA changes neither the
      semester's points nor its credits, wherever it stands and whatever its
      credit flag says. */
  lemma NonCgpaEnrollmentIgnoredBySemester(
    termName: string, before: seq<EnrollmentForCalc>, e: EnrollmentForCalc,
    after: seq<EnrollmentForCalc>, precision: nat)
    requires !e.countsTowardsCGPA
    ensures SemesterSpec(SemesterForCalc(termName, before + [e] + after), precision)
         == SemesterSpec(SemesterForCalc(termName, before + after), precision)
  {
    forall w | w == Points || w == GpaCredits
      ensures Total(before + [e] + after, w) == Total(before + after, w)
    {
      TotalAppend(before + [e], after, w);
      TotalAppend(before, [e], w);
      TotalAppend(before, after, w);
      assert Total([e], w) == 0.0 by {
        assert [e][..0] == [];
      }
    }
  }

  /** The enrollments that count towards CGPA, in order. */
  function CgpaOnly(es: seq<EnrollmentForCalc>): (r: seq<EnrollmentForCalc>)
    ensures forall e :: e in r <==> e in es && e.countsTowardsCGPA
    decreases |es|
  {
    if es == [] then []
    else
      var init := CgpaOnly(es[..|es| - 1]);
      assert forall e :: e in es <==> e in es[..|es| - 1] || e == es[|es| - 1];
      if es[|es| - 1].countsTowardsCGPA then init + [es[|es| - 1]] else init
  }

  /** The semester rules are the cumulative rules nested inside the CGPA
      filter: a semester's points and credits are the points and earned
      credits of just its CGPA-counting enrollments. */
  lemma {:induction false} SemesterSumsAreCgpaFiltered(es: seq<EnrollmentForCalc>)
    ensures Total(es, GpaCredits) == Total(CgpaOnly(es), EarnedCredits)
    ensures Total(es, Points) == Total(CgpaOnly(es), Points)
    decreases |es|
  {
    if es != [] {
      var init := es[..|es| - 1];
      var last := es[|es| - 1];
      SemesterSumsAreCgpaFiltered(init);
      if last.countsTowardsCGPA {
        TotalAppend(CgpaOnly(init), [last], EarnedCredits);
        TotalAppend(CgpaOnly(init), [last], Points);
        assert [last][..0] == [];
      }
    }
  }

  /** Every CGPA-counting enrollment also counts towards credits, has
      non-negative credits and a grade point in [lo, hi]. */
  ghost predicate GradedWithin(es: seq<EnrollmentForCalc>, lo: real, hi: real)
  {
    forall i :: 0 <= i < |es| && es[i].countsTowardsCGPA ==>
      es[i].countsTowardsCredits && es[i].credits >= 0.0 && lo <= es[i].gradePoint <= hi
  }

  /** points lie between lo and hi times credits. */
  predicate WeightedBetween(points: real, credits: real, lo: real, hi: real)
  {
    lo * credits <= points <= hi * credits
  }

  /** Adding one graded attempt keeps points between lo and hi times credits. */
  lemma AddAttemptBetween(p: real, c: real, e: EnrollmentForCalc, lo: real, hi: real)
    requires WeightedBetween(p, c, lo, hi)
    requires e.countsTowardsCGPA ==> e.countsTowardsCredits && e.credits >= 0.0 && lo <= e.gradePoint <= hi
    ensures WeightedBetween(p + Points(e), c + GpaCredits(e), lo, hi)
  {
  }

  /** Points are a credit-weighted sum of grade points in [lo, hi]. */
  lemma {:induction false} PointsBetween(es: seq<EnrollmentForCalc>, lo: real, hi: real)
    requires GradedWithin(es, lo, hi)
    ensures WeightedBetween(Total(es, Points), Total(es, GpaCredits), lo, hi)
    decreases |es|
  {
    if es != [] {
      var init := es[..|es| - 1];
      var last := es[|es| - 1];
      assert GradedWithin(init, lo, hi) by {
        forall i | 0 <= i < |init| && init[i].countsTowardsCGPA
          ensures init[i].countsTowardsCredits && init[i].credits >= 0.0 && lo <= init[i].gradePoint <= hi
        {
          assert init[i] == es[i];
        }
      }
      PointsBetween(init, lo, hi);
      AddAttemptBetween(Total(init, Points), Total(init, GpaCredits), last, lo, hi);
    }
  }

  lemma RatioBetween(lo: real, points: real, hi: real, credits: real)
    requires credits > 0.0 && WeightedBetween(points, credits, lo, hi)
    ensures lo <= points / credits <= hi
  {
  }

  /** When every CGPA-counting enrollment also counts towards credits, a
      semester's GPA is a weighted mean: within half a rounding step of the
      range of its grade points. */
  lemma SemesterGpaWithinGradeRange(semester: SemesterForCalc, precision: nat, lo: real, hi: real)
    requires GradedWithin(semester.enrollments, lo, hi)
    requires Total(semester.enrollments, GpaCredits) > 0.0
    ensures var half := 0.5 / (Pow10(precision) as real);
            lo - half < SemesterSpec(semester, precision).gpa <= hi + half
  {
    var es := semester.enrollments;
    PointsBetween(es, lo, hi);
    RatioBetween(lo, Total(es, Points), hi, Total(es, GpaCredits));
    RoundHalfUpIsNearest(Total(es, Points) / Total(es, GpaCredits), precision);
  }

  /** A sum whose every term is zero is zero. */
  lemma {:induction false} TotalOfZeros(es: seq<EnrollmentForCalc>, w: EnrollmentForCalc -> real)
    requires forall i :: 0 <= i < |es| ==> w(es[i]) == 0.0
    ensures Total(es, w) == 0.0
    decreases |es|
  {
    if es != [] {
      TotalOfZeros(es[..|es| - 1], w);
    }
  }

  /** The zero-credit guard: a semester in which no enrollment both counts
      towards CGPA and carries credits towards the total reports 0 credits
      and a GPA of 0, whatever grade points it holds. */
  lemma SemesterWithoutCountedCreditsIsZero(semester: SemesterForCalc, precision: nat)
    requires forall i :: 0 <= i < |semester.enrollments| ==>
               GpaCredits(semester.enrollments[i]) == 0.0
    ensures SemesterSpec(semester, precision) == SemesterGpa(0.0, 0.0)
  {
    TotalOfZeros(semester.enrollments, GpaCredits);
  }

  /** `perSemester` lists the input semesters in order, one row each, with
      the term name copied and the semester's own GPA and credits. */
  lemma PerSemesterFollowsInput(semesters: seq<SemesterForCalc>, precision: nat)
    ensures var rows := SummarySpec(semesters, precision).perSemester;
            && |rows| == |semesters|
            && forall i :: 0 <= i < |semesters| ==>
                 && rows[i].termName == semesters[i].termName
                 && rows[i].gpa == SemesterSpec(semesters[i], precision).gpa
                 && rows[i].credits == SemesterSpec(semesters[i], precision).credits
  {
  }

  // ---------------------------------------------------------------------
  // Latest-attempt resolution

  /** `e` is an attempt at course `code` that takes part in retake
      resolution. */
  predicate AttemptAt(e: EnrollmentForCalc, code: string)
  {
    Eligible(e) && e.courseCode == code
  }

  /** The map has an entry for a course code exactly when some eligible
      attempt at that course was scanned. */
  lemma {:induction false} LatestAttemptKeys(es: seq<EnrollmentForCalc>, code: string)
    ensures code in LatestAttempts(es).entries <==> exists i :: 0 <= i < |es| && AttemptAt(es[i], code)
    decreases |es|
  {
    if es != [] {
      var init := es[..|es| - 1];
      LatestAttemptKeys(init, code);
      if code in LatestAttempts(init).entries {
        var i :| 0 <= i < |init| && AttemptAt(init[i], code);
        assert es[i] == init[i];
      }
      if exists i :: 0 <= i < |es| && AttemptAt(es[i], code) {
        var i :| 0 <= i < |es| && AttemptAt(es[i], code);
        if i < |init| {
          assert init[i] == es[i];
        }
      }
    }
  }

  /** What one scan step does to the entry of one course code. */
  lemma RecordEntry(m: AttemptMap, e: EnrollmentForCalc, code: string)
    requires m.Valid()
    ensures code in Record(m, e).entries <==> code in m.entries || AttemptAt(e, code)
    ensures AttemptAt(e, code) && (code !in m.entries || m.entries[code].createdAt < e.createdAt) ==>
              Record(m, e).entries[code] == e
    ensures code in m.entries && !(AttemptAt(e, code) && m.entries[code].createdAt < e.createdAt) ==>
              Record(m, e).entries[code] == m.entries[code]
  {
  }

  /** The kept attempt for a course is the first scanned attempt with the
      greatest `createdAt`: every earlier attempt at that course is strictly
      older, every later one is not newer. */
  lemma {:induction false} LatestAttemptIsFirstNewest(es: seq<EnrollmentForCalc>, code: string) returns (w: nat)
    requires code in LatestAttempts(es).entries
    ensures w < |es| && es[w] == LatestAttempts(es).entries[code] && AttemptAt(es[w], code)
    ensures forall j :: 0 <= j < w && AttemptAt(es[j], code) ==> es[j].createdAt < es[w].createdAt
    ensures forall j :: w < j < |es| && AttemptAt(es[j], code) ==> es[j].createdAt <= es[w].createdAt
    decreases |es|
  {
    assert es != [];
    var n := |es| - 1;
    var init := es[..n];
    var last := es[n];
    var m := LatestAttempts(init);
    assert LatestAttempts(es) == Record(m, last);
    RecordEntry(m, last, code);
    if AttemptAt(last, code) && (code !in m.entries || m.entries[code].createdAt < last.createdAt) {
      w := n;
      if code in m.entries {
        var v := LatestAttemptIsFirstNewest(init, code);
        forall j | 0 <= j < n && AttemptAt(es[j], code)
          ensures es[j].createdAt < last.createdAt
        {
          assert init[j] == es[j] && AttemptAt(init[j], code);
          assert init[j].createdAt <= init[v].createdAt;
        }
      } else {
        LatestAttemptKeys(init, code);
      }
    } else {
      w := LatestAttemptIsFirstNewest(init, code);
      forall j | 0 <= j < |es| && j != w && AttemptAt(es[j], code)
        ensures if j < w then es[j].createdAt < es[w].createdAt else es[j].createdAt <= es[w].createdAt
      {
        if j < n {
          assert init[j] == es[j];
        }
      }
    }
  }

  /** An enrollment with both flags false never enters the map: removing it
      from the scan leaves the map, and so every cumulative figure,
      unchanged. */
  lemma {:induction false} IneligibleAttemptIgnored(
    before: seq<EnrollmentForCalc>, e: EnrollmentForCalc, after: seq<EnrollmentForCalc>, precision: nat)
    requires !e.countsTowardsCGPA && !e.countsTowardsCredits
    ensures LatestAttempts(before + [e] + after) == LatestAttempts(before + after)
    ensures CumulativeSpec(before + [e] + after, precision) == CumulativeSpec(before + after, precision)
    decreases |after|
  {
    if after == [] {
      assert before + [e] + after == before + [e];
      assert (before + [e])[..|before|] == before;
      assert before + after == before;
    } else {
      var init := after[..|after| - 1];
      var last := after[|after| - 1];
      IneligibleAttemptIgnored(before, e, init, precision);
      SplitLast(before + [e], after);
      SplitLast(before, after);
      LatestAttemptsStep(before + [e] + init, last);
      LatestAttemptsStep(before + init, last);
    }
  }

  /** Appending a non-empty sequence is appending all but its last element,
      then the last. */
  lemma SplitLast(xs: seq<EnrollmentForCalc>, ys: seq<EnrollmentForCalc>)
    requires ys != []
    ensures xs + ys == (xs + ys[..|ys| - 1]) + [ys[|ys| - 1]]
  {
    assert ys == ys[..|ys| - 1] + [ys[|ys| - 1]];
  }

  /** The codes of the scanned attempts that take part in retake resolution. */
  ghost function AttemptedCodes(es: seq<EnrollmentForCalc>): set<string>
  {
    set i | 0 <= i < |es| && Eligible(es[i]) :: es[i].courseCode
  }

  /** `totalCourses` counts the distinct course codes that have an eligible
      attempt. */
  lemma TotalCoursesCountsAttemptedCodes(es: seq<EnrollmentForCalc>)
    ensures LatestAttempts(es).Size() == |AttemptedCodes(es)|
  {
    var entries := LatestAttempts(es).entries;
    forall code | code in entries
      ensures code in AttemptedCodes(es)
    {
      LatestAttemptKeys(es, code);
    }
    forall code | code in AttemptedCodes(es)
      ensures code in entries
    {
      var i :| 0 <= i < |es| && Eligible(es[i]) && es[i].courseCode == code;
      LatestAttemptKeys(es, code);
      assert AttemptAt(es[i], code);
    }
    assert entries.Keys == AttemptedCodes(es);
  }

  /** Every kept attempt was scanned, is eligible, and is the one stored for
      its own course code. */
  lemma KeptAttemptsAreScanned(es: seq<EnrollmentForCalc>)
    ensures var latest := LatestAttempts(es);
            forall v :: v in latest.Values() ==>
              v in es && Eligible(v) && v.courseCode in latest.entries && latest.entries[v.courseCode] == v
  {
    var latest := LatestAttempts(es);
    var kept := latest.Values();
    forall v | v in kept
      ensures v in es && Eligible(v) && v.courseCode in latest.entries && latest.entries[v.courseCode] == v
    {
      var k :| 0 <= k < |kept| && kept[k] == v;
      var code := latest.keys[k];
      var w := LatestAttemptIsFirstNewest(es, code);
    }
  }

  /** The cumulative zero-credit guard: when no eligible attempt counts
      towards credits, the total credits are 0 and so is the CGPA, even if
      attempts count towards CGPA. */
  lemma CgpaZeroWithoutEarnedCredits(es: seq<EnrollmentForCalc>, precision: nat)
    requires forall i :: 0 <= i < |es| && Eligible(es[i]) ==> !es[i].countsTowardsCredits
    ensures CumulativeSpec(es, precision).totalCredits == 0.0
    ensures CumulativeSpec(es, precision).cgpa == 0.0
  {
    var kept := LatestAttempts(es).Values();
    KeptAttemptsAreScanned(es);
    forall i | 0 <= i < |kept|
      ensures EarnedCredits(kept[i]) == 0.0
    {
      assert kept[i] in kept;
      var j :| 0 <= j < |es| && es[j] == kept[i];
    }
    TotalOfZeros(kept, EarnedCredits);
  }

  /** When every eligible attempt counts towards both or neither, has
      non-negative credits and a grade point in [lo, hi], the CGPA is a
      weighted mean of the kept attempts: within half a rounding step of
      [lo, hi]. */
  lemma CgpaWithinGradeRange(es: seq<EnrollmentForCalc>, precision: nat, lo: real, hi: real)
    requires forall i :: 0 <= i < |es| && Eligible(es[i]) ==>
               es[i].countsTowardsCGPA == es[i].countsTowardsCredits
               && es[i].credits >= 0.0 && lo <= es[i].gradePoint <= hi
    requires CumulativeSpec(es, precision).totalCredits > 0.0
    ensures var half := 0.5 / (Pow10(precision) as real);
            lo - half < CumulativeSpec(es, precision).cgpa <= hi + half
  {
    var kept := LatestAttempts(es).Values();
    KeptAttemptsAreScanned(es);
    forall i | 0 <= i < |kept|
      ensures EarnedCredits(kept[i]) == GpaCredits(kept[i])
      ensures kept[i].countsTowardsCGPA ==>
                kept[i].countsTowardsCredits && kept[i].credits >= 0.0 && lo <= kept[i].gradePoint <= hi
    {
      assert kept[i] in kept;
      var j :| 0 <= j < |es| && es[j] == kept[i];
    }
    assert CumulativeSpec(es, precision).totalCredits == Total(kept, EarnedCredits);
    assert CumulativeSpec(es, precision).cgpa
        == GuardedAverage(Total(kept, Points), Total(kept, EarnedCredits), precision);
    TotalPointwise(kept, EarnedCredits, GpaCredits);
    assert GradedWithin(kept, lo, hi);
    PointsBetween(kept, lo, hi);
    RatioBetween(lo, Total(kept, Points), hi, Total(kept, GpaCredits));
    RoundHalfUpIsNearest(Total(kept, Points) / Total(kept, GpaCredits), precision);
  }

  // ---------------------------------------------------------------------
  // Worked scenarios

  lemma Pow10Two()
    ensures Pow10(2) == 100
  {
    assert Pow10(1) == 10;
  }

  /** A single 3-credit course graded 4.0 gives a semester GPA and a CGPA
      of 4.00, 3 credits and one course. */
  lemma SingleCourseSummary()
    ensures var e := EnrollmentForCalc("CSE110", 4.0, 3.0, true, true, 1);
            SummarySpec([SemesterForCalc("Spring 2024", [e])], 2)
              == Summary(4.0, 3.0, 1, [SemesterLine("Spring 2024", 4.0, 3.0)])
  {
  }

  /** Two eligible attempts at one course with different creation times
      leave the newer one in the map, in either scan order. */
  lemma NewerOfTwoAttemptsKept(older: EnrollmentForCalc, newer: EnrollmentForCalc)
    requires Eligible(older) && Eligible(newer)
    requires older.courseCode == newer.courseCode && older.createdAt < newer.createdAt
    ensures var m := AttemptMap(map[newer.courseCode := newer], [newer.courseCode]);
            LatestAttempts([older, newer]) == m && LatestAttempts([newer, older]) == m
  {
    LatestOfOne(older);
    LatestOfOne(newer);
    LatestOfTwo(older, newer);
    LatestOfTwo(newer, older);
    RecordOverSameCode(older, newer);
    RecordOverSameCode(newer, older);
  }

  /** Scanning one eligible attempt stores it under its code. */
  lemma LatestOfOne(e: EnrollmentForCalc)
    requires Eligible(e)
    ensures LatestAttempts([e]) == AttemptMap(map[e.courseCode := e], [e.courseCode])
  {
    assert [e][..0] == [];
    assert LatestAttempts([e]) == Record(EmptyAttempts, e);
    assert [] + [e.courseCode] == [e.courseCode];
  }

  /** Scanning two attempts is one scan step after scanning the first. */
  lemma LatestOfTwo(a: EnrollmentForCalc, b: EnrollmentForCalc)
    ensures LatestAttempts([a, b]) == Record(LatestAttempts([a]), b)
  {
    assert [a, b][..1] == [a];
  }

  /** One scan step over a map that holds a single attempt at the same
      course: the stored attempt is replaced only by a strictly newer one. */
  lemma RecordOverSameCode(stored: EnrollmentForCalc, e: EnrollmentForCalc)
    requires Eligible(e) && stored.courseCode == e.courseCode
    ensures var m := AttemptMap(map[stored.courseCode := stored], [stored.courseCode]);
            Record(m, e) == if stored.createdAt < e.createdAt then AttemptMap(map[e.courseCode := e], [e.courseCode]) else m
  {
    var m := AttemptMap(map[stored.courseCode := stored], [stored.courseCode]);
    assert m.Valid();
    assert e.courseCode in m.entries && m.entries[e.courseCode] == stored;
    if stored.createdAt < e.createdAt {
      assert m.entries[e.courseCode := e] == map[e.courseCode := e];
    }
  }

  /** One scan step for an eligible attempt at a course not yet in the map
      appends the course. */
  lemma RecordNewCode(m: AttemptMap, e: EnrollmentForCalc)
    requires m.Valid() && Eligible(e) && e.courseCode !in m.entries
    ensures Record(m, e) == AttemptMap(m.entries[e.courseCode := e], m.keys + [e.courseCode])
  {
  }

  /** Two eligible attempts at different courses are both kept, in scan
      order. */
  lemma LatestOfTwoCourses(a: EnrollmentForCalc, b: EnrollmentForCalc)
    requires Eligible(a) && Eligible(b) && a.courseCode != b.courseCode
    ensures LatestAttempts([a, b]) == AttemptMap(map[a.courseCode := a, b.courseCode := b], [a.courseCode, b.courseCode])
    ensures LatestAttempts([a, b]).Values() == [a, b]
    ensures LatestAttempts([a, b]).Size() == 2
  {
    var one := AttemptMap(map[a.courseCode := a], [a.courseCode]);
    LatestOfOne(a);
    LatestOfTwo(a, b);
    RecordNewCode(one, b);
    assert [a.courseCode] + [b.courseCode] == [a.courseCode, b.courseCode];
    var m := LatestAttempts([a, b]);
    assert m.keys[0] == a.courseCode && m.keys[1] == b.courseCode;
    assert m.Values()[0] == a && m.Values()[1] == b;
    assert |m.entries.Keys| == 2 by {
      assert m.entries.Keys == {a.courseCode, b.courseCode};
    }
  }

  /** A weight summed over two attempts. */
  lemma TotalOfTwo(a: EnrollmentForCalc, b: EnrollmentForCalc, w: EnrollmentForCalc -> real)
    ensures Total([a, b], w) == w(a) + w(b)
  {
    assert [a, b][..1] == [a];
    assert [a][..0] == [];
    assert Total([a], w) == Total([], w) + w(a);
    assert Total([a, b], w) == Total([a], w) + w(b);
  }

  /** The semester figures of a semester listing two attempts. */
  lemma SemesterOfTwo(term: string, a: EnrollmentForCalc, b: EnrollmentForCalc, precision: nat)
    ensures var credits := GpaCredits(a) + GpaCredits(b);
            SemesterSpec(SemesterForCalc(term, [a, b]), precision)
              == SemesterGpa(GuardedAverage(Points(a) + Points(b), credits, precision), credits)
  {
    TotalOfTwo(a, b, Points);
    TotalOfTwo(a, b, GpaCredits);
  }

  /** The cumulative figures of two eligible attempts at different courses. */
  lemma CumulativeOfTwoCourses(a: EnrollmentForCalc, b: EnrollmentForCalc, precision: nat)
    requires Eligible(a) && Eligible(b) && a.courseCode != b.courseCode
    ensures var credits := EarnedCredits(a) + EarnedCredits(b);
            CumulativeSpec([a, b], precision)
              == Cumulative(GuardedAverage(Points(a) + Points(b), credits, precision), credits, 2)
  {
    LatestOfTwoCourses(a, b);
    TotalOfTwo(a, b, Points);
    TotalOfTwo(a, b, EarnedCredits);
  }

  /** A value with a whole number of hundredths is unchanged by rounding to
      two places. */
  lemma TwoPlaceValueKept(value: real, hundredths: int)
    requires value * 100.0 == hundredths as real
    ensures RoundHalfUp(value, 2) == value
  {
    Pow10Two();
    assert OnGrid(value, 2) by {
      assert value * (Pow10(2) as real) == hundredths as real;
      assert (hundredths as real).Floor == hundredths;
    }
    RoundHalfUpKeepsGridValues(value, 2);
  }

  /** When the map holds a single attempt, the cumulative figures are that
      attempt's own. */
  lemma CumulativeOfOneAttempt(es: seq<EnrollmentForCalc>, e: EnrollmentForCalc, precision: nat)
    requires LatestAttempts(es) == AttemptMap(map[e.courseCode := e], [e.courseCode])
    ensures CumulativeSpec(es, precision)
         == Cumulative(GuardedAverage(Points(e), EarnedCredits(e), precision), EarnedCredits(e), 1)
  {
    assert LatestAttempts(es).Values() == [e];
    assert [e][..0] == [];
    assert Total([e], Points) == Points(e);
    assert Total([e], EarnedCredits) == EarnedCredits(e);
    assert |map[e.courseCode := e]| == 1;
  }

  /** A retake: CSE110 graded 2.0 and later 3.7 counts once, with the later
      grade, whichever semester lists it first. */
  lemma RetakeKeepsLatestGrade()
    ensures var first := EnrollmentForCalc("CSE110", 2.0, 3.0, true, true, 1);
            var retake := EnrollmentForCalc("CSE110", 3.7, 3.0, true, true, 2);
            && CumulativeSpec([first, retake], 2) == Cumulative(3.7, 3.0, 1)
            && CumulativeSpec([retake, first], 2) == Cumulative(3.7, 3.0, 1)
  {
    var first := EnrollmentForCalc("CSE110", 2.0, 3.0, true, true, 1);
    var retake := EnrollmentForCalc("CSE110", 3.7, 3.0, true, true, 2);
    NewerOfTwoAttemptsKept(first, retake);
    CumulativeOfOneAttempt([first, retake], retake, 2);
    CumulativeOfOneAttempt([retake, first], retake, 2);
    assert Points(retake) == 11.1 && EarnedCredits(retake) == 3.0;
    assert 11.1 / 3.0 == 3.7;
    TwoPlaceValueKept(3.7, 370);
  }

  /** A lab that counts towards credits but not CGPA: the semester GPA
      ignores it, but its credits still enter the CGPA denominator, so a
      4.0 core course and a 4.0 lab give a semester GPA of 4.00 over 3
      credits and a CGPA of 3.00 over 4 credits. */
  lemma LabCreditsDiluteCgpa()
    ensures var core := EnrollmentForCalc("CSE110", 4.0, 3.0, true, true, 1);
            var lab := EnrollmentForCalc("CSE110L", 4.0, 1.0, false, true, 2);
            var s := SemesterForCalc("Spring 2024", [core, lab]);
            && SemesterSpec(s, 2) == SemesterGpa(4.0, 3.0)
            && CumulativeSpec([core, lab], 2) == Cumulative(3.0, 4.0, 2)
  {
    var core := EnrollmentForCalc("CSE110", 4.0, 3.0, true, true, 1);
    var lab := EnrollmentForCalc("CSE110L", 4.0, 1.0, false, true, 2);
    SemesterOfTwo("Spring 2024", core, lab, 2);
    CumulativeOfTwoCourses(core, lab, 2);
    assert Points(core) + Points(lab) == 12.0;
    assert GpaCredits(core) + GpaCredits(lab) == 3.0 && EarnedCredits(core) + EarnedCredits(lab) == 4.0;
    assert 12.0 / 3.0 == 4.0 && 12.0 / 4.0 == 3.0;
    TwoPlaceValueKept(4.0, 400);
    TwoPlaceValueKept(3.0, 300);
  }

  /** The converse case: an attempt that counts towards CGPA but not towards
      credits adds points without credits, so the GPA leaves the grade
      range. Two 4.0 courses of 3 credits, one with its credit flag off,
      give a semester GPA of 8.00 over 3 credits, and a CGPA of 8.00 too. */
  lemma CreditlessCgpaAttemptInflatesGpa()
    ensures var a := EnrollmentForCalc("CSE110", 4.0, 3.0, true, true, 1);
            var b := EnrollmentForCalc("CSE111", 4.0, 3.0, true, false, 2);
            && SemesterSpec(SemesterForCalc("Spring 2024", [a, b]), 2) == SemesterGpa(8.0, 3.0)
            && CumulativeSpec([a, b], 2) == Cumulative(8.0, 3.0, 2)
  {
    var a := EnrollmentForCalc("CSE110", 4.0, 3.0, true, true, 1);
    var b := EnrollmentForCalc("CSE111", 4.0, 3.0, true, false, 2);
    SemesterOfTwo("Spring 2024", a, b, 2);
    CumulativeOfTwoCourses(a, b, 2);
    assert Points(a) + Points(b) == 24.0;
    assert GpaCredits(a) + GpaCredits(b) == 3.0 && EarnedCredits(a) + EarnedCredits(b) == 3.0;
    assert 24.0 / 3.0 == 8.0;
    TwoPlaceValueKept(8.0, 800);
  }
}
