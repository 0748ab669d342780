/** The client's duplicate of the aggregator, used in guest mode: it works
    on the form's enrollment inputs, stamps an attempt without a creation
    time with the current time, and otherwise follows the server's rules. */
module ClientGpa {
  import opened Optional
  import opened Rounding
  import opened GpaCalculator

  /** An enrollment as the calculator form holds it. A timestamp is the
      instant `createdAt` denotes; `None` stands for a missing one. */
  datatype EnrollmentInput = EnrollmentInput(
    course: Option<string>,
    courseCode: string,
    courseTitle: string,
    credits: real,
    gradeLetter: Option<string>,
    gradePoint: real,
    percentage: Option<real>,
    inputMethod: string,
    countsTowardsCGPA: bool,
    countsTowardsCredits: bool,
    createdAt: Option<int>)

  datatype Semester = Semester(termName: string, enrollments: seq<EnrollmentInput>)

  /** `toEnrollmentCalc`: the calculator's view of an input, with `now`
      standing in for a missing creation time. */
  function ToEnrollmentCalc(e: EnrollmentInput, now: int): (r: EnrollmentForCalc)
    ensures r.createdAt == if e.createdAt.Some? then e.createdAt.value else now
    ensures r.courseCode == e.courseCode && r.gradePoint == e.gradePoint && r.credits == e.credits
    ensures r.countsTowardsCGPA == e.countsTowardsCGPA && r.countsTowardsCredits == e.countsTowardsCredits
  {
    EnrollmentForCalc(e.courseCode, e.gradePoint, e.credits, e.countsTowardsCGPA, e.countsTowardsCredits,
                      match e.createdAt case Some(t) => t case None => now)
  }

  /** A semester as `toEnrollmentCalc` projects each of its attempts, in
      order. */
  function ToCalcSemester(semester: Semester, now: int): (r: SemesterForCalc)
    ensures r.termName == semester.termName && |r.enrollments| == |semester.enrollments|
    ensures forall j :: 0 <= j < |semester.enrollments| ==>
              r.enrollments[j] == ToEnrollmentCalc(semester.enrollments[j], now)
  {
    SemesterForCalc(semester.termName,
                    seq(|semester.enrollments|, i requires 0 <= i < |semester.enrollments| =>
                          ToEnrollmentCalc(semester.enrollments[i], now)))
  }

  /** Every semester projected as `toEnrollmentCalc` projects each attempt. */
  function ToCalcSemesters(semesters: seq<Semester>, now: int): (r: seq<SemesterForCalc>)
    ensures |r| == |semesters|
    ensures forall i :: 0 <= i < |semesters| ==>
              r[i].termName == semesters[i].termName && |r[i].enrollments| == |semesters[i].enrollments|
              && forall j :: 0 <= j < |semesters[i].enrollments| ==>
                   r[i].enrollments[j] == ToEnrollmentCalc(semesters[i].enrollments[j], now)
  {
    seq(|semesters|, i requires 0 <= i < |semesters| => ToCalcSemester(semesters[i], now))
  }

  /** One entry of `perSemester` in `computeSummary`: the same filters as the
      server, applied to the inputs directly. The figures do not read the
      clock, so they agree with the projection for any clock reading `now`. */
  method SummarizeSemester(semester: Semester, precision: nat, ghost now: int) returns (line: SemesterLine)
    ensures line == Line(ToCalcSemester(semester, now), precision)
  {
    ghost var projected := ToCalcSemester(semester, now).enrollments;
    var es := semester.enrollments;
    var totalPoints, totalCredits := 0.0, 0.0;
    for i := 0 to |es|
      invariant totalPoints == Total(projected[..i], Points)
      invariant totalCredits == Total(projected[..i], GpaCredits)
    {
      TotalStep(projected, i, Points);
      TotalStep(projected, i, GpaCredits);
      var e := es[i];
      if e.countsTowardsCGPA {
        totalPoints := totalPoints + e.gradePoint * e.credits;
        if e.countsTowardsCredits {
          totalCredits := totalCredits + e.credits;
        }
      }
    }
    assert projected[..|es|] == projected;
    var gpa := if totalCredits > 0.0 then RoundHalfUp(totalPoints / totalCredits, precision) else 0.0;
    line := SemesterLine(semester.termName, gpa, totalCredits);
  }

  /** The latest-attempt scan of `computeSummary`: each input is first
      projected with `toEnrollmentCalc`, then kept or skipped by the
      server's rules. */
  method ScanLatestInputs(semesters: seq<Semester>, now: int) returns (latest: AttemptMap)
    ensures latest == LatestAttempts(AllEnrollments(ToCalcSemesters(semesters, now)))
  {
    ghost var calcSemesters := ToCalcSemesters(semesters, now);
    latest := EmptyAttempts;
    for i := 0 to |semesters|
      invariant latest == LatestAttempts(AllEnrollments(calcSemesters[..i]))
    {
      var es := semesters[i].enrollments;
      ghost var projected := calcSemesters[i].enrollments;
      ghost var before := AllEnrollments(calcSemesters[..i]);
      assert before + projected[..0] == before;
      for j := 0 to |es|
        invariant latest == LatestAttempts(before + projected[..j])
      {
        var c := ToEnrollmentCalc(es[j], now);
        assert c == projected[j];
        LatestAttemptsStep(before + projected[..j], c);
        PrefixStep(before, projected, j);
        if c.countsTowardsCGPA || c.countsTowardsCredits {
          if c.courseCode !in latest.entries || latest.entries[c.courseCode].createdAt < c.createdAt {
            latest := latest.Set(c.courseCode, c);
          }
        }
      }
      assert projected[..|es|] == projected;
      AllEnrollmentsStep(calcSemesters, i);
    }
    assert calcSemesters[..|semesters|] == calcSemesters;
  }

  /** `computeSummary`: the per-semester rows, the scan, then the same
      cumulative sums as the server over the kept attempts. It computes what
      the server's `computeCGPA` computes on the projected semesters. */
  method ComputeSummary(semesters: seq<Semester>, precision: nat, now: int) returns (summary: Summary)
    ensures summary == SummarySpec(ToCalcSemesters(semesters, now), precision)
  {
    ghost var calcSemesters := ToCalcSemesters(semesters, now);
    var perSemester: seq<SemesterLine> := [];
    for i := 0 to |semesters|
      invariant |perSemester| == i
      invariant forall k :: 0 <= k < i ==> perSemester[k] == Line(calcSemesters[k], precision)
    {
      var line := SummarizeSemester(semesters[i], precision, now);
      perSemester := perSemester + [line];
    }

    var latest := ScanLatestInputs(semesters, now);
    var totalPoints, totalCredits := SumKeptAttempts(latest.Values());

    var cgpa := if totalCredits > 0.0 then RoundHalfUp(totalPoints / totalCredits, precision) else 0.0;
    summary := Summary(cgpa, totalCredits, latest.Size(), perSemester);
  }

  /** Every input carries its own creation time. */
  predicate Timestamped(semesters: seq<Semester>)
  {
    forall i, j :: 0 <= i < |semesters| && 0 <= j < |semesters[i].enrollments| ==>
      semesters[i].enrollments[j].createdAt.Some?
  }

  /** When every input carries its creation time, the clock is never read:
      the projection is the same whatever `now` is. */
  lemma ClockUnreadWhenTimestamped(semesters: seq<Semester>, now1: int, now2: int)
    requires Timestamped(semesters)
    ensures ToCalcSemesters(semesters, now1) == ToCalcSemesters(semesters, now2)
  {
    forall i | 0 <= i < |semesters|
      ensures ToCalcSemester(semesters[i], now1) == ToCalcSemester(semesters[i], now2)
    {
      var es := semesters[i].enrollments;
      forall j | 0 <= j < |es|
        ensures ToEnrollmentCalc(es[j], now1) == ToEnrollmentCalc(es[j], now2)
      {
        assert es[j].createdAt.Some?;
      }
    }
  }

  /** Client/server parity: the client's summary equals the server's
      `computeCGPA` on the projected semesters. */
  method ClientMatchesServer(semesters: seq<Semester>, precision: nat, now: int)
    returns (client: Summary, server: Summary)
    ensures client == server
  {
    client := ComputeSummary(semesters, precision, now);
    server := ComputeCGPA(ToCalcSemesters(semesters, now), precision);
  }

  /** A guest-mode retake: the same course entered twice without creation
      times, stamped with clock readings t1 and then t2. When both readings
      fall in the same instant the tie keeps the first-listed attempt; when
      the second reading is later, an eligible second attempt replaces it. */
  lemma UnstampedRetakeFollowsClock(first: EnrollmentInput, second: EnrollmentInput, t1: int, t2: int)
    requires first.createdAt.None? && second.createdAt.None?
    requires first.courseCode == second.courseCode
    requires Eligible(ToEnrollmentCalc(first, t1)) && t1 <= t2
    ensures var a := ToEnrollmentCalc(first, t1);
            var b := ToEnrollmentCalc(second, t2);
            var kept := LatestAttempts([a, b]).entries;
            && first.courseCode in kept
            && (t1 == t2 ==> kept[first.courseCode] == a)
            && (t1 < t2 && Eligible(b) ==> kept[first.courseCode] == b)
            && (!Eligible(b) ==> kept[first.courseCode] == a)
  {
    var a := ToEnrollmentCalc(first, t1);
    var b := ToEnrollmentCalc(second, t2);
    assert [a, b][..1] == [a];
    assert [a][..0] == [];
    assert LatestAttempts([a]) == AttemptMap(map[a.courseCode := a], [a.courseCode]);
  }
}
