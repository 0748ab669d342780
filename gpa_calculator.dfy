/** The server's grade aggregator: per-semester GPA and the cumulative CGPA
    with latest-attempt retake resolution. Grade points and credits are
    reals, timestamps are integers. */
module GpaCalculator {
  import opened Rounding

  /** One resolved course attempt, as handed to the calculator. */
  datatype EnrollmentForCalc = EnrollmentForCalc(
    courseCode: string,
    gradePoint: real,
    credits: real,
    countsTowardsCGPA: bool,
    countsTowardsCredits: bool,
    createdAt: int)

  datatype SemesterForCalc = SemesterForCalc(termName: string, enrollments: seq<EnrollmentForCalc>)

  /** What `computeSemesterGPA` returns. */
  datatype SemesterGpa = SemesterGpa(gpa: real, credits: real)

  /** One row of `perSemester`. */
  datatype SemesterLine = SemesterLine(termName: string, gpa: real, credits: real)

  /** The cumulative part of the summary, computed from the latest attempts. */
  datatype Cumulative = Cumulative(cgpa: real, totalCredits: real, totalCourses: nat)

  datatype Summary = Summary(cgpa: real, totalCredits: real, totalCourses: nat, perSemester: seq<SemesterLine>)

  // ---------------------------------------------------------------------
  // Weights and sums

  /** gradePoint × credits when the attempt counts towards CGPA, else 0. */
  function Points(e: EnrollmentForCalc): real
  {
    if e.countsTowardsCGPA then e.gradePoint * e.credits else 0.0
  }

  /** credits when the attempt counts towards credits, else 0 (the
      cumulative credit rule). */
  function EarnedCredits(e: EnrollmentForCalc): real
  {
    if e.countsTowardsCredits then e.credits else 0.0
  }

  /** credits when the attempt counts towards CGPA and towards credits, else 0
      (the per-semester credit rule). */
  function GpaCredits(e: EnrollmentForCalc): real
  {
    if e.countsTowardsCGPA && e.countsTowardsCredits then e.credits else 0.0
  }

  /** The sum of a weight over a sequence of attempts, added left to right. */
  function Total(es: seq<EnrollmentForCalc>, w: EnrollmentForCalc -> real): real
    decreases |es|
  {
    if es == [] then 0.0 else Total(es[..|es| - 1], w) + w(es[|es| - 1])
  }

  /** The zero-credit guard: the rounded ratio when credits are positive,
      otherwise 0. */
  function GuardedAverage(points: real, credits: real, precision: nat): real
  {
    if credits > 0.0 then RoundHalfUp(points / credits, precision) else 0.0
  }

  /** What `computeSemesterGPA` computes for one semester. */
  function SemesterSpec(semester: SemesterForCalc, precision: nat): SemesterGpa
  {
    var credits := Total(semester.enrollments, GpaCredits);
    SemesterGpa(GuardedAverage(Total(semester.enrollments, Points), credits, precision), credits)
  }

  function Line(semester: SemesterForCalc, precision: nat): SemesterLine
  {
    var g := SemesterSpec(semester, precision);
    SemesterLine(semester.termName, g.gpa, g.credits)
  }

  // ---------------------------------------------------------------------
  // The latest-attempt map

  /** A JavaScript `Map` from course code to attempt: its entries, and its
      keys in insertion order, which is the order `forEach` visits them. */
  datatype AttemptMap = AttemptMap(entries: map<string, EnrollmentForCalc>, keys: seq<string>)
  {
    /** `keys` lists exactly the keys of `entries`; with the sizes equal,
        no key is listed twice. */
    ghost predicate Valid()
    {
      && (forall k :: k in keys <==> k in entries)
      && |entries| == |keys|
    }

    /** `map.size` */
    function Size(): nat
    {
      |entries|
    }

    /** `map.set(k, v)`: overwriting keeps the key's position, a new key
        goes last. */
    function Set(k: string, v: EnrollmentForCalc): (r: AttemptMap)
      requires Valid()
      ensures r.Valid() && r.entries == entries[k := v]
    {
      if k in entries then AttemptMap(entries[k := v], keys)
      else AttemptMap(entries[k := v], keys + [k])
    }

    /** The values in `forEach` order. */
    function Values(): (vs: seq<EnrollmentForCalc>)
      requires Valid()
      ensures |vs| == |keys|
      ensures forall i :: 0 <= i < |keys| ==> keys[i] in entries && vs[i] == entries[keys[i]]
    {
      seq(|keys|, i requires 0 <= i < |keys| => entries[keys[i]])
    }
  }

  const EmptyAttempts := AttemptMap(map[], [])

  /** An attempt takes part in retake resolution when it counts towards CGPA
      or towards credits. */
  predicate Eligible(e: EnrollmentForCalc)
  {
    e.countsTowardsCGPA || e.countsTowardsCredits
  }

  /** One step of the scan: an eligible attempt replaces the stored one for
      its course only when the stored one is strictly older. */
  function Record(m: AttemptMap, e: EnrollmentForCalc): (r: AttemptMap)
    requires m.Valid()
    ensures r.Valid()
  {
    if !Eligible(e) then m
    else if e.courseCode !in m.entries || m.entries[e.courseCode].createdAt < e.createdAt then
      m.Set(e.courseCode, e)
    else m
  }

  /** The latest-attempt map after scanning `es` in order. */
  function LatestAttempts(es: seq<EnrollmentForCalc>): (r: AttemptMap)
    ensures r.Valid()
    decreases |es|
  {
    if es == [] then EmptyAttempts else Record(LatestAttempts(es[..|es| - 1]), es[|es| - 1])
  }

  /** Every enrollment of every semester, semester by semester. */
  function AllEnrollments(semesters: seq<SemesterForCalc>): seq<EnrollmentForCalc>
    decreases |semesters|
  {
    if semesters == [] then []
    else AllEnrollments(semesters[..|semesters| - 1]) + semesters[|semesters| - 1].enrollments
  }

  /** The cumulative figures of a scan over `es`. */
  function CumulativeSpec(es: seq<EnrollmentForCalc>, precision: nat): Cumulative
  {
    var latest := LatestAttempts(es);
    var kept := latest.Values();
    var credits := Total(kept, EarnedCredits);
    Cumulative(GuardedAverage(Total(kept, Points), credits, precision), credits, latest.Size())
  }

  /** What `computeCGPA` computes. */
  function SummarySpec(semesters: seq<SemesterForCalc>, precision: nat): Summary
  {
    var c := CumulativeSpec(AllEnrollments(semesters), precision);
    Summary(c.cgpa, c.totalCredits, c.totalCourses,
            seq(|semesters|, i requires 0 <= i < |semesters| => Line(semesters[i], precision)))
  }

  /** Unfolding steps the loops below use. */
  lemma TotalStep(es: seq<EnrollmentForCalc>, i: nat, w: EnrollmentForCalc -> real)
    requires i < |es|
    ensures Total(es[..i + 1], w) == Total(es[..i], w) + w(es[i])
  {
    assert es[..i + 1][..i] == es[..i];
  }

  lemma LatestAttemptsStep(scanned: seq<EnrollmentForCalc>, e: EnrollmentForCalc)
    ensures LatestAttempts(scanned + [e]) == Record(LatestAttempts(scanned), e)
  {
  }

  lemma PrefixStep(before: seq<EnrollmentForCalc>, es: seq<EnrollmentForCalc>, j: nat)
    requires j < |es|
    ensures before + es[..j + 1] == (before + es[..j]) + [es[j]]
  {
  }

  lemma AllEnrollmentsStep(semesters: seq<SemesterForCalc>, i: nat)
    requires i < |semesters|
    ensures AllEnrollments(semesters[..i + 1]) == AllEnrollments(semesters[..i]) + semesters[i].enrollments
  {
    assert semesters[..i + 1][..i] == semesters[..i];
  }

  // ---------------------------------------------------------------------
  // The calculator

  /** `computeSemesterGPA`: points over the attempts that count towards
      CGPA, credits over those that count towards CGPA and credits, and the
      guarded, rounded ratio. */
  method ComputeSemesterGPA(semester: SemesterForCalc, precision: nat) returns (result: SemesterGpa)
    ensures result == SemesterSpec(semester, precision)
  {
    var es := semester.enrollments;
    var totalPoints, totalCredits := 0.0, 0.0;
    for i := 0 to |es|
      invariant totalPoints == Total(es[..i], Points)
      invariant totalCredits == Total(es[..i], GpaCredits)
    {
      TotalStep(es, i, Points);
      TotalStep(es, i, GpaCredits);
      var e := es[i];
      if e.countsTowardsCGPA {
        totalPoints := totalPoints + e.gradePoint * e.credits;
        if e.countsTowardsCredits {
          totalCredits := totalCredits + e.credits;
        }
      }
    }
    assert es[..|es|] == es;
    var gpa := if totalCredits > 0.0 then RoundHalfUp(totalPoints / totalCredits, precision) else 0.0;
    result := SemesterGpa(gpa, totalCredits);
  }

  /** The scan of `computeCGPA` that fills `latestAttemptByCourse`: every
      enrollment of every semester, in order; an attempt with neither flag is
      skipped, and an attempt replaces the stored one for its course code only
      when the stored one has a strictly smaller `createdAt`. */
  method ScanLatestAttempts(semesters: seq<SemesterForCalc>) returns (latest: AttemptMap)
    ensures latest == LatestAttempts(AllEnrollments(semesters))
  {
    latest := EmptyAttempts;
    for i := 0 to |semesters|
      invariant latest == LatestAttempts(AllEnrollments(semesters[..i]))
    {
      var es := semesters[i].enrollments;
      ghost var before := AllEnrollments(semesters[..i]);
      assert before + es[..0] == before;
      for j := 0 to |es|
        invariant latest == LatestAttempts(before + es[..j])
      {
        var e := es[j];
        LatestAttemptsStep(before + es[..j], e);
        PrefixStep(before, es, j);
        if e.countsTowardsCGPA || e.countsTowardsCredits {
          if e.courseCode !in latest.entries || latest.entries[e.courseCode].createdAt < e.createdAt {
            latest := latest.Set(e.courseCode, e);
          }
        }
      }
      assert es[..|es|] == es;
      AllEnrollmentsStep(semesters, i);
    }
    assert semesters[..|semesters|] == semesters;
  }

  /** The cumulative sums of `computeCGPA`, over the kept attempts in the
      map's `forEach` order: points over those that count towards CGPA,
      credits over those that count towards credits (not nested inside the
      CGPA filter). */
  method SumKeptAttempts(kept: seq<EnrollmentForCalc>) returns (totalPoints: real, totalCredits: real)
    ensures totalPoints == Total(kept, Points)
    ensures totalCredits == Total(kept, EarnedCredits)
  {
    assert kept[..0] == [];
    totalPoints, totalCredits := 0.0, 0.0;
    for k := 0 to |kept|
      invariant totalPoints == Total(kept[..k], Points)
      invariant totalCredits == Total(kept[..k], EarnedCredits)
    {
      TotalStep(kept, k, Points);
      TotalStep(kept, k, EarnedCredits);
      var e := kept[k];
      if e.countsTowardsCGPA {
        totalPoints := totalPoints + e.gradePoint * e.credits;
      }
      if e.countsTowardsCredits {
        totalCredits := totalCredits + e.credits;
      }
    }
    assert kept[..|kept|] == kept;
  }

  /** `computeCGPA`: the per-semester rows, then the latest-attempt scan,
      then the cumulative sums over the kept attempts in the map's order. */
  method ComputeCGPA(semesters: seq<SemesterForCalc>, precision: nat) returns (summary: Summary)
    ensures summary == SummarySpec(semesters, precision)
  {
    var perSemester: seq<SemesterLine> := [];
    for i := 0 to |semesters|
      invariant |perSemester| == i
      invariant forall k :: 0 <= k < i ==> perSemester[k] == Line(semesters[k], precision)
    {
      var g := ComputeSemesterGPA(semesters[i], precision);
      perSemester := perSemester + [SemesterLine(semesters[i].termName, g.gpa, g.credits)];
    }

    var latest := ScanLatestAttempts(semesters);
    var totalPoints, totalCredits := SumKeptAttempts(latest.Values());

    var cgpa := if totalCredits > 0.0 then RoundHalfUp(totalPoints / totalCredits, precision) else 0.0;
    summary := Summary(cgpa, totalCredits, latest.Size(), perSemester);
  }
}
