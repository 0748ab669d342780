/** The server's grade resolution and the per-entry part of enrollment
    normalisation. The grade scale, the linked courses (by id) and the
    settings, which the server loads from its database, are inputs. */
module GradeResolver {
  import opened Optional
  import GpaCalculator

  /** One row of the grade scale. */
  datatype GradeScaleEntry = GradeScaleEntry(
    letter: string,
    minPercentage: real,
    maxPercentage: real,
    gradePoint: real,
    isSpecial: bool)

  datatype CourseCategory = Core | Elective | Major | Minor | Lab | GED

  /** A catalogue course an enrollment can link to. */
  datatype Course = Course(
    code: string,
    title: string,
    credits: real,
    category: CourseCategory,
    countsTowardsCGPA: bool,
    countsTowardsCredits: bool)

  /** The settings singleton. */
  datatype Settings = Settings(cgpaPrecision: nat, labCountsTowardsCGPA: bool, labCountsTowardsCredits: bool)

  /** An enrollment entry as submitted; `None` is an absent field. */
  datatype EnrollmentEntry = EnrollmentEntry(
    course: Option<string>,
    courseCode: string,
    courseTitle: string,
    credits: real,
    gradeLetter: Option<string>,
    gradePoint: real,
    percentage: Option<real>,
    inputMethod: Option<string>,
    countsTowardsCGPA: Option<bool>,
    countsTowardsCredits: Option<bool>)

  /** What `resolveGradePoint` returns. */
  datatype Resolution = Resolution(gradePoint: real, gradeLetter: Option<string>)

  /** A normalised enrollment, as stored in a semester. */
  datatype Enrollment = Enrollment(
    course: Option<string>,
    courseCode: string,
    courseTitle: string,
    credits: real,
    gradeLetter: Option<string>,
    gradePoint: real,
    percentage: Option<real>,
    inputMethod: string,
    countsTowardsCGPA: bool,
    countsTowardsCredits: bool)

  // ---------------------------------------------------------------------
  // Upper case

  /** `toUpperCase` on one character (ASCII letters only). */
  function UpperChar(c: char): char
  {
    if 'a' <= c <= 'z' then (c as int - 32) as char else c
  }

  function Upper(s: string): (r: string)
    ensures |r| == |s|
  {
    seq(|s|, i requires 0 <= i < |s| => UpperChar(s[i]))
  }

  /** Upper-casing twice is upper-casing once. */
  lemma UpperIdempotent(s: string)
    ensures Upper(Upper(s)) == Upper(s)
  {
  }

  /** A string is truthy when it is present and not empty. */
  predicate Truthy(s: Option<string>)
  {
    s.Some? && s.value != ""
  }

  // ---------------------------------------------------------------------
  // First-match lookups (`Array.find`)

  predicate LetterMatches(g: GradeScaleEntry, letter: string)
  {
    Upper(g.letter) == Upper(letter)
  }

  predicate BandContains(g: GradeScaleEntry, percentage: real)
  {
    !g.isSpecial && g.minPercentage <= percentage <= g.maxPercentage
  }

  /** The index of the first row whose letter equals `letter` ignoring case. */
  function FindLetter(scale: seq<GradeScaleEntry>, letter: string): (r: Option<nat>)
    ensures r.Some? ==> r.value < |scale| && LetterMatches(scale[r.value], letter)
    ensures r.Some? ==> forall j :: 0 <= j < r.value ==> !LetterMatches(scale[j], letter)
    ensures r.None? ==> forall j :: 0 <= j < |scale| ==> !LetterMatches(scale[j], letter)
  {
    if scale == [] then None
    else if LetterMatches(scale[0], letter) then Some(0)
    else match FindLetter(scale[1..], letter)
      case None => None
      case Some(k) => Some(k + 1)
  }

  /** The index of the first ordinary row whose band holds `percentage`,
      both ends included. */
  function FindBand(scale: seq<GradeScaleEntry>, percentage: real): (r: Option<nat>)
    ensures r.Some? ==> r.value < |scale| && BandContains(scale[r.value], percentage)
    ensures r.Some? ==> forall j :: 0 <= j < r.value ==> !BandContains(scale[j], percentage)
    ensures r.None? ==> forall j :: 0 <= j < |scale| ==> !BandContains(scale[j], percentage)
  {
    if scale == [] then None
    else if BandContains(scale[0], percentage) then Some(0)
    else match FindBand(scale[1..], percentage)
      case None => None
      case Some(k) => Some(k + 1)
  }

  // ---------------------------------------------------------------------
  // resolveGradePoint

  /** `resolveGradePoint`: points pass through; a letter is looked up
      ignoring case; a percentage picks the first ordinary band holding it;
      anything else gives grade point 0 and keeps the entry's letter. */
  function ResolveGradePoint(entry: EnrollmentEntry, scale: seq<GradeScaleEntry>): (r: Resolution)
    ensures entry.inputMethod == Some("points") ==>
              r == Resolution(entry.gradePoint, entry.gradeLetter)
    ensures entry.inputMethod == Some("letter") && Truthy(entry.gradeLetter) ==>
              && r.gradeLetter == Some(Upper(entry.gradeLetter.value))
              && (if exists j :: 0 <= j < |scale| && LetterMatches(scale[j], entry.gradeLetter.value)
                  then exists j :: 0 <= j < |scale| && LetterMatches(scale[j], entry.gradeLetter.value)
                         && r.gradePoint == scale[j].gradePoint
                         && forall k :: 0 <= k < j ==> !LetterMatches(scale[k], entry.gradeLetter.value)
                  else r.gradePoint == 0.0)
    ensures entry.inputMethod == Some("percentage") && entry.percentage.Some? ==>
              if exists j :: 0 <= j < |scale| && BandContains(scale[j], entry.percentage.value)
              then exists j :: 0 <= j < |scale| && BandContains(scale[j], entry.percentage.value)
                     && r == Resolution(scale[j].gradePoint, Some(scale[j].letter))
                     && forall k :: 0 <= k < j ==> !BandContains(scale[k], entry.percentage.value)
              else r == Resolution(0.0, entry.gradeLetter)
    ensures entry.inputMethod !in {Some("points"), Some("letter"), Some("percentage")} ==>
              r == Resolution(0.0, entry.gradeLetter)
    ensures entry.inputMethod == Some("letter") && !Truthy(entry.gradeLetter) ==>
              r == Resolution(0.0, entry.gradeLetter)
    ensures entry.inputMethod == Some("percentage") && entry.percentage.None? ==>
              r == Resolution(0.0, entry.gradeLetter)
  {
    if entry.inputMethod == Some("points") then
      Resolution(entry.gradePoint, entry.gradeLetter)
    else if entry.inputMethod == Some("letter") && Truthy(entry.gradeLetter) then
      var letter := entry.gradeLetter.value;
      var found := FindLetter(scale, letter);
      Resolution(if found.Some? then scale[found.value].gradePoint else 0.0, Some(Upper(letter)))
    else if entry.inputMethod == Some("percentage") && entry.percentage.Some?
            && FindBand(scale, entry.percentage.value).Some? then
      var g := scale[FindBand(scale, entry.percentage.value).value];
      Resolution(g.gradePoint, Some(g.letter))
    else
      Resolution(0.0, entry.gradeLetter)
  }

  /** Letter input is case-insensitive: letters that agree ignoring case
      resolve to the same grade point and the same stored letter. */
  lemma LetterInputIgnoresCase(entry: EnrollmentEntry, scale: seq<GradeScaleEntry>, a: string, b: string)
    requires entry.inputMethod == Some("letter") && a != "" && b != ""
    requires Upper(a) == Upper(b)
    ensures ResolveGradePoint(entry.(gradeLetter := Some(a)), scale)
         == ResolveGradePoint(entry.(gradeLetter := Some(b)), scale)
  {
  }

  // ---------------------------------------------------------------------
  // Per-entry normalisation

  /** The settings a fresh installation creates. */
  const DefaultSettings := Settings(10, false, true)

  /** The course an entry links to: its `course` id is set and names a
      known course. */
  function LinkedCourse(entry: EnrollmentEntry, courses: map<string, Course>): (r: Option<Course>)
    ensures r.Some? <==> Truthy(entry.course) && entry.course.value in courses
    ensures r.Some? ==> r.value == courses[entry.course.value]
  {
    if Truthy(entry.course) && entry.course.value in courses then Some(courses[entry.course.value]) else None
  }

  predicate IsLab(course: Option<Course>)
  {
    course.Some? && course.value.category == Lab
  }

  /** A counting flag: the entry's own value when present, else the linked
      course's, else true. */
  function ResolveFlag(explicit: Option<bool>, course: Option<Course>, courseFlag: Course -> bool): bool
  {
    if explicit.Some? then explicit.value else if course.Some? then courseFlag(course.value) else true
  }

  /** One entry of `normalizeEnrollments`. */
  function NormalizeEntry(entry: EnrollmentEntry, scale: seq<GradeScaleEntry>,
                          courses: map<string, Course>, settings: Settings): (r: Enrollment)
    ensures var course := LinkedCourse(entry, courses);
            && r.course == entry.course && r.percentage == entry.percentage
            && (course.Some? ==> r.courseCode == course.value.code && r.courseTitle == course.value.title
                                 && r.credits == course.value.credits)
            && (course.None? ==> r.courseCode == entry.courseCode && r.courseTitle == entry.courseTitle
                                 && r.credits == entry.credits)
    ensures var res := ResolveGradePoint(entry, scale);
            && r.gradePoint == res.gradePoint
            && r.gradeLetter == if Truthy(res.gradeLetter) then res.gradeLetter else entry.gradeLetter
    ensures r.inputMethod == if Truthy(entry.inputMethod) then entry.inputMethod.value else "letter"
    ensures IsLab(LinkedCourse(entry, courses)) ==>
              r.countsTowardsCGPA == settings.labCountsTowardsCGPA
              && r.countsTowardsCredits == settings.labCountsTowardsCredits
    ensures !IsLab(LinkedCourse(entry, courses)) && entry.countsTowardsCGPA.Some? ==>
              r.countsTowardsCGPA == entry.countsTowardsCGPA.value
    ensures !IsLab(LinkedCourse(entry, courses)) && entry.countsTowardsCredits.Some? ==>
              r.countsTowardsCredits == entry.countsTowardsCredits.value
    ensures !IsLab(LinkedCourse(entry, courses)) && entry.countsTowardsCGPA.None? ==>
              r.countsTowardsCGPA == (LinkedCourse(entry, courses).None? || LinkedCourse(entry, courses).value.countsTowardsCGPA)
    ensures !IsLab(LinkedCourse(entry, courses)) && entry.countsTowardsCredits.None? ==>
              r.countsTowardsCredits == (LinkedCourse(entry, courses).None? || LinkedCourse(entry, courses).value.countsTowardsCredits)
  {
    var course := LinkedCourse(entry, courses);
    var res := ResolveGradePoint(entry, scale);
    var countsTowardsCGPA := ResolveFlag(entry.countsTowardsCGPA, course, (c: Course) => c.countsTowardsCGPA);
    var countsTowardsCredits := ResolveFlag(entry.countsTowardsCredits, course, (c: Course) => c.countsTowardsCredits);
    var isLab := IsLab(course);
    Enrollment(
      entry.course,
      if course.Some? then course.value.code else entry.courseCode,
      if course.Some? then course.value.title else entry.courseTitle,
      if course.Some? then course.value.credits else entry.credits,
      if Truthy(res.gradeLetter) then res.gradeLetter else entry.gradeLetter,
      res.gradePoint,
      entry.percentage,
      if Truthy(entry.inputMethod) then entry.inputMethod.value else "letter",
      if isLab then settings.labCountsTowardsCGPA else countsTowardsCGPA,
      if isLab then settings.labCountsTowardsCredits else countsTowardsCredits)
  }

  /** `normalizeEnrollments`: one normalised enrollment per entry, in order. */
  function NormalizeEnrollments(entries: seq<EnrollmentEntry>, scale: seq<GradeScaleEntry>,
                                courses: map<string, Course>, settings: Settings): (r: seq<Enrollment>)
    ensures |r| == |entries|
    ensures forall i :: 0 <= i < |entries| ==> r[i] == NormalizeEntry(entries[i], scale, courses, settings)
  {
    seq(|entries|, i requires 0 <= i < |entries| => NormalizeEntry(entries[i], scale, courses, settings))
  }

  /** The lab override is unconditional: whatever flags a lab entry states,
      it is stored with the settings' lab flags. */
  lemma LabOverrideIgnoresExplicitFlags(entry: EnrollmentEntry, cgpa: Option<bool>, credits: Option<bool>,
                                        scale: seq<GradeScaleEntry>, courses: map<string, Course>, settings: Settings)
    requires IsLab(LinkedCourse(entry, courses))
    ensures var a := NormalizeEntry(entry, scale, courses, settings);
            var b := NormalizeEntry(entry.(countsTowardsCGPA := cgpa, countsTowardsCredits := credits),
                                    scale, courses, settings);
            a == b
  {
  }

  /** In letter mode with a letter given, the stored letter is that letter
      upper-cased. */
  lemma LetterModeStoresUpperCase(entry: EnrollmentEntry, scale: seq<GradeScaleEntry>,
                                  courses: map<string, Course>, settings: Settings)
    requires entry.inputMethod == Some("letter") && Truthy(entry.gradeLetter)
    ensures NormalizeEntry(entry, scale, courses, settings).gradeLetter == Some(Upper(entry.gradeLetter.value))
  {
  }

  // ---------------------------------------------------------------------
  // Stored enrollments to calculator input

  /** A stored enrollment with the creation time the database gave it. */
  datatype StoredEnrollment = StoredEnrollment(enrollment: Enrollment, createdAt: int)

  datatype StoredSemester = StoredSemester(termName: string, enrollments: seq<StoredEnrollment>)

  function ForCalc(stored: StoredEnrollment): (r: GpaCalculator.EnrollmentForCalc)
    ensures var e := stored.enrollment;
            && r.courseCode == e.courseCode && r.gradePoint == e.gradePoint && r.credits == e.credits
            && r.countsTowardsCGPA == e.countsTowardsCGPA && r.countsTowardsCredits == e.countsTowardsCredits
            && r.createdAt == stored.createdAt
  {
    var e := stored.enrollment;
    GpaCalculator.EnrollmentForCalc(e.courseCode, e.gradePoint, e.credits, e.countsTowardsCGPA,
                                    e.countsTowardsCredits, stored.createdAt)
  }

  /** The calculator input built from stored semesters: every semester and
      every enrollment, in order, with only the fields the calculator reads. */
  function CalcInput(semesters: seq<StoredSemester>): (r: seq<GpaCalculator.SemesterForCalc>)
    ensures |r| == |semesters|
    ensures forall i :: 0 <= i < |semesters| ==>
              r[i].termName == semesters[i].termName && |r[i].enrollments| == |semesters[i].enrollments|
              && forall j :: 0 <= j < |semesters[i].enrollments| ==>
                   r[i].enrollments[j] == ForCalc(semesters[i].enrollments[j])
  {
    seq(|semesters|, i requires 0 <= i < |semesters| =>
      GpaCalculator.SemesterForCalc(semesters[i].termName,
        seq(|semesters[i].enrollments|, j requires 0 <= j < |semesters[i].enrollments| =>
          ForCalc(semesters[i].enrollments[j]))))
  }

  /** Under the default settings a linked lab is stored counting towards
      credits but not CGPA, whatever the entry says: it adds no points and
      no semester credits, but adds its course credits to the cumulative
      credit total. */
  lemma DefaultLabEarnsCreditsOnly(entry: EnrollmentEntry, scale: seq<GradeScaleEntry>,
                                   courses: map<string, Course>, createdAt: int)
    requires IsLab(LinkedCourse(entry, courses))
    ensures var e := ForCalc(StoredEnrollment(NormalizeEntry(entry, scale, courses, DefaultSettings), createdAt));
            && GpaCalculator.Points(e) == 0.0 && GpaCalculator.GpaCredits(e) == 0.0
            && GpaCalculator.EarnedCredits(e) == courses[entry.course.value].credits
            && GpaCalculator.Eligible(e)
  {
  }

  // ---------------------------------------------------------------------
  // Worked scenarios over the default grade scale

  /** The grade scale a fresh installation is seeded with. */
  function SeedScale(): seq<GradeScaleEntry>
  {
    [ GradeScaleEntry("A+", 97.0, 100.0, 4.0, false),
      GradeScaleEntry("A", 90.0, 96.0, 4.0, false),
      GradeScaleEntry("A-", 85.0, 89.99, 3.7, false),
      GradeScaleEntry("B+", 80.0, 84.99, 3.3, false),
      GradeScaleEntry("B", 75.0, 79.99, 3.0, false),
      GradeScaleEntry("B-", 70.0, 74.99, 2.7, false),
      GradeScaleEntry("C+", 65.0, 69.99, 2.3, false),
      GradeScaleEntry("C", 60.0, 64.99, 2.0, false),
      GradeScaleEntry("C-", 57.0, 59.99, 1.7, false),
      GradeScaleEntry("D+", 55.0, 56.99, 1.3, false),
      GradeScaleEntry("D", 52.0, 54.99, 1.0, false),
      GradeScaleEntry("D-", 50.0, 51.99, 0.7, false),
      GradeScaleEntry("F", 0.0, 49.99, 0.0, false),
      GradeScaleEntry("W", 0.0, 100.0, 0.0, true),
      GradeScaleEntry("I", 0.0, 100.0, 0.0, true) ]
  }

  function PercentageEntry(p: real): EnrollmentEntry
  {
    EnrollmentEntry(None, "CSE110", "Programming Language I", 3.0, None, 0.0, Some(p), Some("percentage"), None, None)
  }

  /** A percentage entry resolves to the grade point and letter of the row
      the band lookup finds. */
  lemma PercentageResolvesToRow(p: real, scale: seq<GradeScaleEntry>, k: nat)
    requires FindBand(scale, p) == Some(k)
    ensures k < |scale|
    ensures ResolveGradePoint(PercentageEntry(p), scale) == Resolution(scale[k].gradePoint, Some(scale[k].letter))
  {
  }

  /** A percentage in the A- band [85, 89.99] of the seeded scale is found
      at row 2, after the A+ and A rows reject it. */
  lemma SeedBandAMinus(p: real)
    requires 85.0 <= p <= 89.99
    ensures FindBand(SeedScale(), p) == Some(2)
  {
    var s := SeedScale();
    assert BandContains(s[2], p);
    assert FindBand(s[2..], p) == Some(0);
    assert s[1..][1..] == s[2..];
    assert !BandContains(s[1], p);
    assert FindBand(s[1..], p) == Some(1);
    assert !BandContains(s[0], p);
  }

  /** 87% falls in the A- band [85, 89.99]: grade point 3.7, letter A-. */
  lemma EightySevenPercentIsAMinus()
    ensures ResolveGradePoint(PercentageEntry(87.0), SeedScale()) == Resolution(3.7, Some("A-"))
  {
    SeedBandAMinus(87.0);
    PercentageResolvesToRow(87.0, SeedScale(), 2);
  }

  /** Band ends are inclusive: 89.99 is still A-. */
  lemma BandUpperEndIsInclusive()
    ensures ResolveGradePoint(PercentageEntry(89.99), SeedScale()) == Resolution(3.7, Some("A-"))
  {
    SeedBandAMinus(89.99);
    PercentageResolvesToRow(89.99, SeedScale(), 2);
  }

  /** The seeded bands leave gaps between a band's upper end and the next
      band's lower end: 89.995% lies in no ordinary band (the special W
      and I rows are skipped), so it resolves to grade point 0. */
  lemma SeedScaleGapResolvesToZero()
    ensures ResolveGradePoint(PercentageEntry(89.995), SeedScale()) == Resolution(0.0, None)
  {
    var s := SeedScale();
    assert forall j :: 0 <= j < |s| ==> !BandContains(s[j], 89.995);
  }

  /** The first seeded row matching b+ ignoring case is B+, the fourth. */
  lemma FindLowerCaseBPlus()
    ensures FindLetter(SeedScale(), "b+") == Some(3)
  {
    var s := SeedScale();
    UpperBPlus();
    assert LetterMatches(s[3], "b+");
    assert FindLetter(s[3..], "b+") == Some(0);
    assert s[2..][1..] == s[3..] && s[1..][1..] == s[2..];
    assert Upper("b+")[0] == 'B';
    assert Upper(s[0].letter)[0] == 'A' && Upper(s[1].letter)[0] == 'A' && Upper(s[2].letter)[0] == 'A';
    assert FindLetter(s[2..], "b+") == Some(1);
    assert FindLetter(s[1..], "b+") == Some(2);
  }

  /** A lower-case letter finds its row and is stored upper-cased. */
  lemma LowerCaseLetterResolves()
    ensures var entry := EnrollmentEntry(None, "CSE110", "Programming Language I", 3.0, Some("b+"),
                                         0.0, None, Some("letter"), None, None);
            ResolveGradePoint(entry, SeedScale()) == Resolution(3.3, Some("B+"))
  {
    var entry := EnrollmentEntry(None, "CSE110", "Programming Language I", 3.0, Some("b+"),
                                 0.0, None, Some("letter"), None, None);
    FindLowerCaseBPlus();
    UpperBPlus();
    LetterResolvesToRow(entry, SeedScale(), 3);
  }

  /** A letter entry resolves to the grade point of the row the letter
      lookup finds, and stores the letter upper-cased. */
  lemma LetterResolvesToRow(entry: EnrollmentEntry, scale: seq<GradeScaleEntry>, k: nat)
    requires entry.inputMethod == Some("letter") && Truthy(entry.gradeLetter)
    requires FindLetter(scale, entry.gradeLetter.value) == Some(k)
    ensures k < |scale|
    ensures ResolveGradePoint(entry, scale) == Resolution(scale[k].gradePoint, Some(Upper(entry.gradeLetter.value)))
  {
    assert entry.inputMethod != Some("points");
  }

  lemma UpperBPlus()
    ensures Upper("b+") == "B+"
  {
    assert UpperChar('b') == 'B';
  }

  /** A linked lab entry that asks to count towards CGPA is stored, under
      the default settings, counting towards credits only. */
  lemma LabEntryOverridden()
    ensures var lab := Course("CSE110L", "Programming Language I Lab", 1.0, Lab, true, true);
            var entry := EnrollmentEntry(Some("lab-id"), "", "", 0.0, None, 4.0, None, Some("points"),
                                         Some(true), Some(true));
            var r := NormalizeEntry(entry, SeedScale(), map["lab-id" := lab], DefaultSettings);
            r == Enrollment(Some("lab-id"), "CSE110L", "Programming Language I Lab", 1.0, None, 4.0, None,
                            "points", false, true)
  {
  }
}
