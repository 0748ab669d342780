# CGPA aggregation engine: a Dafny model

This project models the grade-aggregation engine of a CGPA calculator. The engine turns a student's enrollment records into a GPA per semester and a cumulative CGPA. Retakes of a course are resolved by keeping the latest attempt. The model covers three source files:

- `backend/src/services/gpaCalculator.ts`: the server aggregator. It has three parts:
  - `roundHalfUp`;
  - `computeSemesterGPA`;
  - `computeCGPA`, which computes the per-semester rows, builds the course-code → latest-attempt map, and forms the cumulative sums with the zero-credit guard.
- `frontend/lib/gpa.ts`: the client's copy of the aggregator, used in guest mode. It adds `toEnrollmentCalc`, which stamps an attempt that has no creation time with the current time.
- `backend/src/controllers/semesterController.ts`: grade resolution and the per-entry part of enrollment normalisation.
  - `resolveGradePoint` handles points, letter and percentage input, with first-match lookups in the grade scale.
  - The per-entry logic of `normalizeEnrollments` resolves the two counting flags, applies the lab override, and adopts fields from the linked course.
  - The projection of stored semesters into calculator input is also modelled.

Modules:

- `Rounding` (`rounding.dfy`): half-up rounding to `precision` decimal places, over reals.
- `GpaCalculator` (`gpa_calculator.dfy`): the server calculator.
  - Specification functions: `SemesterSpec`, `LatestAttempts`, `CumulativeSpec` and `SummarySpec`.
  - Imperative methods verified against them. `computeCGPA` is split into `ScanLatestAttempts`, `SumKeptAttempts` and `ComputeCGPA`, following the three phases of the source.
  - A JavaScript `Map` is modelled as `AttemptMap`: an entries map plus the keys in insertion order. `forEach` visits values in that order.
- `GpaProperties` (`gpa_properties.dfy`): what the aggregation promises, proved about the specification functions, plus worked scenarios.
- `ClientGpa` (`client_gpa.dfy`): `computeSummary` and client/server parity.
  - The client's final summing loop is the same loop as the server's. It is modelled by `GpaCalculator.SumKeptAttempts`.
- `GradeResolver` (`grade_resolver.dfy`): grade resolution, per-entry normalisation, and the stored-to-calculator projection.
- `Optional` (`optional.dfy`): an `Option` type for absent fields.

Four behaviours the proofs make explicit:

- The cumulative credit total is not nested inside the CGPA filter. An attempt that counts towards credits but not towards CGPA adds credits to the CGPA's denominator and no points to its numerator. Under the default settings this is the case for a lab, and it lowers the CGPA. `LabCreditsDiluteCgpa` shows a 4.0 course with a 4.0 lab giving a CGPA of 3.00. `CgpaWithinGradeRange` proves the weighted-mean bound only when the two flags agree on every eligible attempt.
- Ties in `createdAt` keep the attempt scanned first, because the comparison is a strict `<`. On the client, an attempt without a creation time is stamped with the clock reading taken when the scan reaches it. When the second of two unstamped attempts at one course is eligible, the first-listed one is kept only when both readings fall in the same instant, and a later second reading keeps the second. An ineligible second attempt never replaces the first, whatever the readings (`UnstampedRetakeFollowsClock`).
- The per-semester credit sum needs both flags, but the points need only the CGPA flag. An attempt that counts towards CGPA but not towards credits adds points without credits, which pushes the GPA above the grade range: `CreditlessCgpaAttemptInflatesGpa` shows two 4.0 courses, one with its credit flag off, giving a GPA and a CGPA of 8.00. This is why `SemesterGpaWithinGradeRange` and `CgpaWithinGradeRange` carry their hypotheses on the flags.
- The seeded grade scale has gaps between bands, for example between 89.99 and 90. A percentage inside a gap matches no ordinary band and resolves to grade point 0 (`SeedScaleGapResolvesToZero`).

## Model

| member | source | states |
|---|---|---|
| Rounding.RoundHalfUp | backend/src/services/gpaCalculator.ts:15-18 | Math.round(value · 10^precision) / 10^precision over reals, with Math.round as floor(x + 1/2); specified by RoundHalfUpIsNearest and RoundHalfUpIsUnique below |
| Rounding.RoundHalfUpIsNearest | backend/src/services/gpaCalculator.ts:15-18 | the rounded value is a whole multiple of 10^-precision and lies within half a step of the value: value - step/2 < r <= value + step/2, so ties go up |
| Rounding.RoundHalfUpIsUnique | backend/src/services/gpaCalculator.ts:15-18 | any multiple of 10^-precision within those bounds is the rounded value, so the two facts characterise roundHalfUp |
| Rounding.RoundHalfUpKeepsGridValues | backend/src/services/gpaCalculator.ts:15-18 | a value that is already a multiple of 10^-precision is returned unchanged |
| Rounding.RoundTieGoesUp | backend/src/services/gpaCalculator.ts:15-18 | 2.345 rounds to 2.35 at two places |
| Rounding.RoundOneThird | frontend/lib/gpa.ts:3-6 | 1/3 rounds to 0.3333 at four places |
| GpaCalculator.AttemptMap.Set | backend/src/services/gpaCalculator.ts:57 | Map.set keeps the map well formed and updates exactly that key's entry |
| GpaCalculator.AttemptMap.Values | backend/src/services/gpaCalculator.ts:64 | forEach visits one value per key, the i-th being the entry of the i-th inserted key |
| GpaCalculator.Record | backend/src/services/gpaCalculator.ts:54-58 | one scan step keeps the map well formed |
| GpaCalculator.LatestAttempts | backend/src/services/gpaCalculator.ts:51-60 | the map after scanning every attempt is well formed |
| GpaCalculator.ComputeSemesterGPA | backend/src/services/gpaCalculator.ts:20-35 | the loop computes the semester GPA and credits of SemesterSpec: points over CGPA attempts, credits over attempts with both flags, guarded and rounded |
| GpaCalculator.ScanLatestAttempts | backend/src/services/gpaCalculator.ts:51-60 | the nested scan over all semesters builds exactly LatestAttempts of all enrollments in order |
| GpaCalculator.SumKeptAttempts | backend/src/services/gpaCalculator.ts:62-71 | the loop's totals are the points of kept CGPA attempts and the credits of kept credit attempts |
| GpaCalculator.ComputeCGPA | backend/src/services/gpaCalculator.ts:37-80 | the summary equals SummarySpec: per-semester rows, then cumulative figures over the latest attempts |
| GpaProperties.NonCgpaEnrollmentIgnoredBySemester | backend/src/services/gpaCalculator.ts:26-32 | removing an enrollment that does not count towards CGPA leaves the semester's GPA and credits unchanged, whatever its credit flag says |
| GpaProperties.CgpaOnly | backend/src/services/gpaCalculator.ts:27 | the CGPA-counting enrollments are exactly those of the input with the flag set |
| GpaProperties.SemesterSumsAreCgpaFiltered | backend/src/services/gpaCalculator.ts:27-31 | semester credits are the sum of credits over enrollments with both flags, and semester points those of the CGPA-counting ones |
| GpaProperties.SemesterWithoutCountedCreditsIsZero | backend/src/services/gpaCalculator.ts:33 | when no enrollment adds semester credits, the semester reports 0 credits and GPA 0 whatever its points |
| GpaProperties.SemesterGpaWithinGradeRange | backend/src/services/gpaCalculator.ts:24-34 | when CGPA-counting enrollments also count for credits, the semester GPA is within half a rounding step of the range of its grade points |
| GpaProperties.PerSemesterFollowsInput | backend/src/services/gpaCalculator.ts:46-49 | perSemester has one row per input semester, in order, with the term name copied and that semester's GPA and credits |
| GpaProperties.LatestAttemptKeys | backend/src/services/gpaCalculator.ts:51-60 | a course code is in the map exactly when some scanned attempt at it has a flag set |
| GpaProperties.RecordEntry | backend/src/services/gpaCalculator.ts:54-58 | one scan step adds the code of an eligible attempt, stores the attempt when the stored one is missing or strictly older, and otherwise keeps the stored one |
| GpaProperties.LatestAttemptIsFirstNewest | backend/src/services/gpaCalculator.ts:51-60 | the kept attempt for a course was scanned and is eligible; every earlier attempt at it is strictly older and no later one is newer, so ties keep the first scanned |
| GpaProperties.IneligibleAttemptIgnored | backend/src/services/gpaCalculator.ts:54 | an attempt with both flags false, wherever it stands, changes neither the map nor any cumulative figure |
| GpaProperties.TotalCoursesCountsAttemptedCodes | backend/src/services/gpaCalculator.ts:77 | totalCourses is the number of distinct course codes with an eligible attempt |
| GpaProperties.KeptAttemptsAreScanned | backend/src/services/gpaCalculator.ts:51-71 | each value summed is a scanned eligible attempt and is the one stored for its own course code |
| GpaProperties.CgpaZeroWithoutEarnedCredits | backend/src/services/gpaCalculator.ts:62-73 | when no eligible attempt counts towards credits, totalCredits and the CGPA are 0, even with CGPA points |
| GpaProperties.CgpaWithinGradeRange | backend/src/services/gpaCalculator.ts:62-73 | when the two flags agree on every eligible attempt, the CGPA is within half a rounding step of the range of grade points |
| GpaProperties.SingleCourseSummary | backend/src/services/gpaCalculator.ts:37-80 | one 3-credit course at 4.0 gives GPA and CGPA 4.00, 3 credits, one course |
| GpaProperties.NewerOfTwoAttemptsKept | backend/src/services/gpaCalculator.ts:51-60 | of two eligible attempts at one course, the newer is the one kept, in either scan order |
| GpaProperties.CumulativeOfOneAttempt | backend/src/services/gpaCalculator.ts:62-79 | when one attempt is kept, totalCredits is its earned credits, totalCourses is 1 and the CGPA is its guarded, rounded points over credits |
| GpaProperties.RetakeKeepsLatestGrade | backend/src/services/gpaCalculator.ts:51-60 | a course taken at 2.0 and later retaken at 3.7 counts once at 3.7, in either scan order |
| GpaProperties.CreditlessCgpaAttemptInflatesGpa | backend/src/services/gpaCalculator.ts:27-31 | a CGPA-counting attempt with its credit flag off adds points but no credits: two 4.0 courses of 3 credits, one without credits, give GPA and CGPA 8.00 over 3 credits |
| GpaProperties.LabCreditsDiluteCgpa | backend/src/services/gpaCalculator.ts:62-73 | a lab counting towards credits only leaves the semester GPA at 4.00 over 3 credits but gives a CGPA of 3.00 over 4 credits |
| ClientGpa.ToEnrollmentCalc | frontend/lib/gpa.ts:8-15 | the calculator view copies the fields and uses the given time when the input has none, else the input's own |
| ClientGpa.ToCalcSemester | frontend/lib/gpa.ts:32-33 | the term name is kept and each attempt is projected by toEnrollmentCalc, in order |
| ClientGpa.ToCalcSemesters | frontend/lib/gpa.ts:31-33 | one projected semester per input semester, in order, each attempt projected by toEnrollmentCalc |
| ClientGpa.SummarizeSemester | frontend/lib/gpa.ts:18-28 | the client's per-semester loop computes the server's row for the projected semester, whatever the clock reads |
| ClientGpa.ScanLatestInputs | frontend/lib/gpa.ts:30-40 | the client's scan builds LatestAttempts of the projected enrollments |
| ClientGpa.ComputeSummary | frontend/lib/gpa.ts:17-51 | computeSummary equals SummarySpec of the projected semesters |
| ClientGpa.ClockUnreadWhenTimestamped | frontend/lib/gpa.ts:14 | when every input has a creation time, the projection does not depend on the clock |
| ClientGpa.ClientMatchesServer | frontend/lib/gpa.ts:17-51 | the client summary equals the server's computeCGPA on the projected semesters |
| ClientGpa.UnstampedRetakeFollowsClock | frontend/lib/gpa.ts:14 | two unstamped attempts at one course stamped t1 <= t2: equal readings keep the first, a later reading keeps an eligible second, an ineligible second never replaces the first |
| GradeResolver.Upper | backend/src/controllers/semesterController.ts:13 | upper-casing keeps the length |
| GradeResolver.UpperIdempotent | backend/src/controllers/semesterController.ts:14 | upper-casing twice is upper-casing once |
| GradeResolver.FindLetter | backend/src/controllers/semesterController.ts:13 | the found row is the first whose letter matches ignoring case; no result means no row matches |
| GradeResolver.FindBand | backend/src/controllers/semesterController.ts:17-22 | the found row is the first ordinary row with min <= p <= max; no result means none holds p |
| GradeResolver.ResolveGradePoint | backend/src/controllers/semesterController.ts:8-26 | points pass through with the entry's letter; a given letter resolves to its first case-insensitive match's grade point or 0, with the letter upper-cased; a percentage adopts the first ordinary band's point and letter; every other case gives 0 and the entry's letter |
| GradeResolver.LetterInputIgnoresCase | backend/src/controllers/semesterController.ts:12-15 | letter input equal ignoring case resolves to the same grade point and stored letter |
| GradeResolver.LinkedCourse | backend/src/controllers/semesterController.ts:34-38 | an entry links to a course exactly when its course id is set and names a known course |
| GradeResolver.NormalizeEntry | backend/src/controllers/semesterController.ts:38-64 | fields come from the linked course or else the entry; grade point and letter come from resolution; inputMethod defaults to letter; a lab takes the settings' flags; otherwise each flag is the entry's value, else the course's, else true |
| GradeResolver.NormalizeEnrollments | backend/src/controllers/semesterController.ts:32-33 | one normalised enrollment per entry, in input order |
| GradeResolver.LabOverrideIgnoresExplicitFlags | backend/src/controllers/semesterController.ts:52-63 | for a linked lab, the entry's explicit flags make no difference to the stored enrollment |
| GradeResolver.LetterModeStoresUpperCase | backend/src/controllers/semesterController.ts:58 | in letter mode with a letter given, the stored letter is the upper-cased input |
| GradeResolver.ForCalc | backend/src/controllers/semesterController.ts:74-81 | the calculator view of a stored enrollment copies the six fields the calculator reads |
| GradeResolver.CalcInput | backend/src/controllers/semesterController.ts:72-82 | one calculator semester per stored semester, in order, with each enrollment projected |
| GradeResolver.DefaultLabEarnsCreditsOnly | backend/src/controllers/semesterController.ts:62-63 | under default settings a linked lab adds no points and no semester credits but its course credits to the cumulative total |
| GradeResolver.EightySevenPercentIsAMinus | backend/src/controllers/semesterController.ts:16-23 | 87% on the seeded scale resolves to 3.7 and A- |
| GradeResolver.BandUpperEndIsInclusive | backend/src/controllers/semesterController.ts:20-21 | 89.99%, the A- band's upper end, resolves to A- |
| GradeResolver.SeedScaleGapResolvesToZero | backend/src/controllers/semesterController.ts:16-25 | 89.995% lies in no ordinary seeded band and resolves to 0 with no letter |
| GradeResolver.FindLowerCaseBPlus | backend/src/controllers/semesterController.ts:13 | on the seeded scale, the first row matching b+ ignoring case is B+ |
| GradeResolver.LowerCaseLetterResolves | backend/src/controllers/semesterController.ts:12-15 | the letter b+ resolves to 3.3 and is stored as B+ |
| GradeResolver.LabEntryOverridden | backend/src/controllers/semesterController.ts:52-63 | a lab entry asking to count towards CGPA is stored, under default settings, counting towards credits only, with the course's code, title and credits |

## Left out

- Floating point: grade points, credits and percentages are reals. The `Number.EPSILON` added before `Math.round`, IEEE rounding of `Math.pow`, `Math.round` and the sums, and the order-sensitivity of float sums are not modelled. Rounding is exact half-up: floor(v·10^p + 1/2) / 10^p.
- Rounding.RoundHalfUpIsNearest: precision is a natural number. The settings form only submits whole numbers from 0 to 12, but the settings API stores whatever value it is sent (`Object.assign` in backend/src/controllers/settingsController.ts:17), so a negative or fractional precision can reach the calculator; that case is not modelled.
- ClientGpa.ClientMatchesServer: parity assumes that both sides round to the same precision. The server passes `settings.cgpaPrecision` unchanged (backend/src/controllers/semesterController.ts:83), but both client pages load it as `cgpaPrecision || 10` (frontend/app/calculator/page.tsx:25, frontend/app/dashboard/page.tsx:34). With precision 0 the client therefore rounds to 10 places and the server to whole numbers, and the two summaries differ. That page code is not part of this model.
- Timestamps are integers: `Date` comparison is comparison of the instants.
- ClientGpa.ToEnrollmentCalc: an empty-string `createdAt` (falsy, so stamped with the current time) is not distinguished from a missing one, and an unparsable one (an invalid `Date`, which never compares `<`) is not modelled. One clock reading `now` stands for the `new Date()` taken per enrollment in `ComputeSummary`, so the model does not capture that unstamped attempts scanned in different milliseconds get different times, which decides which of two unstamped retakes is kept (`UnstampedRetakeFollowsClock` states both outcomes).
- GradeResolver.Upper: `toUpperCase` is modelled for ASCII letters only; other Unicode case mappings are not modelled.
- GradeResolver.ResolveGradePoint: the entry is modelled with typed fields. `Number()` coercion of a non-numeric grade point (NaN), a `null` percentage (which passes the `!== undefined` test and compares as 0) and non-string letters are not modelled. A percentage is present or absent.
- GradeResolver.NormalizeEntry: a flag that is `null` rather than absent is not modelled, and neither is the `null` course of an unlinked entry; absent is `None`.
- Database access is replaced by inputs: the grade scale, a course-id → course map and the settings. `GradeScale.find`, `Course.findById`, the settings-singleton creation, the `coursesMap` cache and the `async`/`Promise.all` plumbing are not modelled. The creation time of a stored enrollment, which the database sets, is an input of `StoredEnrollment`.
- GradeResolver.NormalizeEntry: the normalised enrollment has no `createdAt`, as in the source, so a `createdAt` sent with an entry is dropped and the database assigns a new one each time a semester is saved. Re-saving an old semester can thus make its attempts newer than later retakes; the model leaves that time a free input and does not track it across saves.
- The HTTP handlers (`getSemesters`, `createSemester`, `updateSemester`, `deleteSemester`), routing, authentication and all UI code are not modelled. This includes the case-sensitive letter lookup in the calculator's course row component.
