# ER triage rules — a verified model

This project models the domain logic of a small emergency-department
patient tracker (a Flask application over SQLite). It covers the triage
classifier `calculate_priority`, the keyword lookup `get_recommendation`, the
time-of-death bookkeeping of the add and edit routes, and the order and
annotation of the dashboard worklist.

- `option.dfy`: module `Optional`, the `Option` type used for Python's `None`.
- `triage.dfy`: module `Triage`. `CalculatePriority` is the classifier as
  written: an early return for zero vitals, then a local `score` raised by
  four if/elif chains, then the threshold chain. It is proved equal to the
  pure `Priority`. `Priority` is built from one sub-score function per vital
  sign, and the boundary policy is proved about those functions.
- `recommendation.dfy`: module `Advice`. `GetRecommendation` is the lookup as
  written: a `for` loop over the ordered keyword table with an early return.
  It is proved equal to the pure `Recommend`. `Recommend` is in turn proved to
  return the advice of the first table entry whose keyword occurs in the
  lowercased notes. Substring containment is a sliding test, `Contains`, whose
  contract makes it equivalent to "occurs at some position" (`Occurs`).
- `records.dfy`: module `Records`, a patients-table row and the rows built by
  the add and edit routes. Both store the classifier's priority and stamp,
  keep or clear the time of death.
- `worklist.dfy`: module `Worklist`. It holds the dashboard's tier rank, the
  `ORDER BY rank, id DESC` rule as a `Sorted` predicate, and an insertion sort
  `Order` that establishes it. A lemma shows that this order is unique when
  ids are distinct. `Annotate` is the loop that sets each row's
  recommendation in place.

The clock reading (`now`) and the new row's id are parameters. Tier names
are the strings the source stores ("Deceased", "Critical", "High", "Medium",
"Low"), because the dashboard ranks any stored string.

## Model

| member | source | states |
|---|---|---|
| Triage.HeartRatePoints | triage.py:10-15 | 3 exactly when hr < 40 or hr > 130; 2 exactly when 40..60 or 110..130 (40, 60, 110, 130 included); 1 exactly on 61..109 |
| Triage.BloodPressurePoints | triage.py:17-20 | 3 exactly when bp < 90 or bp > 180; 1 exactly on 90..180 |
| Triage.OxygenPoints | triage.py:22-27 | 3 exactly below 90; 2 exactly on 90..95; 1 exactly above 95 |
| Triage.TemperaturePoints | triage.py:29-30 | 2 exactly when temp > 39 or temp < 35; 0 on 35..39, so 35 and 39 add nothing |
| Triage.Score | triage.py:8-30 | the score lies in 3..11, and it is 3 exactly when all four signs are in their normal band |
| Triage.TierFor | triage.py:32-39 | the threshold chain yields one of Critical, High, Medium, Low and never Deceased |
| Triage.Priority | triage.py:3-39 | the result is one of the five tier literals, and it is Deceased exactly when `NoSigns` holds, that is when hr, bp and oxygen are all 0 (the test at triage.py:5) |
| Triage.CalculatePriority | triage.py:3-39 | the step-by-step accumulation of `score` returns the same tier as the pure classification |
| Triage.TierBands | triage.py:32-39 | for a scored patient: Critical exactly for scores 9..11, High for 6..8, Medium for 4..5, Low for 3 |
| Triage.LowExactlyWhenNormal | triage.py:8-39 | Low exactly when hr is 61..109, bp 90..180, oxygen above 95 and temperature 35..39 |
| Triage.ZeroHeartRateIsScored | triage.py:5-15 | hr 0 with nonzero bp or oxygen is scored, not Deceased; it takes the +3 heart-rate bucket and so is at least Medium |
| Triage.DeceasedIgnoresTemperature | triage.py:4-6 | whether the result is Deceased does not depend on the temperature: `NoSigns` reads only hr, bp and oxygen |
| Triage.WorkedCases | triage.py:10-39 | (130,120,96,38) scores 4 and is Medium; (131,120,96,38) scores 5 and is Medium; (150,200,85,40) scores 11 and is Critical; (0,0,0,37) is Deceased |
| Advice.LowerChar | app.py:15 | an ASCII capital becomes the lowercase letter of the same position in the alphabet; every other character is unchanged; the result is never a capital |
| Advice.Lower | app.py:15 | the lowered notes have the same length, each character lowered, and no capital letters |
| Advice.LowerOfLower | app.py:15 | lowercasing text that is already lowercase changes nothing |
| Advice.OccursPastHead | app.py:31 | when the keyword is not a prefix of the text, it occurs in the text exactly when it occurs after the first character |
| Advice.Contains | app.py:31 | `keyword in notes`: the sliding test holds exactly when the keyword occurs as a substring at some position |
| Advice.FirstMatch | app.py:30-34 | the scan finds nothing exactly when no keyword of the table occurs; whatever it returns is the advice of some table entry |
| Advice.FirstMatchIsFirstHit | app.py:30-32 | when an entry is the first whose keyword occurs, the scan returns that entry's advice |
| Advice.Recommend | app.py:11-34 | absent or empty notes give "No recommendation"; every result is one of the ten advice strings or one of the two sentinels (the first-hit rule is `RecommendIsFirstHit`) |
| Advice.GetRecommendation | app.py:11-34 | the loop with early return computes the pure lookup `Recommend` |
| Advice.KeywordsLower | app.py:18-27 | every keyword of the table is non-empty and lowercase |
| Advice.RecommendIsFirstHit | app.py:11-34 | for non-empty notes: the advice of the first entry, in table order, whose keyword occurs in the lowered notes; the no-match sentinel when none occurs |
| Advice.EmptyNotes | app.py:12-13 | absent or empty notes give "No recommendation", which differs from "No recommendation available" |
| Advice.CaseInsensitive | app.py:15-27 | notes and their lowercase form get the same advice |
| Advice.CaseBlind | app.py:15-27 | two notes that differ only in the case of ASCII letters get the same advice |
| Advice.ReportRecommendation | app.py:305-306 | the report's own guard (`notes or ""`, then a call only for non-empty notes) gives the same value as calling the lookup directly |
| Advice.AbsentLetter | app.py:31 | a keyword containing a letter the notes lack does not occur in them |
| Advice.LowerNotesFirstHit | app.py:30-32 | for lowercase notes, the first table entry whose keyword occurs decides the advice |
| Advice.LowerNotesNoHit | app.py:34 | lowercase notes that contain no keyword give "No recommendation available" |
| Advice.WorkedCold | app.py:18 | "patient has mild cold" gets the cold advice |
| Advice.ScoldingCaseOnly | app.py:15 | "Scolding" and "scolding" differ only in letter case |
| Advice.WorkedLowerScold | app.py:31 | "scolding" gets the cold advice: containment is a plain substring test, not a whole-word match |
| Advice.WorkedScold | app.py:15-31 | "Scolding" gets the cold advice: matching is case-insensitive and by plain substring |
| Advice.MildColdCaseOnly | app.py:15 | "Mild COLD" and "mild cold" differ only in letter case |
| Advice.WorkedMildCold | app.py:30-32 | "mild cold" gets the cold advice |
| Advice.WorkedUpperCold | app.py:15-32 | "Mild COLD" gets the cold advice: a capitalised keyword is found like its lowercase form |
| Advice.FeverIsFirstHit | app.py:18-22 | in "fever and infection noted", fever is the first table keyword that occurs |
| Advice.WorkedFever | app.py:30-32 | "fever and infection noted" gets the fever advice, not the infection advice |
| Advice.NoKeywordOccurs | app.py:18-27 | no keyword of the table occurs in "no known issues" |
| Advice.WorkedNone | app.py:34 | "no known issues" gets "No recommendation available" |
| Records.AddPatient | app.py:159-172 | the stored priority is the classification; the time of death is `now` exactly for zero vitals and None otherwise, so it is on record exactly when the row is Deceased |
| Records.EditPatient | app.py:198-215 | the id is kept and the priority recomputed; becoming Deceased stamps `now`, staying Deceased keeps the old stamp, any other priority clears it; a row consistent before stays consistent |
| Worklist.Rank | app.py:251-257 | the rank is defined for every string and is at most 4 |
| Worklist.RankFollowsTiers | app.py:251-257 | Deceased, Critical, High, Medium and Low rank 0 to 4, in the order of the tier list |
| Worklist.OtherStringsRankLast | app.py:256 | any string other than the first four tiers ranks 4, together with Low |
| Worklist.RankFollowsScore | app.py:246-257 | a higher severity score never gives a later rank |
| Worklist.PrecedesIsTotalPreorder | app.py:250-258 | `Precedes` (rank ascending, then id descending) is total and transitive; two rows that precede each other share rank and id |
| Worklist.Insert | app.py:250-258 | inserting a row adds exactly that row |
| Worklist.InsertKeepsSorted | app.py:250-258 | inserting a row into a worklist in rank-then-id-descending order keeps that order |
| Worklist.Order | app.py:247-261 | the result is a permutation of the table that satisfies `Sorted`: rank order, higher id first within a rank |
| Worklist.SameFirstRow | app.py:250-258 | two such orderings of the same rows with distinct ids start with the same row |
| Worklist.SortedUnique | app.py:250-258 | with distinct ids (the primary key) there is only one `Sorted` arrangement of a set of rows, so the `ORDER BY` fixes the worklist completely |
| Worklist.Annotate | app.py:265-266 | each row's recommendation is set to the lookup of its own notes, and nothing else in the row changes |
| Worklist.Dashboard | app.py:242-266 | the rows are the table in worklist order, each annotated with its recommendation |

## Left out

- Web routing, form parsing (`int(...)`/`float(...)` of form fields, the "on" test of the surgery checkbox), flash messages, redirects and templates: the model takes typed values.
- Login, sessions and SHA-256 password hashing: authentication plumbing and a foreign library call.
- SQLite itself: the connection, the schema, the `ALTER TABLE` migration, the INSERT/UPDATE/DELETE statements, the id assigned by AUTOINCREMENT (a parameter here) and the `GROUP BY` analytics count. Only the `ORDER BY` rule of the dashboard is modelled.
- The delete route: it is a single DELETE statement and holds no rule.
- Wall-clock time: `datetime.now().strftime(...)` is an opaque string parameter `now`.
- PDF generation and `send_file` in the report route: only its recommendation guard (app.py:305-306) is modelled.
- test_hf.py: a network call to a hosted language model, with no logic.
- Floating point: temperature is a `real`, compared only with 35 and 39; float parsing and rounding are not modelled. A NaN temperature, which `float("nan")` accepts at app.py:155, fails both comparisons and adds 0 points in the source; a `real` cannot represent it, so the model has no such input.
- Advice.Lower: folds ASCII letters only, while Python's `str.lower` folds all of Unicode. This can change a result: Python lowers U+212A KELVIN SIGN to 'k', so notes "HEART ATTAC" followed by that sign get the heart-attack advice in the source, while the model returns "No recommendation available".
- Records.EditPatient: the source reads the stored row without checking that it exists, and fails on a missing id; the model takes the row that was found.
- Worklist.Dashboard: the database performs the ordering; `Order` is an insertion sort that establishes the same order, and `SortedUnique` shows that any correct ordering of rows with distinct ids gives the same list.
