# Booster academic dashboard — a Dafny model

Booster is a single-page React application for an engineering college.
Faculty enter assessment scores for a division (class) and manage the
student roster and subject names. Students sign in with their roll number
and see what the dashboard derives from their ledger of score entries:

- a semester grade pointer (SGPI);
- the mean percentage, together with the engine-gauge bands, the stability
  label and the weakest-subject alert built on it;
- the change between their two most recent assessments;
- the share of the catalogue's credits they have attempted;
- per-assessment bar charts and a growth curve that averages scores by date;
- an AI analysis, cached in `localStorage` for 24 hours under a key that
  hashes the scores.

All data persists in `localStorage` under `booster_`-prefixed keys.
Notifications are shown as toasts that remove themselves after a delay.

The model follows the source file by file:

| Dafny module (file) | models |
|---|---|
| `Storage` (storage.dfy) | utils/storage.ts over a `LocalStorage` class of raw text items |
| `Validation` (validation.dfy) | utils/validation.ts; each regular expression is a greedy scan, proved equal to a declarative shape |
| `Toasts` (toast.dfy) | components/Toast.tsx: the `ToastCenter` class holding the toast list and the pending timers |
| `App` (app.dfy) | App.tsx: the login rules, the ledger/roster/catalogue updates, and the `AppContent` class with its persisted state |
| `FacultyDesk` (faculty.dfy) | components/TeacherDashboard.tsx: input acceptance, batch building, registration, and the `TeacherDashboard` class |
| `Metrics`, `Gauge`, `CacheKey`, `Dashboard` | components/StudentDashboard.tsx: the derived metrics, the `RPMMeter` rules, the cache key, and the `StudentDashboard` class with its cache |
| `Charts` (charts.dfy) | components/DashboardCharts.tsx: the bar-chart data and the trajectory, built by a loop |
| `Gemini` (gemini.dfy) | geminiService.ts: how the provider's reply becomes the analysis |
| `Types`, `Fixtures`, `Seeded` | types.ts, the seed data of constants.ts, and the seeded student's metrics |
| `Text`, `Numbers`, `DateSort`, `Json`, `Wrappers` | the JavaScript built-ins the code relies on |

The modelled built-ins are:

- `trim`, ASCII `toLowerCase`, `parseFloat`, number-to-text, `Math.round`,
  `toFixed(2)` and `|0` (32-bit wrap-around);
- the stable date sort.

State that the source changes in place is modelled as classes with
`modifies` clauses: the browser storage, the toast provider, the app shell,
and the two dashboards. Pure computations are functions, and their
properties are lemmas.

The environment enters as parameters:

- the clock is a `now` argument;
- `JSON.stringify`/`JSON.parse` are a `Codec` pair whose `None` results
  mean "throws";
- the AI provider's behaviour is a `ProviderReply` value;
- `parseInt` of an input is an `Option<int>` argument;
- callbacks such as `onAddScores` and `alert` come back as returned
  requests.

The dashboard caches whatever `analyzePerformance` returns. That includes
the fallback analysis it returns after a failure: in
StudentDashboard.tsx:233-235 the fallback is written to the cache like a
real analysis and is served on the next visit within 24 hours.
`Dashboard.FallbackIsCached` states this.

## Model

| member | source | states |
|---|---|---|
| Types.AssessmentType.Label | types.ts:2-8 | the string value of each assessment kind, which entries store: Internal Assessment 1, Internal Assessment 2, Term Work, End Semester Exam, Oral & Practical |
| Types.LabelInjective | types.ts:2-8 | two kinds have the same label exactly when they are the same kind |
| Numbers.Round | components/StudentDashboard.tsx:168 | `Math.round`: the integer within one half of x, halves rounding up |
| Numbers.RoundWithin | components/StudentDashboard.tsx:168 | rounding a value between two integers stays between them |
| Numbers.RoundOfInt | components/StudentDashboard.tsx:175 | rounding an integer gives it back |
| Numbers.ToFixed2 | components/StudentDashboard.tsx:162 | `toFixed(2)` lies within 1/200 of its argument |
| Numbers.ToFixed2Within | components/StudentDashboard.tsx:162 | `toFixed(2)` of a value in [0, b/100] stays in that interval |
| Numbers.ToInt32 | components/StudentDashboard.tsx:194 | `h \|= 0`: the unique 32-bit signed value congruent to h modulo 2^32 |
| Numbers.ToInt32OfInt32 | components/StudentDashboard.tsx:194 | a value already in 32-bit range is unchanged |
| Text.Trim | App.tsx:24 | `trim()` result is a part of the input that neither starts nor ends with whitespace |
| Text.TrimEmptyIff | App.tsx:24 | a string trims to empty exactly when every character is whitespace |
| Text.TrimIdempotent | utils/validation.ts:12 | trimming twice is trimming once |
| Text.TrimIgnoresPadding | utils/validation.ts:12 | surrounding whitespace never changes the trimmed text |
| Text.TrimKeepsCharacters | utils/validation.ts:32 | every character of the trimmed text occurs in the input |
| Text.TrimKeepsNonWhitespace | utils/validation.ts:17 | a non-whitespace character is never trimmed away |
| Text.TrimNoPadding | utils/validation.ts:12 | text without surrounding whitespace is its own trim |
| Text.TrimStart | App.tsx:24 | a suffix of the input that is empty or starts with a non-whitespace character |
| Text.TrimEnd | App.tsx:24 | a prefix of the input that is empty or ends with a non-whitespace character |
| Text.ToLower | App.tsx:30 | ASCII `toLowerCase`: same length, each capital shifted by 32, everything else kept |
| Text.NatDigits | components/Toast.tsx:28 | the decimal digits of n: non-empty, all digits, of value n |
| Text.ParseIntToString | components/TeacherDashboard.tsx:66 | `parseFloat` reads the decimal text of any integer back as that integer |
| Text.IntToStringInjective | components/Toast.tsx:28 | different integers have different decimal texts |
| Text.IntToString | components/Toast.tsx:28 | the decimal text of an integer, with a leading `-` when negative; `NatDigits`, `ParseIntToString` and `IntToStringInjective` state its digits, its read-back and its injectivity |
| Text.ParseFloat | components/TeacherDashboard.tsx:66 | parseFloat on decimal forms: skip leading whitespace, read a sign and the longest decimal prefix, NaN as none; `ParseIntToString` and `Storage.FixedTextParses` read rendered numbers back through it |
| Storage.LocalStorage.constructor | utils/storage.ts:26 | a store with the given items, availability and quota state |
| Storage.LocalStorage.GetItem | utils/storage.ts:26 | the stored text or null; throws when storage is unavailable |
| Storage.LocalStorage.SetItem | utils/storage.ts:18 | stores the text unless storage is unavailable or full, and says which error occurred |
| Storage.LocalStorage.RemoveItem | utils/storage.ts:39 | drops the key unless storage is unavailable |
| Storage.StorageKeysWellFormed | utils/storage.ts:5-14 | six storage keys, distinct, all with the `booster_` prefix |
| Storage.SaveToLocalStorage | utils/storage.ts:16-22 | the store afterwards is `Saved(...)`: the serialised text under the key, or no change when serialising or storing fails |
| Storage.Saved | utils/storage.ts:16-22 | the serialised text under the key, or the store unchanged when serialising or storing fails; `SaveThenGet`, `FailedSaveUnchanged` and `SaveTouchesOnlyItsKey` state its effect |
| Storage.GetFromLocalStorage | utils/storage.ts:24-35 | the parsed value, or the default (when truthy) or null when missing, unreadable or unparsable |
| Storage.RemoveFromLocalStorage | utils/storage.ts:37-43 | the key is gone when storage is available; nothing else changes |
| Storage.SaveThenGet | utils/storage.ts:16-35 | reading back what was saved gives the value, when the codec round-trips it |
| Storage.GetFallsBack | utils/storage.ts:27-34 | a missing, unreadable or corrupt entry yields the truthy default or null |
| Storage.FailedSaveUnchanged | utils/storage.ts:17-21 | a save that throws leaves the store unchanged |
| Storage.SaveTouchesOnlyItsKey | utils/storage.ts:16-22 | a save never adds, drops or alters any other key |
| Storage.ClearLocalStorage | utils/storage.ts:45-53 | removes exactly the six application keys |
| Storage.ClearExact | utils/storage.ts:45-53 | after clearing, a key survives iff it was present and is not an application key, with its value |
| Storage.ClearKeepsThemeAndCache | utils/storage.ts:45-53 | neither the theme key `booster_theme` nor any `analysis_` cache key is an application key, so clearing keeps them |
| Storage.Cleared | utils/storage.ts:45-53 | the store without the six application keys when storage is available; `ClearExact` and `ClearKeepsThemeAndCache` state which keys survive |
| Storage.GetStorageSize | utils/storage.ts:55-63 | the KB text of the summed key and value lengths of prefixed keys; throws when unavailable |
| Storage.SizeOverPick | utils/storage.ts:57-61 | the size does not depend on the order keys are visited |
| Storage.SizeIgnoresUnprefixed | utils/storage.ts:58 | keys without the prefix add nothing |
| Storage.SizeOfSingle | utils/storage.ts:59 | one prefixed item contributes its key length plus value length |
| Storage.StorageSize | utils/storage.ts:56-61 | the summed key and value lengths of the prefixed keys; `SizeOverPick`, `SizeIgnoresUnprefixed` and `SizeOfSingle` state its sum |
| Storage.SizeText | utils/storage.ts:62 | `(size / 1024).toFixed(2) + ' KB'`; `SizeTextParses` reads it back as the size in KB to two decimals |
| Storage.SizeTextParses | utils/storage.ts:62 | the size text reads back as the size in KB rounded to hundredths |
| Storage.FixedTextParses | utils/storage.ts:62 | the text `q.dd KB` of h hundredths reads back, through parseFloat, as h/100 |
| DateSort.StrLtIrreflexive | components/StudentDashboard.tsx:171 | no date string precedes itself |
| DateSort.StrLtAsymmetric | components/StudentDashboard.tsx:171 | date strings never precede each other both ways |
| DateSort.StrLtTotal | components/StudentDashboard.tsx:171 | of two different date strings one precedes the other |
| DateSort.StrLtTransitive | components/StudentDashboard.tsx:171 | precedence of date strings is transitive |
| DateSort.StrLtAt | components/StudentDashboard.tsx:171 | a string precedes another when it is smaller at the first differing position |
| DateSort.SortByDate | components/StudentDashboard.tsx:171 | the sort returns the entries ordered by date (either direction) and is a permutation of them; `SortByDateStable` proves it stable |
| DateSort.Insert | components/StudentDashboard.tsx:171 | the entry is placed after everything it does not strictly precede, so the length grows by one; `InsertOrdered`, `InsertMultiset` and `InsertDated` state its order, its contents and its stability |
| DateSort.DatedOn | components/StudentDashboard.tsx:171 | the entries of one date, in their order, all with that date |
| DateSort.NoneDatedAfter | components/StudentDashboard.tsx:171 | no entry of an ordered list that x strictly precedes has x's date |
| DateSort.InsertDated | components/StudentDashboard.tsx:171 | inserting places the entry after every entry of its date already present |
| DateSort.SortByDateStable | components/StudentDashboard.tsx:171 | stability: for every date, the sorted entries of that date are the input's, in input order |
| DateSort.AscendingStep | components/DashboardCharts.tsx:81 | in an ascending sort, neighbours are equal in date or increase |
| DateSort.SortDescendingOfAscending | components/StudentDashboard.tsx:171 | sorting strictly ascending dates newest-first reverses them |
| Metrics.ScoresOf | components/StudentDashboard.tsx:156 | exactly the entries of the student, nothing more |
| Metrics.ScoresOfAppend | components/StudentDashboard.tsx:156 | the filter distributes over concatenation, so order is kept |
| Metrics.ScoresOfOwn | components/StudentDashboard.tsx:156 | a ledger holding only the student's entries is returned whole |
| Metrics.ScoresOfForeign | components/StudentDashboard.tsx:156 | a ledger without the student's entries yields none |
| Metrics.Pointer | components/StudentDashboard.tsx:158-163 | `calculatePointer` read as a number: 0 with no entries, none (NaN or Infinity) when the credits total 0, else the credit-weighted mean of 10 × score / maximum to two decimals; its bounds are `PointerWithin` and `PointerOfUniform` |
| Metrics.AveragePercentage | components/StudentDashboard.tsx:167-169 | the rounded mean of 100 × score / maximum, 0 with no entries; its range is `AverageWithin`, its value on uniform ledgers `AverageOfUniform` |
| Metrics.RatioWithin | components/StudentDashboard.tsx:160 | an entry within its maximum has ratio in [0, 1] |
| Metrics.WeightedPointsWithin | components/StudentDashboard.tsx:160-161 | weighted points lie in [0, 10 × total credits] |
| Metrics.PointerWithin | components/StudentDashboard.tsx:158-163 | the pointer is 0 with no entries, and with credits it exists and lies in [0, 10] |
| Metrics.PointerOfUniform | components/StudentDashboard.tsx:158-163 | entries all at ratio q give the pointer 10q |
| Metrics.AverageWithin | components/StudentDashboard.tsx:167-169 | the mean percentage is in [0, 100], and 0 with no entries |
| Metrics.AverageOfUniform | components/StudentDashboard.tsx:167-169 | entries all at ratio q give round(100q) |
| Metrics.Recent | components/StudentDashboard.tsx:171 | newest-first permutation of the student's entries; `RecentStable` keeps equal dates in ledger order |
| Metrics.DeltaOfAscending | components/StudentDashboard.tsx:174-176 | for strictly dated entries, the delta compares the two latest |
| Metrics.DeltaWithin | components/StudentDashboard.tsx:174-176 | the delta is 0 below two entries, in [-100, 100] always, and 0 when the two latest ratios agree |
| Metrics.RecentOrderPairwise | components/StudentDashboard.tsx:171 | in newest-first order, no later entry is newer |
| Metrics.DeltaComparesLatest | components/StudentDashboard.tsx:172-176 | the first sorted entry is the newest, and the second is newest among the rest |
| Metrics.LatestDelta | components/StudentDashboard.tsx:171-176 | round(100 × (ratio of the newest − ratio of the second newest)) over `Recent`, 0 below two entries; `DeltaWithin`, `DeltaOfAscending`, `DeltaComparesLatest` and `DeltaOfSameDay` state what it compares |
| Metrics.RecentStable | components/StudentDashboard.tsx:171 | for every date, the entries of that date appear in the newest-first order exactly as in the ledger |
| Metrics.DeltaOfSameDay | components/StudentDashboard.tsx:171-176 | when every entry has one date, the sort keeps them as recorded and the delta compares the first two in ledger order |
| Metrics.FindByName | components/StudentDashboard.tsx:180 | a subject with that name, or none exactly when no subject has it |
| Metrics.Distinct | components/StudentDashboard.tsx:179 | `new Set`: the same names without duplicates |
| Metrics.DistinctAppendPresent | components/StudentDashboard.tsx:179 | a repeated name adds nothing to the set |
| Metrics.DistinctOfNoDuplicates | components/StudentDashboard.tsx:179 | duplicate-free names pass unchanged |
| Metrics.SubjectNames | components/StudentDashboard.tsx:179 | the subject of each entry, in order |
| Metrics.CompletedWithin | components/StudentDashboard.tsx:179-180 | attempted credits lie between 0 and the catalogue total |
| Metrics.CompletedAppend | components/StudentDashboard.tsx:179-180 | each further name adds its subject's credits (0 when unknown) |
| Metrics.CreditRatioWithin | components/StudentDashboard.tsx:178-181 | the credit ratio is in [0, 1], and 0 for a catalogue without credits |
| Metrics.CreditRatioRepeatSubject | components/StudentDashboard.tsx:179-181 | another entry in an already attempted subject leaves the ratio unchanged |
| Metrics.CreditRatioUnknownSubject | components/StudentDashboard.tsx:180 | an entry in a subject missing from the catalogue leaves the ratio unchanged |
| Metrics.CreditRatio | components/StudentDashboard.tsx:178-181 | the credits of the distinct attempted subject names (0 for a name not in the catalogue) over the catalogue total, 0 when that total is not positive; `CreditRatioWithin`, `CreditRatioRepeatSubject` and `CreditRatioUnknownSubject` state its properties |
| Seeded.AdityaLedger | constants.ts:32-43 | the seeded ledger gives student 22AI101 exactly the five rows listed for them |
| Seeded.AdityaPointer | components/StudentDashboard.tsx:158-163 | their pointer is 9.44 |
| Seeded.AdityaAverage | components/StudentDashboard.tsx:167-169 | their mean percentage is 94 |
| Seeded.AdityaDelta | components/StudentDashboard.tsx:174-176 | their delta is 0 (both latest entries at 96%) |
| Seeded.AdityaDatesAscend | constants.ts:34-38 | their seeded dates strictly ascend |
| Seeded.AdityaSubjects | constants.ts:34-38 | their entries' subjects, in order |
| Seeded.AdityaSubjectsDistinct | components/StudentDashboard.tsx:179 | their four distinct subjects |
| Seeded.CatalogueTotal | components/StudentDashboard.tsx:178 | the seeded catalogue totals 18 credits |
| Seeded.SubjectCredits | constants.ts:5-10 | the seeded subject names are distinct, so every seeded subject's credits are found under its own name |
| Seeded.AdityaCredits | components/StudentDashboard.tsx:178-181 | their credit ratio is 12/18 |
| Gauge.BandIntervals | components/StudentDashboard.tsx:38-62 | each engine band is exactly its percentage interval (85, 65, 40 inclusive) |
| Gauge.BandMonotone | components/StudentDashboard.tsx:38-62 | a higher percentage never gives a colder band |
| Gauge.Band | components/StudentDashboard.tsx:38-62 | the engine band with thresholds 85, 65 and 40, each inclusive; `BandIntervals` gives each band's exact interval and `BandMonotone` its order |
| Gauge.EngineState.Label | components/StudentDashboard.tsx:38-57 | the state label of each band: Redline / Elite, High Frequency, Standard Cruise, Cold Start |
| Gauge.EngineLabelInjective | components/StudentDashboard.tsx:38-57 | no two bands show the same state label |
| Gauge.EngineState.ThermalLoad | components/StudentDashboard.tsx:36-61 | the thermal-load text of each band: Peak, Stable, Warm, Critical; the initial "Cold" is overwritten on every path |
| Gauge.Rpm | components/StudentDashboard.tsx:14 | the dial reading `Math.round(percentage / 100 × 8000)` shown at line 93; `RpmScale` proves it is 80 per percentage point |
| Gauge.StabilityOf | components/StudentDashboard.tsx:140 | low voltage up to 35, then stable unless the delta is −5 or below; `StabilityCases` and `LowVoltageIsColdStart` give the exact conditions |
| Gauge.Stability.Label | components/StudentDashboard.tsx:140 | the index text of each outcome: STABLE, TURBULENT, LOW VOLTAGE |
| Gauge.StabilityLabelInjective | components/StudentDashboard.tsx:140 | no two outcomes show the same index text |
| Gauge.RpmScale | components/StudentDashboard.tsx:14 | RPM is 80 × percentage, within [0, 8000] for percentages in [0, 100] |
| Gauge.StabilityCases | components/StudentDashboard.tsx:140 | STABLE iff p > 35 and delta > −5; TURBULENT iff p > 35 and delta ≤ −5; LOW VOLTAGE iff p ≤ 35 |
| Gauge.LowVoltageIsColdStart | components/StudentDashboard.tsx:140 | low voltage implies the Cold Start band; outside it, stability depends on delta only |
| Gauge.SubjectCount | components/StudentDashboard.tsx:17-21 | a subject's bucket is non-empty exactly when a ledger entry names it |
| Gauge.SubjectMeanWithin | components/StudentDashboard.tsx:23-26 | each subject average is in [0, 100] |
| Gauge.SubjectMean | components/StudentDashboard.tsx:17-26 | the sum of score / maximum over the subject's entries, divided by their count, times 100; `SubjectMeanWithin` bounds it |
| Gauge.SubjectPcts | components/StudentDashboard.tsx:23-26 | one average per distinct subject, in first-appearance order |
| Gauge.WeakestIndex | components/StudentDashboard.tsx:28-30 | the reduce picks a minimum average, the last one among equals |
| Gauge.WeakestSubjectIsLastMinimum | components/StudentDashboard.tsx:28-30 | a weakest subject exists iff there are entries, and it is the last minimum |
| Gauge.WeakestSubjectMean | components/StudentDashboard.tsx:17-30 | the weakest subject's average is at most that of every subject the student has |
| Gauge.WeakestSubject | components/StudentDashboard.tsx:28-30 | the `reduce` over the subject averages, none without entries; `WeakestSubjectIsLastMinimum` and `WeakestSubjectMean` state which subject it picks |
| Gauge.DragAlert | components/StudentDashboard.tsx:116-120 | the weakest subject and its rounded mean when that mean is below 60, otherwise none; `DragAlertIff` states when it shows |
| Gauge.DragAlertIff | components/StudentDashboard.tsx:116-120 | the drag alert shows iff some subject averages below 60, naming one of the student's subjects |
| CacheKey.Project | components/StudentDashboard.tsx:193 | each entry reduced to subject, score, maximum and date, in order |
| CacheKey.ProjectAppend | components/StudentDashboard.tsx:193 | the projection distributes over concatenation |
| CacheKey.HashStep | components/StudentDashboard.tsx:194 | `((h << 5) - h) + c` wrapped to 32 bits is 31h + c wrapped |
| CacheKey.HashAppend | components/StudentDashboard.tsx:194 | one more character updates the hash to 31h + code, wrapped |
| CacheKey.HashRange | components/StudentDashboard.tsx:194 | the hash is a 32-bit signed integer, 0 for empty text |
| CacheKey.Hash | components/StudentDashboard.tsx:194 | the rolling hash h ← int32(31h + c) over the code units; `HashStep`, `HashAppend` and `HashRange` state its step and range |
| CacheKey.MakeCacheKey | components/StudentDashboard.tsx:191-199 | the loop computes the key of the hashed projection, or `analysis_<id>` when serialising throws |
| CacheKey.KeyForm | components/StudentDashboard.tsx:195-197 | the key is `analysis_<id>_<hash>` with a 32-bit hash, or `analysis_<id>` |
| CacheKey.KeyFor | components/StudentDashboard.tsx:195-197 | `analysis_<id>_<hash>`, or `analysis_<id>` when serialising throws; `KeyForm` and `KeySeparatesHashes` state its form and injectivity in the hash |
| CacheKey.KeySeparatesHashes | components/StudentDashboard.tsx:195 | different hashes give different keys |
| CacheKey.KeyIgnoresKindAndCredits | components/StudentDashboard.tsx:193 | changing an entry's type or credits keeps the key |
| Gemini.AnalyzeOutcomes | geminiService.ts:16-78 | no key gives the pending-configuration analysis; a throw or unparsable reply gives the service fallback; otherwise the parsed reply |
| Gemini.AnalyzePerformance | geminiService.ts:16-78 | the parsed reply, the configuration fallback without a key, or the unavailable fallback after a throw or an unparsable reply; `AnalyzeOutcomes` states all three |
| Gemini.FallbacksDiffer | geminiService.ts:19-23 | the two fixed fallbacks differ |
| Dashboard.StudentDashboard.constructor | components/StudentDashboard.tsx:152-154 | no analysis and not loading at first |
| Dashboard.StudentDashboard.GetCachedAnalysis | components/StudentDashboard.tsx:201-212 | returns the record and purges a stale one, as `LookupCached` |
| Dashboard.StudentDashboard.SetCachedAnalysis | components/StudentDashboard.tsx:214-218 | stores `{ts: now, data}`, ignoring failures |
| Dashboard.StudentDashboard.FetchAnalysis | components/StudentDashboard.tsx:220-240 | result, shown analysis, store and loading flag as `FetchOutcome` |
| Dashboard.StudentDashboard.RunAnalysis | components/StudentDashboard.tsx:249-251 | a forced fetch |
| Dashboard.StudentDashboard.Mount | components/StudentDashboard.tsx:243-247 | shows a fresh cached analysis if there is one, otherwise keeps what is shown; the store changes only by the lookup |
| Dashboard.CacheRoundTrip | components/StudentDashboard.tsx:201-218 | a stored record is read back while younger than the TTL |
| Dashboard.Stale | components/StudentDashboard.tsx:206 | a record is stale when its timestamp is missing or zero, or when it is more than 24 h old; `ExactlyTtlIsFresh` fixes the boundary |
| Dashboard.ExactlyTtlIsFresh | components/StudentDashboard.tsx:206 | a record exactly 24 h old is still fresh; one millisecond more is stale |
| Dashboard.StaleRecordPurged | components/StudentDashboard.tsx:206-208 | a stale record is reported missing and removed, and only its key goes |
| Dashboard.CorruptEntryKept | components/StudentDashboard.tsx:205-211 | an unparsable entry reads as missing and is left in place |
| Dashboard.LookupOnlyPurgesKey | components/StudentDashboard.tsx:201-212 | a lookup removes at most its own key, and a hit changes nothing |
| Dashboard.LookupCached | components/StudentDashboard.tsx:201-212 | getCachedAnalysis: null when storage is unavailable or the key is missing or empty, null (entry kept) for unparsable text, null with the entry removed for a stale record, else the record; `CacheRoundTrip`, `StaleRecordPurged`, `CorruptEntryKept` and `LookupOnlyPurgesKey` state these cases |
| Dashboard.StoreCached | components/StudentDashboard.tsx:214-218 | setCachedAnalysis: `{ts: now, data}` saved under the key, every failure ignored; `CacheRoundTrip` reads it back |
| Dashboard.FetchWithoutScores | components/StudentDashboard.tsx:221 | with no scores, nothing happens and null is returned |
| Dashboard.FetchServesCache | components/StudentDashboard.tsx:223-229 | a fresh cached record is served unforced, whatever the provider would say |
| Dashboard.FetchAsksAndStores | components/StudentDashboard.tsx:231-239 | on a miss or when forced, the analysis is shown and cached under the key |
| Dashboard.FallbackIsCached | components/StudentDashboard.tsx:233-235 | a provider failure caches the fallback analysis |
| Dashboard.FetchThenCached | components/StudentDashboard.tsx:220-240 | within the TTL, a second unforced fetch serves the first's result |
| Dashboard.FetchOutcome | components/StudentDashboard.tsx:220-240 | fetchAnalysis: nothing without scores; unless forced, a fresh cached record; else the provider's analysis (or fallback), shown and cached; `FetchWithoutScores`, `FetchServesCache`, `FetchAsksAndStores`, `FallbackIsCached` and `FetchThenCached` state each case |
| Toasts.NewToast | components/Toast.tsx:27-29 | id from the current time, given message and type, duration defaulting to 3000 |
| Toasts.ToastId | components/Toast.tsx:28 | `Date.now().toString()`; `SameMillisecondCollision` and `DistinctTimesSeparate` state when two ids coincide |
| Toasts.Remove | components/Toast.tsx:23-25 | keeps exactly the toasts with other ids |
| Toasts.RemoveAppend | components/Toast.tsx:24 | removal distributes over concatenation, keeping order |
| Toasts.RemoveAbsent | components/Toast.tsx:24 | a list without the id is unchanged |
| Toasts.RemoveIdempotent | components/Toast.tsx:24 | removing twice equals removing once |
| Toasts.RemoveKeepsOthers | components/Toast.tsx:24 | a toast with another id survives at the end |
| Toasts.SameMillisecondCollision | components/Toast.tsx:28-32 | two toasts added in one millisecond share an id, and one removal takes both |
| Toasts.DistinctTimesSeparate | components/Toast.tsx:28-32 | toasts added at different times are removed separately |
| Toasts.Scheduled | components/Toast.tsx:31-33 | a removal timer with the toast's id and delay exactly when the duration is non-zero |
| Toasts.ToastCenter.constructor | components/Toast.tsx:21 | starts with no toasts and no timers |
| Toasts.ToastCenter.AddToast | components/Toast.tsx:27-34 | appends one toast at the end and schedules its timer; earlier toasts are unchanged |
| Toasts.ToastCenter.RemoveToast | components/Toast.tsx:23-25 | the list becomes `Remove(old list, id)` |
| Toasts.ToastCenter.Fire | components/Toast.tsx:32 | a timer going off is consumed and removes its id |
| Toasts.UseToast | components/Toast.tsx:44-50 | the context, or the error "useToast must be used within ToastProvider" |
| App.AppendScores | App.tsx:67 | old ledger followed by the new entries |
| App.AppendScoresPerStudent | App.tsx:66-70 | each student's ledger grows by exactly their new entries |
| App.RenameStudent | App.tsx:73 | renames every student with the id, nothing else changes |
| App.MoveStudent | App.tsx:79 | moves every student with the id to the division, nothing else changes |
| App.Ids | App.tsx:73 | the roll number of each student, in order |
| App.StudentUpdatesKeepRoster | App.tsx:72-82 | renames and moves keep the roster's ids, and an unknown id changes nothing |
| App.FindSubject | App.tsx:85 | the first subject with the id, or none exactly when none has it |
| App.RenameSubjectUnknown | App.tsx:85-86 | an unknown subject id changes neither catalogue nor ledger |
| App.RenameSubjectCascade | App.tsx:84-94 | renames the subject and every ledger entry carrying its old name, and nothing else |
| App.RenameSubjectKeepsLedgers | App.tsx:91 | each student keeps the same number of entries |
| App.RenameSubject | App.tsx:84-94 | the renamed catalogue and ledger; `RenameSubjectUnknown`, `RenameSubjectCascade` and `RenameSubjectKeepsLedgers` state what changes |
| App.AppendStudent | App.tsx:97 | the roster with the new student at the end |
| App.AppendStudentKeepsDuplicates | App.tsx:96-100 | adding a known id yields a roster with a duplicate id |
| App.FirstMatch | App.tsx:30 | the first id equal to the login id ignoring ASCII case, or none exactly when there is none |
| App.FacultyIds | App.tsx:41 | the faculty ids, in order |
| App.BlankLoginRejected | App.tsx:24-27 | "fill in all fields" exactly when the id or the password trims to empty |
| App.StudentLoginIff | App.tsx:29-39 | a student signs in iff the first case-insensitive id match has the password as its exact id |
| App.FacultyLoginIff | App.tsx:40-50 | the same rule against the faculty list |
| App.StudentBranch | App.tsx:29-39 | the student branch signs in exactly when the first case-insensitive match's id equals the password, and denies otherwise |
| App.FacultyBranch | App.tsx:40-50 | the faculty branch signs in exactly when the first case-insensitive match's id equals the password, and denies otherwise |
| App.Login | App.tsx:22-52 | the decision of handleLogin: missing fields first, then no role, then the branch of the role; `BlankLoginRejected`, `StudentLoginIff` and `FacultyLoginIff` state each outcome |
| App.StudentLogin | App.tsx:29-39 | the first case-insensitive roll-number match signs in when the password is exactly its id, otherwise access is denied; `StudentBranch` and `StudentLoginIff` state it |
| App.FacultyLogin | App.tsx:40-50 | the same rule against the faculty directory; `FacultyBranch` and `FacultyLoginIff` state it |
| App.LoginToasts | App.tsx:24-50 | the one toast of each login outcome (warning, welcome, or the role's error), none without a role; `App.AppContent.HandleLogin` appends exactly these |
| App.Notice | App.tsx:25-49 | the toast text and kind of each login outcome: the fill-in warning, the welcome with the user's name, the student and faculty denials, and none without a role; `LoginToasts` makes them toasts |
| App.LoginSaved | App.tsx:34-35 | a successful login saves the role under `USER_ROLE`, then the login time under `LAST_LOGIN` (the faculty branch repeats this at App.tsx:45-46); `App.AppContent.HandleLogin` writes exactly this store |
| App.LoginTimers | components/Toast.tsx:31-33 | one removal timer per login toast, with the toast's id and the default 3000 ms delay |
| App.LoginFirstStudent | App.tsx:29-36 | a login id matching the first student signs in with its exact id, and is denied otherwise |
| App.SeededStudentLogin | App.tsx:29-36 | `22ai101` with password `22AI101` signs in the seeded student; password `22ai101` is denied |
| App.Restored | App.tsx:13 | the stored value when readable and parsable, else the fallback (the seed data) |
| App.AppContent.constructor | App.tsx:11-20 | the initial state restored from storage, with seed fallbacks |
| App.AppContent.SelectRole | App.tsx:138 | the chosen role (or none, from the back button) |
| App.AppContent.EnterCredentials | App.tsx:230-243 | the typed login id and password |
| App.AppContent.HandleLogin | App.tsx:22-52 | a successful login sets the user and saves role and time; any other outcome changes no state; exactly the outcome's toast is added, with its removal timer |
| App.AppContent.SignIn | App.tsx:32-36 | the user is set and role and login time are saved |
| App.AppContent.SimulateGoogleLogin | App.tsx:54-64 | logged in as the first student or the first faculty member (none when the list is empty) |
| App.AppContent.AddScores | App.tsx:66-70 | the ledger gains the entries and is saved |
| App.AppContent.UpdateStudentName | App.tsx:72-76 | the roster is renamed and saved |
| App.AppContent.UpdateStudentDiv | App.tsx:78-82 | the roster is moved and saved |
| App.AppContent.UpdateSubjectName | App.tsx:84-94 | catalogue and ledger renamed and both saved; an unknown id changes nothing |
| App.AppContent.AddStudent | App.tsx:96-100 | the student is appended and the roster saved |
| App.AppContent.HandleLogout | App.tsx:102-110 | state reset, null role saved, and the logged-out toast added with its removal timer |
| App.LoginRoleRestored | App.tsx:34 | after a login the saved role is what the next start restores |
| App.LogoutRoleRestored | App.tsx:108 | after a logout the next start restores no role |
| FacultyDesk.DefaultMaxMarksBounds | components/TeacherDashboard.tsx:53-63 | defaults 20/20/25/80/50: all in [20, 80], and 20 exactly for the internal assessments |
| FacultyDesk.SeededMaximaAreDefaults | constants.ts:32-43 | every seeded entry's maximum is its type's default |
| FacultyDesk.DefaultMaxMarks | components/TeacherDashboard.tsx:53-63 | 20, 20, 25, 80 and 50 for IA1, IA2, TW, ESE and oral/practical (the switch covers every type, so its 100 is never used); `DefaultMaxMarksBounds` and `SeededMaximaAreDefaults` state the values |
| FacultyDesk.MaxMarksInput | components/TeacherDashboard.tsx:267 | `parseInt(v) \|\| 0`: the parsed integer, or 0 |
| FacultyDesk.ScoreChanged | components/TeacherDashboard.tsx:65-70 | an accepted input is stored verbatim, anything else leaves the inputs as they were |
| FacultyDesk.ScoreChangedKeepsInputs | components/TeacherDashboard.tsx:65-70 | kept inputs stay empty or within [0, max], and keep parsing |
| FacultyDesk.RejectsNonNumbers | components/TeacherDashboard.tsx:66-67 | a non-empty input `parseFloat` cannot read is rejected |
| FacultyDesk.AcceptsWholeMarks | components/TeacherDashboard.tsx:66-67 | a whole number is accepted iff it lies in [0, max] |
| FacultyDesk.AcceptsScore | components/TeacherDashboard.tsx:66-67 | the empty string, or text whose parseFloat lies in [0, max]; `RejectsNonNumbers` and `AcceptsWholeMarks` state what it admits |
| FacultyDesk.ActiveSubject | components/TeacherDashboard.tsx:42 | the selected subject, or the first one when the id is unknown |
| FacultyDesk.ActiveSubjectFallback | components/TeacherDashboard.tsx:42 | a known id selects a subject with that id; an unknown one selects the first |
| FacultyDesk.Division | components/TeacherDashboard.tsx:41 | exactly the students of the division, in roster order (`DivisionAppend`) |
| FacultyDesk.DivisionAppend | components/TeacherDashboard.tsx:41 | the filter is piecewise over a split roster, so it keeps the roster's order |
| FacultyDesk.RenameRequest | components/TeacherDashboard.tsx:73-74 | a rename is requested iff the text is not blank, with the untrimmed text |
| FacultyDesk.RegisterIff | components/TeacherDashboard.tsx:79-95 | empty id or name does nothing; a known id is a duplicate; otherwise the student with the fixed major |
| FacultyDesk.Register | components/TeacherDashboard.tsx:79-95 | handleRegisterStudent's decision on the untrimmed fields; `RegisterIff` states its three outcomes |
| FacultyDesk.Scored | components/TeacherDashboard.tsx:100 | exactly the division's students with a non-empty input, in division order (`ScoredAppend`) |
| FacultyDesk.ScoredAppend | components/TeacherDashboard.tsx:100 | the selection is piecewise over a split division, so it keeps the division's order |
| FacultyDesk.BuildEntries | components/TeacherDashboard.tsx:99-109 | one entry per scored student, in order, built from the parsed input |
| FacultyDesk.BuildEntriesSingle | components/TeacherDashboard.tsx:99-109 | one student with a kept input yields exactly that student's entry, scored by the parsed input |
| FacultyDesk.BatchFields | components/TeacherDashboard.tsx:101-109 | every entry is for a division student, with the active subject, type, maximum and date |
| FacultyDesk.EntryFor | components/TeacherDashboard.tsx:101-109 | the entry of one student: their id, the active subject's name and credits, the type, the score, the maximum and the date; `BatchFields` states the fields of every entry |
| FacultyDesk.CommitAlert | components/TeacherDashboard.tsx:114 | "Ledger Updated: n records committed." with n in decimal; `FacultyDesk.TeacherDashboard.HandleSubmit` raises it with the batch size |
| FacultyDesk.StaleMaxAdmitsOverflow | components/TeacherDashboard.tsx:53-70 | an input accepted under the Term Work maximum (25) is committed above 20 after switching to IA1 |
| FacultyDesk.TeacherDashboard.constructor | components/TeacherDashboard.tsx:24-45 | the initial selections, empty inputs, maximum 20, and the first subject's name in the edit box |
| FacultyDesk.TeacherDashboard.Valid | components/TeacherDashboard.tsx:65-70 | the component's invariant: a non-empty subject list, and every kept input parses; the constructor establishes it, the handlers that change the inputs, the type, the maximum or the subject re-establish it, and the others do not modify what it reads |
| FacultyDesk.TeacherDashboard.SelectType | components/TeacherDashboard.tsx:53-63 | the type is chosen and the maximum reset to its default |
| FacultyDesk.TeacherDashboard.EditMaxMarks | components/TeacherDashboard.tsx:267 | the maximum becomes the parsed input or 0 |
| FacultyDesk.TeacherDashboard.SelectClass | components/TeacherDashboard.tsx:235 | the chosen division |
| FacultyDesk.TeacherDashboard.SelectSubject | components/TeacherDashboard.tsx:42-50 | the chosen subject, with the active subject's name synced into the edit box |
| FacultyDesk.TeacherDashboard.HandleScoreChange | components/TeacherDashboard.tsx:65-70 | inputs updated as `ScoreChanged` with the current maximum |
| FacultyDesk.TeacherDashboard.HandleSubjectNameUpdate | components/TeacherDashboard.tsx:72-77 | editing ends; a non-blank text requests renaming the active subject |
| FacultyDesk.TeacherDashboard.EditDraft | components/TeacherDashboard.tsx:194-212 | the registration draft is replaced |
| FacultyDesk.TeacherDashboard.PickDate | components/TeacherDashboard.tsx:276 | the assessment date is set |
| FacultyDesk.TeacherDashboard.StartSubjectEdit | components/TeacherDashboard.tsx:138 | editing opens on the active subject |
| FacultyDesk.TeacherDashboard.EditSubjectName | components/TeacherDashboard.tsx:132 | the edit box text is set |
| FacultyDesk.TeacherDashboard.ToggleRegistering | components/TeacherDashboard.tsx:150 | the registration form is toggled |
| FacultyDesk.TeacherDashboard.HandleRegisterStudent | components/TeacherDashboard.tsx:79-95 | as `Register`: nothing, a duplicate alert, or the add request with the draft reset to the current division |
| FacultyDesk.TeacherDashboard.HandleSubmit | components/TeacherDashboard.tsx:97-116 | a non-empty batch is requested, the inputs cleared and the count alerted; an empty batch does nothing |
| Charts.Label | components/DashboardCharts.tsx:28 | at most 15 characters: the name itself, or its first 12 followed by "..." |
| Charts.OfType | components/DashboardCharts.tsx:25 | exactly the entries of the type |
| Charts.OfTypeAppend | components/DashboardCharts.tsx:25 | the type filter distributes over concatenation |
| Charts.AssessmentData | components/DashboardCharts.tsx:27-32 | one bar per entry of the type, in order, with label, score, maximum and percentage |
| Charts.ChartEmptyIff | components/DashboardCharts.tsx:34 | the chart is omitted iff no entry has the type |
| Charts.BarsWithinAxis | components/DashboardCharts.tsx:31 | bars of in-range entries fit the 0–100 axis |
| Charts.FindDate | components/DashboardCharts.tsx:85 | the first point with the date, or none exactly when none has it |
| Charts.Pct | components/DashboardCharts.tsx:84 | the entry's percentage, score / maximum × 100, which `TrajectoryAverages` averages |
| Charts.Merge | components/DashboardCharts.tsx:84-90 | one `reduce` step: halve the percentage into the point of the date, or push a new point; `MergeExisting`, `MergeFresh`, `MergeDates` and `MergeAscends` state its effect |
| Charts.MergeDates | components/DashboardCharts.tsx:85-90 | a known date keeps the point dates; a new date is appended |
| Charts.MergeExisting | components/DashboardCharts.tsx:85-87 | a date already present halves the new percentage into its point and changes nothing else |
| Charts.MergeFresh | components/DashboardCharts.tsx:88-90 | a date not yet present appends a new point holding the percentage |
| Charts.MergeAscends | components/DashboardCharts.tsx:83-92 | merging an entry no older than the last point keeps the points strictly ascending, ending at the entry's date |
| Charts.PerformanceTrajectory | components/DashboardCharts.tsx:80-92 | the loop over the ascending sort builds `Trajectory` of it |
| Charts.Dates | components/DashboardCharts.tsx:89 | the date of each point, in order |
| Charts.TrajectoryCoversDates | components/DashboardCharts.tsx:83-92 | a date has a point iff some entry has that date |
| Charts.TrajectoryDatesDistinct | components/DashboardCharts.tsx:85-90 | no two points share a date |
| Charts.TrajectoryAscends | components/DashboardCharts.tsx:81-92 | over date-sorted entries the points strictly ascend, the last at the newest date |
| Charts.Trajectory | components/DashboardCharts.tsx:83-92 | the `reduce` over entries already in order; `TrajectoryCoversDates`, `TrajectoryDatesDistinct`, `TrajectoryAscends` and `TrajectoryAverages` state its points, and `PerformanceTrajectory` computes it by a loop |
| Charts.TrajectoryAverages | components/DashboardCharts.tsx:84-87 | a point's average is the running pairwise halving of its date's percentages, in order |
| Charts.PctsOnDated | components/DashboardCharts.tsx:84-87 | a date's percentages depend only on the entries of that date, in their order |
| Charts.LedgerOrderAverages | components/DashboardCharts.tsx:81-87 | because the sort is stable, the chart's average for a date is the running halving of that date's percentages in the order the ledger recorded them |
| Charts.NoPointNoPcts | components/DashboardCharts.tsx:83-92 | a date without a point has no entries |
| Charts.SortedTrajectory | components/DashboardCharts.tsx:80-92 | the curve of any ledger has strictly ascending dates, one per date present |
| Validation.Span | utils/validation.ts:12 | where a greedy character-class run stops: all in class before, not in class at the stop |
| Validation.SpanExact | utils/validation.ts:12 | a run that cannot be extended is the greedy one |
| Validation.RollMatchIff | utils/validation.ts:12 | the engine's scan accepts exactly 2 digits, 2–4 capitals, 3–4 digits |
| Validation.ValidRollNumber | utils/validation.ts:10-13 | valid iff the trimmed text is 2 digits, 2–4 capitals, then 3–4 digits |
| Validation.SevenCharacterRollNumber | utils/validation.ts:10-13 | every id shaped like `22AI101` is valid |
| Validation.SeededRollNumbersValid | constants.ts:19-30 | every seeded student id passes |
| Validation.CodeMatchIff | utils/validation.ts:40 | the scan accepts exactly 2–3 capitals then 3–4 digits |
| Validation.ValidSubjectCode | utils/validation.ts:38-41 | valid iff the trimmed text is 2–3 capitals then 3–4 digits |
| Validation.SixCharacterCode | utils/validation.ts:38-41 | every code shaped like `CSC401` is valid |
| Validation.SeededCodesValid | constants.ts:4-11 | every seeded subject code passes |
| Validation.NameMatchIff | utils/validation.ts:17 | the scan accepts exactly 2–100 characters from the class |
| Validation.ValidName | utils/validation.ts:15-18 | valid iff the trimmed text has 2–100 characters, each a letter, whitespace, `'` or `-` |
| Validation.ForeignCharacterRejected | utils/validation.ts:15-18 | any other character (a '.', a digit) makes the name invalid |
| Validation.TrimmingValidatorsIgnorePadding | utils/validation.ts:12-40 | roll number, subject code and name checks ignore surrounding whitespace |
| Validation.ValidPassword | utils/validation.ts:20-23 | an accepted password is non-empty |
| Validation.BlankPasswordAccepted | utils/validation.ts:20-23 | six spaces pass: the length is counted untrimmed |
| Validation.PasswordMonotone | utils/validation.ts:22 | valid iff at least six characters; extending a valid password keeps it valid |
| Validation.ValidScore | utils/validation.ts:25-27 | valid iff 0 ≤ score ≤ maxScore, so never when the maximum is negative |
| Validation.ScoreBoundsIncluded | utils/validation.ts:26 | both bounds are inclusive |
| Validation.DotInIff | utils/validation.ts:6 | the scan for a '.' finds one exactly when there is one in the range |
| Validation.EmailMatchIff | utils/validation.ts:6 | the engine's scan accepts exactly the declared email shape |
| Validation.ValidEmail | utils/validation.ts:5-8 | valid iff no whitespace, exactly one '@' with text before it, and after it a '.' with text on both sides |
| Validation.PaddedEmailRejected | utils/validation.ts:5-8 | emails are not trimmed: leading whitespace rejects |
| Validation.NextGt | utils/validation.ts:33-34 | the first '>' at or after a position, or none |
| Validation.LazyClose | utils/validation.ts:33 | a lazy match of `.*?` followed by the closing word ends within the text, past its start by at least the word's length |
| Validation.LazyCloseNearest | utils/validation.ts:33 | the lazy `.*?` ends at an occurrence (any case) of the closing word, and no earlier occurrence or line terminator starts before it |
| Validation.ScriptAt | utils/validation.ts:33 | a script-block match starts with '<' and is non-empty |
| Validation.StripScripts | utils/validation.ts:33 | the script replacement never lengthens the text |
| Validation.TagAt | utils/validation.ts:34 | a tag match is '<', at least one non-'>' character, then '>' |
| Validation.StripTags | utils/validation.ts:34 | the tag replacement only deletes: no longer, and no new characters |
| Validation.Take | utils/validation.ts:35 | `slice(0, n)`: a prefix of at most n characters, the whole text when short enough |
| Validation.Sanitize | utils/validation.ts:29-36 | the result has at most 200 characters |
| Validation.NoAngleUntouched | utils/validation.ts:33-34 | text without '<' passes both replacements unchanged |
| Validation.SanitizePlainText | utils/validation.ts:29-36 | for input without '<', the result is the trimmed input cut to 200 characters |
| Validation.StripTagsHead | utils/validation.ts:34 | a text not starting with '<' keeps its first character |
| Validation.StripTagsTagFree | utils/validation.ts:34 | the tag replacement leaves no `<[^>]+>` match anywhere |
| Validation.TagAtPrefix | utils/validation.ts:35 | cutting a text never creates a tag at its start |
| Validation.TakeTagFree | utils/validation.ts:35 | cutting a tag-free text keeps it tag-free |
| Validation.SanitizeTagFree | utils/validation.ts:29-36 | sanitized text contains no HTML tag |

## Left out

- Rendering, the DOM and styling: all JSX, the chart libraries, `UIComponents`, `SkeletonLoaders`, the CSV transcript export and `useTheme` are not part of this model.
- React scheduling: state updates apply at once, and the effects run inside the handler that triggers them. The subject-name sync runs in `SelectSubject`, the default-maximum reset in `SelectType`, and the mount lookup in `Mount`. Re-renders triggered by new props are not modelled.
- Timing: `setTimeout` is the `timers` list of `ToastCenter`, and a timer fires when `Fire` is called. The clock is a `now` argument.
- `validateDate`: it needs `Date` parsing, which is not modelled.
- Floating point: numbers are exact reals. NaN, Infinity and binary rounding are not modelled. The metrics require a positive maximum on every entry, because a zero maximum gives NaN in the source.
- `Validation.ValidScore`: does not model NaN arguments, for which the source returns false.
- `DateSort.StrLt`: compares dates as strings, while the source compares `new Date(x).getTime()` (StudentDashboard.tsx:171, DashboardCharts.tsx:81). The two orders agree on yyyy-mm-dd dates. They differ for the empty date that a cleared date input submits (TeacherDashboard.tsx:272-277, stored at line 107). `new Date('')` is NaN, so the comparator returns NaN and the browser's order is implementation-defined; the model sorts "" before every other date.
- `Text.ParseFloat`: does not accept `Infinity`, hexadecimal or exotic forms. `parseInt` is an argument.
- `Text.ToLower`: folds ASCII letters only. One `char` stands for one UTF-16 code unit.
- `Gauge.SubjectPcts`: lists subjects in first-appearance order. This is what `Object.entries` does for non-numeric keys; subject names that look like array indices would be ordered first in the source.
- JSON: the text format is not modelled. The codecs are parameters, and lemmas that need a round trip require it. The `ts` field is read as a number; a record whose `ts` is not a number is not modelled.
- The AI provider: the prompt, the model call, `response.text` and the quota diagnosis are not modelled. The reply is a `ProviderReply` value, and the console messages are left out.
- Console logging in `utils/storage.ts` and the quota log are left out, since they have no effect on state.
- `FacultyDesk.TeacherDashboard`: its props `students` and `subjects` are constants. Changes the parent makes to them are not replayed.
- `FacultyDesk.TeacherDashboard.constructor`: requires a non-empty subject list, and so does `FacultyDesk.ActiveSubject`. App.tsx:20 keeps any parsable stored list, including `[]`. With an empty list the component throws a TypeError at `subjects[0].id` (components/TeacherDashboard.tsx:25), and the model does not cover that input.
- `Dashboard.StudentDashboard.FetchAnalysis`: the `await` is atomic. The loading flag is set and cleared in one call, so interleavings with other handlers are not modelled.
- The cache preview (components/StudentDashboard.tsx:272-275): every render runs `getCachedAnalysis` for the current key, which removes a stale record. This render-time lookup is not modelled; `Dashboard.StudentDashboard.GetCachedAnalysis` states what one such lookup does. The "cached N minutes ago" text it feeds is rendering only.
- Seed data: no lemma states that the seeded faculty names fail `validateName`. The names contain '.', and `Validation.ForeignCharacterRejected` states the general rule.
