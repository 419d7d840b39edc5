# Resume matcher: skill matching and resume assembly

This project models the skill-matching and resume-assembly core of the
resume-matcher web application, two Express servers (`app.js` over SQLite,
`app.mjs` over Supabase). The model covers these parts:

- **Skill tokenising.** Free-text skills are split on `,` and each piece is
  trimmed (`SkillParsing.SplitTrim`). The add-work-history route's
  `validateSkills` also drops empty tokens and throws when none remain
  (`SkillParsing.ValidateSkills`, with the throw as a `Result`).
- **Match scorer.** `calculateSkillMatch` lower-cases both lists into
  JavaScript `Set`s, keeps the job skills the user also has and computes
  `matched / distinct job skills * 100` (`SkillMatch`). The percentage is an
  exact rational, and 0/0 is `NaN`.
- **Match report.** The `/match-resume/:id` route attaches a match result to
  every work-history row, in input order (`MatchReport`).
- **Resume text.** `generateResumeContent` groups rows by the string key
  `${company}-${position}` with a `reduce` that updates a dictionary in
  place. Loops then append lines to a growing string. Both are imperative
  methods proved against specification functions (`ResumeContent`).
- **Dashboard skill tally.** A dictionary from trimmed token to count,
  updated in place (`SkillTally`). The same module also models the code as
  written over a plain JavaScript object that inherits `Object.prototype`.
- **SQL placeholder list.** The `IN (?,?,…)` list of the job-posting route
  sits next to its parameter array (`Placeholders`).
- **Entry-list construction.** The add-work-history route builds the entry
  list, and the update and insert routes split and trim without filtering
  (`EntryList`).

Shared vocabulary lives in `JsString` and `Sequences`:

- `JsString` holds `split` with a one-character separator, `trim`,
  `toLowerCase` and `join`.
- `Sequences` holds duplicate-freedom, first-occurrence order and `Set`
  iteration order.

`trim` removes exactly the ECMA-262 WhiteSpace and LineTerminator code
points. `toLowerCase` is modelled on the ASCII letters only.

Some behaviour of the code is easy to misread:

- An empty required-skill list does not give 0 %. The code divides 0 by 0
  and yields `NaN`, and that is what `SkillMatch.CalculateSkillMatch`
  states. At the match-report call site this cannot happen, because
  `split(',')` always yields at least one piece.
- Tokenising neither lower-cases nor removes duplicates. Only the scorer
  does both.
- Groups are not keyed by the (company, position) pair. The key is the
  string `company + "-" + position`, so two different pairs can share a
  group (`ResumeContent.KeyCollision`). `ResumeContent.GroupedByPair` shows
  that grouping is by pair whenever keys do not collide.
- Per-group entry lists concatenate to the input rows only when rows with
  equal keys are contiguous. What holds in general is proved instead: each
  group holds exactly the rows of its key, in input order, and the groups
  together hold one entry per row.

## Model

| member | source | states |
|---|---|---|
| `JsString.Split` | app.js:260 | `split(',')` yields one more piece than there are commas, no piece holds a comma, and joining the pieces with `,` gives the input back |
| `JsString.Trim` | app.js:260 | `trim()` returns a slice of the input whose ends are not white space, with only white space outside it |
| `JsString.TrimIdempotent` | app.js:262 | trimming a trimmed token changes nothing |
| `JsString.ToLower` | app.js:78-79 | `toLowerCase()` keeps the length, turns each letter A-Z into its lower-case letter (32 code points on), leaves no upper-case letter and changes nothing else |
| `Sequences.Dedup` | app.js:78-79 | `new Set(list)` holds each element of the list exactly once and nothing else |
| `Sequences.DedupOrder` | app.js:78 | a `Set` built from a list iterates in first-occurrence order |
| `Sequences.Keep` | app.js:80 | `filter(x => set.has(x))` keeps exactly the elements that are in the set, never adds duplicates and never lengthens the list |
| `Sequences.KeepOrder` | app.js:80 | filtering preserves first-occurrence order |
| `Sequences.KeepAll` | app.js:80 | the filter keeps the whole list iff every element is in the set, which is when all job skills are matched |
| `SkillMatch.LowerAll` | app.js:78-79 | `map(s => s.toLowerCase())` lower-cases each skill and keeps its position |
| `SkillMatch.MatchedSkills` | app.js:78-80 | a skill is matched iff, lower-cased, it is in both lists; matched skills are distinct and in first-occurrence order of the lower-cased job list; there are at most as many as distinct job skills, and exactly as many iff the user has every job skill |
| `SkillMatch.PercentOf` | app.js:83 | `(m / total) * 100` is NaN iff `total` is 0; otherwise it is the exact share, lies in [0, 100] when `m <= total`, and is 100 iff `m == total` |
| `SkillMatch.CalculateSkillMatch` | app.js:77-85 | the matched skills are the common lower-cased skills, each once, in job order; the percentage is NaN iff the job list is empty, otherwise lies in [0, 100] and is 100 iff every job skill is held |
| `SkillMatch.CaseInsensitive` | app.js:78-79 | lower-casing the job list, the user list or both first does not change the result |
| `SkillMatch.HalfMatch` | app.js:77-85 | two distinct lower-case required skills of which the user holds one (say "sql", "python" against "python", "java") match exactly that one at 50 |
| `SkillMatch.EmptyJobIsNaN` | app.js:83 | an empty job list gives no matched skills and a NaN percentage |
| `SkillMatch.MixedCaseMatch` | app.js:77-85 | "SQL", "Python" against "python", "Java" match "python" alone at 50: case is folded before comparing |
| `MatchReport.MatchEntries` | app.js:260-265 | one record per row, in the same order, each keeping its row; the matched skills are those common to the job's and the row's tokens; no percentage is NaN and each lies in [0, 100] |
| `MatchReport.MatchEntriesUsesScorer` | app.js:263-264 | each record's match fields are the scorer's result for that row's tokens |
| `SkillParsing.TrimAll` | app.js:260 | `map(s => s.trim())` trims each piece and keeps its position |
| `SkillParsing.SplitTrim` | app.js:260 | split-then-trim yields one token per comma plus one, each trimmed and comma-free |
| `SkillParsing.SplitTrimJoin` | app.mjs:222 | comma-joined trimmed, comma-free tokens are recovered by split-then-trim |
| `SkillParsing.EmptyTokenKept` | app.mjs:262 | without filtering, a trailing comma adds an empty last token |
| `SkillParsing.NonEmpty` | app.mjs:138 | `filter(skill => skill !== '')` returns only non-empty tokens, as a subsequence of its input, so in their original relative order |
| `SkillParsing.NonEmptyMultiset` | app.mjs:138 | the filter keeps every non-empty token exactly as often as it occurs and drops every empty one |
| `SkillParsing.NonEmptyLength` | app.mjs:138-139 | the filter never lengthens its input, and its result is empty iff every token is empty |
| `SkillParsing.ValidateSkills` | app.mjs:137-143 | fails iff every split-and-trimmed piece is empty; on success returns between 1 and commas-plus-1 tokens, each non-empty, trimmed and comma-free, as a subsequence of the pieces with exactly the non-empty ones kept |
| `SkillParsing.ValidateFailsIffBlank` | app.mjs:138-141 | validation throws iff the input consists only of commas and white space |
| `SkillParsing.ValidateJoinIdempotent` | app.mjs:137-143 | validating the comma-joined result of a validation gives the same tokens |
| `Placeholders.Marks` | app.js:51 | `map(() => '?')` gives one `?` per piece |
| `Placeholders.PlaceholderList` | app.js:51 | the `IN` list holds one `?` per comma-separated piece of the skills, that is commas-plus-1 |
| `Placeholders.MatchingUsersQuery` | app.js:50-52 | the query binds commas-plus-1 values, which joined by `,` give the skills string back; `QueryParamsMatch` ties their number to the `?` count |
| `Placeholders.PlaceholderListShape` | app.js:50-51 | the placeholder list alternates `?` and `,`, starts and ends with `?`, and holds commas-plus-1 `?` |
| `Placeholders.QueryParamsMatch` | app.js:50-52 | the number of `?` in the whole query text, all of them in the `IN` list, equals the number of bound parameters, which are the untrimmed pieces that join back to the skills string |
| `Placeholders.HeadHasNoMark` | app.js:50 | the fixed text before the `IN` list holds no `?` |
| `Placeholders.ParamsKeepSpaces` | app.js:52 | the bound values are not trimmed: "sql, python" binds " python" |
| `ResumeContent.KeyOf` | app.js:92 | the key is one character longer than company and position together, with a `-` right after the company; `KeyCollision` and `GroupedByPair` show what this string key means for grouping |
| `ResumeContent.KeyParts` | app.js:92 | the key starts with the company and ends with the position, after the `-` |
| `ResumeContent.Grouped` | app.js:91-109 | `Object.values` of the grouped object: one group per distinct key, never more groups than rows, and none only for no rows; `GroupedKeys`, `GroupedFirstRow`, `EntriesCount` and `GroupedTotal` characterise the groups |
| `ResumeContent.FirstWithKeyIsFirst` | app.js:93-101 | the row that creates a group is the first row with its key |
| `ResumeContent.GroupEntries` | app.js:91-107 | the `reduce` that creates each group on first sight and pushes every row's entry computes one group per distinct key in first-seen order |
| `ResumeContent.GroupedKeys` | app.js:91-109 | group keys are the row keys without repeats, in first-seen order |
| `ResumeContent.GroupedFirstRow` | app.js:93-101 | a group's company, position and dates are those of the first row with its key |
| `ResumeContent.EntriesCount` | app.js:102-105 | a group holds one entry per row with its key |
| `ResumeContent.EntriesFromRows` | app.js:102-105 | each entry of a group is the description and skills of a row with its key |
| `ResumeContent.EntryInGroup` | app.js:102-105 | each row's entry is in the group of its key |
| `ResumeContent.GroupedTotal` | app.js:91-109 | the groups together hold exactly one entry per input row |
| `ResumeContent.SameKeyOneGroup` | app.js:91-107 | two rows with one key make one group carrying the first row's fields and both entries in order |
| `ResumeContent.KeyCollision` | app.js:92 | rows ("a-b", "c") and ("a", "b-c") land in one group under the key "a-b-c" |
| `ResumeContent.GroupedByPair` | app.js:91-107 | when no keys collide, each row's entry sits in the group of its own company and position |
| `ResumeContent.AppendEntries` | app.js:112-115 | the inner loop appends a description line and a skills line per entry, in order |
| `ResumeContent.AppendGroup` | app.js:110-116 | one group's block is its position line, its date line, its entries and a blank line |
| `ResumeContent.AppendGroups` | app.js:109-117 | the outer loop appends every group's block in group order |
| `ResumeContent.GenerateResumeContent` | app.js:86-120 | the text is the title/company header and the `Work Experience:` line, followed by the blocks of the groups in first-seen order |
| `ResumeContent.ResumeText` | app.js:86-120 | the text starts with the header, and is the header alone for no rows; `ResumeLineCount` counts its lines |
| `ResumeContent.ResumeLineCount` | app.js:87-88 | when no field holds a line break, the text has 3 header lines, 3 lines per group and 2 lines per row |
| `SkillTally.AllTokens` | app.js:276 | the nested loops visit one trimmed token per comma-separated piece of every row |
| `SkillTally.TallyCounts` | app.js:277 | the tally's keys are exactly the visited tokens, and each count is that token's number of occurrences, so at least 1 |
| `SkillTally.TallyOfRows` | app.js:275-280 | the keys are trimmed, comma-free tokens with count >= 1, and the counts sum to the number of comma-separated pieces of all rows |
| `SkillTally.TallyPiece` | app.js:277 | one increment of the corrected dictionary, which inherits no members, extends the tally by one trimmed token |
| `SkillTally.TallyRow` | app.js:276-278 | the inner loop over the corrected dictionary extends the tally by the row's trimmed pieces, in order |
| `SkillTally.TallySkills` | app.js:275-280 | the `reduce` over the corrected dictionary, which inherits no members, computes the tally of all visited tokens; `TallyAsWrittenAgrees` shows the code over `{}` gives the same whenever no token names an `Object.prototype` member |
| `SkillTally.Get` | app.js:277 | reading a key that is not an `Object.prototype` member gives the own value or `undefined` |
| `SkillTally.OrZero` | app.js:277 | the logical-or default turns `undefined` into 0 and keeps numbers |
| `SkillTally.PlusOne` | app.js:277 | `v + 1` adds on numbers; anything else becomes its string form (a string itself, a native function's source text, or `[object Object]`) followed by "1" |
| `SkillTally.Put` | app.js:277 | an assignment stores the value, except at `__proto__`, where it is ignored |
| `SkillTally.TallyAsWritten` | app.js:275-280 | the `reduce` as written over a plain `{}` never gains an own `__proto__` property |
| `SkillTally.TallyAsWrittenKeys` | app.js:275-280 | the object as written gains own properties only for visited tokens |
| `SkillTally.IncrementAgrees` | app.js:277 | on a key that is not inherited, one increment of the object as written equals one increment of the corrected tally |
| `SkillTally.TallyAsWrittenAgrees` | app.js:275-280 | when no token names an `Object.prototype` member, the code as written computes the intended tally |
| `SkillTally.ToStringCounterexample` | app.js:277 | the token "toString" is stored as function text followed by "1", not as the count 1 |
| `SkillTally.ToStringTwice` | app.js:277 | a second "toString" appends another "1" to the function text, where the intended count is 2 |
| `SkillTally.ProtoCounterexample` | app.js:277 | the token "__proto__" is never stored |
| `EntryList.SkillsFor` | app.mjs:168 | with an array of skills, index `i` reads `skills[i]` or undefined past its end; a single string is shared by every index; absent skills read undefined |
| `EntryList.CheckSkills` | app.mjs:168 | a value that is not a string throws a TypeError; a string that fails validation throws `validateSkills`' own error for an empty skill list; otherwise the result is that of `validateSkills` |
| `EntryList.CheckSkillsSpec` | app.mjs:168 | a string passes iff it is not commas and white space only, and then yields at least one non-empty trimmed token |
| `EntryList.MapThrowing` | app.mjs:165 | a `map` whose callback may throw, when it succeeds, has one result per element |
| `EntryList.MapThrowingSucceeds` | app.mjs:165 | a `map` whose callback may throw succeeds iff every callback succeeds |
| `EntryList.MapThrowingValues` | app.mjs:165 | a `map` that succeeds holds the callbacks' results, one per element, in order |
| `EntryList.MapThrowingFirstError` | app.mjs:165 | a `map` that fails carries the error of the first callback that throws |
| `EntryList.EntryAtSpec` | app.mjs:165-168 | the callback builds the entry from the work-history id, the description and that index's validated skills, or fails with their error |
| `EntryList.MapEntriesSucceeds` | app.mjs:165-168 | with an array of descriptions, building succeeds iff the skills of every index validate |
| `EntryList.MapEntriesValues` | app.mjs:165-168 | with an array of descriptions, entry `i` carries the id, description `i` and the validated skills of index `i` |
| `EntryList.MapEntriesFirstError` | app.mjs:165-168 | a failure is the error of the first index whose skills do not validate |
| `EntryList.ArrayEntries` | app.mjs:165-168 | with an array of descriptions there is one entry per description, each with the work-history id and its own description; an empty array gives no entries |
| `EntryList.ArrayEntriesAligned` | app.mjs:165-168 | with an array of skills, building succeeds iff there is a skills value for every description and each validates; entry `i` holds validated `skills[i]` |
| `EntryList.ArrayEntriesShared` | app.mjs:165-168 | with one shared skills string, building succeeds iff it validates, and then every entry holds it validated |
| `EntryList.ArrayEntriesMissingSkills` | app.mjs:168 | with a non-empty array of descriptions and no skills, building throws a TypeError |
| `EntryList.SingleEntrySpec` | app.mjs:169-173 | without an array of descriptions there is exactly one entry, with the id, the submitted description and the validated skills, or a throw when the skills do not validate or are not a single string |
| `EntryList.BuildEntries` | app.mjs:165-173 | the `entries` constant: on success, one entry per description of an array, otherwise exactly one; a failure is a TypeError or a `validateSkills` rejection |
| `EntryList.EntriesWellFormed` | app.mjs:165-173 | every entry built carries the work-history id and at least one non-empty, trimmed skill |
| `EntryList.SplitTrimField` | app.mjs:222 | the update and insert routes yield commas-plus-1 trimmed, comma-free tokens, and throw a TypeError when skills is not a string |
| `EntryList.SplitTrimFieldKeepsEmpty` | app.mjs:262 | unlike `validateSkills`, these routes keep a trailing empty token |

## Findings

| source | as written | input that shows it | evidently intended | confidence | as-written member | corrected member |
|---|---|---|---|---|---|---|
| app.js:275-280 | the tally is a plain `{}`, so `acc[key]` reads inherited `Object.prototype` members | a row whose skills are "toString" stores `"function toString() { [native code] }1"`; one with "__proto__" stores nothing | a count per trimmed token, at least 1 for every token seen | not executed | `SkillTally.ToStringCounterexample` | `SkillTally.TallyOfRows` |

The code as written is `SkillTally.TallyAsWritten`, over a plain object
that inherits `Object.prototype`. The corrected tally is `SkillTally.Tally`,
computed in place by `SkillTally.TallySkills`. `SkillTally.ProtoCounterexample`
shows the `__proto__` half of the same row, and `SkillTally.ToStringTwice` a
repeated "toString". `SkillTally.TallyAsWrittenAgrees` shows the two agree on
every other input.

## Left out

- Express routing, middleware, EJS rendering, SQLite and Supabase queries, bcrypt/JWT and Supabase authentication, e-mail notifications, the LinkedIn fetch and the LLM completion are not modelled. They are framework glue or I/O with external services.
- The `Promise.all` fan-out of entry inserts in `app.js` is not modelled. It is asynchronous plumbing around storage.
- The `IN (${selectedEntries.join(',')})` query of the resume route is not modelled. It is a storage concern; the resume model starts from the rows it returns.
- `SkillMatch.PercentOf`: the percentage is the exact rational `100 * m / total`, not the IEEE double the code computes. Rounding (for example 1/3 * 100) and float formatting are not captured.
- `JsString.ToLower`: only the ASCII letters A-Z are case-folded. Full Unicode `toLowerCase` is not modelled.
- `JsString.Split`: only the one-character separator form of `split` is modelled, which is the only form the core uses.
- `WorkHistory.Row`: text columns other than the dates are modelled as non-NULL strings. A NULL company or position would print as "null", and a NULL skills column would make `split` throw.
- `SkillTally.TallySkills`: the dashboard query selects from `work_history` only (app.js:272), and that table has no skills column (app.js:354-362). As written, `entry.skills` is therefore undefined, and the tally would throw for any user with at least one row. It is not reached at all as written, though: nothing in app.js sets `req.user` (the only assignment is commented out at app.js:73), so `req.user.id` throws first at app.js:272, and likewise at app.js:257 in the match-report route, before app.js:260-265 runs. The tally and the match report are modelled as the code would behave once the authentication middleware is in place, over rows that do carry a skills string.
- `Placeholders.MatchingUsersQuery`: `required_skills` comes from the request body (app.js:44, parsers at app.js:39-40) and is modelled as a string. When it is absent or an array, `split` at app.js:51 throws a TypeError inside the insert callback, after the posting has been stored; the model does not cover that case.
- `WorkHistory.JobPosting`: its fields are modelled as non-NULL strings, but the schema allows NULL (app.js:337-343). A NULL title or company would print as "null" in the resume header (app.js:87), and a NULL `required_skills` would make `split` throw at app.js:260; the model does not cover those rows.
- `EntryList.FormField`: a form field is modelled as absent, one string or an array of strings. The JSON and extended URL-encoded body parsers (app.mjs:19-20, app.mjs:36) can also deliver numbers, `null`, objects and nested arrays. There a non-string skills value throws a TypeError and a non-string description is stored as it is; the model does not cover those inputs.
- `SkillTally.Get`: the inherited members are named as in a current JavaScript engine. Engine-specific extra members of `Object.prototype` are not modelled.
