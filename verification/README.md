# Portfolio CV logic and REST server, modelled in Dafny

This project models two parts of a personal portfolio site.

**The CV page (`frontend/pages/cv.tsx`).** This part is pure computation:
- the text normaliser `norm`;
- the date parser `parseDateToYM` and the month difference `diffInMonths`;
- the professional-experience classifier `isProfessional`;
- the `useMemo` that adds up months of professional experience and renders "N ans M mois";
- the seniority level (`levelInfo`) and the three progress segments;
- the skill grouping, the language-level bar width and the interest icon.

**The REST server (`backend/server-pg.ts`).** This part is `handleRequest`:
- routing of (method, path) to a handler;
- the per-resource `config` table and the binding of a JSON body to column values;
- the `$n` placeholder and `col=$n` assignment text;
- the single-row personal-info upsert.

The database is an abstract store: each table is a map from id to row, plus its SERIAL counter. Requests are handled one at a time, each from start to finish.

Modules, one per file:

| module | models |
|---|---|
| `Wrappers` | `Option` |
| `Text` | `toLowerCase`, NFD accent stripping, `trim`, `/\s+/g` collapsing, `includes`, `norm` |
| `Numerals` | decimal digits, `parseInt`, number-to-text |
| `Dates` | `parseDateToYM`, `diffInMonths` |
| `Classify` | `isProfessional` |
| `Experience` | the experience-total `useMemo` |
| `Seniority` | `levelInfo`, `seg1Pct`/`seg2Pct`/`seg3Pct`, the tenure caption |
| `Skills` | `groupedSkills` |
| `Widgets` | language bar width, `iconForInterest` |
| `Json` | parsed request bodies and JavaScript member reads |
| `Resources` | the six resources, `config`, NOT NULL columns |
| `Binding` | body→values binding, placeholder and assignment text |
| `Tables` | the abstract SQL tables |
| `Routing` | path recognition and method dispatch |
| `PersonalInfo` | the personal-info upsert |
| `Server` | `handleRequest` end to end |

The wall clock (`new Date()`) is a parameter `now: YM` everywhere it is read. A body that `JSON.parse` rejects arrives as `None`.

Three behaviours of the code worth noting:
- The display text is empty only for an empty experience list. A non-empty list that totals zero months renders "0 ans", not "" (`Experience.SummarizeZeroTotal`).
- The third progress segment fills only when the total is strictly above 7 years. At exactly 84 months the label is already Sénior while the segment is still empty (`Seniority.SeniorBeforeThirdSegment`).
- The date parser collapses white space before it trims, while `norm` trims first. Both orders give the same cleaned text (`Text.TrimCollapseCommute`, `Dates.Canon`).

## Model

| member | source | states |
|---|---|---|
| Text.Lower | frontend/pages/cv.tsx:34 | lower-casing keeps the length and maps each character on its own (A–Z and Latin-1 capitals) |
| Text.StripAccents | frontend/pages/cv.tsx:35 | after NFD and the removal of U+0300–U+036F, no combining mark remains and the text never grows; StripAccentsAppend and StripAccentsChar say what it keeps |
| Text.StripAccentsAppend | frontend/pages/cv.tsx:35 | accent stripping works character by character: stripping a concatenation is the concatenation of the stripped parts |
| Text.StripAccentsChar | frontend/pages/cv.tsx:35 | a single combining mark is deleted, and any other character becomes its unaccented base letter |
| Text.StripAccentsPointwise | frontend/pages/cv.tsx:35 | text with no combining mark keeps its length, and each character becomes its unaccented base letter |
| Text.TrimStart | frontend/pages/cv.tsx:36 | the result does not start with white space |
| Text.TrimStartRemovesSpace | frontend/pages/cv.tsx:36 | only white space is removed from the front |
| Text.TrimEnd | frontend/pages/cv.tsx:36 | the result does not end with white space; TrimEndRemovesSpace says what is removed |
| Text.TrimEndRemovesSpace | frontend/pages/cv.tsx:36 | the result is a prefix of the input and everything after it is white space, so blank text trims to "" |
| Text.Trim | frontend/pages/cv.tsx:36 | the result neither starts nor ends with white space; TrimIsInfix says which part of the input it is |
| Text.TrimIsInfix | frontend/pages/cv.tsx:36 | `trim` keeps exactly the stretch of the input between its leading and its trailing white space |
| Text.Collapse | frontend/pages/cv.tsx:37 | collapsing runs of white space gives empty output only for empty input; it keeps a leading or trailing blank exactly when the input had white space there |
| Text.CollapseShape | frontend/pages/cv.tsx:37 | every output character is a blank or a non-space character of the input, and no two blanks are adjacent |
| Text.CollapseKeepsText | frontend/pages/cv.tsx:37 | collapsing keeps every character that is not white space, in order |
| Text.CollapseAppend | frontend/pages/cv.tsx:37 | runs of white space never merge across a boundary with a non-space character on either side, so collapsing works piece by piece |
| Text.CollapseRun | frontend/pages/cv.tsx:37 | a non-empty run of white space becomes exactly one blank |
| Text.Norm | frontend/pages/cv.tsx:32-38 | `norm` output has no leading or trailing blank and no run of white space (inside it, white space is a single ' '), and it holds only characters that lower-casing and accent stripping leave alone |
| Text.NormOfCanonical | frontend/pages/cv.tsx:32-38 | text that is already lower-case, accent-free and single-spaced is its own normal form |
| Text.NormIdempotent | frontend/pages/cv.tsx:32-38 | normalising twice is the same as normalising once |
| Text.StripAccentsOfLowerIsFolded | frontend/pages/cv.tsx:34-35 | lower-cased text with its accents stripped contains only characters that lower-casing and stripping leave alone |
| Text.TrimCollapseCommute | frontend/pages/cv.tsx:36-37 | trimming then collapsing white space gives the same text as collapsing then trimming |
| Text.Contains | frontend/pages/cv.tsx:103 | `includes(k)` holds exactly when `k` occurs at some position of the text |
| Text.ContainsInfix | frontend/pages/cv.tsx:103 | a text contains every piece it was built from |
| Text.EmptyContainsNothing | frontend/pages/cv.tsx:103 | the empty text contains no non-empty keyword |
| Text.UpTo | backend/server-pg.ts:134 | the search for a separator stops at its first occurrence, or at the end of the text when there is none |
| Text.UpToAt | backend/server-pg.ts:134 | the position before the first separator is the only one that fits, so a path or an assignment reads back at a known split |
| Numerals.NatToString | frontend/pages/cv.tsx:175 | `${n}` is a non-empty run of digits, without a leading zero unless `n` is 0, that denotes `n` |
| Numerals.NatToStringOfValue | frontend/pages/cv.tsx:175 | a digit string without a leading zero is the text of its own value |
| Numerals.ParseInt | backend/server-pg.ts:178-179 | on text that starts with its numeral (all the route admits), `parseInt` reads the leading digits and gives NaN exactly when there are none |
| Numerals.ParseIntOfDigits | backend/server-pg.ts:178 | on an all-digit text, `parseInt` gives the value of those digits |
| Dates.Canon | frontend/pages/cv.tsx:66-70 | the date parser's cleaning (lower-case, strip accents, collapse, then trim) gives exactly `norm` of the text |
| Dates.MonthsInRange | frontend/pages/cv.tsx:51-64 | every month in the lexicon has an index in 0..11 |
| Dates.ParseDate | frontend/pages/cv.tsx:40-84 | every non-null result has its month in 0..11 |
| Dates.ParseAbsent | frontend/pages/cv.tsx:41 | an absent or empty date gives null |
| Dates.ParsePresent | frontend/pages/cv.tsx:42-48 | "present", "now", "actuel" or "aujourd'hui", in any letter case and with surrounding white space, give exactly `now` |
| Dates.ParseMonthYear | frontend/pages/cv.tsx:66-77 | "<word> yyyy" gives (yyyy, index) when the word, lower-cased and with accents stripped, is in the lexicon ("Mars", "MARCH" and "Février" all name months) |
| Dates.ParseCleanedMonthYear | frontend/pages/cv.tsx:72-83 | on cleaned "<letters> yyyy" text, the result is the lexicon month of that year, or null when the word is not in the lexicon |
| Dates.ParseUnknownMonth | frontend/pages/cv.tsx:72-83 | a "word yyyy" whose word is not in the lexicon gives null; it does not fall back to the year |
| Dates.ParseYearOnly | frontend/pages/cv.tsx:79-81 | a bare "yyyy" gives January of that year |
| Dates.ParseCleaned | frontend/pages/cv.tsx:72-83 | the cleaned text gives a month exactly when it is a lexicon word, white space and four digits (then that word's month of that year), or four digits alone (then January of that year); every other text gives null, and every month given is valid |
| Dates.MonthYearAtParses | frontend/pages/cv.tsx:73 | text split into a lexicon word, white space and four digits matches the month-year pattern with exactly those two groups |
| Dates.DigitLedUnparsed | frontend/pages/cv.tsx:66-83 | text of digits and punctuation that is not four digits alone gives null |
| Dates.IsoDateUnparsed | frontend/pages/cv.tsx:40-84 | "2020-05-01" gives null |
| Dates.NumericMonthUnparsed | frontend/pages/cv.tsx:40-84 | "05/2020" gives null |
| Dates.ParseOfClean | frontend/pages/cv.tsx:42-70 | text that is already clean and ends in a digit goes straight to the dated forms |
| Dates.MonthYearMatch | frontend/pages/cv.tsx:73 | `^([a-z]+)\s+(\d{4})$` captures the word and the four digits of "<letters> yyyy" |
| Dates.DiffSelf | frontend/pages/cv.tsx:86-88 | a month is zero months after itself |
| Dates.DiffAntisymmetric | frontend/pages/cv.tsx:86-88 | swapping the arguments negates the difference |
| Dates.DiffChain | frontend/pages/cv.tsx:86-88 | differences add up along a chain of three months |
| Dates.DiffCountsSteps | frontend/pages/cv.tsx:86-88 | stepping forward `n` calendar months from a valid month is a difference of exactly `n` |
| Dates.DiffInMonths | frontend/pages/cv.tsx:86-88 | between valid months, stepping forward by the difference from `a` lands on `b`, and when the difference is negative, stepping forward by its opposite from `b` lands on `a` |
| Dates.SpanExamples | frontend/pages/cv.tsx:86-88 | January 2019 to April 2021 is 27 months, and −27 in reverse |
| Classify.SomeKeywordIff | frontend/pages/cv.tsx:103 | `blacklist.some(...)` holds exactly when some keyword is in the category, the title or the company |
| Classify.IsProfessional | frontend/pages/cv.tsx:92-107 | a record is professional exactly when no blacklist keyword is a substring of its normalised category, title or company |
| Classify.AbsentIsProfessional | frontend/pages/cv.tsx:92-107 | with category, title and company all absent, the record is professional |
| Classify.ClassifierSeesNormalForm | frontend/pages/cv.tsx:93-95 | classifying the normalised fields gives the same verdict as classifying the raw ones |
| Experience.Filter | frontend/pages/cv.tsx:161 | every element kept passes and comes from the input, and every input element that passes is kept |
| Experience.FilterAppend | frontend/pages/cv.tsx:161 | the filter of a concatenation is the concatenation of the filters, so order is kept |
| Experience.FilterOne | frontend/pages/cv.tsx:161 | one element is kept exactly when it passes |
| Experience.Map | frontend/pages/cv.tsx:162-167 | the map keeps the length and applies the function at every position |
| Experience.Sum | frontend/pages/cv.tsx:168 | the `reduce` sum of non-negative numbers is non-negative |
| Experience.SumAppend | frontend/pages/cv.tsx:168 | the `reduce` sum of a concatenation is the sum of the parts |
| Experience.FilterMapSum | frontend/pages/cv.tsx:160-168 | filter, map, then reduce adds up each element's own gain (its value if kept, else 0) |
| Experience.SumGainsPermutation | frontend/pages/cv.tsx:160-168 | the sum of gains does not depend on the order of the elements |
| Experience.FilterProfessional | frontend/pages/cv.tsx:161 | the records kept are exactly the professional records of the input |
| Experience.Span | frontend/pages/cv.tsx:162-167 | a record never contributes a negative span |
| Experience.SpanIff | frontend/pages/cv.tsx:163-166 | a record spans nothing exactly when its start does not parse or its end (or `now`) is not after its start; otherwise it spans `diff(start, end or now)` |
| Experience.Contribution | frontend/pages/cv.tsx:160-168 | a record adds nothing exactly when it is not professional or spans nothing |
| Experience.TotalMonths | frontend/pages/cv.tsx:160-168 | the total is never negative, and it is the sum of each record's own contribution |
| Experience.TotalAppend | frontend/pages/cv.tsx:160-168 | the total of two lists together is the sum of their totals |
| Experience.ExcludedContributesNothing | frontend/pages/cv.tsx:161-165 | a non-professional record, or one whose start date does not parse, contributes 0 |
| Experience.RemoveZeroContribution | frontend/pages/cv.tsx:160-168 | removing a record that contributes 0 leaves the total unchanged |
| Experience.TotalOrderIndependent | frontend/pages/cv.tsx:160-168 | reordering the records does not change the total |
| Experience.Summarize | frontend/pages/cv.tsx:154-177 | an empty list gives 0 and ""; otherwise the month count is the professional total, `totalYears` is that count over 12, and the text reads back as that count |
| Experience.Pretty | frontend/pages/cv.tsx:170-176 | the "N ans M mois" text reads back as the whole month count |
| Experience.ReadPrettyIff | frontend/pages/cv.tsx:170-176 | a text reads back as `n` exactly when `n` is non-negative and the text is the one rendered for `n`: the reader accepts only numerals without a leading zero and a month count of 1 to 11 |
| Experience.PrettyMentionsMonthsIff | frontend/pages/cv.tsx:175 | the text ends in " mois" exactly when the month remainder is not zero |
| Experience.SummarizeEmpty | frontend/pages/cv.tsx:155 | an empty list gives 0 years and the empty text |
| Experience.SummarizeZeroTotal | frontend/pages/cv.tsx:170-176 | a non-empty list totalling zero months gives 0 years and the text "0 ans" |
| Experience.SummarizeYearsAndMonths | frontend/pages/cv.tsx:170-176 | for a non-empty list with total `t`, `totalYears` times 12 is `t`; the text is "⌊t/12⌋ ans" when `t` is a multiple of 12 and "⌊t/12⌋ ans (t mod 12) mois" otherwise |
| Experience.SpanOfYears | frontend/pages/cv.tsx:79-81 | a record from year A to year B spans 12·(B−A) months |
| Seniority.LevelOf | frontend/pages/cv.tsx:180-189 | for a non-negative total, the gauge lies in [0,100] |
| Seniority.Seg1 | frontend/pages/cv.tsx:192 | for a non-negative total, the Junior segment lies in [0,100] |
| Seniority.Seg2 | frontend/pages/cv.tsx:193 | the Confirmé segment lies in [0,100] |
| Seniority.Seg3 | frontend/pages/cv.tsx:194 | the Sénior segment is either empty or full |
| Seniority.LabelByMonths | frontend/pages/cv.tsx:180-189 | the label is Junior iff the total is below 60 months, Confirmé iff 60 ≤ months < 84, Sénior iff at least 84 |
| Seniority.SegmentsMonotone | frontend/pages/cv.tsx:192-194 | each segment is non-decreasing in the total |
| Seniority.GaugeMatchesSegment | frontend/pages/cv.tsx:180-194 | the current-level gauge equals that level's segment, and earlier segments are full |
| Seniority.SeniorBeforeThirdSegment | frontend/pages/cv.tsx:186-194 | at exactly 84 months the label is Sénior but the third segment is 0; at 85 months it is 100 |
| Seniority.SeniorFromTotal | frontend/pages/cv.tsx:160-189 | seven years or more of professional experience make the level Sénior |
| Seniority.Caption | frontend/pages/cv.tsx:294 | without positive experience the caption is "Pas de données" |
| Seniority.CaptionWithoutExperience | frontend/pages/cv.tsx:294 | an experience list totalling zero shows "Pas de données" |
| Skills.Push | frontend/pages/cv.tsx:216-218 | filing a name appends it to its category only; other categories are unchanged, the count grows by one, and the keys stay distinct and non-empty |
| Skills.GroupSkills | frontend/pages/cv.tsx:213-221 | the groups have distinct keys, none is empty, and together they hold as many names as there are skills |
| Skills.GroupsHoldTheirSkills | frontend/pages/cv.tsx:213-221 | each group lists exactly the names of the skills in its category ("Autres" when the category is absent or empty), in input order |
| Skills.GroupKeysAreCategories | frontend/pages/cv.tsx:213-221 | a group exists exactly when some skill is filed under its key |
| Skills.GroupSkillsAsWritten | frontend/pages/cv.tsx:213-221 | the code as written throws exactly when some category is an `Object.prototype` member name; otherwise it builds the intended groups |
| Skills.ConstructorCategoryThrows | frontend/pages/cv.tsx:214-218 | a single skill filed under "constructor" makes the grouping throw |
| Widgets.FirstMatchPicks | frontend/pages/cv.tsx:19-27 | an if-chain of `includes` tests returns the output of the first rule that matches |
| Widgets.FirstMatch | frontend/pages/cv.tsx:19-27 | with no rule matching, the default is returned; otherwise the output of a rule that matches while no earlier rule does |
| Widgets.LanguageWidth | frontend/pages/cv.tsx:412-417 | the bar width is 100, 60 or 40 |
| Widgets.LanguageWidthIsTable | frontend/pages/cv.tsx:412-417 | the width is the first-match table native/fluent/courant→100, inter→60, else 40 on the lower-cased level |
| Widgets.LanguageWidthCases | frontend/pages/cv.tsx:412-417 | the width is 100 iff the level mentions native, fluent or courant; 60 iff none of these but "inter" |
| Widgets.LanguageWidthAbsent | frontend/pages/cv.tsx:413 | an absent or empty level gives 40 |
| Widgets.IconForInterest | frontend/pages/cv.tsx:19-27 | the icon is the first-match table musique/music, photo, jeu/game, cuisine/cook, tech, else star, on the lower-cased title |
| Widgets.StarIffNoKeyword | frontend/pages/cv.tsx:19-27 | the star icon is chosen exactly when the title mentions none of the keywords |
| Json.Member | backend/server-pg.ts:163 | reading a member throws exactly on `null`, and yields a value exactly when the object has that key |
| Json.TruthyOrNull | backend/server-pg.ts:115 | the falsy-to-null default stores null exactly when the member is missing or falsy |
| Json.OrNull | backend/server-pg.ts:163 | `data[k] !== undefined ? data[k] : null` gives null exactly when the member is missing or holds null, and otherwise the member's value, falsy or not |
| Resources.ResourceNamed | backend/server-pg.ts:134 | the regex alternation recognises a resource only by its own name |
| Resources.ResourceNamedIff | backend/server-pg.ts:134 | a text names resource `r` exactly when it is `r`'s name |
| Resources.ConfigOf | backend/server-pg.ts:138-145 | each route writes the table named in its path, lists at least one column, each once, and maps payload keys only to columns it lists |
| Resources.NotNullColumns | backend/server-pg.ts:20-70 | every column the `CREATE TABLE` statements declare NOT NULL (besides the id) is a column the route binds |
| Resources.Singular | backend/server-pg.ts:182 | `slice(0,-1)` drops exactly the last character |
| Resources.SingularNames | backend/server-pg.ts:182-207 | "projects" gives "project", but "education" gives "educatio" |
| Binding.FindKeyFirst | backend/server-pg.ts:162 | `find` returns the key of the first pair mapped to the column, and nothing when no pair maps to it |
| Binding.BindValues | backend/server-pg.ts:159-164 | the value list has one entry per configured column; binding fails exactly when the body is `null` |
| Binding.CamelKeysOf | backend/server-pg.ts:138-162 | the key read for each column is its mapped camelCase name, or the column name itself when unmapped |
| Binding.BoundEntry | backend/server-pg.ts:161-164 | entry i is the body's member under the i-th payload key, or null when the body lacks it |
| Binding.BindRoundTrip | backend/server-pg.ts:161-164 | a body that carries each payload key binds back to exactly those values, in column order |
| Binding.FieldsLookup | backend/server-pg.ts:163 | a body built from distinct keys holds each key's value |
| Binding.PayloadKeysDistinct | backend/server-pg.ts:138-145 | no two columns of a resource read the same payload key |
| Binding.UpdateValues | backend/server-pg.ts:195 | the UPDATE parameters are the column values with the id appended last |
| Binding.ItemsOfJoin | backend/server-pg.ts:165-166 | splitting a ", "-joined list of comma-free items gives the items back |
| Binding.Placeholders | backend/server-pg.ts:165 | the i-th placeholder is a comma-free `$n` that reads back as parameter i+1 |
| Binding.PlaceholdersReadBack | backend/server-pg.ts:165 | the INSERT value list reads back as `$1`, `$2`, … `$n`, in order |
| Binding.ParamNumberOf | backend/server-pg.ts:165 | `$n` reads back as parameter n |
| Binding.ReadAssignmentOf | backend/server-pg.ts:196 | `col=$n` reads back as column `col` and parameter n |
| Binding.Assignments | backend/server-pg.ts:196 | for column names, the i-th assignment is a comma-free `col=$n` that reads back as that column and parameter i+1 |
| Binding.AssignmentsReadBack | backend/server-pg.ts:195-197 | the SET list assigns `col_i=$i` in column order, and `$(n+1)` is the last parameter, the id |
| Binding.InsertSql | backend/server-pg.ts:165-166 | the INSERT names the configured table, lists the columns in order, and its value list holds one `$n` per column, numbered from 1 |
| Binding.UpdateSql | backend/server-pg.ts:196-197 | the UPDATE names the configured table, assigns each column its own parameter in order, and selects the row by the parameter after the last column |
| Binding.ColumnsAreNames | backend/server-pg.ts:138-145 | every resource has columns, and each column name is lower-case letters and underscores |
| Tables.MinId | backend/server-pg.ts:101-110 | `ORDER BY id ASC LIMIT 1` selects an id that is present and below every other |
| Tables.SortedIds | backend/server-pg.ts:151 | `ORDER BY id ASC` lists every id once, in strictly increasing order |
| Tables.Listing | backend/server-pg.ts:151-152 | the listing gives each row under its own id, by increasing id |
| Tables.ListingCovers | backend/server-pg.ts:151-152 | no row is left out of the listing |
| Tables.Insert | backend/server-pg.ts:166-167 | an INSERT adds its row under the next id and changes no other row; when the sequence can draw, that id was free and exactly one row is added |
| Tables.Burn | backend/server-pg.ts:166-170 | a refused INSERT that drew an id changes no row but uses up that value of the sequence |
| Tables.Update | backend/server-pg.ts:197 | UPDATE keeps the ids and the sequence, writes the new values under its id, and changes no other row |
| Tables.Delete | backend/server-pg.ts:206-207 | DELETE removes exactly its id and keeps every other row as it was |
| Routing.RouteOf | backend/server-pg.ts:99-178 | a path routes to personal info exactly when it is `/api/personal-info`; a collection route is `/api/<r>`, and an item route is `/api/<r>/<digits>` |
| Routing.CollectionPathIff | backend/server-pg.ts:134-148 | a path is a collection route of `r` exactly when it is `/api/<r>` |
| Routing.ItemPathIff | backend/server-pg.ts:134-178 | a path is an item route exactly when it is `/api/<resource>/<digits>` |
| Routing.NoSlashInNames | backend/server-pg.ts:99-134 | no resource name contains '/', and none is "personal-info" |
| Routing.Dispatch | backend/server-pg.ts:91-212 | OPTIONS is answered before any routing, on any path; every unrouted path, for any other method, gives 404; the "Invalid ID" branch is never taken, because the id must match `\d+` |
| Routing.MethodNotAllowedIff | backend/server-pg.ts:100-209 | 405 is given exactly for a method the route does not accept: personal-info takes GET, POST and PUT; collections GET and POST; items GET, PUT and DELETE |
| Routing.ItemIdRoundTrip | backend/server-pg.ts:134-178 | an item path built from an id routes to that resource and reads back that id |
| Routing.MethodOf | backend/server-pg.ts:91-209 | a method name is one of the five the server tests for exactly when it is not read as another method, and it reads back as its own name |
| Routing.MethodOfName | backend/server-pg.ts:91-209 | each method has one spelling: the name of a method reads back as that method |
| PersonalInfo.PersonalValues | backend/server-pg.ts:115-120 | there is one value per personal-info column, and reading fails exactly on a `null` body |
| PersonalInfo.FalsyStoredAsNull | backend/server-pg.ts:115-120 | a field is stored as null exactly when the body lacks it or holds a falsy value; otherwise the body's value is stored |
| PersonalInfo.FirstRow | backend/server-pg.ts:101-110 | the first row is absent only for an empty table; otherwise it is the row with the lowest id |
| PersonalInfo.Check | backend/server-pg.ts:110 | the check sees no row only in an empty table, and otherwise the lowest id |
| PersonalInfo.WriteAfterCheck | backend/server-pg.ts:110-122 | the write fails only when the check saw no row and the sequence is used up; an INSERT adds one row under the next id, an UPDATE overwrites the row the check saw and keeps every other row, and an UPDATE whose row is gone changes nothing |
| PersonalInfo.Upsert | backend/server-pg.ts:110-122 | the upsert inserts only into an empty table, and fails only there, when the id sequence is used up; otherwise it overwrites the lowest-id row and keeps every other row and the set of ids |
| PersonalInfo.UpsertKeepsOneRow | backend/server-pg.ts:110-122 | handled on its own, a write to a table of at most one row leaves exactly one row |
| PersonalInfo.InterleavedFirstWrites | backend/server-pg.ts:110-116 | two first writes whose checks both run before either write both insert: the table ends with two rows, and a later write overwrites only the lower one |
| Server.CreateItem | backend/server-pg.ts:154-172 | POST answers 201 exactly when its body binds, no value carries U+0000, the id sequence is not used up and every NOT NULL column gets a value, with the bound row under the next id; otherwise 400 with no row added; it keeps the tables valid and touches only its own table |
| Server.ReplaceItem | backend/server-pg.ts:184-203 | PUT answers 200, 400 or 404: 404 exactly for a missing row once the body binds and can be sent, 200 exactly when the row also satisfies NOT NULL, overwriting only that row; otherwise nothing changes |
| Server.RemoveItem | backend/server-pg.ts:205-207 | DELETE answers 500 exactly for an id beyond `integer`, 200 exactly for a present id, removing only that row and echoing it, and otherwise 404 with no change |
| Server.WritePersonalInfo | backend/server-pg.ts:104-127 | a personal-info write answers 200 or 400, leaves the resource tables alone and keeps the tables valid; a 200 carries the body's values, stored under the id it names, and a 400 changes nothing |
| Server.Perform | backend/server-pg.ts:83-216 | every handler keeps the tables valid, answers with one of the statuses the server uses, and changes at most the table its route names; the reading handlers change nothing, and only the invalid-id branch says "Invalid ID" |
| Server.CreateThenReadItem | backend/server-pg.ts:166-182 | a 201 carries the row bound from the body under a fresh id, and GET on that id returns it |
| Server.DeleteThenReadItem | backend/server-pg.ts:180-207 | after a successful DELETE the id is gone and GET on it gives 404 |
| Server.ReplaceThenReadItem | backend/server-pg.ts:180-198 | a PUT answered 200 stores the body's values under the same id |
| Server.NotNullRefused | backend/server-pg.ts:166-170 | a POST that gets as far as drawing an id but leaves a column declared NOT NULL in `CREATE TABLE` null answers 400 and adds no row, but uses up that sequence value |
| Server.DatabaseRefusesCreate | backend/server-pg.ts:166-171 | a value carrying U+0000, or a used-up id sequence, makes the INSERT fail: 400, and nothing changes |
| Server.PersonalInfoSingleRow | backend/server-pg.ts:104-127 | with requests handled one at a time, the personal-info table never holds more than one row |
| Server.ReadPersonalInfo | backend/server-pg.ts:100-102 | personal-info GET serves the lowest-id row, or `{}` exactly when there is none |
| Server.PersonalWriteThenRead | backend/server-pg.ts:100-126 | a write with a non-null body answers 200 exactly when no value carries U+0000 and the table has a row or can draw an id, and otherwise 400 with no change; a 200 carries the body's values, which the next GET serves |
| Server.Handle | backend/server-pg.ts:83-216 | every request keeps the tables valid and answers with a status the server uses, never "Invalid ID"; OPTIONS gives 204 with no body on any path, and neither OPTIONS nor GET changes anything |
| Server.PostReachesCreate | backend/server-pg.ts:134-154 | POST on `/api/<r>` runs the create handler of `r` |
| Server.ReadItem | backend/server-pg.ts:180-183 | GET on an item answers 500 exactly for an id beyond `integer`, 200 with the stored row exactly for a present id, and otherwise 404 with "<singular> not found"; it changes nothing |
| Server.ItemPathDispatch | backend/server-pg.ts:177-206 | GET, PUT and DELETE on `/api/<r>/<id>` select the item handlers for that id |
| Server.CreateThenRead | backend/server-pg.ts:154-182 | a row created through POST is served by GET on its item path |
| Server.DeleteThenRead | backend/server-pg.ts:180-207 | after a 200 from DELETE, GET on the same path gives 404 |
| Server.MissingItem | backend/server-pg.ts:182-207 | GET, PUT (with a non-null body whose values can be sent) and DELETE on a missing id give 404 with "<singular> not found" and change nothing |
| Server.IdOutOfRange | backend/server-pg.ts:178-215 | an id beyond PostgreSQL's `integer` range fails in the database: GET and DELETE give 500, PUT gives 400, and nothing changes |
| Server.PersonalInfoStaysSingle | backend/server-pg.ts:99-131 | with requests handled one at a time, the personal-info table never grows past one row, whatever the request |

## Left out

- HTTP plumbing is not modelled: the server, CORS headers, request-body streaming, `sendJson` serialisation and the `details` message of an error. Only the status and the body's meaning are modelled.
- The `pg` pool and real SQL execution are not modelled. Tables are maps from id to row with a SERIAL counter. The NOT NULL constraints and the `integer` range of ids come from the `CREATE TABLE` statements.
- The conversion of a JSON value that is not a string or null (a number, an object) into TEXT is not modelled. A stored row keeps the JSON value as given. The one conversion failure that the model does include is a U+0000 character, which PostgreSQL refuses in text.
- JSON numbers are integers. Fractional numbers and number-to-text conversion are not modelled, because no modelled decision depends on them.
- Object key order is not modelled. `Object.entries` lists integer-like category names first in numeric order, so a skill category such as "2" is rendered before earlier-inserted ones. The groups are modelled as insertion-ordered.
- The wall clock is the parameter `now`, so nothing reads the time.
- Unicode NFD decomposition is modelled only for the Latin-1 accented letters and the combining range U+0300–U+036F.
- `toLowerCase` is modelled only for A–Z and the Latin-1 capitals.
- React state, data fetching, the scroll-spy and all rendering are not modelled. Neither are the other front-end components and the admin page.
- Percentages are exact rationals (`real`), not IEEE doubles.
- The SQL text is modelled as lists of `$n` placeholders and `col=$n` assignments. The surrounding INSERT/UPDATE keywords are concatenated but not parsed back.
- Seniority.Caption: states only the no-data case. The caption with experience (`${pretty} d’XP`) is not part of its contract.
- Concurrency is not modelled. The server handles each request in asynchronous steps, so two requests can interleave. Each request is modelled as one atomic step. Server.PersonalInfoSingleRow and Server.PersonalInfoStaysSingle hold only under that assumption. PersonalInfo.InterleavedFirstWrites shows what interleaving does (see Findings).
- The path is the pathname that `new URL(req.url, "http://" + host)` gives (backend/server-pg.ts:84-85). Two of its effects are not modelled. First, it normalises dot segments, so "/api/x/../projects" is routed as "/api/projects". Second, a malformed Host header makes it throw, and the caller answers 500 (backend/server-pg.ts:221-224). That happens even for OPTIONS, because the URL is parsed before the OPTIONS test.
- Numerals.ParseInt: models `parseInt` only on text that starts with its numeral. It does not model the skipping of leading white space or a leading sign (`parseInt(" 7")` is 7, `parseInt("-3")` is −3). The route's `\d+` lets neither reach it.
- Other database failures (a lost connection, a full disk) are not modelled. The modelled failures are the U+0000 character, the `integer` range of ids and of the SERIAL sequence, and the NOT NULL constraints.

## Findings

| source | as written | input that shows it | evidently intended | confidence | as-written member | corrected member |
|---|---|---|---|---|---|---|
| frontend/pages/cv.tsx:214-218 | `groupedSkills` collects into a plain `{}`. For a category that names an inherited `Object.prototype` member, `g[c]` is already truthy (a function), so `g[c] = []` is skipped and `g[c].push` throws. | one skill with category "constructor" (also "toString", "valueOf", "__proto__", …) | every skill grouped under its category, whatever its name (for example with `Object.create(null)` or a `Map`) | high, not executed | Skills.GroupSkillsAsWritten | Skills.GroupsHoldTheirSkills |
| backend/server-pg.ts:110-116 | The personal-info write first runs `SELECT id ... LIMIT 1` and then, in a separate awaited statement, INSERTs when it saw no row. Nothing makes the two statements atomic. | two POSTs to `/api/personal-info` on an empty table, whose SELECTs both complete before either INSERT: both insert, and the table holds two rows | the table keeps a single row (the check and the write as one step, for example in a transaction that locks the table, or with a unique key) | medium, not executed | PersonalInfo.InterleavedFirstWrites | PersonalInfo.UpsertKeepsOneRow |
