# Expense tracker client: the modellable core in Dafny

This project models the parts of a React Native expense-tracking client that hold
real logic, and proves properties of them:

- the fixed-window **rate limiter** that guards sign-up, sign-in and transaction
  creation (`RateLimiter`, `rate_limiter.dfy`);
- the keyed **TTL cache** of the `useCache` hook, with in-flight de-duplication and
  stale-while-revalidate (`Cache`, `cache.dfy`);
- the **input sanitizers and schema validators** and the `safeValidate` wrapper
  (`Validation`, `validation.dfy`);
- the **guarded service calls** `signUp`, `signIn`, `createTransaction` and
  `createCategory`, including the hex salt and the `hash:salt` password record
  (`Services`, `services.dfy`);
- the **monthly export** computations: the query date range, the summary totals and
  the PDF grouping sorted by total (`Export`, `export.dfy`);
- the **chart aggregations** of `ExpenseChart`: per-category totals with colours,
  and per-importance bar totals (`Chart`, `chart.dfy`);
- the **theme mode** state machine (`Theme`, `theme.dfy`);
- the **environment configuration** check (`EnvConfig`, `env_config.dfy`).

Shared pieces sit in `wrappers.dfy` (`Option`, `Result`), `strings.dfy` (JavaScript
string primitives: `toString(radix)`, `padStart`, `trim`, `split`, `startsWith`,
string order) and `transactions.dfy` (the transaction entity, sums and the
"total per key" fold used by both the export and the chart).

Style: immutable datatypes and pure functions. Every stateful component is a
state → (state, result) transition that takes the clock as an explicit `now`.
Asynchronous steps are split into explicit start and settle steps. Library calls
are parameters: random bytes, PBKDF2, URL parsing, zod's e-mail and UUID checks,
`isEmail`, `isISO8601`, `normalizeEmail`. Amounts are whole numbers (`int`).

Modelling decisions:

- An absent string (`undefined`) is the empty string wherever the source writes
  `x || default`. The two are indistinguishable there.
- A zod schema is the ordered list of its checks. The first failing check gives
  `issues[0].message`. Fields are checked in declaration order, and the checks of
  one field in chain order.
- `validator.escape` is written out character by character: `& " ' < > / \` and
  the backtick.
- `new Date(year, month, 0).getDate()` follows the language's date arithmetic.
  The month index carries into the year, and years 0 to 99 mean 1900 to 1999.
- `Object.entries` lists array-index property names first, in numeric order, then
  the other names in insertion order. The chart's point order follows this rule.
- `checkRateLimit` reads the clock twice in the source (inside `check` and for the
  message). The model uses one `now` for both.
- `useCache` also reads the clock twice when it stores a value (once for the timestamp
  and once for the expiry), and again in the load effect. The model gives each step
  one `now`, so a stored entry's expiry is exactly its timestamp plus the time to live.
- Strings are sequences of Unicode code points. JavaScript's `.length` and
  `substring` count UTF-16 code units, so every length bound and the 255-character
  cut agree with the source only on text inside the Basic Multilingual Plane. The
  members this affects are listed under "## Left out".

## Model

| member | source | states |
|---|---|---|
| `RateLimiter.Check` | src/utils/rateLimiter.ts:32-69 | a request is admitted iff no window governs the key or the live window's count is below the ceiling; an admitted request is counted; a refusal leaves the table unchanged with `remaining = 0`; only the checked key changes |
| `RateLimiter.CheckKeepsCap` | src/utils/rateLimiter.ts:32-69 | a window never counts more than `maxRequests` (at least one) requests |
| `RateLimiter.CheckOpensWindow` | src/utils/rateLimiter.ts:36-49 | with no entry or `now` strictly past `resetTime`, the entry becomes `{1, now + windowMs}` and the request is admitted with `maxRequests - 1` remaining, even for a zero ceiling |
| `RateLimiter.CheckAtBoundary` | src/utils/rateLimiter.ts:36-58 | at `now == resetTime` the old window still governs, so a full window still refuses |
| `RateLimiter.CheckCountsRequest` | src/utils/rateLimiter.ts:60-68 | in a live window with room, the count rises by one, the end is kept and `remaining = maxRequests - count` |
| `RateLimiter.ChecksInLiveWindow` | src/utils/rateLimiter.ts:51-68 | checks made while a window governs admit exactly `min(n, room)` requests and keep the window's end |
| `RateLimiter.ChecksInOneWindow` | src/utils/rateLimiter.ts:32-69 | n checks inside the window the first one opens admit exactly `min(n, maxRequests)` (one for a non-positive ceiling) |
| `RateLimiter.Cleanup` | src/utils/rateLimiter.ts:23-30 | the sweep deletes exactly the entries with `now > resetTime` and keeps the others unchanged |
| `RateLimiter.CleanupUnobservable` | src/utils/rateLimiter.ts:23-30 | any later check answers the same with or without the sweep |
| `RateLimiter.Reset` | src/utils/rateLimiter.ts:71-73 | the key is removed and every other entry is unchanged |
| `RateLimiter.Destroy` | src/utils/rateLimiter.ts:75-80 | the table is emptied |
| `RateLimiter.ResetReadmits` | src/utils/rateLimiter.ts:71-80 | after a reset or destroy the next check opens a fresh window and is admitted |
| `RateLimiter.OrUnknown` | src/utils/rateLimiter.ts:91 | a missing id becomes `'unknown'`, a present one is kept, so the key part is never empty |
| `RateLimiter.RuleFor` | src/utils/rateLimiter.ts:87-113 | each named rule has a key generator producing `<prefix>:<id or 'unknown'>`, a positive ceiling and a window of at least a minute |
| `RateLimiter.OpKeyInjective` | src/utils/rateLimiter.ts:87-113 | two generated keys are equal iff the operations agree and the ids agree after the `'unknown'` substitution |
| `RateLimiter.CeilSeconds` | src/utils/rateLimiter.ts:124 | `Math.ceil(d / 1000)` is the least whole number of seconds covering `d` milliseconds |
| `RateLimiter.ExceededMessage` | src/utils/rateLimiter.ts:127 | the refusal message starts with `Rate limit exceeded. Try again in ` |
| `RateLimiter.CheckRateLimit` | src/utils/rateLimiter.ts:116-132 | the verdict is `check` on `keyGenerator(context)` (or `'default'`); an error is attached iff refused, stating `ceil((resetTime - now)/1000)` seconds |
| `RateLimiter.Limit` | src/utils/rateLimiter.ts:135-141 | a named limiter attaches a rate-limit message iff it refuses |
| `RateLimiter.UserKeys` | src/utils/rateLimiter.ts:144-151 | one user's keys of the five operations are five different keys |
| `RateLimiter.ResetUser` | src/utils/rateLimiter.ts:144-151 | exactly the user's five keys are deleted; every other entry is unchanged |
| `RateLimiter.ResetUserReadmits` | src/utils/rateLimiter.ts:144-151 | after `resetUserRateLimits(id)` every named operation for that user is admitted with the rule's allowance less one |
| `RateLimiter.LimitIsolation` | src/utils/rateLimiter.ts:116-141 | a check for one user and operation leaves every other user's or operation's entry untouched |
| `Cache.Mount` | src/hooks/useCache.ts:19-24 | a new hook has ttl 5 minutes and stale-while-revalidate on unless given, an empty table and registry, and no data, loading or error |
| `Cache.GetCachedData` | src/hooks/useCache.ts:30-40 | a value is returned iff the key has an unexpired entry (`now > expiry` is expired); it is the stored data and the table is unchanged; otherwise the key is removed |
| `Cache.SetCachedData` | src/hooks/useCache.ts:42-49 | the key maps to `{data, now, now + ttl}`, replacing any earlier entry; other keys are unchanged |
| `Cache.Freshness` | src/hooks/useCache.ts:26-49 | a value stored at `t` is served at every instant up to `t + ttl` inclusive and at none after |
| `Cache.FetchData` | src/hooks/useCache.ts:51-81 | a key with a request in flight is joined with no state change; otherwise the fetcher is called, the key registered, the error cleared and, for a foreground fetch, loading raised |
| `Cache.SettleOk` | src/hooks/useCache.ts:62-77 | success caches the value under the key stamped `now`, exposes it as data, unregisters the key and lowers loading for a foreground fetch |
| `Cache.SettleErr` | src/hooks/useCache.ts:68-77 | failure sets the error, writes no entry (an earlier one survives) and unregisters the key |
| `Cache.FetchDeduplicates` | src/hooks/useCache.ts:51-80 | however many fetches of one key are issued before one settles, the fetcher runs once, or never if a request was already in flight |
| `Cache.JoinedWhileActive` | src/hooks/useCache.ts:52-55 | while a request is in flight every fetch of the key is a no-op |
| `Cache.SettledKeyRefetches` | src/hooks/useCache.ts:72-77 | after settlement, either way, the next fetch of the key calls the fetcher again |
| `Cache.Mutate` | src/hooks/useCache.ts:83-95 | a value or an updater result (the updater sees `getCachedData`, possibly nothing) is stored and exposed without fetching; no argument is a foreground fetch |
| `Cache.Invalidate` | src/hooks/useCache.ts:97-101 | only the current key's entry is dropped; data and error are cleared; the registry and loading are untouched |
| `Cache.Refetch` | src/hooks/useCache.ts:133 | `refetch` is a foreground fetch: it raises loading when it starts one |
| `Cache.Release` | src/hooks/useCache.ts:121-125 | the clean-up effect unregisters the key and keeps the table and the data |
| `Cache.LoadDecision` | src/hooks/useCache.ts:103-119 | a truthy unexpired value is served; a background fetch is issued iff stale-while-revalidate is on and `5(now - timestamp) > 4 ttl`; otherwise a foreground fetch |
| `Cache.InvalidateThenLoadFetches` | src/hooks/useCache.ts:97-119 | after `invalidate` the load effect always takes the foreground path and calls the fetcher unless a request is in flight |
| `Cache.StaleWhileRevalidateExample` | src/hooks/useCache.ts:103-119 | with ttl 1000, a read at 85% of the life serves the old value and revalidates without loading; after settlement the new value is served |
| `Validation.EscapeChar` | src/utils/validation.ts:83 | a special character becomes an entity starting with `&` and ending with `;`; any other character is kept |
| `Validation.Escape` | src/utils/validation.ts:83 | escaping never shortens and leaves no markup character but `&` |
| `Validation.EscapeIdentity` | src/utils/validation.ts:86-88 | escaping is the identity on strings without special characters |
| `Validation.EscapeGrows` | src/utils/validation.ts:96-98 | escaping lengthens any string holding a special character |
| `Validation.KeepNicknameChars` | src/utils/validation.ts:87 | the filter keeps only characters of `[a-zA-Z0-9_\s]` |
| `Validation.KeepNicknameCharsIdentity` | src/utils/validation.ts:87 | the filter returns its input iff every character is in the nickname alphabet |
| `Validation.SanitizeNickname` | src/utils/validation.ts:86-88 | the nickname sanitizer is the trim followed by the filter, so its output is in the nickname alphabet |
| `Validation.NicknameSanitizerNotIdempotent` | src/utils/validation.ts:86-88 | `"a @"` sanitizes to `"a "`, which sanitizes again to `"a"`: the sanitizer is not idempotent |
| `Validation.SanitizeNicknamePadded` | src/utils/validation.ts:86-88 | whitespace-padded allowed characters followed by disallowed ones sanitize to the allowed part |
| `Validation.NicknameSanitizerExample` | src/utils/__tests__/validation.test.ts:20 | `'  user@#$  '` sanitizes to `'user'` |
| `Validation.SanitizeText` | src/utils/validation.ts:82-84 | the text sanitizer leaves no markup and returns the trimmed text when it has nothing to escape |
| `Validation.Truncate` | src/utils/validation.ts:97 | `substring(0, n)` is the prefix of `s` whose length is exactly `min(n, |s|)`; a string of at most `n` characters is kept whole |
| `Validation.SanitizeDescription` | src/utils/validation.ts:96-98 | the description sanitizer leaves no markup |
| `Validation.ToLower` | src/utils/validation.ts:79 | lower-casing keeps the length and leaves no upper-case ASCII letter |
| `Validation.SanitizeEmail` | src/utils/validation.ts:78-80 | the result is what `normalizeEmail` made of the trimmed lower-cased input, and the empty string when it returns `false` |
| `Validation.EmailIssue` | src/utils/validation.ts:6-10 | a sign-up e-mail passes iff the zod e-mail check, the 1..255 length and `isEmail` all hold |
| `Validation.DescriptionIssue` | src/utils/validation.ts:34-37 | a description passes iff it has 1..255 characters and does not escape to blank; a longer one fails with 'Description too long' |
| `Validation.TransactionIssue` | src/utils/validation.ts:28-48 | a transaction passes iff the amount is in (0, 999999999], the description passes, the category id is a non-empty UUID, the date is ISO 8601, the type is `expense` or `income` and an importance, when given, is one of the three levels; a failing description is reported once the amount passes |
| `Validation.CategoryNameIssue` | src/utils/validation.ts:52-55 | a category name passes iff it has 1..50 characters from `[a-zA-Z0-9\s&-]` |
| `Validation.CategoryIssue` | src/utils/validation.ts:50-63 | a category passes iff its sanitized name passes, the type is `expense` or `income` and an icon, when given, has at most 50 characters; a failing name is reported first |
| `Validation.PasswordAccepted` | src/utils/validation.ts:11-14 | a password passes iff it has 8..128 characters and a lower-case letter, an upper-case letter and a digit on its first line; the length messages come first |
| `Validation.NicknameAccepted` | src/utils/validation.ts:15-18 | a nickname passes iff it has 1..50 characters, all in `[a-zA-Z0-9_\s]` |
| `Validation.SanitizedNicknameAccepted` | src/utils/validation.ts:103-108 | a raw nickname passes iff 1..50 characters survive sanitizing |
| `Validation.Parse` | src/utils/validation.ts:110-113 | parsing returns the data unchanged iff no check fails, and otherwise throws a zod error carrying the first failure |
| `Validation.SignUpIssues` | src/utils/validation.ts:5-19 | for a nickname inside the nickname alphabet, the sign-up schema passes iff the e-mail passes, the password has 8..128 characters and the required letters and digit, and the nickname has 1..50 characters |
| `Validation.ValidateSignUp` | src/utils/validation.ts:103-114 | sign-up data validates iff the sanitized e-mail, the password and the sanitized nickname pass; the result holds the sanitized fields |
| `Validation.ValidateSignIn` | src/utils/validation.ts:116-126 | sign-in data validates iff the sanitized e-mail passes the e-mail check and is non-empty and the password is non-empty |
| `Validation.KindNameRoundTrip` | src/utils/validation.ts:43-45 | the type enum accepts exactly `expense` and `income` |
| `Validation.ValidateTransaction` | src/utils/validation.ts:128-142 | a transaction validates iff no check fails; then its type is `expense`/`income`, its importance absent or one of the three, its description the sanitized one with 1..255 characters and its amount in (0, 999999999] |
| `Validation.PlainDescriptionAccepted` | src/utils/validation.ts:34-37 | a non-blank description with no special character in its first 255 trimmed characters passes |
| `Validation.ExpandedDescriptionRejected` | src/utils/validation.ts:34-37 | a trimmed description of 255 or more characters with a special character among the first 255 is rejected as too long after escaping |
| `Validation.ValidateCategory` | src/utils/validation.ts:144-155 | a category validates iff no check fails; its name is the escaped trimmed name and its icon is kept when given |
| `Validation.EscapedCategoryChars` | src/utils/validation.ts:52-55 | the escaped name is in `[a-zA-Z0-9\s&-]` iff the raw name is and holds no `&` |
| `Validation.EscapedCategoryNameAccepted` | src/utils/validation.ts:52-55 | an escaped name passes iff the raw name has 1..50 characters from `[a-zA-Z0-9\s-]` |
| `Validation.CategoryNameAccepted` | src/utils/validation.ts:144-153 | a category name passes iff its trimmed form has 1..50 characters from `[a-zA-Z0-9\s-]`; any name with `&` is refused |
| `Validation.ValidateBudget` | src/utils/validation.ts:157-168 | a budget validates iff the category id is a UUID, the amount is in (0, 999999999] and the period is daily, weekly, monthly or yearly |
| `Validation.AsOutcome` | src/utils/validation.ts:102-169 | a `validateAndSanitize.*` call returns `success: true` with the data or throws; it never returns `success: false` |
| `Validation.ErrorMessage` | src/utils/validation.ts:180-192 | the message is the first zod issue's message when the error is a zod error whose first issue has a non-empty message, and `'Validation failed'` for every other thrown value |
| `Validation.SafeValidate` | src/utils/validation.ts:172-194 | success iff the thunk returns, with its data; on a throw, the fallback data and the error message |
| `Validation.SafeValidateReportsFirstFailure` | src/utils/validation.ts:172-194 | guarding a validator with `safeValidate` succeeds iff no check fails and otherwise reports the first failing check's message |
| `Services.HexByte` | src/services/supabase.ts:144 | a byte renders as exactly two lower-case hex digits |
| `Services.HexByteIsPaddedRadix` | src/services/supabase.ts:144 | the two digits are `byte.toString(16).padStart(2, '0')` |
| `Services.HexEncode` | src/services/supabase.ts:144 | hex text has two characters per byte |
| `Services.HexDigitsOnly` | src/services/supabase.ts:144 | hex text holds only `[0-9a-f]` |
| `Services.HexRoundTrip` | src/services/supabase.ts:146-149 | decoding hex text gives the bytes back |
| `Services.HexInjective` | src/services/supabase.ts:202-207 | two digests have equal hex text iff they are equal |
| `Services.SaltFormat` | src/services/supabase.ts:143-144 | the salt is 32 characters over `[0-9a-f]` |
| `Services.ParseRecord` | src/services/supabase.ts:198 | the two parts `split(':')` yields hold no `:` |
| `Services.RecordRoundTrip` | src/services/supabase.ts:146-149 | splitting a stored `hash:salt` record recovers exactly the hash and the salt |
| `Services.PasswordMismatch` | src/services/supabase.ts:197-212 | the password check passes iff the record's hash and salt are non-empty and PBKDF2 of the password with the salt equals the hash; a missing record is an authentication failure, an empty hash or salt is 'Invalid password format in database', and a hash mismatch is 'Invalid email or password' |
| `Services.RecordVerifies` | src/services/supabase.ts:197-209 | a record made at sign-up accepts its own password, and another one iff PBKDF2 cannot tell them apart; otherwise `'Invalid email or password'` |
| `Services.MalformedRecordRejected` | src/services/supabase.ts:198-201 | a record without `:` is reported as `'Invalid password format in database'` |
| `Services.Register` | src/services/supabase.ts:141-169 | a crypto failure stops before any call; an existing user is refused with `'User already registered'`; a lookup error other than `PGRST116` is passed on; otherwise the user is inserted with `hash:salt` |
| `Services.SignUpGuarded` | src/services/supabase.ts:128-139 | a rate-limit refusal or a validation failure makes no database call and replies with its message; otherwise registration runs on the sanitized data |
| `Services.SignUp` | src/services/supabase.ts:128-132 | the rate limiter is consulted first, on the raw e-mail |
| `Services.SignUpRefused` | src/services/supabase.ts:129-132 | a refused sign-up makes no database call and replies with the limiter's message |
| `Services.SignUpStores` | src/services/supabase.ts:153-169 | a sign-up for a new user looks up and inserts the sanitized e-mail and nickname with the `hash:salt` record of the password |
| `Services.SignInGuarded` | src/services/supabase.ts:172-215 | sign-in succeeds iff every guard passes and the stored record matches; a lookup error and a missing row read `'Invalid email or password'`, like a wrong password; the user is returned without its hash |
| `Services.SignIn` | src/services/supabase.ts:172-176 | the rate limiter is consulted first, on the raw e-mail |
| `Services.SignInRefused` | src/services/supabase.ts:173-176 | a refused sign-in makes no database call and replies with the limiter's message |
| `Services.SignInSucceedsIff` | src/services/supabase.ts:183-214 | sign-in looks up at most the sanitized e-mail and succeeds iff admitted, valid, found and matching |
| `Services.SignUpThenSignIn` | src/services/supabase.ts:197-214 | a user whose row holds the record sign-up stored signs in with the same password |
| `Services.CreateTransactionGuarded` | src/services/supabase.ts:346-372 | a refusal or a validation failure makes no call; otherwise the validated fields are inserted with the caller's user and category |
| `Services.CreateTransaction` | src/services/supabase.ts:347 | the limiter is consulted on the user id, `'unknown'` when absent |
| `Services.CreateTransactionInserts` | src/services/supabase.ts:346-372 | a transaction is inserted iff the limiter admits and the input validates; otherwise the reply is an error |
| `Services.CreateCategory` | src/services/supabase.ts:274-292 | a category is inserted iff it validates, with the escaped name, the caller's `user_id` and the colour or `'#007AFF'`; the limiter is not consulted |
| `Export.DaysInMonth` | src/services/exportService.ts:22 | month lengths are 28..31, February has 29 days iff the Gregorian leap rule holds, and April, June, September, November have 30 |
| `Export.YearLengthLemma` | src/services/exportService.ts:22 | the month lengths add to 365 days, 366 in a leap year |
| `Export.LastDay` | src/services/exportService.ts:22 | the last day is between 28 and 31 |
| `Export.LastDayOfMonth` | src/services/exportService.ts:22 | for a month in 1..12 the last day is that month's length, 29 in February iff the year is a leap year |
| `Export.LastDayRollsOver` | src/services/exportService.ts:22 | month 0 ends on day 31 (the December before), month 13 on day 31 (the January after), and from year 100 on month 14 is the next year's February |
| `Export.TwoDigitYear` | src/services/exportService.ts:22 | for year 0 the query ends on February 28th, because the date constructor reads year 0 as 1900 |
| `Export.Pad2` | src/services/exportService.ts:21 | a padded number has at least two characters |
| `Export.DayDigits` | src/services/exportService.ts:23 | a day 28..31 pads to two digits, the first 2 or 3 |
| `Export.QueryRange` | src/services/exportService.ts:21-23 | start and end dates share the `<year>-<MM>-` prefix, ending in `01` and in the last day |
| `Export.QueryOrdered` | src/services/exportService.ts:21-28 | the start date is not after the end date in string order |
| `Export.MonthLabel` | src/services/exportService.ts:40-46 | the label exists iff the month is in 1..12 |
| `Export.Summarize` | src/services/exportService.ts:32-54 | income and expense totals are the sums of the incomes and of the expenses, the net is their difference and the count covers every transaction |
| `Export.SummaryLaws` | src/services/exportService.ts:32-54 | income plus expenses is the sum of all amounts, and summaries add up over a split of the transactions |
| `Export.GetMonthlyData` | src/services/exportService.ts:20-56 | the query spans the month's first to last day; null data is an empty list with an all-zero summary |
| `Export.GroupKeyRoundTrip` | src/services/exportService.ts:78 | a group key reads back as its category label and type |
| `Export.GroupKeyInjective` | src/services/exportService.ts:76-89 | two transactions share a group iff they share the category label (`'Unknown'` when missing) and type |
| `Export.GroupsFromTransactions` | src/services/exportService.ts:76-89 | every group is some transaction's label and type, and its total is the sum of exactly those transactions |
| `Export.GroupsDistinct` | src/services/exportService.ts:76-89 | no two groups share a label and type |
| `Export.GroupsCoverTransactions` | src/services/exportService.ts:76-89 | every transaction's label and type has a group |
| `Export.GroupsConserve` | src/services/exportService.ts:76-89 | the group totals together sum to all amounts |
| `Export.Insert` | src/services/exportService.ts:91-92 | insertion adds exactly the one group and its total |
| `Export.InsertStepsDown` | src/services/exportService.ts:92 | inserting into a descending list keeps it descending |
| `Export.StepsDownDescending` | src/services/exportService.ts:92 | a list whose neighbours step down is ordered by total, descending |
| `Export.SortByTotal` | src/services/exportService.ts:91-92 | the sort is a permutation, with neighbours stepping down, that keeps the sum |
| `Export.PdfRowsSpec` | src/services/exportService.ts:76-92 | the PDF rows are the groups ordered by total descending; each holds its label and type's sum; together they sum to all amounts |
| `Transactions.OfKindMembers` | src/services/exportService.ts:33-38 | a transaction is kept by the type filter iff it has that type |
| `Transactions.KindsPartition` | src/services/exportService.ts:32-38 | the income and expense totals make up the whole sum |
| `Transactions.TotalsSpec` | src/components/ExpenseChart.tsx:21-37 | the per-key fold has one bucket per occurring key, no key twice, each the sum of its transactions, all together the sum of all |
| `Transactions.TotalsFirstOccurrence` | src/components/ExpenseChart.tsx:21-37 | buckets stand in the order their keys first occur |
| `Transactions.OfKindCounts` | src/services/exportService.ts:33-38 | the type filter keeps every copy of a transaction of that type and no copy of any other |
| `Chart.Contributing` | src/components/ExpenseChart.tsx:22-37 | exactly the transactions with a category name, expenses only for bar and line charts, are counted |
| `Chart.SortByIndex` | src/components/ExpenseChart.tsx:38 | array-index names are reordered in numeric order, as a permutation |
| `Chart.EntriesSpec` | src/components/ExpenseChart.tsx:38 | `Object.entries` lists every property once, array-index names first in numeric order, others in insertion order |
| `Chart.EntriesInsertionOrder` | src/components/ExpenseChart.tsx:38 | without array-index names the entries are in insertion order |
| `Chart.ToPoints` | src/components/ExpenseChart.tsx:38-42 | the i-th point carries the i-th entry's name and total and colour `CHART_COLORS[i mod 10]` |
| `Chart.PointsAreTotals` | src/components/ExpenseChart.tsx:21-42 | the points are a reordering of the category totals and have distinct names |
| `Chart.ProcessDataDistinct` | src/components/ExpenseChart.tsx:21-42 | no category name has two points |
| `Chart.ProcessDataTotals` | src/components/ExpenseChart.tsx:21-42 | each point is a counted category name and its `y` is that category's counted sum |
| `Chart.ProcessDataCovers` | src/components/ExpenseChart.tsx:21-42 | every counted transaction's category has a point |
| `Chart.ProcessDataConserves` | src/components/ExpenseChart.tsx:21-42 | the `y` values sum to the counted amounts |
| `Chart.PointColors` | src/components/ExpenseChart.tsx:38-42 | colours cycle with period ten and the first ten are distinct |
| `Chart.ProcessDataOrder` | src/components/ExpenseChart.tsx:38-42 | with no array-index names, points stand in first-occurrence order |
| `Chart.Render` | src/components/ExpenseChart.tsx:90-97 | the empty branch shows `No expense data available` |
| `Chart.RenderNoData` | src/components/ExpenseChart.tsx:90-97 | the empty branch is taken iff no transaction is counted |
| `Chart.AsWrittenAgrees` | src/components/ExpenseChart.tsx:21-37 | away from the names `Object.prototype` defines, the code as written computes the category totals |
| `Chart.ConstructorCategoryGarbled` | src/components/ExpenseChart.tsx:35 | a category named `constructor` gets a string total as written, where the intended total is 50 |
| `Chart.ContributingCounts` | src/components/ExpenseChart.tsx:22-37 | every copy of a counted transaction is counted, and no copy of any other |
| `Chart.ProtoCategoryDropped` | src/components/ExpenseChart.tsx:35 | a category named `__proto__` gets no property as written, where the intended chart shows it |
| `Chart.ImportanceDataSpec` | src/components/ExpenseChart.tsx:145-148 | each bar is a level with a positive total equal to its rated expenses; a level has a bar iff that total is positive; bars follow `IMPORTANCE_LEVELS` order |
| `Chart.RatedMembers` | src/components/ExpenseChart.tsx:146 | a level counts exactly the expenses rated with it, with or without a category |
| `Chart.ImportancePartition` | src/components/ExpenseChart.tsx:145-148 | the three level totals and the unrated expenses make up all expenses |
| `Chart.LevelShownIffRated` | src/components/ExpenseChart.tsx:145-148 | with positive amounts a level has a bar iff some expense is rated with it |
| `Theme.ThemeFor` | src/contexts/ThemeContext.tsx:63-68 | the theme is dark iff asked, and has the dark colours iff dark |
| `Theme.ModeName` | src/contexts/ThemeContext.tsx:9 | a mode is stored as `light`, `dark` or `system` |
| `Theme.ParseMode` | src/contexts/ThemeContext.tsx:38-45 | a stored value is adopted iff it is exactly one of the three mode names |
| `Theme.ModeNameRoundTrip` | src/contexts/ThemeContext.tsx:40-41 | a persisted mode is read back as itself |
| `Theme.ApplyMode` | src/contexts/ThemeContext.tsx:48-70 | the mode effect leaves a consistent state: listening iff system, theme from the scheme in system mode and from the mode otherwise |
| `Theme.SetMode` | src/contexts/ThemeContext.tsx:47-70 | setting a mode keeps the state consistent |
| `Theme.Mount` | src/contexts/ThemeContext.tsx:28-35 | the initial mode is system, listening, dark iff the colour scheme is dark |
| `Theme.LoadStored` | src/contexts/ThemeContext.tsx:38-45 | a stored mode name is adopted, anything else leaves the state unchanged |
| `Theme.SchemeChanged` | src/contexts/ThemeContext.tsx:50-55 | only a subscribed listener updates the theme, to dark iff the scheme is dark |
| `Theme.SchemeChangedConsistent` | src/contexts/ThemeContext.tsx:49-62 | a consistent state stays consistent when the colour scheme changes |
| `Theme.Next` | src/contexts/ThemeContext.tsx:76-78 | the toggle always changes the mode |
| `Theme.Toggle` | src/contexts/ThemeContext.tsx:73-82 | toggling moves to the next mode, keeps consistency and persists exactly the new mode's name |
| `Theme.ToggleThrice` | src/contexts/ThemeContext.tsx:73-82 | three toggles return to the starting state, passing through the modes in the cycle system → light → dark → system |
| `Theme.DarkIff` | src/contexts/ThemeContext.tsx:49-68 | a consistent state is dark iff the mode is dark, or system under a dark scheme, with the dark colours iff dark |
| `EnvConfig.GetConfig` | src/config/env.ts:12-51 | a missing URL is reported first; on success both strings are returned unchanged |
| `EnvConfig.GetConfigFirstFailure` | src/config/env.ts:12-51 | the config is returned iff every check passes, and the error is the first failing check in the order URL presence, key presence, URL format, key prefix |
| `Strings.NatToRadix` | src/services/supabase.ts:144 | `toString(radix)` writes at least one digit of the radix, one exactly when the number is below the radix |
| `Strings.NatToRadixRoundTrip` | src/services/supabase.ts:144 | reading the digits back gives the number |
| `Strings.IntToString` | src/services/exportService.ts:21 | an integer renders non-empty, with a leading `-` iff negative |
| `Strings.PadStart` | src/services/exportService.ts:21 | `padStart` keeps the string as the suffix and fills up to the width |
| `Strings.HexByteDigits` | src/services/supabase.ts:144 | a padded hex byte is its high and low nibble digits |
| `Strings.TrimSpec` | src/utils/validation.ts:83 | `trim` yields a trimmed slice keeping every non-whitespace character, and is the identity on trimmed strings |
| `Strings.TrimIdempotent` | src/utils/validation.ts:83 | trimming twice is trimming once |
| `Strings.Split` | src/services/supabase.ts:198 | `split` returns at least one part and no part holds the separator |
| `Strings.SplitJoin` | src/services/supabase.ts:198 | splitting and re-joining gives the string back |
| `Strings.SplitPair` | src/services/supabase.ts:198 | two separator-free parts joined by the separator split back into exactly those parts |

## Left out

- Screens, navigation, styling and rendering, including the HTML text of the PDF
  report and the JSON export file: they are user interface and file output.
- The database client and its queries: each query's reply is a parameter of the
  service function that makes it, and the calls made are returned as a list.
- AsyncStorage: the theme's stored value is a parameter and the value written is
  returned; nothing else is persisted.
- The one-minute `setInterval` that runs the sweep, and the timer `destroy` stops:
  `Cleanup` and `Destroy` are explicit operations.
- Promise chaining and React state updates in `useCache`: a fetch is an explicit
  start (`FetchData`) and an explicit settlement (`SettleOk`, `SettleErr`). All
  awaiters of a joined request see the same settlement by construction, which the
  model does not represent separately.
- The `clearAllCache` export of `useCache.ts`: its body is empty.
- The race between a slow fetch and a later `invalidate` or `mutate`: the model
  settles whatever fetch is given, as the source does, and proves nothing about
  ordering between settlements.
- `sanitizeInput.amount` and the `Number.isFinite` amount refinement: they are
  floating-point behaviour, and amounts here are whole numbers.
- zod's e-mail and UUID checks, `isEmail`, `isISO8601`, `normalizeEmail`, URL parsing,
  PBKDF2 and the random-byte source: they are uninterpreted parameters.
- `Validation.ToLower`: lower-cases ASCII letters only, because non-ASCII case
  mapping tables are not modelled.
- The other functions of `supabase.ts`: `supabaseAuthService`, `authService.updateUser`,
  and the profile, category, transaction, budget and recurring list, update, delete
  and analytics queries. Each is a pass-through to the database with no guard logic.
- `Services.SignUp`, `Services.SignIn`, `Services.CreateTransaction`: their own
  contracts state only the rate-limiter step; the rest of their behaviour is
  stated on the `...Guarded` functions they call and in the lemmas about them.
- The screens' local date bucketing and the debounce hooks: they depend on the
  platform's time zones and timers.
- `DateContext`: its only logic is a fixed range of years.
- `Validation.Truncate`: cuts after `n` code points; `substring` cuts after `n` UTF-16
  code units and can split a surrogate pair, which a Dafny `char` cannot hold.
- `Validation.EmailIssue`: the 1..255 bound counts code points, not UTF-16 units.
- `Validation.PasswordAccepted`: the 8..128 bound counts code points, so a password
  with characters outside the Basic Multilingual Plane (such as `"Aa1😀😀😀"`, nine
  UTF-16 units) can be refused by the model where the source accepts it.
- `Validation.SignUpIssues`: the e-mail and password bounds count code points, not
  UTF-16 units.
- `Validation.ValidateSignUp`: the e-mail and password bounds count code points, not
  UTF-16 units.
- `Validation.ValidateTransaction`: the 255 cut and the 1..255 description bound count
  code points, not UTF-16 units.
- `Validation.DescriptionIssue`: the 1..255 bound counts code points.
- `Validation.TransactionIssue`: the description bound counts code points.
- `Validation.PlainDescriptionAccepted`: "the first 255 characters" are code points,
  where `substring` keeps 255 UTF-16 units.
- `Validation.ExpandedDescriptionRejected`: the same 255 code-point cut.
- `Validation.ValidateCategory`: the icon's and the name's bounds count code points.
- `Validation.CategoryNameIssue`: the 1..50 bound counts code points.
- `Validation.CategoryIssue`: the icon's and the name's bounds count code points.

## Findings

| source | as written | input that shows it | evidently intended | confidence | as-written member | corrected member |
|---|---|---|---|---|---|---|
| src/components/ExpenseChart.tsx:27-35 | `categoryTotals[name] \|\| 0` reads inherited properties of `Object.prototype`, so a category named `constructor` starts from the `Object` function and its total becomes a string | one expense of 50 in a category named `constructor` | the chart shows `constructor` with `y = 50` | medium, not executed | `Chart.ConstructorCategoryGarbled` | `Chart.ProcessDataTotals` |
| src/components/ExpenseChart.tsx:27-35 | `categoryTotals['__proto__']` reads `Object.prototype`, so the sum is the string `"[object Object]50"`; the `__proto__` setter ignores a value that is not an object, so no property is created and the category vanishes | one expense of 50 in a category named `__proto__` | the chart shows `__proto__` with `y = 50` | low (the category schema refuses `_`), not executed | `Chart.ProtoCategoryDropped` | `Chart.ProcessDataCovers` |
