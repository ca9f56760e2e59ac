# Blog da Comunidade — a Dafny model of its core

This is a model of the core of a small PHP blog. The blog keeps its posts, its
registered users, the administrator's password override and the
password-reset tokens in JSON files. The model covers:

- **Storage and helpers** (`includes/functions.php`):
  - the reset-token store: create, find, consume;
  - username normalisation and user lookup;
  - post sorting, and the per-day and per-month post counts;
  - the slug of a title;
  - the `date` and `month` query filters;
  - the month calendar grid;
  - the image-upload checks and their error messages.
- **Session** (`includes/auth.php`): the logged-in test, login as a
  registered user or as the configured administrator, logout, and the login
  gate.
- **Page handlers**:
  - registration (`register.php`);
  - the forgotten-password request (`forgot.php`);
  - the password reset (`reset.php`);
  - the publishing panel (`admin.php`);
  - the archive page (`index.php`).

Each JSON file becomes a class whose field the handlers reassign:
`ResetTokens.TokenStore`, `Users.UserStore`, `Auth.AdminStore` and
`Admin.PostStore`. The PHP session becomes the class `Auth.Session`. A save
that fails leaves a store as it was, and a flag parameter says whether each
save succeeds.

What the program gets from its environment is passed in as a parameter:

- `strtotime` becomes `Clock.parse`, and `date('Y-m-d', ts)` / `date('Y-m', ts)`
  become `Clock.dayKey` / `Clock.monthKey`;
- `time()` is `now`, and today's date is `today`;
- `password_verify` is `verify` and `password_hash` is `hash`;
- `filter_var(..., FILTER_VALIDATE_EMAIL)` is `validEmail`;
- `DateTime::createFromFormat('Y-m-d\TH:i', ...)` is `parseLocal`;
- random ids and tokens, and the time stamps written to the files, are
  plain parameters;
- the upload host (`is_uploaded_file`, `getimagesize`, `is_writable`,
  `move_uploaded_file`, `date('YmdHis')`) is the `Upload.Host` value.

`DateTime::createFromFormat('Y-m-d' | 'Y-m')` is modelled concretely: a
strict digit shape, then the overflow of an out-of-range day or month into
the next month (`Calendar.Normalize`). Both filters and the calendar depend
on it. PHP's `usort`, `ksort` and `krsort` are the stable insertion sort of
module `Sorting`.

## Model

| member | source | states |
|---|---|---|
| ResetTokens.DropPair | includes/functions.php:94-96 | keeps each record not for the given type and id exactly as often as before, and drops every record for them |
| ResetTokens.Live | includes/functions.php:125-133 | keeps each record whose `expires_at` is after now exactly as often as before, and drops the expired ones |
| ResetTokens.LastMatchSound | includes/functions.php:129-131 | the token the lookup returns is a stored record carrying that token; there is none exactly when no record carries it |
| ResetTokens.TokenStore.Create | includes/functions.php:88-111 | after a successful save the file holds the other accounts' tokens plus the new one, and the token and its expiry are returned; after a failed save nothing changes and null is returned |
| ResetTokens.TokenStore.Find | includes/functions.php:113-140 | a blank token finds nothing and writes nothing; otherwise it returns the last live record with that token, and purges the expired records when there are some and the write succeeds |
| ResetTokens.TokenStore.Consume | includes/functions.php:142-161 | reports a consumption exactly when some record carries the token; only then, and only when the save succeeds, is the first such record removed |
| ResetTokens.ScanLive | includes/functions.php:122-133 | the `foreach` collects exactly the live records and the last live record with the token |
| ResetTokens.RemoveFirstScan | includes/functions.php:145-154 | the `foreach` with its `$consumed` flag drops exactly the first record with the token, and reports whether there was one |
| ResetTokens.IssueLeavesOne | includes/functions.php:94-104 | after a token is issued, exactly one stored record is for that account |
| ResetTokens.IssuedThenFound | includes/functions.php:88-140 | a freshly issued token, absent before, is found at any time before its expiry and not from then on |
| ResetTokens.LiveNoMatch | includes/functions.php:125-139 | a token no record carries is never found |
| ResetTokens.FoundIsLive | includes/functions.php:125-139 | a found record is stored, carries the token and has not expired |
| ResetTokens.ConsumeCount | includes/functions.php:142-161 | consuming removes exactly one occurrence of the token when there is one |
| ResetTokens.SingleUse | includes/functions.php:113-161 | a token stored at most once is never found again after it was consumed |
| ResetTokens.LiveCount | includes/functions.php:125-133 | purging expired records never adds occurrences of a token |
| Seqs.FirstWhere | includes/functions.php:145-154 | the first position at or after the start whose element passes the test, or None when none does; the search behind the token consume loop, the user lookup loop and the reset's update loop |
| Seqs.FirstWhereAt | includes/functions.php:145-154 | when nothing before a position passes the test and that position does, the search finds it; at the end, it finds nothing |
| Users.NormalizeUsername | includes/functions.php:210-213 | the normal form is the trimmed name with each byte lower-cased: as long as the trimmed name, byte for byte its lower-case; hence no upper-case letter, no surrounding whitespace and no longer than the input |
| Users.NormalizeIdempotent | includes/functions.php:210-213 | normalising twice is normalising once |
| Users.Lookup | includes/functions.php:215-229 | a blank name finds nobody; a found user is stored and has the same normal form; nobody is found only when no stored user has that normal form |
| Users.FindUserByUsername | includes/functions.php:215-229 | the loop returns the first user whose normalised name matches; a blank name finds nothing; a miss means no user has that name |
| Users.UsernameExists | includes/functions.php:231-234 | true exactly when the name is not blank and some stored user has it after normalisation |
| Users.LookupNormalizes | includes/functions.php:215-229 | names with the same normal form find the same user |
| Users.LookupFindsStored | includes/functions.php:215-229 | every stored user with a non-blank name is found under that name |
| Users.LookupUnique | includes/functions.php:215-229 | with distinct names, looking up a stored user's name gives back that very user |
| Users.UserStore.Save | includes/functions.php:199-208 | the user list is replaced exactly when the write succeeds |
| Users.AddKeepsDistinct | register.php:52-68 | appending a user whose name is not taken keeps the normalised names distinct |
| Posts.TimeOr | includes/functions.php:274-275 | `strtotime(...) ?: fallback`: the parsed time unless parsing fails or gives 0, else the fallback |
| Posts.BeforeIsOrder | includes/functions.php:273-278 | the comparator is a total preorder in both directions, so the sort is well defined |
| Posts.SortPosts | includes/functions.php:271-281 | the result is a permutation of the posts, ordered ascending by publication time, or descending for `desc` |
| Posts.SortPostsStable | includes/functions.php:273-280 | posts with equal publication time keep their stored order (PHP 8's stable `usort`) |
| Posts.OrderedUnique | includes/functions.php:271-281 | when publication times are distinct, the sorted order is the only one: any ordered permutation equals it |
| Posts.DescendingIsReversedAscending | includes/functions.php:271-281 | when publication times are distinct, `desc` gives the `asc` order reversed |
| Posts.OnDay | index.php:14-16 | a post belongs to the selected day when `date('Y-m-d', strtotime(...) ?: 0)` is that day; no contract of its own, `Posts.PostsOnDay` states what the filter keeps |
| Posts.PostsOnDay | index.php:13-17 | keeps each post published on the selected day exactly as often as before, and no other post |
| Posts.PostsOnDayOrdered | index.php:13-17 | filtering a sorted list keeps it sorted |
| Posts.DayKeys | includes/functions.php:333-335 | one day key per post, in order: `date('Y-m-d', strtotime(...) ?: time())` |
| Posts.MonthKeys | includes/functions.php:349-351 | one month key per post, in order: `date('Y-m', strtotime(...) ?: time())` |
| Posts.CountKeys | includes/functions.php:333-340 | the counting loop lists each distinct key once, counts exactly its occurrences, and its counts sum to the number of posts |
| Posts.TalliedDescribes | includes/functions.php:333-340 | counting one key after another describes the keys: every count is the key's number of occurrences |
| Posts.CountStep | includes/functions.php:336-339 | one step of the loop (`isset`, set to 0, increment) keeps the description and adds one to the sum |
| Posts.SortKeys | includes/functions.php:341 | ordering the keys (`ksort` / `krsort`) changes neither the counts nor their sum |
| Posts.StringOrders | includes/functions.php:341 | byte-wise string order and its reverse are total preorders |
| Posts.PostsByDay | includes/functions.php:330-344 | per-day counts of all posts, summing to their number, keys strictly ascending |
| Posts.PostsByMonth | includes/functions.php:346-360 | per-month counts of all posts, summing to their number, keys strictly descending |
| Sorting.SortSorted | includes/functions.php:273-278 | the insertion sort orders its input under any total preorder |
| Slug.Collapse | includes/functions.php:292 | `preg_replace('/[^a-z0-9]+/', '-')`: no two dashes in a row, the same letters and digits in order, a dash at an end exactly where the input ended in a non-slug character |
| Slug.SlugWellFormed | includes/functions.php:283-296 | every slug is non-empty, of lower-case letters, digits and single inner dashes |
| Slug.SlugKeepsAlnum | includes/functions.php:283-296 | the slug keeps the title's letters and digits, lower-cased and in order; a title without any gives `post` |
| Slug.SlugIdempotent | includes/functions.php:283-296 | slugifying a slug gives it back |
| Slug.SlugFixed | includes/functions.php:283-296 | every well-formed slug is its own slug |
| Slug.CollapseIdentity | includes/functions.php:292 | the replacement leaves a dash-separated string unchanged |
| Slug.TrimDashes | includes/functions.php:293 | `trim($text, '-')` keeps the letters and digits, and is empty exactly when there are none |
| Strings.Trim | includes/functions.php:212 | `trim`: the slice of the input after its leading blanks, with only blanks after it and no blank at either of its own ends |
| Strings.TrimExact | includes/functions.php:212 | a slice with only blanks around it and none at its own ends is exactly what `trim` gives, so the contract above determines the result |
| Strings.TrimRight | admin.php:81 | `rtrim`: a prefix of the input, followed only by blanks, not ending in a blank |
| Strings.ToLower | includes/functions.php:212 | `strtolower`: the same length, each byte lower-cased (A-Z only) |
| Slug.Slugify | includes/functions.php:283-296 | no contract of its own; `Slug.SlugWellFormed`, `Slug.SlugKeepsAlnum`, `Slug.SlugIdempotent` and `Slug.SlugFixed` state what it returns |
| Calendar.DaysInMonth | includes/functions.php:371 | `format('t')`: 28 to 31 days; 29 exactly for February of a leap year |
| Calendar.CarryMonth | includes/functions.php:404-405 | `modify('±1 month')` on the first of a month: a real month with the same month count |
| Calendar.Normalize | includes/functions.php:316 | `createFromFormat` overflow: always a real date, and a real date is left as it is |
| Calendar.Weekday | includes/functions.php:372 | `format('N')`: an ISO weekday from 1 to 7 |
| Calendar.WeekdayAdvances | includes/functions.php:372 | the next day's ISO weekday is the following one, Sunday wrapping to Monday |
| Calendar.FormatYmdMatches | includes/functions.php:317 | a real date formats as a `dddd-dd-dd` string exactly when it is the date that string's fields name |
| Calendar.FormatYmMatches | includes/functions.php:327 | a real month formats as a `dddd-dd` string exactly when it is the month that string's fields name |
| Calendar.FormatYear | includes/functions.php:408 | `format('Y')` is at least four characters wide |
| Calendar.FormatYmd | includes/functions.php:382 | `Y-m-d` is at least ten characters wide; `Calendar.FormatYmdMatches` states its round trip |
| Calendar.MonthName | includes/functions.php:408 | `format('F')`: the English name of months 1 to 12; no contract of its own |
| Filters.CreateFromYmd | includes/functions.php:316 | a successful parse is always a real date |
| Filters.CreateFromYm | includes/functions.php:326 | a successful parse is always a real date, with the day taken from the day given |
| Filters.CreateFromFirst | includes/functions.php:364 | parsing `month-01` gives the first of a month |
| Filters.DateFilter | includes/functions.php:310-318 | a date the filter keeps is the parameter itself, of shape `dddd-dd-dd`; `Filters.DateFilterExact` states exactly which are kept |
| Filters.DateFilterExact | includes/functions.php:310-318 | accepts exactly the `dddd-dd-dd` strings naming a real date, and returns them unchanged; anything else, absent included, gives null |
| Filters.DateFilterRoundTrip | includes/functions.php:310-318 | every real date of the years 0 to 9999, written `Y-m-d`, passes the filter unchanged |
| Filters.DateFilterRejectsFebruary30 | includes/functions.php:316-317 | `2024-02-30` overflows into March and is refused |
| Filters.MonthKeptOnDay | includes/functions.php:326-327 | read on a given day, a month is kept when it is real and has that day; a kept month other than the current one has that day |
| Filters.MonthFilterOnDay | includes/functions.php:320-328 | read on any day, the result is the `dddd-dd` parameter itself or the current month, never anything else |
| Filters.MonthFilterAsWritten | includes/functions.php:320-328 | the filter as `index.php` calls it, on today's day: the `dddd-dd` parameter itself or the current month |
| Filters.MonthFilter | includes/functions.php:320-328 | the intended filter, on the first of the month: the `dddd-dd` parameter itself or the current month; `Filters.MonthFilterExact` says which |
| Filters.NormalizeMovesOut | includes/functions.php:326 | a day the month does not have always overflows into another month |
| Filters.MonthFilterExact | includes/functions.php:320-328 | the intended filter accepts exactly the `dddd-dd` strings naming months 01 to 12, and otherwise gives the current month |
| Filters.MonthFilterAgreesEarly | includes/functions.php:320-328 | until the 28th the filter as written agrees with the intended one for every input |
| Filters.MonthFilterRejectsFebruaryLate | includes/functions.php:326-327 | as written, on 2024-05-30 the input `2023-02` is replaced by the current month |
| Filters.MonthFilterKeepsFebruary | includes/functions.php:320-328 | the intended filter keeps `2023-02` on 2024-05-30 |
| CalendarGrid.StartOf | includes/functions.php:364-367 | the first of the selected month, or the first of the current month when the parse fails |
| CalendarGrid.DayCell | includes/functions.php:382-389 | the cell for a day carries that day number |
| CalendarGrid.Lead | includes/functions.php:377-379 | fewer than 7 blanks before the 1st |
| CalendarGrid.Trailing | includes/functions.php:397-400 | fewer than 7 blanks after the last day, closing the last week |
| CalendarGrid.FillWeeks | includes/functions.php:374-402 | the three loops build rows of exactly 7 cells which, read in order, are the blanks, the days and the closing blanks |
| CalendarGrid.CalendarMatrix | includes/functions.php:362-414 | the grid in weeks of 7, its month, the previous and next months, and the caption `F Y` |
| CalendarGrid.FinishLayout | includes/functions.php:397-402 | padding the unfinished row completes the layout |
| CalendarGrid.DayColumn | includes/functions.php:372-395 | each day sits in the column of its ISO weekday |
| CalendarGrid.DayInGrid | includes/functions.php:374-402 | each day of the month is in the grid, in its weekday's column, in the row given by the blanks before it |
| CalendarGrid.DayCellDate | includes/functions.php:382-389 | a day's date passes the date filter unchanged; the cell is marked as today exactly for today's date, and as having posts exactly when the day has a count |
| CalendarGrid.February2024 | includes/functions.php:362-414 | February 2024 has 3 blanks before and 3 after its 29 days |
| Upload.ErrorMessage | includes/functions.php:459-478 | a non-empty message for every code; the size codes share one message; unknown codes get the generic one |
| Upload.RawExtension | includes/functions.php:437 | `pathinfo(..., PATHINFO_EXTENSION)`: the text after the last dot of the last path segment, or nothing when that segment has no dot |
| Upload.Extension | includes/functions.php:437 | the lower-cased extension has no upper-case letter, no dot and no slash |
| Upload.HandleImageUpload | includes/functions.php:416-457 | the image is stored exactly when each check in turn passes; a stored image's path is under `uploads/`; an upload error code gives its message |
| Upload.StoredPathShape | includes/functions.php:449-456 | a stored path is `uploads/<stamp>-<slug>.<ext>`, with an accepted extension and a well-formed slug of the title |
| Upload.ExtensionIgnoresCase | includes/functions.php:437-440 | `photo.JPG` has the accepted extension `jpg` |
| Upload.NoExtension | includes/functions.php:437 | a dot in a directory name is no extension |
| Auth.AdminStore.Save | includes/functions.php:175-184 | the administrator document is replaced exactly when the write succeeds |
| Auth.IsLoggedIn | includes/auth.php:4-7 | logged in exactly when the session flag is the boolean `true` |
| Auth.SignInLogsIn | includes/auth.php:19-23 | after signing in the session is logged in, holds the login time and the three names, and keeps its other entries |
| Auth.SignIn | includes/auth.php:46-50 | the session entries a login writes; no contract of its own, `Auth.SignInLogsIn` states them |
| Auth.AdminPasswordOk | includes/auth.php:31-40 | the administrator password check in its order of precedence; no contract of its own, the three lemmas below state it |
| Auth.ShippedAdminPassword | includes/auth.php:31-40 | with no override and the shipped configuration, the administrator password is exactly `admin123` |
| Auth.OverrideReplacesConstant | includes/auth.php:34-35 | a stored override hash takes precedence: a password it rejects is rejected |
| Auth.NoAdminPassword | includes/auth.php:29-40 | with no override and no configured password, no password is the administrator's |
| Auth.UserPasswordOk | includes/auth.php:14-18 | the registered-user check: the lookup finds the user and a non-empty stored hash verifies; no contract of its own, `Auth.LoginDecision` uses it |
| Auth.AdminLoginOk | includes/auth.php:28-44 | the administrator check: the trimmed name equals the configured one exactly and the password check passes; no contract of its own |
| Auth.LoginDecision | includes/auth.php:9-53 | login succeeds exactly when a registered user's password verifies or the administrator's name and password match; a registered user takes precedence |
| Auth.AdminNameIsCaseSensitive | includes/auth.php:28 | `ADMIN` is not the administrator's name, while ` admin ` is |
| Auth.ShippedDecision | includes/auth.php:28-50 | with the shipped configuration and no registered user under the name, `admin123` signs in as the administrator exactly when the trimmed name is `admin` |
| Auth.Authenticate | includes/auth.php:11-44 | the steps of `blog_attempt_login` give the login decision |
| Auth.Session.AttemptLogin | includes/auth.php:9-53 | succeeds exactly when the decision names someone; only then is the session signed in as them |
| Auth.Session.Logout | includes/auth.php:55-65 | the session is emptied and no longer logged in |
| Auth.Session.RequireLogin | includes/auth.php:67-72 | redirects to `login.php` exactly when not logged in |
| Register.TrimBeforeNormalize | register.php:17-18 | trimming before normalising changes nothing |
| Register.UsernameErrors | register.php:28-34 | each username message appears exactly when its rule is the first one broken |
| Register.Validate | register.php:24-50 | no message exactly when every field rule holds |
| Register.ValidateReports | register.php:24-50 | each message is reported exactly when its rule is broken |
| Register.AcceptedUsername | register.php:28-34 | an accepted username is in normal form, not the administrator's, and at least 3 characters long |
| Register.Check | register.php:52-55 | the form rules, then the taken-name check only when they all pass |
| Register.Submit | register.php:15-75 | the user is appended and saved exactly when every check passes; a failed save reports its message and appends nothing |
| Register.RegisterKeepsDistinct | register.php:52-68 | a successful registration keeps the stored usernames distinct |
| Forgot.TargetOf | forgot.php:24-36 | the administrator when the name is theirs, even if a user has it; else the first user with that name; else no one |
| Forgot.ResetLink | forgot.php:45 | the link is `reset.php?token=` followed by the token, and nothing else |
| Forgot.Resolve | forgot.php:24-36 | the lookup the handler makes gives that target |
| Forgot.Request | forgot.php:16-50 | a blank name, an unknown name or a failed save each give their message and change nothing; otherwise the account's old tokens are replaced by the new one and its link is returned |
| Forgot.LinkLivesThirtyMinutes | forgot.php:41-46 | the new link is found for 1800 seconds and not from then on |
| Forgot.NewLinkRevokesOld | forgot.php:41 | after a request exactly one token is stored for the account |
| Reset.TokenParam | reset.php:14 | the query's token, trimmed, when the query has one; else the form's token, trimmed, or the empty string; never with surrounding whitespace |
| Reset.BlankQueryHidesForm | reset.php:14 | a blank `token` in the query wins over the form's |
| Reset.PasswordProblems | reset.php:25-31 | a short password and a mismatch each give their message exactly when they occur |
| Reset.AccountOf | reset.php:34-45 | the administrator exactly for type and id `admin`; a user exactly for type `user`, with the token's id |
| Reset.AdminNeedsAdminId | reset.php:37-65 | an administrator token with another id resets nothing |
| Reset.SetPassword | reset.php:49-56 | only the first user with the id gets the new hash and update time; everyone else is untouched; None when no user has the id |
| Reset.UpdateFirst | reset.php:46-56 | the `foreach` with `break` gives that update, and reports whether a user was found |
| Reset.SetPasswordKeepsDistinct | reset.php:49-56 | a reset keeps the usernames distinct |
| Reset.ResetThenLogin | reset.php:49-56 | after a reset the user's new password verifies for their name at login |
| Reset.ApplyThenUserLogin | reset.php:45-62 | after a successful reset from a user token, that user's login with the new password succeeds |
| Reset.ApplyThenAdminLogin | reset.php:37-44 | after a successful reset from the administrator token, the stored override hash is the new one and the new password passes the administrator check |
| Reset.Apply | reset.php:22-66 | succeeds exactly when the passwords are valid and equal, the save succeeds, and the token names the administrator or an existing user; on failure nothing changes; on success the administrator document holds the new hash and stamp, or the first user with the token's id gets them, and nothing else changes |
| Reset.ResetPassword | reset.php:33-66 | the stores change as the reset decides |
| Reset.Handle | reset.php:8-72 | a logged-in visitor is redirected; an unknown or expired token is refused; on POST the reset is applied, and the token is used up exactly when the reset succeeded |
| Reset.UsedLinkIsDead | reset.php:67-70 | after a successful reset the link is never found again |
| Admin.PostStore.Save | includes/functions.php:260-269 | the post list is replaced exactly when the write succeeds |
| Admin.CheckForm | admin.php:19-39 | each field message appears exactly when its rule is broken, and there are no others |
| Admin.PublishedAt | admin.php:31-36 | the parsed input, or the current time when the field is blank; no contract of its own, `Admin.DraftFields` states it for accepted posts |
| Admin.MakeDraft | admin.php:14-49 | a failing field check rejects the post with those messages, before any upload |
| Admin.DraftAcceptedExactly | admin.php:19-49 | a post is accepted exactly when the checks pass and the upload stores the image |
| Admin.DraftFields | admin.php:31-60 | an accepted post carries the trimmed, non-empty title and text, the stored image, the parsed or current publication time, the new id and the creation time |
| Admin.MissingErrorField | admin.php:27 | an image entry without an `error` field passes the panel's test but the upload refuses it |
| Admin.AcceptedImagePath | admin.php:41-57 | an accepted post's image is `uploads/<stamp>-<slug of the title>.<accepted extension>` |
| Admin.SubstrFrom | admin.php:79 | the start offset of `substr` lies within the string |
| Admin.Substr | admin.php:79 | `substr` gives a slice of the string no longer than the length asked for |
| Admin.StrimWidthFits | admin.php:76-86 | a text that fits is shown whole |
| Admin.StrimWidthCuts | admin.php:76-86 | a longer text becomes its first `width` bytes, right-trimmed, followed by the marker, so at most `width` plus the marker's length |
| Admin.StrimWidth | admin.php:76-86 | the `mb_strimwidth` fallback from offset 0; no contract of its own, `Admin.StrimWidthFits` and `Admin.StrimWidthCuts` state its value in both branches |
| Admin.Excerpt | admin.php:164 | a text of at most 140 bytes is listed whole; a longer one as its first 140 bytes, right-trimmed, followed by `...`, 143 bytes at most |
| Admin.Publish | admin.php:51-67 | an accepted post is appended when the save succeeds; a rejected post changes nothing |
| Admin.Panel | admin.php:8-74 | redirects to login when signed out; a post is saved and answered with a redirect exactly when it is accepted and saved; otherwise the problems and the listing newest first |
| Admin.PublishedPostListed | admin.php:51-74 | a published post appears in the listing |
| Archive.SelectPosts | index.php:8-18 | the stable ascending sort of all posts, and the shown list is exactly that sort, or its order-preserving filter to the selected day's posts when a day is selected; so posts with equal times keep their stored order |
| Archive.Index | index.php:8-22 | the page shows the filtered date and the month read by the filter as written, the shown posts as exactly the stable ascending sort or its order-preserving filter to the selected day, counts of all posts per day and per month, and the calendar of the selected month, whose `month` is the selected one; until the 28th the month is also the intended filter's |
| Archive.StartOfMonthString | includes/functions.php:364 | a real `dddd-dd` month starts the calendar on its first day, and formats back to itself |
| Archive.CurrentMonthShape | includes/functions.php:327 | the current month written `Y-m` is a `dddd-dd` string naming a real month |
| Archive.ShownMonthOnDay | index.php:10-22 | whatever day the month filter reads on, the calendar starts in the month it settled on |
| Archive.CalendarShowsSelectedMonth | index.php:10-22 | the calendar shows the month the filter settled on, with the filter as written and with the intended one |
| Archive.UnparsableDateDisagrees | index.php:16 | an unparsable `published_at` is counted on today's cell but listed under timestamp 0's day |

## Left out

- File I/O: JSON encoding and decoding, `blog_ensure_storage` and `blog_storage_warnings` are not modelled. Each store holds the decoded list, and each write is a success flag.
- Records are typed values. A JSON entry that is not an object, or a field of another type, is not modelled. A missing string field is "", as the source reads it. A missing token `type`/`id` is None, because `isset` distinguishes it.
- The clock, the time zone, `strtotime` and `date()` are parameters. `date('Y-m-d')`, used for "today", is the `today` date.
- `random_bytes`, `password_hash`, `password_verify` and the constant-time comparison of `hash_equals` are oracles or plain equality.
- `filter_var`, `getimagesize`, `is_uploaded_file`, `is_writable` and `move_uploaded_file` are oracles.
- Slug.Slugify: leaves out the `iconv` transliteration step, passing the text on unchanged. A non-ASCII letter is therefore dropped instead of spelled in ASCII: `Olá` gives `ol`, where PHP gives `ola`.
- Strings are one character per byte. Multibyte UTF-8 and transliteration are not modelled, so `strtolower` lowers ASCII only.
- Upload.RawExtension: takes the extension of the last `/`-separated segment without first stripping trailing slashes as `pathinfo`'s `basename` step does, so `photo.jpg/` has no extension here and `jpg` in PHP. An uploaded file's `$_FILES` name is already a bare file name, so this never arises for it.
- HTML rendering, `blog_e`, `blog_format_date` and `blog_format_datetime` are not modelled.
- `header`/`exit` redirects are modelled as returned values.
- `blog_logout`'s cookie and `session_destroy` are not modelled; only `$_SESSION = []` is.
- `login.php` is not part of this model beyond `blog_attempt_login`. The logged-in redirects at the top of `register.php` and `forgot.php` are not modelled; `Register.Submit` and `Forgot.Request` model the POST branch.
- `config.php` appears only as `Auth.Shipped`, the shipped administrator name and password. The optional `BLOG_ADMIN_PASS_HASH` is a field of `Auth.AdminConfig`.
- Concurrency is not modelled: two requests racing on a JSON file, and `LOCK_EX`.
- `Admin.StrimWidth` models only the fallback `mb_strimwidth` that `admin.php` defines, not the mbstring one.
- Archive.Index: states the per-day and per-month counts over the ascending-sorted list that `index.php` passes them. That list is a permutation of the stored posts with the same length.
- Archive.CalendarShowsSelectedMonth: holds for current years 0 to 9999 only, where `Y` is four digits wide; so does the calendar-month clause of `Archive.Index`.
- Filters.CreateFromYmd: reads only the strict `dddd-dd-dd` shape. PHP's `createFromFormat` also reads shorter fields such as `2024-2-5`; no handler passes those, since the filters only keep the strict shape. The same holds for `Filters.CreateFromYm` and `CalendarGrid.StartOf`.
- Filters.DateFilterRoundTrip: holds for years 0 to 9999 only, where `Y` is four digits wide.
- Calendar.FormatYear: for negative years the model writes `-` and pads the absolute value to four digits. PHP's `sprintf('%04d')`, used for calendar cells, pads the sign into the width instead. Negative years are not otherwise modelled.
- Reset.Handle: the logged-in check is the `loggedIn` parameter rather than the session object.

## Findings

| source | as written | input that shows it | evidently intended | confidence | as-written member | corrected member |
|---|---|---|---|---|---|---|
| includes/functions.php:326 | `DateTime::createFromFormat('Y-m', $value)` takes the missing day from today, so on the 29th to 31st a month without that day overflows into the next month, fails the `format('Y-m') === $value` comparison, and is replaced by the current month | `month=2023-02` requested on 2024-05-30 gives `2024-05` | every real month `dddd-dd` is kept, whatever the current day (for example by parsing `'!Y-m'` or `$value . '-01'`) | not executed | Filters.MonthFilterAsWritten, Filters.MonthFilterRejectsFebruaryLate | Filters.MonthFilter, Filters.MonthFilterKeepsFebruary |

`Archive.Index` models `index.php` as written, so its page reads the month with `Filters.MonthFilterAsWritten`. It also states that until the 28th the selected month is the one `Filters.MonthFilter` gives (`Filters.MonthFilterAgreesEarly`). `Archive.CalendarShowsSelectedMonth` holds for both filters.
