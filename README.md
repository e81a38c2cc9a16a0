# Library demo: session, loans and categories in Dafny

This project models the logic of a small client-side library catalogue
(`js/app.js`). The catalogue keeps three registries:

- **Session store** (`UserManager`). This is one optional user profile under the
  storage key `currentUser`. `login` builds a fresh profile from the typed user
  name and overwrites the slot. `logout` removes the slot. `isLoggedIn` tests
  whether the slot is present. `updateProfile` shallow-merges a partial record
  onto the stored profile, and does nothing when no session exists.
- **Loan list** (`BookManager`). This is a list of borrowed books, seeded with
  three loans (ids 1, 2 and 3). `renewBook` moves the first matching loan's due
  date 14 calendar days forward. `returnBook` removes the first matching loan.
  Both report success as a boolean.
- **Category table** (`CategoryManager`). This is a constant table of eight
  categories, looked up by id with first-match search.

Four decision rules from the UI and event code are also modelled:

- the notification icon for a severity;
- the book-count badge;
- the login-form guard;
- the category filter.

Layout, one module per component:

- `wrappers.dfy`: `Option`, which stands for JavaScript's `null`/`undefined`
  results.
- `civil_date.dfy`: proleptic Gregorian dates. `AddDays` steps one day at a
  time. `DayNumber` is a closed-form count of days. Contracts tie the two
  together, so `AddDays(d, 14)` is proved to be the one valid date exactly 14
  days after `d`, including month, year and leap-year rollover.
- `catalog.dfy`: the category table and `getCategoryById`.
- `loans.dfy`: the `BookManager` class. Its `borrowedBooks` field is a
  `seq<Loan>`, replaced by each renewal and return. The methods are proved
  against the pure functions `Renewed` and `Removed`. A linear scan
  (`FindIndex`) models `find`/`findIndex`.
- `session.dfy`: the `UserManager` class. Its `currentUser` field is an
  `Option<Profile>`, where a profile is a `map<string, Value>` of JSON-like
  values. The merge is map override (`current + partial`).
- `ui.dfy`: the alert-icon mapping and the book count.
- `events.dfy`: the login-form guard and the category filter (as written, plus
  the corrected variant described under Findings).

Inputs from outside the program become parameters:

- the login time stamp (`joinDate`), which comes from the clock;
- the persisted profile a page starts with, which comes from storage (the
  `UserManager` constructor).

Where the design description and the code disagree, the model follows the code:

- **Category filter.** The code compares each loan's `category` (a display name)
  with the category **id** it is given (js/app.js:282). The design says it
  compares display names. `Events.FilterByCategory` follows the code. The
  consequence is stated under Findings.
- **Username.** The design calls `username` immutable after creation, but the
  merge in `updateProfile` overwrites any key the partial record carries,
  `username` included. `Session.Merge` does the same.

## Model

| member | source | states |
|---|---|---|
| `CivilDate.NextDay` | js/app.js:93 | the next calendar day of a valid date is valid and its day number is exactly one more |
| `CivilDate.AddDays` | js/app.js:92-94 | adding n days to a valid date gives a valid date whose day number is exactly n more (month, year and leap-year rollover included) |
| `CivilDate.DayNumberInjective` | js/app.js:92-94 | two valid dates with the same day number are the same date, so the renewed due date is uniquely determined |
| `CivilDate.AddDaysAdditive` | js/app.js:93 | adding m days and then n days is adding m + n days |
| `CivilDate.AddDaysByNumber` | js/app.js:92-94 | AddDays(d, n) equals any valid date whose day number is n more than d's |
| `CivilDate.FourteenDaysWithinMonth` | js/app.js:92-94 | 2024-12-15 plus 14 days is 2024-12-29 |
| `CivilDate.FourteenDaysAcrossYearEnd` | js/app.js:92-94 | 2024-12-25 plus 14 days is 2025-01-08 |
| `CivilDate.FourteenDaysAcrossLeapFebruary` | js/app.js:92-94 | 2024-02-20 plus 14 days is 2024-03-05 (leap year) |
| `CivilDate.FourteenDaysAcrossCommonFebruary` | js/app.js:92-94 | 2023-02-20 plus 14 days is 2023-03-06 (common year) |
| `Catalog.FindById` | js/app.js:127 | the result is the first entry with the given id, and it is absent exactly when no entry has that id |
| `Catalog.GetCategories` | js/app.js:111-124 | the table has 8 entries with distinct ids, and the first is 'all' |
| `Catalog.GetCategoryById` | js/app.js:126-128 | a found category is in the table and has the requested id; nothing is found exactly when no entry has that id |
| `Catalog.LookupOwnId` | js/app.js:110-128 | every table entry is found again by its own id |
| `Loans.SeedLoans` | js/app.js:55-83 | the seeded list holds loans 1, 2 and 3, with unique ids, valid due dates and status 'borrowed' |
| `Loans.FirstIndexOf` | js/app.js:90 | the index of the first loan with that id; absent exactly when no loan has it |
| `Loans.FindIndex` | js/app.js:101 | the linear scan returns the first matching index, or nothing when no loan matches |
| `Loans.Renewed` | js/app.js:89-98 | same length; without a match the list is unchanged; with one, every other loan and every other field is unchanged and the matched due date is exactly 14 calendar days later |
| `Loans.Removed` | js/app.js:100-107 | without a match the list is unchanged; with one, the length drops by one, the entries before and after the first match keep their order, and exactly that entry leaves the multiset |
| `Loans.RenewedWellFormed` | js/app.js:89-98 | renewal keeps ids unique, due dates valid and every status 'borrowed' |
| `Loans.RemovedWellFormed` | js/app.js:100-107 | return keeps ids unique, due dates valid and every status 'borrowed' |
| `Loans.ReturnTwiceFails` | js/app.js:100-107 | with unique ids, the returned id is no longer present, so a second return of it fails |
| `Loans.RenewKeepsIds` | js/app.js:89-98 | renewal changes no id, so an id is present after renewal exactly when it was before |
| `Loans.BookManager.constructor` | js/app.js:55-83 | the registry starts with the seeded list |
| `Loans.BookManager.GetBorrowedBooks` | js/app.js:85-87 | returns the current list |
| `Loans.BookManager.RenewBook` | js/app.js:89-98 | succeeds exactly when some loan has the id; the new list is Renewed(old list, id); the registry stays well formed |
| `Loans.BookManager.ReturnBook` | js/app.js:100-107 | succeeds exactly when some loan has the id; the new list is Removed(old list, id); the registry stays well formed |
| `Session.FreshProfile` | js/app.js:12-28 | the login record has exactly the ten fields: username = name = u, email = u + '@example.com', empty phone, birthDate, bio and interests, null avatar, the given joinDate, and stats 12/3/45 |
| `Session.FreshProfileInjective` | js/app.js:12-15 | different user names give different login records |
| `Session.Merge` | js/app.js:46 | every key of the partial record has the partial record's value, every other key keeps the old value, and no other key appears |
| `Session.MergeIdempotent` | js/app.js:43-51 | applying the same update twice equals applying it once |
| `Session.MergeSequential` | js/app.js:43-51 | two updates in a row equal one update by their merge |
| `Session.MergeEmpty` | js/app.js:46 | an empty update changes nothing |
| `Session.UserManager.constructor` | js/app.js:2-5 | the session starts as whatever storage holds |
| `Session.UserManager.GetCurrentUser` | js/app.js:2-5 | returns the stored profile, or nothing |
| `Session.UserManager.SaveUser` | js/app.js:7-9 | the slot afterwards holds exactly the given record |
| `Session.UserManager.Login` | js/app.js:11-32 | whatever the slot held before, it now holds the fresh record, which is also the return value; the password is not consulted |
| `Session.UserManager.Logout` | js/app.js:34-37 | the slot is empty afterwards |
| `Session.UserManager.IsLoggedIn` | js/app.js:39-41 | true exactly when the slot holds a profile |
| `Session.UserManager.UpdateProfile` | js/app.js:43-51 | with no session, returns nothing and storage stays empty; otherwise the merged profile is both returned and stored |
| `Ui.AlertIcon` | js/app.js:147-155 | the table's icon for a known severity, 'info-circle' for any other |
| `Ui.AlertIconRange` | js/app.js:147-155 | every severity gets one of the four icons, and an unknown severity looks exactly like 'info' |
| `Ui.AlertIconsDistinct` | js/app.js:148-153 | the four known severities have four different icons |
| `Ui.BookCount` | js/app.js:163-169 | the badge value is the number of loans currently in the registry |
| `Events.KeepCategory` | js/app.js:282 | the kept loans are a subsequence of the list (original order), and each loan occurs as often as in the list if its category matches, otherwise not at all |
| `Events.KeepCategoryNone` | js/app.js:282 | when no loan carries the category, nothing is kept |
| `Events.FilterByCategory` | js/app.js:278-285 | 'all' yields the list unchanged; any other argument yields exactly the loans whose `category` string equals that argument, in original order |
| `Events.FilterBooksByCategory` | js/app.js:278-285 | the loans shown for a filter click are the as-written filter applied to the registry's current list |
| `Events.SeededFilterFindsNothing` | js/app.js:278-285 | on the seeded list, filtering by any real category id other than 'all' yields nothing, although loan 1 belongs to 'programming' by display name |
| `Events.FilterByCategoryName` | js/app.js:278-285 | the corrected filter: 'all' yields the list unchanged; a known id yields exactly the loans carrying that category's display name, in order; an unknown id yields nothing |
| `Events.SeededFilterByNameFindsProgramming` | js/app.js:278-285 | with the corrected filter, 'programming' on the seeded list yields loan 1 |
| `Events.SubmitLogin` | js/app.js:205-224 | the login goes ahead exactly when both fields are non-empty, and then stores the fresh profile; otherwise the session is left exactly as it was |

## Left out

- **Presentation.** The model leaves out the DOM: notification markup, the
  user-name labels, the avatar image, the book-card HTML with its empty-state
  block, and profile-form population (js/app.js:131-194, 287-318, 350-367).
  These only project state onto the page. Only the decisions behind them are
  modelled (icon choice, count, filter result).
- **Browser scheduling and the native dialog.** Left out: the 5-second alert
  removal, the 1-second redirect after login, and the `confirm` gate before a
  renewal. A renewal is modelled as if the user confirmed it.
- **Navigation.** The redirects in `logout`, after login and at page load are
  left out. `Logout` only clears the slot.
- **Event-listener wiring.** The click dispatch on the button's label text and
  the page-load guard are left out. So is the "today + 14" label that the renew
  handler writes. It reads the wall clock and changes only display text, never
  the registry.
- **Profile-form submission and avatar upload.** Both end in one
  `updateProfile` call, which `Session.UserManager.UpdateProfile` models for
  any partial record. The form's field names come from HTML that is not part of
  this model. The asynchronous `FileReader` and its race are left out.
- **`localStorage` and JSON.** Storage is the `currentUser` field. The
  serialise/parse round trip is taken as the identity, so decoding a malformed
  stored value is not modelled.
- **JavaScript `Date` details.** The ISO-string parsing and formatting of the
  due date, the local-time/UTC mix that can shift a date by a day around
  daylight-saving changes, and `toLocaleDateString('ar-SA')` are left out. Due
  dates are civil dates, and renewal is calendar-day arithmetic.
- Loans.BookManager.RenewBook: requires every due date to be valid. An
  unparseable due-date string would make the source throw a `RangeError`. No
  such string can arise from the seeded data.
- Ui.AlertIcon: inherited object keys are not modelled. A severity that
  names an inherited `Object.prototype` property (such as `constructor`) would
  make the source return that property instead of an icon name.
- **Loan ids.** Ids are mathematical integers. The `NaN` that `parseInt` can
  produce never equals any id, so it behaves like an unknown id and is not
  modelled separately.
- **`getBorrowedBooks` returns the live array.** The model returns the list as
  a value, so aliasing through the returned array is not modelled.

## Findings

| source | as written | input that shows it | evidently intended | confidence | as-written member | corrected member |
|---|---|---|---|---|---|---|
| js/app.js:282 | the filter compares each loan's `category`, a display name such as 'البرمجة', with the category id it was given, such as 'programming' | the seeded list filtered by 'programming' shows nothing, although loan 1 is a programming book | compare with the display name of the category the id selects | not executed; high | `Events.SeededFilterFindsNothing` | `Events.FilterByCategoryName` |

The filter as written (`Events.FilterByCategory`) is kept as the code's
behaviour. It is what `Events.FilterBooksByCategory` renders.
