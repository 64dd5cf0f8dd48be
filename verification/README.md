# SmartReads catalog store and credential gate, in Dafny

This project models the two pieces of sequential logic under the SmartReads
library demo: the **catalog store** behind the admin page (`LibraryManagementSystem`
in `src/js/main.js`) and the **credential gate** of the sign-in page (`AuthSystem`
in `src/js/auth.js`). Both are modelled as pure functions over immutable values,
and the proofs cover what the code promises.

- `strings.dfy`, module `Strings`: the JavaScript string operations the code uses.
  These are white space as `trim` and `\s` define it, lower-casing, `includes`,
  `trim` and `join`. The module also has `IndexOfChar`, a helper that finds the '@'
  for the e-mail pattern `^[^\s@]+@[^\s@]+\.[^\s@]+$`.
- `options.dfy`, module `Options`: the optional-value datatype.
- `catalog.dfy`, module `Catalog`: the `Store` of books, authors, categories and
  publishers, the fixture data, and the add, update and delete operations. Books
  refer to entities through `Ref(id, name)` copies.
- `catalog_invariant.dfy`, module `CatalogInvariant`: the counter invariant. Each
  entity's `booksCount` equals the number of book references to its id. The
  fixture satisfies it and every operation keeps it. This module also holds the
  add-then-delete round trip.
- `search.dfy`, module `Search`: the book and author search filters.
- `strength.dfy`, module `Strength`: the password-strength meter.
- `session.dfy`, module `Sessions`: the stored session and the 24-hour auto-redirect
  check.
- `auth.dfy`, module `Auth`: sign-up validation, the e-mail shape, the demo
  accounts, and the sign-in and sign-up decisions.

Ids and clock readings (`Date.now()`, `new Date()`) are parameters. The user list
is an in-memory sequence. The stored session is a `Session(role, loginTime)` value
with the time in integer milliseconds.

The sign-in page redirects only while the session's age is strictly below 24 hours,
so a session exactly 24 hours old no longer redirects (`Sessions.ShouldAutoRedirect`,
`Sessions.TwentyFourHourBoundary`).

The proofs show one fact the source does not make obvious. When the score is below 80,
at least one of the four 25-point criteria is unmet, so the hint list is never empty.
The meter's text is therefore always "Strong password" or an "Add: ..." hint. The texts
"Good password", "Fair password" and "Weak password" are never shown; only the colour
tells those ratings apart (`Strength.TextIsStrongOrHint`).

## Model

| member | source | states |
|---|---|---|
| `Strings.Includes` | src/js/main.js:781-783 | `includes` is true exactly when the substring occurs at some position of the text |
| `Strings.TrimStart` | src/js/auth.js:241 | the result is a suffix of the input; everything dropped is white space; the result does not start with white space |
| `Strings.TrimEnd` | src/js/auth.js:245 | the result is a prefix of the input; everything dropped is white space; the result does not end with white space |
| `Strings.IndexOfChar` | src/js/auth.js:280 | a helper for the e-mail pattern, finding the '@': the first position of the character, or -1 exactly when it does not occur |
| `Strings.Trim` | src/js/auth.js:241 | `trim`: the input is white space, then the result, then white space; the result neither starts nor ends with white space |
| `Strings.Lower` | src/js/main.js:781 | `toLowerCase` on ASCII: same length; exactly the capital letters change, each to its lower-case letter; no capital letter remains |
| `Strings.LowerIdempotent` | src/js/main.js:781 | lower-casing twice gives the same as lower-casing once |
| `Strings.Join` | src/js/auth.js:126 | `join`: no parts give "", one part gives itself, two parts give them with the separator between; the first part leads; the length is the parts' total plus one separator per gap |
| `Catalog.IndexOf` | src/js/main.js:566 | `findIndex` by id: -1 exactly when the id is absent, otherwise the first position holding it |
| `Catalog.Bump` | src/js/main.js:414-416 | only the first entity with the id has its counter moved; every other entity and field, and the id list, stay the same |
| `Catalog.AddBook` | src/js/main.js:409-434 | appends one book with the given fields and a one-element reference list per kind; adds 1 to the counter of the chosen author, category and publisher and changes nothing else |
| `Catalog.Release` | src/js/main.js:589-601 | each entity that is first with its id loses one count per reference to it; missing references are skipped; ids and all other fields stay |
| `Catalog.DeleteBook` | src/js/main.js:583-603 | unknown id: store unchanged; otherwise exactly that book is removed, every list keeps its length (empty lists included), and each entity loses the counts that book referenced, and nothing else |
| `Catalog.UpdateBook` | src/js/main.js:564-581 | only isbn, name, serial name and description of the found book change; its id and references are kept; unknown id: store unchanged |
| `Catalog.AddEntity` | src/js/main.js:442-483 | one entity with `booksCount` 0 is appended to the chosen list; books and the other lists are untouched |
| `Catalog.AddAuthor` | src/js/main.js:442-455 | one author with the given name and description and no books is appended; nothing else changes |
| `Catalog.AddCategory` | src/js/main.js:457-469 | one category with the given name, no description and no books is appended; nothing else changes |
| `Catalog.AddPublisher` | src/js/main.js:471-483 | one publisher with the given name, no description and no books is appended; nothing else changes |
| `Catalog.Rename` | src/js/main.js:696-710 | only the name of the found entity changes; ids, counters and other lists are kept; unknown id: store unchanged |
| `Catalog.UpdateAuthor` | src/js/main.js:641-656 | only name and description of the found author change; id and `booksCount` are kept; unknown id: store unchanged |
| `Catalog.UpdateCategory` | src/js/main.js:696-710 | only the found category's name changes; unknown id: store unchanged |
| `Catalog.UpdatePublisher` | src/js/main.js:750-764 | only the found publisher's name changes; unknown id: store unchanged |
| `Catalog.DeleteEntity` | src/js/main.js:658-668 | only the first matching entity leaves its list; books and other lists are untouched, so references dangle; unknown id: store unchanged |
| `Catalog.DeleteAuthor` | src/js/main.js:658-668 | removes exactly the found author; no book is modified |
| `Catalog.DeleteCategory` | src/js/main.js:712-722 | removes exactly the found category; no book is modified |
| `Catalog.DeletePublisher` | src/js/main.js:766-776 | removes exactly the found publisher; no book is modified |
| `Catalog.SampleData` | src/js/main.js:94-144 | the fixture holds books with ids 1, 2, 3 and, in each of the three lists, entities with ids 1, 2, 3 |
| `CatalogInvariant.SampleDataResolves` | src/js/main.js:96-143 | every reference in a sample book names an entity of its kind by id and by current name |
| `CatalogInvariant.SampleDataConsistent` | src/js/main.js:94-144 | in the fixture data, ids are distinct and every counter equals the number of book references to its id |
| `CatalogInvariant.AddBookKeepsConsistent` | src/js/main.js:409-434 | adding a book keeps distinct ids and every counter equal to its reference count |
| `CatalogInvariant.DeleteBookKeepsConsistent` | src/js/main.js:583-603 | deleting a book, known or not, keeps the counters equal to the reference counts |
| `CatalogInvariant.UpdateBookKeepsConsistent` | src/js/main.js:564-581 | editing a book's scalar fields keeps the invariant |
| `CatalogInvariant.AddThenDeleteBook` | src/js/main.js:409-434 | adding a book with a fresh id and deleting it by that id gives back the original store, counters included |
| `CatalogInvariant.RefCountRemoveAt` | src/js/main.js:603 | removing one book takes away exactly that book's references from every count |
| `CatalogInvariant.AddEntityKeepsConsistent` | src/js/main.js:442-483 | a new entity with a fresh, unreferenced id keeps the invariant |
| `CatalogInvariant.RenameKeepsConsistent` | src/js/main.js:696-710 | renaming a category or publisher keeps the invariant |
| `CatalogInvariant.UpdateAuthorKeepsConsistent` | src/js/main.js:641-656 | editing an author keeps the invariant |
| `CatalogInvariant.DeleteEntityKeepsConsistent` | src/js/main.js:658-668 | after deleting an entity the id is gone from its list, books are unchanged, and every remaining counter still agrees |
| `Search.Filter` | src/js/main.js:780 | `filter` keeps order and keeps only passing elements; each passing value occurs as often as in the input, each failing value not at all |
| `Search.BookMatches` | src/js/main.js:781-783 | a book matches exactly when the lower-cased query occurs at some position of the lower-cased title, isbn or one of the referenced author names |
| `Search.AuthorMatches` | src/js/main.js:813-814 | an author matches exactly when the lower-cased query occurs at some position of the lower-cased name or description |
| `Search.SearchBooks` | src/js/main.js:779-784 | the result is an order-preserving subsequence; a book is in it exactly when it matches, as many times as it is stored |
| `Search.SearchAuthors` | src/js/main.js:811-815 | the result is an order-preserving subsequence; an author is in it exactly when it matches, as many times as it is stored |
| `Search.SearchBooksEmptyQuery` | src/js/main.js:779-784 | the empty query returns every book |
| `Search.SearchAuthorsEmptyQuery` | src/js/main.js:811-815 | the empty query returns every author |
| `Search.SearchBooksNoMatch` | src/js/main.js:779-784 | a query matching no book returns the empty list |
| `Search.SearchAuthorsNoMatch` | src/js/main.js:811-815 | a query matching no author returns the empty list |
| `Search.SearchBooksIgnoresCase` | src/js/main.js:781-783 | the query and its lower-cased form give the same result |
| `Search.FilterAll` | src/js/main.js:780 | when every element passes, the filter returns the whole list |
| `Search.FilterAgree` | src/js/main.js:780 | two tests that agree on every element give the same filtered list |
| `Strength.Score` | src/js/auth.js:94-106 | the score is 25 times the number of the four criteria met, plus 10 for a symbol, so at most 110 |
| `Strength.Feedback` | src/js/auth.js:94-104 | one hint per unmet criterion: a criterion's hint is listed exactly when the criterion is unmet, nothing else is listed, and the hints keep the fixed order length, lowercase, uppercase, number |
| `Strength.CalculatePasswordStrength` | src/js/auth.js:90-130 | the percentage is the score capped at 100, so 100 for a score of 110; colour thresholds at 80/60/40; "Strong password" exactly when the score is at least 80 |
| `Strength.ScoreMatchesFeedback` | src/js/auth.js:94-106 | the score is 25 per met criterion plus 10 for a symbol; a criterion's hint is listed exactly when the criterion is unmet |
| `Strength.TextIsStrongOrHint` | src/js/auth.js:114-127 | the text is "Strong password" or starts with "Add: "; below 80 it names the first two missing items in the fixed order |
| `Strength.HintNamesFirstTwoMissing` | src/js/auth.js:94-127 | a short password with both letter cases and no digit or symbol rates fair and is told "Add: at least 8 characters, number" |
| `Strength.ShortLettersOnly` | src/js/auth.js:94-106 | "Ab" meets exactly the lowercase and uppercase criteria and has no symbol |
| `Strength.AbIsFair` | src/js/auth.js:94-127 | "Ab" gets the orange colour and the text "Add: at least 8 characters, number" |
| `Sessions.HoursSinceLogin` | src/js/auth.js:418 | the hours times the milliseconds per hour give the elapsed milliseconds; below 24 exactly when fewer than 24·3600·1000 ms have passed |
| `Sessions.ShouldAutoRedirect` | src/js/auth.js:412-424 | redirect exactly when a session is stored, the page is the sign-in page, and fewer than 24·3600·1000 ms have passed since login |
| `Sessions.TwentyFourHourBoundary` | src/js/auth.js:418-421 | exactly 24 hours does not redirect; 1 ms less does |
| `Sessions.RedirectMonotone` | src/js/auth.js:418-421 | a session that redirects now also redirects at any earlier time |
| `Auth.IsValidEmail` | src/js/auth.js:279-282 | true exactly when the text has the form local@domain.tld with three non-empty runs free of white space and '@' |
| `Auth.ValidateSignUpForm` | src/js/auth.js:240-266 | valid exactly when all six checks pass; each message is reported exactly when the earlier checks pass and its own fails |
| `Auth.ValidateDemoCredentials` | src/js/auth.js:268-277 | true exactly for the admin pair with role "admin" or the user pair with role "user" |
| `Auth.FindUser` | src/js/auth.js:168 | finds a registered user with exactly this e-mail, password and role, and finds none exactly when there is none |
| `Auth.SignIn` | src/js/auth.js:160-178 | succeeds exactly when the demo pair matches or some registered user matches on all three fields; success stores the session for that role at the current time |
| `Auth.EmailTaken` | src/js/auth.js:209 | the scan finds a user exactly when some registered user has this e-mail |
| `Auth.SignUp` | src/js/auth.js:202-227 | a validation failure is reported first; a valid form whose e-mail is taken is rejected with the list unchanged; otherwise exactly one user is appended |
| `Auth.SignUpThenSignIn` | src/js/auth.js:168 | after a successful sign-up, the same e-mail, password and role sign in |
| `Auth.DuplicateEmailRejected` | src/js/auth.js:208-213 | a sign-up with a registered e-mail never succeeds and leaves the list as it was |
| `Auth.AppendFreshEmail` | src/js/auth.js:226 | appending a user whose e-mail is not registered keeps e-mails distinct |
| `Auth.SignUpKeepsUniqueEmails` | src/js/auth.js:202-227 | sign-up keeps the registered users distinct by e-mail |
| `Auth.DemoAlwaysSignsIn` | src/js/auth.js:160-165 | a demo account signs in whatever users are registered |
| `Auth.FreshSessionRedirects` | src/js/auth.js:320-325 | the session a sign-in stores redirects at once and no longer does 24 hours later |
| `Auth.ValidationIgnoresRole` | src/js/auth.js:240-266 | changing the role never changes the validation outcome |

## Left out

- DOM and UI: element lookup, event listeners, HTML templates, modals, toasts, the
  spinner, the shake animation, tab switching, password-visibility toggles,
  `viewBook`/`edit*` form builders, `updateDashboard` and the fixed recent-activity
  list. These are presentation only.
- Timers and navigation: the `setTimeout` pacing and the `window.location` redirects.
  Sign-in and sign-up are immediate decisions.
- Persistence: `loadUsers`, `saveUsers` and the session write in `redirectToApp` go
  to local storage. Users are a sequence and the session is a value. Corrupt stored
  JSON and an unparseable login time are not modelled. An unparseable time gives
  NaN in the source, and NaN never redirects.
- Id and clock sources: `Date.now()` and `new Date()` are parameters. Operations do
  not check ids for freshness. The lemmas that need fresh ids require them.
- Form parsing: `parseInt` and the `FormData` fallbacks. Ids and fields arrive as
  integers and strings.
- The `confirm()` dialog in the delete operations: the user is taken to have
  confirmed.
- Social login and `loadDemoCredentials` are stubs. `fillDemoCredentials` only fills
  the form.
- Catalog.AddBook: requires that the three ids exist. The add form's selects offer
  only ids from the lists (src/js/main.js:304-321). With a missing id the source
  pushes the book and then throws; that path is not modelled.
- Catalog.AddBook: a book reference is the `{id, name}` pair. The source stores the
  entity object itself, but only `id` and `name` are ever read from it. Because an
  update replaces the entity object, the book keeps the name it had when added.
- Search.AuthorMatches: an author without a description would make the source throw.
  The model returns "no match on the description" instead. No such author can arise:
  the fixture and `addAuthor` always set one.
- Strings.Lower: lower-cases ASCII letters only. JavaScript's `toLowerCase` also
  folds other Unicode letters.
- Auth.ValidateSignUpForm: the password length counts Unicode scalar values.
  JavaScript's `length` counts UTF-16 code units, so the two differ outside the Basic
  Multilingual Plane. The same applies to `Strength.Criteria`.
- Sessions.HoursSinceLogin: real division stands in for floating-point division.
  With integer milliseconds, the comparison with 24 gives the same answer.
- The session check on the catalog page itself is not in these files. Only the
  sign-in page's auto-redirect is modelled.
