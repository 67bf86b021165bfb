# Author and post field validators

A model of the validation layer of a small blogging schema. It has two record
types, `Author` and `Post`. Each validated field has a validator that runs when
the field is assigned. The validator either returns the proposed string
unchanged or raises `ValueError` with a fixed message, and then the assignment
does not happen.

Each validator is a Dafny function returning `Result<string>`. `Ok(v)` is the
accepted value and `Err(msg)` is the raised `ValueError` with the source's
message. The name validator looks up the store to check uniqueness. That
lookup becomes the parameter `existing: set<string>`, the names of the authors
stored when the validator runs.

Modules:

- `Validation`: `Option` and `Result`.
- `Text`: the string primitives Python gives the validators. These are
  `str.isspace`/`str.strip()` (the full set of 29 code points Python 3 treats
  as whitespace), `str.isdigit()` restricted to `'0'..'9'`, and the substring
  test `sub in s`. Each one is proved equal to an independent
  characterisation: a slice with only whitespace cut off, a quantified "every
  character", or "occurs at some index". `strip()` is modelled as CPython
  computes it: a left scan, a right scan, then the slice between them.
- `Authors`: `validate_name`, `validate_phone`, the `Author` record, field
  assignment, keyword construction, and the set of stored names with the
  uniqueness invariant that validated inserts and renames preserve.
- `Posts`: `validate_content`, `validate_summary`, `validate_category`,
  `validate_title`, the `Post` record, field assignment and keyword
  construction.
- `Scenarios`: concrete inputs at each validator's boundaries and two
  end-to-end creation scenarios.

A record is a datatype whose fields are `Option<string>`, where `None` means
"never assigned". Assigning a field (`SetName`, `SetTitle`, ...) returns
`Ok(record with that one field replaced)` or the validator's `Err`. On `Err`,
the caller keeps its old record, just as the Python object keeps its old
attribute when the validator raises. A keyword constructor (`NewAuthor`,
`NewPost`) assigns the supplied fields one after another, in declaration order.
The first validator that raises aborts the construction.

The validators raise the built-in `ValueError`; the model keeps its exact
messages.

## Model

| member | source | states |
|---|---|---|
| `Text.AllDigits` | server/models.py:28 | the character scan is true exactly when every character is an ASCII digit '0'..'9' |
| `Text.IsDigits` | server/models.py:28 | `isdigit()` holds exactly when the string is non-empty and every character is an ASCII digit '0'..'9' |
| `Text.SkipLeading` | server/models.py:19 | the left scan of `strip()` stops at the first non-whitespace character, having passed only whitespace |
| `Text.SkipTrailing` | server/models.py:19 | the right scan of `strip()` stops just after the last non-whitespace character and never passes the left end |
| `Text.Strip` | server/models.py:19 | `strip()` returns a contiguous slice of its input with only whitespace cut off either side, and with no whitespace at either end; whitespace is `Text.IsWhitespace`, the 29 code points Python 3's `str.isspace()` accepts |
| `Text.StripEmptyIffBlank` | server/models.py:19 | `s.strip() == ""` holds exactly when every character of `s` is whitespace (the empty string included) |
| `Text.Contains` | server/models.py:68 | `sub in s` holds exactly when `sub` occurs at some index of `s` |
| `Text.FirstCharAbsent` | server/models.py:68 | a non-empty phrase whose first character is absent from `s` is not in `s` |
| `Text.AnyOccurs` | server/models.py:68 | `any(phrase in s ...)` holds exactly when some listed phrase is contained in `s` |
| `Authors.ValidateName` | server/models.py:17-24 | fails with "Author name must be present." exactly when the name is blank; fails with "Author name must be unique." exactly when it is non-blank and already stored; otherwise returns the name unchanged |
| `Authors.ValidatePhone` | server/models.py:26-30 | succeeds exactly when the value is 10 characters long and all of them are digits, and then returns it unchanged; otherwise fails with the phone message |
| `Authors.SetName` | server/models.py:17-24 | assignment succeeds exactly when the validator accepts; then only the name changes; otherwise the validator's message is raised |
| `Authors.SetPhone` | server/models.py:26-30 | assignment succeeds exactly when the validator accepts; then only the phone number changes |
| `Authors.NewAuthor` | server/models.py:6-30 | construction succeeds exactly when every supplied field is accepted and yields exactly those fields; a name failure is reported before a phone failure |
| `Authors.Names` | server/models.py:21 | a name is in the lookup set exactly when some stored author has that name |
| `Authors.ValidatedInsertKeepsNamesDistinct` | server/models.py:21-23 | storing only authors whose construction succeeded against the current store keeps all stored names distinct |
| `Authors.ValidatedRenameKeepsNamesDistinct` | server/models.py:17-24 | renaming a stored author through the validator, with the lookup seeing the current store, keeps all stored names distinct |
| `Authors.SecondAuthorWithSameNameFails` | server/models.py:21-23 | once an author named `n` is stored, a second author named `n` fails with the uniqueness message, whatever the phone |
| `Authors.ReassigningOwnNameFails` | server/models.py:21-23 | giving a stored author its own non-blank name again fails, because the lookup finds that author itself |
| `Authors.RevalidateName` | server/models.py:24 | an accepted name re-validates to itself unless the store has since gained that name, and then it fails as not unique |
| `Authors.RevalidatePhone` | server/models.py:30 | an accepted phone number re-validates to itself |
| `Posts.ValidateContent` | server/models.py:47-51 | succeeds exactly when the length is at least 250 (so the empty string fails), returning the content unchanged |
| `Posts.ValidateSummary` | server/models.py:53-57 | succeeds exactly when the length is at most 250 (the empty string included), returning the summary unchanged |
| `Posts.ValidateCategory` | server/models.py:59-63 | succeeds exactly for "Fiction" and "Non-Fiction" with exact, case-sensitive equality, returning the value unchanged |
| `Posts.ValidateTitle` | server/models.py:65-70 | succeeds exactly when the title contains "Won't Believe", "Secret", "Top" or "Guess", returning it unchanged |
| `Posts.TitleAcceptedIffPhraseOccurs` | server/models.py:67-68 | a title is accepted exactly when some clickbait phrase occurs in it at some index |
| `Posts.TitleWithoutInitialsRejected` | server/models.py:67-69 | a title without any of the letters W, S, T and G is rejected with the title message |
| `Posts.SetTitle` | server/models.py:65-70 | assignment succeeds exactly when the validator accepts; then only the title changes |
| `Posts.SetContent` | server/models.py:47-51 | assignment succeeds exactly when the content has at least 250 characters; then only the content changes |
| `Posts.SetSummary` | server/models.py:53-57 | assignment succeeds exactly when the summary has at most 250 characters; then only the summary changes |
| `Posts.SetCategory` | server/models.py:59-63 | assignment succeeds exactly for the two categories; then only the category changes |
| `Posts.AssignmentsPreserveValidPost` | server/models.py:47-70 | a post whose fields were all validated stays so after any successful assignment |
| `Posts.NewPost` | server/models.py:35-70 | construction succeeds exactly when every supplied field is accepted and yields exactly those fields; otherwise it fails with the message of the first supplied field, in the order title, content, summary, category, that is refused |
| `Posts.RevalidatePostFields` | server/models.py:51-70 | each post validator re-validates an accepted value to itself |
| `Scenarios.BlankNamesRejected` | server/models.py:19-20 | "" and " \t\n" are refused as missing |
| `Scenarios.NameMatchIsCaseSensitive` | server/models.py:21-24 | "Jane Doe" is refused when stored; "jane doe" is accepted (the match is case-sensitive) |
| `Scenarios.PhoneAccepted` | server/models.py:28-30 | "5551234567" is accepted unchanged |
| `Scenarios.PhonesRejected` | server/models.py:28-29 | "555-123-4567", "12345" and "" are refused |
| `Scenarios.ContentBoundary` | server/models.py:49-51 | 249 characters are refused and 250 accepted |
| `Scenarios.SummaryBoundary` | server/models.py:55-57 | "" and 250 characters are accepted; 251 are refused |
| `Scenarios.CategoryExamples` | server/models.py:61-63 | "Fiction" and "Non-Fiction" are accepted; "fiction" and "Mystery" are refused |
| `Scenarios.ClickbaitTitleAccepted` | server/models.py:67-70 | "Top 10 Secrets" is accepted |
| `Scenarios.PlainTitleRejected` | server/models.py:67-69 | "A Quiet Afternoon" is refused |
| `Scenarios.FirstAuthorCreated` | server/models.py:17-30 | Jane Doe with phone 5551234567 is created in an empty store |
| `Scenarios.DuplicateAuthorRefused` | server/models.py:17-24 | once Jane Doe is stored, a second Jane Doe with another phone is refused as not unique |
| `Scenarios.PostScenario` | server/models.py:47-70 | a "Top Secret Diary" post in "Fiction" is created; the same post in "Drama" is refused with the category message |

## Left out

- Column types, primary keys, the `nullable`/`unique` column flags, the `posts` relationship with its `author` backref, and the `author_id` foreign key (server/models.py:9-15, 38-45). These are schema metadata that the database library and the store enforce, not validator logic.
- `created_at`/`updated_at` (server/models.py:12-13, 44-45). The database sets these timestamps.
- `__repr__` (server/models.py:32-33, 72-73). It only formats a debugging string.
- The database query at server/models.py:21. Only its result is modelled, as the set of stored names. Its equality is taken as exact string equality, so collation rules of a particular database are not modelled. The race between checking and inserting under concurrent creation is not modelled, and neither is a storage-level unique index.
- Non-string arguments. A `None` phone number or summary raises `AttributeError`/`TypeError`, not `ValueError` (server/models.py:28, 55), and every model input is a string. A `None` name is refused as missing in the source (server/models.py:19), a `None` content is refused with the content message by `not content` (server/models.py:49), a `None` category is refused with the category message because it is not in the list (server/models.py:61), and a `None` title raises `TypeError` (server/models.py:68); a model string cannot express any of these. `None` in a record stands only for a field never assigned.
- Text.AllDigits, Text.IsDigits and Authors.ValidatePhone: a digit is only an ASCII `'0'..'9'`. Python's `str.isdigit()` also accepts other Unicode digits, such as superscripts and other scripts' decimal digits. The model rejects those.
- Text.IsWhitespace follows the whitespace set of current Python 3 versions. Older Unicode databases (U+180E before Unicode 6.3) are not modelled. Lengths count Unicode scalar values, so lone surrogates in a Python string are not modelled.
- Authors.NewAuthor and Posts.NewPost assign keywords in declaration order. The library's constructor assigns them in the caller's keyword order. Only which message is raised first depends on that order. Whether construction succeeds does not.
- The record `id`s assigned by the store, and insert, update and delete themselves. A store is modelled only as the sequence of authors whose names the lookup sees.
