# Course wizard, request authentication and achievement unlocks — a Dafny model

This project models three pieces of the education platform's code that hold
sequential logic, and proves properties of them with Dafny.

- **The teacher's "create course" wizard** (`CreateCourse.dfy`). The class
  `CourseForm` holds the component's state: the course fields, the tag list
  and the tag input box, the chosen PDF, the privacy flag and password, and
  the wizard step. Each event handler is a method on it. The tag edits, the
  upload check, the per-step guards, the button rules and the field selection
  of the submission are pure functions. Proved:
  - the tag list never holds duplicates, empty strings or untrimmed entries;
  - removing a tag keeps the order of the other tags;
  - adding and then removing a tag restores the list;
  - the upload limit of 10 485 760 bytes is inclusive;
  - the step stays within 1..4 under the buttons' enabling rules;
  - the password is submitted exactly when the course is private.
- **The bearer-token middleware** (`AuthMiddleware.dfy`). `jwt.verify` and
  `User.findById` are opaque here: they are passed in as functions that
  succeed or fail. `Authenticate` is the decision: refuse with 401 and a
  message, or proceed with the user. `Handle` is the middleware acting on the
  request and response objects. Proved:
  - which of the two messages each failure gets;
  - that a failed verification and an unknown user cannot be told apart;
  - that without a token neither oracle matters;
  - that `next()` runs exactly once on success and never otherwise, and that
    only success annotates the request.
- **The user-achievement unlock collection** (`UserAchievement.dfy`). The
  schema declares two required references, two defaults and a unique
  (user, achievement) index. These become the collection class
  `UnlockCollection`, whose `Insert` validates the required paths, consults
  the index and applies the defaults. Proved:
  - no two documents share a pair, after any series of inserts;
  - saving one pair one or more times leaves exactly one document for it;
  - a rejected insert changes nothing;
  - a successful insert appends one document and alters none.

`JsString.dfy` models the two JavaScript string built-ins the code relies on:
`trim` (with ECMAScript's whitespace set) and `replace` with a string pattern
(first occurrence only). `Optional.dfy` holds the `Option` type.

Two places where the code may surprise a reader:
- The middleware answers the same "Invalid token." whether the token is
  malformed, expired or names no user. It does not separate expiry from other
  verification errors.
- The unlock collection rejects a duplicate pair with a duplicate-key error.
  Treating that error as success would be the job of code outside
  `userAchievement.js`, and that code is not part of this model.

## Model

| member | source | states |
|---|---|---|
| `JsString.Trim` | frontend/src/components/teacher/CreateCourse.jsx:79 | `trim()` removes only whitespace at the two ends; the result has no whitespace at either end and is empty exactly when the input is all whitespace |
| `JsString.TrimOfTrimmed` | frontend/src/components/teacher/CreateCourse.jsx:79 | a string with no whitespace at either end is its own trim |
| `JsString.TrimIdempotent` | frontend/src/components/teacher/CreateCourse.jsx:79-82 | trimming a trimmed tag changes nothing, so stored tags are trimmed |
| `JsString.IndexOf` | backend/middleware/authMiddleware.js:6 | the first position where the pattern occurs, none before it; absent only when it occurs nowhere |
| `JsString.RemoveFirst` | backend/middleware/authMiddleware.js:6 | `replace(pat, "")` removes the first occurrence only and changes nothing without one; re-inserting the pattern gives the input back |
| `CreateCourse.CheckUpload` | frontend/src/components/teacher/CreateCourse.jsx:62-75 | no file is ignored; a non-PDF type is refused whatever its size; a PDF is refused exactly when over 10485760 bytes and otherwise accepted as the first chosen file |
| `CreateCourse.UploadLimitIsInclusive` | frontend/src/components/teacher/CreateCourse.jsx:69 | a PDF of exactly 10485760 bytes is accepted and one of 10485761 is refused |
| `CreateCourse.AddTagTo` | frontend/src/components/teacher/CreateCourse.jsx:78-86 | when the trimmed input is non-empty and new it is appended and the box cleared, otherwise tags and box stay as they were; well-formed tags stay well-formed |
| `CreateCourse.AppendKeepsWellFormed` | frontend/src/components/teacher/CreateCourse.jsx:79-83 | appending a non-empty, trimmed, new tag keeps the list free of duplicates, empty and untrimmed entries |
| `CreateCourse.RemoveTagFrom` | frontend/src/components/teacher/CreateCourse.jsx:87-92 | the filter drops every entry equal to the tag, keeps every other, adds none, is the identity when the tag is absent and keeps a duplicate-free list duplicate-free |
| `CreateCourse.RemoveTagKeepsWellFormed` | frontend/src/components/teacher/CreateCourse.jsx:87-92 | removing a tag keeps the tag list well-formed |
| `CreateCourse.RemoveTagFromAppend` | frontend/src/components/teacher/CreateCourse.jsx:90 | filtering a concatenation filters each part |
| `CreateCourse.RemoveTagKeepsOrder` | frontend/src/components/teacher/CreateCourse.jsx:87-92 | in a duplicate-free list, removing the tag at position k leaves exactly the other tags in their original order |
| `CreateCourse.AddThenRemove` | frontend/src/components/teacher/CreateCourse.jsx:78-92 | removing the trimmed text that "Add" just accepted restores the previous tag list |
| `CreateCourse.TagActionsKeepTagsWellFormed` | frontend/src/components/teacher/CreateCourse.jsx:78-92 | from a well-formed list (such as the initial `[]`), any sequence of typing, adding and removing keeps the tags free of duplicates, empty strings and untrimmed entries |
| `CreateCourse.AfterClick` | frontend/src/components/teacher/CreateCourse.jsx:779-801 | Next (offered only before step 4) raises the step by one exactly when the guard passes; Previous (disabled at step 1 and while submitting) lowers it by one; a hidden Next or a disabled Previous leaves the step as it was; a step in 1..4 stays in 1..4 |
| `CreateCourse.ClicksKeepStepInRange` | frontend/src/components/teacher/CreateCourse.jsx:779-801 | under the enabling rules (Previous disabled at step 1 or while submitting, Next only before step 4) any series of clicks keeps the step within 1..4 |
| `CreateCourse.CourseForm.constructor` | frontend/src/components/teacher/CreateCourse.jsx:37-50 | the initial state: empty fields, language English, public, no tags, 60 minutes, no PDF, step 1, empty tag box |
| `CreateCourse.CourseForm.EditTitle` | frontend/src/components/teacher/CreateCourse.jsx:204-206 | typing in the title field sets the title and nothing else |
| `CreateCourse.CourseForm.EditDescription` | frontend/src/components/teacher/CreateCourse.jsx:227-229 | typing in the description field sets the description and nothing else |
| `CreateCourse.CourseForm.EditCategory` | frontend/src/components/teacher/CreateCourse.jsx:251-253 | choosing a category sets it and nothing else |
| `CreateCourse.CourseForm.EditLanguage` | frontend/src/components/teacher/CreateCourse.jsx:280-282 | choosing a language sets it and nothing else |
| `CreateCourse.CourseForm.EditTagInput` | frontend/src/components/teacher/CreateCourse.jsx:310 | typing in the tag box sets its text and nothing else |
| `CreateCourse.CourseForm.EditPassword` | frontend/src/components/teacher/CreateCourse.jsx:572-577 | typing in the password field sets the password and nothing else |
| `CreateCourse.CourseForm.HandleFileChange` | frontend/src/components/teacher/CreateCourse.jsx:62-75 | only an accepted file replaces the stored PDF; no file or a refused file leaves it as it was; nothing else changes |
| `CreateCourse.CourseForm.AddTag` | frontend/src/components/teacher/CreateCourse.jsx:78-86 | tags and tag box become what `AddTagTo` gives, the tag list stays well-formed, nothing else changes |
| `CreateCourse.CourseForm.RemoveTag` | frontend/src/components/teacher/CreateCourse.jsx:87-92 | the tag list becomes the filtered list and stays well-formed; nothing else changes |
| `CreateCourse.CourseForm.HandleNext` | frontend/src/components/teacher/CreateCourse.jsx:95-115 | the step rises by exactly one when the current step's guard passes and stays otherwise; step 1 needs title, description and category, step 2 a PDF, step 3 blocks only a private course without password; from 1..3 the step lands in 1..4 |
| `CreateCourse.CourseForm.HandlePrev` | frontend/src/components/teacher/CreateCourse.jsx:116 | the step goes down by one and stays in 1..4 when it was 2..4; nothing else changes |
| `CreateCourse.CourseForm.TogglePrivate` | frontend/src/components/teacher/CreateCourse.jsx:522-527 | the checkbox sets the privacy flag and always empties the password, changing no other field, so the submission holds a password field exactly when the box is checked |
| `CreateCourse.CourseForm.Submission` | frontend/src/components/teacher/CreateCourse.jsx:122-132 | the submitted fields are the eight fixed ones plus the password exactly when the course is private, each with the value the form holds |
| `AuthMiddleware.ExtractToken` | backend/middleware/authMiddleware.js:6 | no header gives no token; otherwise the first "Bearer " anywhere in the header is removed (re-inserting it gives the header back), and a header without it is the token unchanged |
| `AuthMiddleware.BearerHeaderYieldsToken` | backend/middleware/authMiddleware.js:6 | the header "Bearer t" yields the token t |
| `AuthMiddleware.RemovalIsNotAnchored` | backend/middleware/authMiddleware.js:6 | the removal is not a prefix strip: "xBearer y" yields "xy" |
| `AuthMiddleware.OnlyFirstBearerRemoved` | backend/middleware/authMiddleware.js:6 | only the first occurrence goes: "Bearer Bearer y" yields "Bearer y" |
| `AuthMiddleware.Authenticate` | backend/middleware/authMiddleware.js:4-37 | proceeds exactly when a non-empty token verifies and its user is found, with that user; every refusal is 401 with `success: false`, with the no-token message when the token is missing or empty and "Invalid token." otherwise |
| `AuthMiddleware.EmptyBearerIsNoToken` | backend/middleware/authMiddleware.js:6-13 | the header "Bearer " alone is refused as "Access denied. No token provided." |
| `AuthMiddleware.NoTokenConsultsNoOracle` | backend/middleware/authMiddleware.js:8-18 | without a token the outcome does not depend on the verifier or the lookup, so verification is never attempted |
| `AuthMiddleware.FailuresLookAlike` | backend/middleware/authMiddleware.js:21-36 | a token that fails verification and a verified token naming no user get identical responses |
| `AuthMiddleware.Handle` | backend/middleware/authMiddleware.js:4-37 | on success the request gets `userId` and `user`, `next()` runs once and the response is untouched; otherwise the response gets the refusal's status and body, the request is untouched and `next()` is not called |
| `UserAchievement.MissingPaths` | backend/models/userAchievement.js:4-13 | lists `user` and/or `achievement` exactly when they have no value, and is empty exactly when both are given |
| `UserAchievement.FindKey` | backend/models/userAchievement.js:27 | finds a document holding the pair, and finds none exactly when no document holds it |
| `UserAchievement.InsertOutcome` | backend/models/userAchievement.js:3-27 | missing required paths are refused first; then a pair already stored is a duplicate-key error; otherwise the new document carries the given ids, `unlockedAt` defaulting to the creation time, `progress` defaulting to 0, and a pair not yet stored |
| `UserAchievement.AfterInsert` | backend/models/userAchievement.js:3-27 | a rejected insert leaves the collection unchanged; a successful one appends exactly one document and keeps every existing one; pair uniqueness is preserved |
| `UserAchievement.InsertsKeepPairsUnique` | backend/models/userAchievement.js:26-27 | any series of inserts keeps the (user, achievement) pairs unique |
| `UserAchievement.AtMostOneUnlockPerPair` | backend/models/userAchievement.js:26-27 | in a collection with unique pairs each pair is held by at most one document |
| `UserAchievement.RepeatedUnlockStoredOnce` | backend/models/userAchievement.js:26-27 | saving the same pair one or more times leaves exactly one document for it |
| `UserAchievement.UnlockCollection.Insert` | backend/models/userAchievement.js:3-27 | returns `InsertOutcome` for the draft and the stored documents, and the collection becomes `AfterInsert`, so it keeps unique pairs |

## Left out

- Rendering, animation, theming and the sidebar items of the wizard are presentation only.
- The landing page components and the route table are presentation only, and so is the teacher dashboard's tab dispatch.
- The dashboard's role check and course fetch are browser-storage and network glue.
- The submission's transport is not modelled: `FormData`, `fetch`, the token read from local storage, toasts, `setTimeout`, navigation and the course-code display after creation. `Submission` models only which fields are sent and with what values, as a map, so the append order is not kept.
- The tags are sent as a list value; the `JSON.stringify` encoding is not modelled.
- The `loading` flag is set around the network call, which is left out; it appears only as a parameter of the Previous-button rule.
- The estimated-time input handler (`parseInt(...) || ""`, JavaScript number parsing) is not modelled: `CourseForm` has no method for it, so its `estimatedTime` keeps the initial 60. The input's `min`/`max` attributes are HTML-only.
- The megabyte display of the chosen file uses floating point.
- Toast messages are not modelled as output; the upload verdicts name which message would be shown.
- JavaScript strings are UTF-16; here a string is a sequence of code points.
- Inside `jwt.verify` (signature, expiry, the fallback secret) and `User.findById` are opaque; they are oracle parameters.
- Express's case-insensitive header lookup is not modelled; the request holds the `Authorization` value directly.
- A `next()` that itself throws would be caught and answered with 401; `next()` is modelled only as a call count.
- The `timestamps: true` bookkeeping (`createdAt`, `updatedAt`) is not modelled.
- Object-id casting errors, index building and concurrent duplicate-key races are not modelled; inserts are sequential.
- InsertOutcome: an explicit `null` for `unlockedAt` or `progress` is stored as `null`, because a schema default applies only to an undefined path; the draft models only a path that is left out or given a value, so that case is not captured.
- `progress` is a JavaScript number; it is modelled as an integer.
- Enrollment, course passwords, course codes, progress tracking and achievement rules are in files that are not part of this model.
