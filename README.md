# ProjectVault in Dafny

ProjectVault is a final-year-project portal. Students browse, like and comment on
projects and ask to borrow project reports. Administrators manage projects, students
and borrow requests. This Dafny project models the parts of the portal that make
decisions. Each source file below has its own module:

- `UploadRoute` (`src/app/api/project/upload/route.ts`): the report upload handler.
  It checks that a file is present and that it is a PDF or DOCX file. It sanitises the
  project title: lower-case, every UTF-16 code unit outside `[a-z0-9]` becomes `-`, cut
  at 50 code units.
  It then builds `title-studentId-timestamp.ext` and the public URL under
  `/uploads/projects/`. GET, PUT and DELETE answer 405.
- `AuthOptions` (`lib/auth.ts`): the admin and student credential providers. Each one
  looks up a record and compares the password in plain text. The module also has the
  `jwt` and `session` callbacks, which carry the user's id and role into the session,
  and the 30-day session lifetime.
- `AdminPassword` (`prisma/requests.ts`): `getAdminPassword`.
- `AdminLoginRoute` (`src/app/api/admin/login/route.ts`): the admin login API. An admin
  is found by `name`, and the answer is the record without its password.
- `RequestsRoute` (`src/app/api/requests/route.ts`): `GET` lists every borrow request.
  `POST` checks the status and then creates the record.
- `AdminLoginForm` (`src/app/components/AdminLogin.tsx`): the client-side login form.
  The `LoginForm` class holds the `error` and `isLoading` state and records every setter
  call. `HandleSubmit` is proved against the pure decision `Check` and the call
  sequence `SubmitTrace`.
- `ProjectCard` (`src/app/components/student/ProjectCard.tsx`): the `Card` class holds
  the like and comment state. Its `Valid()` invariant says two things: the like count
  is the other students' likes plus this student's own like, and the comment count is
  the length of the comment list.
- `StudentDashboard` (`src/app/student-dashboard/page.tsx`): the role guard, the
  student's own requests newest first, the projects newest first with their
  `hasRequested` flag, and the list of distinct categories.
- `Records` (`src/app/types.ts`) holds the record types. `Common` holds `Option`, the
  JSON `Response`, JavaScript truthiness of an optional string and `Utf16Length`, the
  UTF-16 length that JavaScript's `.length`, `substring` and regular expressions without
  the `u` flag work with.

In the upload route, the admin login API and the requests route, each step that can
throw and is caught is a parameter of the model: a body that is not JSON, a failing
database query, a failing file write. The credential providers, `getAdminPassword` and
the student dashboard do not catch; the model takes their queries to succeed (see
"Left out"). Anything that comes from outside is a parameter too: the server's answer to a like or
comment request, `Date.now()`, the file's extension. Database tables are maps (for
unique lookups) or sequences (for `findFirst` and `findMany`, in the order the query
visits them).

Three behaviours of the code are easy to miss:

- `POST /api/requests` has no duplicate check. Two requests by the same student for
  the same project, differing only in their ids, are both stored, leaving two pending
  requests for one pair. The route accepts any of the three statuses at creation and
  takes `student_id` from the body, not from the session.
  `RequestsRoute.NoDuplicateCheck` states this.
- The admin login API looks admins up by their `name` field, not by an id.
- The client-side admin form accepts only one hard-coded pair.

## Model

| member | source | states |
|---|---|---|
| `UploadRoute.Post` | src/app/api/project/upload/route.ts:6-68 | A missing file gives 400 "No file was uploaded". This check comes first. A file that is neither PDF nor DOCX then gives 400 "Only PDF and DOCX files are allowed". Neither rejection touches the file system. Success holds iff the form holds an allowed file and the directory and write steps succeed. On success the body is "/uploads/projects/" + the file name, and the operations are: create the directory only if it is missing, then write that file. A form that cannot be read gives 500 with no effects. |
| `UploadRoute.Lower` | src/app/api/project/upload/route.ts:43 | Keeps the length. Each character is lower-cased on its own (ASCII letters only). |
| `Common.Truthy` | src/app/api/project/upload/route.ts:42 | A string field is truthy iff it is present and non-empty: `undefined`, `null` and `""` are falsy. |
| `Common.OrElse` | src/app/api/project/upload/route.ts:49 | `x \|\| fallback`: the value when it is truthy, the fallback otherwise. |
| `Common.Utf16Length` | src/app/components/AdminLogin.tsx:27 | `.length` counts UTF-16 code units: between the number of characters and twice that, and exactly the number of characters when none lies outside the Basic Multilingual Plane. |
| `Common.Utf16LengthCons` | src/app/components/AdminLogin.tsx:27 | Prepending a character adds its one or two code units to the length. |
| `UploadRoute.ReplaceChar` | src/app/api/project/upload/route.ts:44 | A character matched by `[a-z0-9]` is kept; any other becomes one `-` per UTF-16 code unit, so two for a character outside the Basic Multilingual Plane. |
| `UploadRoute.ReplaceUnsafe` | src/app/api/project/upload/route.ts:44 | The result has one character per UTF-16 code unit of the input, and holds only `a-z0-9-`. |
| `UploadRoute.ReplaceUnsafeOnBmp` | src/app/api/project/upload/route.ts:44 | Inside the Basic Multilingual Plane the replacement keeps the length, keeps each `[a-z0-9]` character and turns every other character into one `-`. |
| `UploadRoute.Prefix` | src/app/api/project/upload/route.ts:45 | `substring(0, n)`: a prefix of the input of length min(n, length). |
| `UploadRoute.SafeTitle` | src/app/api/project/upload/route.ts:42-45 | The sanitised title has between 1 and 50 characters, and each one is in `a-z`, `0-9` or `-`. |
| `UploadRoute.SafeTitleIsPerCharacter` | src/app/api/project/upload/route.ts:42-45 | For a non-empty title, the length is exactly min(50, UTF-16 length of the title). For a title inside the Basic Multilingual Plane, character i is the lower-cased title character i if that is in `[a-z0-9]`, otherwise `-`. Dashes are never collapsed. |
| `UploadRoute.EmojiTitleIsTwoDashes` | src/app/api/project/upload/route.ts:42-45 | The one-character title "😀" (U+1F600) sanitises to "--". |
| `UploadRoute.MissingTitleIsProject` | src/app/api/project/upload/route.ts:42 | A missing or empty title sanitises to "project". |
| `UploadRoute.SafeTitleIdempotent` | src/app/api/project/upload/route.ts:42-45 | Sanitising a sanitised title gives it back unchanged. |
| `UploadRoute.SanitisedTitleIsItself` | src/app/api/project/upload/route.ts:42-45 | A non-empty string of at most 50 characters from `a-z0-9-` is its own sanitised title. |
| `UploadRoute.DecimalString` | src/app/api/project/upload/route.ts:48-49 | The timestamp's rendering is a non-empty string of decimal digits with no leading zero. |
| `UploadRoute.DecimalRoundTrip` | src/app/api/project/upload/route.ts:48-49 | Reading the rendered timestamp back gives the timestamp, so the rendering loses nothing. |
| `UploadRoute.FileName` | src/app/api/project/upload/route.ts:47-49 | The file name starts with the sanitised title followed by `-` and ends with the extension. |
| `UploadRoute.FileNameRecovers` | src/app/api/project/upload/route.ts:47-49 | Every part can be read back from the file name: the sanitised title comes first, then `-`, then the student id (or "unknown" when it is missing or empty), then `-`, then at least one decimal digit up to the extension, and those digits denote the timestamp again. |
| `UploadRoute.PublicUrl` | src/app/api/project/upload/route.ts:58 | The URL is "/uploads/projects/" followed by the file name. |
| `UploadRoute.AllowedType` | src/app/api/project/upload/route.ts:23-28 | A file is allowed iff its MIME type is "application/pdf" or the DOCX type. |
| `UploadRoute.OnlyAllowedFilesWritten` | src/app/api/project/upload/route.ts:22-58 | A file is written only when the form holds a PDF or DOCX file, and the name written is the one the successful response's URL points to. |
| `UploadRoute.NotAllowed` | src/app/api/project/upload/route.ts:71-90 | Always 405 "Method not allowed". |
| `UploadRoute.Route` | src/app/api/project/upload/route.ts:70-90 | Every verb other than POST gets 405 "Method not allowed" and touches nothing. POST is handled by `Post`. |
| `AuthOptions.Role.Name` | lib/auth.ts:37-41 | The role string is "admin" or "student": "admin" exactly for the admin role and "student" exactly for the student role. |
| `AuthOptions.SessionMaxAge` | lib/auth.ts:96-99 | The session lifetime is 2,592,000 seconds (30 days). |
| `AuthOptions.AuthorizeAdmin` | lib/auth.ts:16-42 | Non-null iff the id and password are present and non-empty, an admin with that `admin_id` exists, and its `passwordHash` equals the password. The result is then that admin's id and name with role admin. |
| `AuthOptions.AuthorizeStudent` | lib/auth.ts:52-78 | The same as `AuthorizeAdmin` for students looked up by `student_id`, with role student. |
| `AuthOptions.Authorize` | lib/auth.ts:5-78 | Each provider uses its own table and its own role. |
| `AuthOptions.AuthorizedIdentity` | lib/auth.ts:37-77 | When tables are keyed by their records' ids, a successful sign-in returns the submitted id and the provider's role. |
| `AuthOptions.MissingCredentialsRefused` | lib/auth.ts:17-56 | A missing or empty id or password gives null, whatever the tables hold. |
| `AuthOptions.AdminFailuresIndistinguishable` | lib/auth.ts:26-35 | An unknown admin id and a wrong password give the same null. |
| `AuthOptions.StudentFailuresIndistinguishable` | lib/auth.ts:62-71 | An unknown student id and a wrong password give the same null. |
| `AuthOptions.Token.Jwt` | lib/auth.ts:82-88 | With a user present, the token's `userId` and `role` become the user's id and role. Without one, the token is unchanged. |
| `AuthOptions.SessionCallback` | lib/auth.ts:89-93 | The session user's id and role become the token's. Nothing else changes. |
| `AuthOptions.SignIn` | lib/auth.ts:16-93 | authorize, then `jwt` with the user, then `jwt` without one, then `session`. The session ends with the authorised user's id and role: for the admin provider that is the stored `admin_id` and role admin, for the student provider the stored `student_id` and role student. A refused sign-in leaves no identity. |
| `AdminPassword.GetAdminPassword` | prisma/requests.ts:6-18 | True iff an admin with that `id` exists and its `passwordHash` equals the password. |
| `AdminPassword.UnknownUsernameRefused` | prisma/requests.ts:12-14 | An unknown username gives false for every password. |
| `AdminPassword.OnlyStoredPasswordAccepted` | prisma/requests.ts:16 | For a known username, exactly the stored password is accepted. |
| `AdminPassword.DependsOnLookedUpRecordOnly` | prisma/requests.ts:7-11 | Only the looked-up record affects the answer. Changing any other admin changes nothing. |
| `AdminLoginRoute.StripPassword` | src/app/api/admin/login/route.ts:39-40 | The response keeps the admin's id and name. |
| `AdminLoginRoute.StripPasswordForgetsHash` | src/app/api/admin/login/route.ts:39 | The stripped record does not depend on the password hash. |
| `AdminLoginRoute.FindFirstByName` | src/app/api/admin/login/route.ts:16-18 | Returns the first index whose `name` equals the email, or None iff no admin has that name. |
| `AdminLoginRoute.Post` | src/app/api/admin/login/route.ts:4-49 | A missing or empty email or password gives 400 "Email and password are required" before any lookup. Success holds iff the first admin named by the email has that password. The success body is that first admin (the one `FindFirstByName` finds) without its password. Every 401 is "Invalid credentials". A body that is not JSON or a failing query gives 500 "Internal server error". |
| `AdminLoginRoute.FailuresIndistinguishable` | src/app/api/admin/login/route.ts:20-36 | An unknown email and a wrong password give the identical 401 response. |
| `AdminLoginRoute.UniqueNameSuccess` | src/app/api/admin/login/route.ts:15-40 | When names are unique, the correct pair returns that admin's id and name. |
| `RequestsRoute.ParseStatus` | src/app/api/requests/route.ts:23-24 | A status is accepted iff it is "pending", "approved" or "rejected", and the parsed status has that name. |
| `RequestsRoute.ParseStatusName` | src/app/types.ts:40 | Every `RequestStatus` is accepted under its own name. |
| `RequestsRoute.Post` | src/app/api/requests/route.ts:17-47 | A status outside the three gives 400 "Invalid request status" and the table is unchanged. A body that is not JSON or a failing create gives 500 "Failed to create request" and the table is unchanged. Otherwise the created record has exactly the body's id, student_id, project_id and status, it is the response, and it is appended to the table. |
| `RequestsRoute.PostKeepsStatusesValid` | src/app/api/requests/route.ts:23-38 | A table whose statuses are all valid stays that way after any POST. |
| `RequestsRoute.Get` | src/app/api/requests/route.ts:5-15 | Returns every request, in table order and unfiltered, or 500 "Failed to fetch requests". |
| `RequestsRoute.CreatedIsListed` | src/app/api/requests/route.ts:31-40 | A created request is listed by the next GET. |
| `RequestsRoute.NoDuplicateCheck` | src/app/api/requests/route.ts:31-38 | Two "pending" requests by the same student for the same project, differing only in id, are both accepted and both appended: the table then holds two pending requests for that pair. |
| `AdminLoginForm.Check` | src/app/components/AdminLogin.tsx:21-42 | An email without `@` or without `.` is rejected first, whatever the password. Next, a password shorter than 8 UTF-16 code units is rejected. Only ("admin@projectvault.edu", "admin1234") is accepted. |
| `AdminLoginForm.RefusedExactly` | src/app/components/AdminLogin.tsx:21-42 | A pair is refused iff the email looks valid, the password has at least 8 UTF-16 code units and the pair is not the hard-coded one. |
| `AdminLoginForm.FourEmojiPasswordIsLongEnough` | src/app/components/AdminLogin.tsx:27 | A password of four emoji (four characters, eight code units) passes the length check and is refused, not reported as short. |
| `AdminLoginForm.SubmitTrace` | src/app/components/AdminLogin.tsx:17-45 | Every path sets loading on, then clears the error, then makes one decisive call, then sets loading off. |
| `AdminLoginForm.ErrorAfter` | src/app/components/AdminLogin.tsx:21-45 | The final error is empty iff the pair was accepted. |
| `AdminLoginForm.OnlyDemoPairNavigates` | src/app/components/AdminLogin.tsx:36-42 | The handler navigates iff the pair is the hard-coded one, and only to /admin/dashboard. |
| `AdminLoginForm.EmailCheckedBeforePassword` | src/app/components/AdminLogin.tsx:21-31 | A malformed email reports "Please enter a valid admin email" and never the password-length error. |
| `AdminLoginForm.LoginForm.constructor` | src/app/components/AdminLogin.tsx:8-12 | The initial state: empty fields, no error, not loading. |
| `AdminLoginForm.LoginForm.EditEmail` | src/app/components/AdminLogin.tsx:136 | Sets the email only. |
| `AdminLoginForm.LoginForm.EditPassword` | src/app/components/AdminLogin.tsx:156 | Sets the password only. |
| `AdminLoginForm.LoginForm.SetIsLoading` | src/app/components/AdminLogin.tsx:12 | Sets `isLoading` and records the call. |
| `AdminLoginForm.LoginForm.SetErrorMessage` | src/app/components/AdminLogin.tsx:11 | Sets `error` and records the call. |
| `AdminLoginForm.LoginForm.HandleSubmit` | src/app/components/AdminLogin.tsx:15-46 | The calls made are exactly `SubmitTrace(Check(email, password))`. Afterwards `isLoading` is false on every path and the error is `ErrorAfter` of the verdict. |
| `ProjectCard.LikedBy` | src/app/components/student/ProjectCard.tsx:9-11 | True iff some like has this student's id. |
| `ProjectCard.Card.constructor` | src/app/components/student/ProjectCard.tsx:9-16 | `isLiked` holds iff some like is this student's. `likeCount` is the number of likes and `commentCount` the number of comments. The input is empty. `Valid()` holds. |
| `ProjectCard.Card.EditComment` | src/app/components/student/ProjectCard.tsx:171 | Sets the typed comment only. |
| `ProjectCard.Card.HandleLike` | src/app/components/student/ProjectCard.tsx:56-76 | The request method is DELETE iff the project is liked, otherwise POST. Success flips `isLiked` and moves `likeCount` by -1 or +1. Failure changes nothing. `likeCount - (isLiked ? 1 : 0)` is invariant, `Valid()` is kept and `likeCount` stays non-negative. |
| `ProjectCard.Card.HandleCommentSubmit` | src/app/components/student/ProjectCard.tsx:18-54 | A blank input sends nothing and changes nothing. A successful post with a body appends exactly one comment at the end, clears the input and increments `commentCount`. A failed post or an empty body changes nothing. `commentCount == |comments|` is kept. |
| `ProjectCard.LikeTwice` | src/app/components/student/ProjectCard.tsx:65-67 | Two successful toggles restore `isLiked` and `likeCount`. |
| `StudentDashboard.Filter` | src/app/student-dashboard/page.tsx:48-51 | A `where` filter: exactly the rows that satisfy the condition, each as many times as in the table. |
| `StudentDashboard.SortDesc` | src/app/student-dashboard/page.tsx:64-66 | `orderBy: desc`: sorted by the key, largest first, and a permutation of the rows. |
| `StudentDashboard.Categories` | src/app/student-dashboard/page.tsx:69 | The projects' categories, one per project, in order. |
| `StudentDashboard.Distinct` | src/app/student-dashboard/page.tsx:69 | No duplicates, and the elements are exactly those of the input. |
| `StudentDashboard.DistinctKeepsFirstOccurrenceOrder` | src/app/student-dashboard/page.tsx:69 | The distinct categories are in order of first occurrence. |
| `StudentDashboard.CategoriesAreProjectCategories` | src/app/student-dashboard/page.tsx:69 | After sorting, the categories are exactly those of the projects. |
| `StudentDashboard.ByStudent` | src/app/student-dashboard/page.tsx:35 | The `student_id` condition: an unset id puts no condition on the row, a set id keeps exactly that student's rows. |
| `StudentDashboard.HasRequested` | src/app/student-dashboard/page.tsx:33-39 | `hasRequested` is true iff the student has a borrow request of any status on the project. |
| `StudentDashboard.Entries` | src/app/student-dashboard/page.tsx:167-173 | One card per project, in order, each with its `hasRequested` flag. |
| `StudentDashboard.StudentDashboard` | src/app/student-dashboard/page.tsx:9-69 | No session, or a role string other than "student", redirects to /student-login and reads nothing. Otherwise the listed requests are exactly the student's own, each as often as in the table, newest first. All projects are listed, newest first, each flagged with `hasRequested`. The categories are duplicate-free, are exactly the projects' categories and come in the order of first occurrence among the listed projects. |
| `StudentDashboard.OnlyStudentRolePasses` | src/app/student-dashboard/page.tsx:13 | A session whose role string was written from a `Role` passes the guard iff the role is the student role. |

## Left out

- File-system work in the upload route: `fs.existsSync`, `mkdirSync`, `writeFileSync`, `path.join` and `file.arrayBuffer`. They appear only as the recorded operations and the success flags passed in. `path.extname` and `Date.now()` are parameters.
- Strings are sequences of Unicode scalar values. A JavaScript string can also hold a lone surrogate code unit, which no model string can, so such titles and passwords are outside the model. `Common.Utf16Length` counts the code units of every string the model can hold.
- AuthOptions.AuthorizeAdmin: the `findUnique` query is taken to succeed. When it throws, `authorize` rejects and next-auth reports a sign-in error; the model has no input for that case.
- AuthOptions.AuthorizeStudent: the `findUnique` query is taken to succeed, as for admins; a throwing query becomes a next-auth sign-in error.
- AdminPassword.GetAdminPassword: the `findUnique` query is taken to succeed. When it throws, the returned promise rejects instead of giving a boolean.
- StudentDashboard.StudentDashboard: the `findMany` queries are taken to succeed. When one throws, the page fails to render and Next.js shows its error page.
- UploadRoute.Lower: lower-cases the ASCII letters only. JavaScript's `toLowerCase` also changes some non-ASCII characters, and a few of them become ASCII letters or several characters. For such titles the model's sanitised title can differ, but it keeps the same bounds and alphabet.
- The upload route passes the student id and the extension into the file name unsanitised, so a `/` or `..` in either reaches the path. The model states the file name's exact shape (`FileNameRecovers`) but no path containment.
- next-auth internals: token signing, cookies, expiry checking, the default token claims other than `userId` and `role`, and the `pages`, `secret` and `debug` options.
- `console.log` and `console.error` calls.
- AdminLogin.tsx: the 1.5-second `setTimeout`, the show-password toggle and the rendering. The "Login failed" fallback of the `catch` cannot be reached, because only an `Error` is ever thrown.
- ProjectCard.tsx: `handleBorrowRequest` and `handleDownloadReport` consist only of browser I/O (`confirm`, `alert`, `window.open`). So do the alerts of the like and comment handlers. The show-comments toggle is presentational.
- The server endpoints for borrow, like and comment, `src/app/api/requests/[id]/route.ts`, and the other CRUD routes. Their rules (duplicate likes, status transitions, deletion) are not part of this model.
- Request creation: the `created_at` and `updated_at` timestamps that the store adds are not modelled. The JSON body's fields are taken to be strings, except that `status` may be missing.
- StudentDashboard.StudentDashboard: the database orders ties in `created_at` and `request_date` in an unspecified way. The contract states only sortedness and permutation, and the function picks one order. The included `student` and the like and comment rows of each project are not modelled. An unset session id puts no condition on the request queries, which is how an `undefined` filter value behaves.
- Concurrency: every handler is one sequential step. The check-then-act races between concurrent requests and React's batched state updates are not modelled.
- Presentational components, the admin dashboard's sample data, the filters component and the logout routes.
