# Course portal: authentication, envelopes, student routes and client helpers

A Dafny model of the core of a small course-management web application:
an Express server backed by MySQL, and a React client. There are two
generations of the server: the current one under `Final_Project/` and the
earlier one under `Project_Backend/`. Both are modelled side by side.

Server side:

- **Reply envelope**, `createResponse(error, data)`. The current server
  gives `{status, data, error}`, with status "failure" exactly when
  `error` is truthy. In the earlier version the error branch's status is
  overwritten, so every envelope says "success" (`LegacyResponse`).
- **Gates** (`UserAuth`). `authenticationUser` lets the self-registration
  path through. Otherwise it reads the `token` header, verifies it and
  attaches `{email, role}` to the request. `authorizeUserRole` admits only
  the exact role "admin". Both reject with a bare string.
- **Student routes** (`Students`, `LegacyStudents`).
  - Registration to a course has a presence check (current version only),
    then a user lookup, then a role update or user creation with the
    hashed default password, then an enrolment insert. Every database
    failure is a reachable branch, and there is no rollback.
  - Password change compares the two submitted passwords, then updates
    the caller's hashed password.
  - The tables are a `Store` class whose fields the route handlers update.
    Each handler is a method proved equal to a pure function of the old
    tables, and the properties are lemmas about that function.
- **Login** (`Public`, `LegacyPublic`). The server hashes the password,
  looks up (email, digest) and signs `{email, role}`. The current version
  signs with a one-hour expiry, the earlier one with none. The earlier
  version answers every failed lookup with "Error in token".

Client side:

- **`MyCourses`**
  - `groupCoursesWithVideos` folds the joined rows of
    `/student/my-courses-with-videos` into one entry per course, in order
    of first appearance, with each course's distinct videos in row order.
    It is proved against a reference definition (`CourseIds`, `Entry`).
  - `toggleCourse` flips one course in the set of expanded courses.
- **`VideoDetail`**: `getYouTubeEmbedUrl` rewrites watch and short
  YouTube links to embed links.
- **`CourseCard`**: `getCourseIcon` picks an icon label from keywords in
  the lowercased course name.
- **`Header`**: `getUsername` takes the part of the email before the
  first `@`, or "student". It throws when the email is neither a string
  nor null/undefined.
- **`AuthContext`**
  - `decodeToken` trims the token, checks the three-part shape, decodes
    it and normalises the role.
  - `login` stores the token, decodes it, removes it again on failure and
    signs the user in. Every failure path yields a truthy error.
  - The mount effect restores a stored session.
  - `logout` clears the storage keys and the user.

The supporting modules are:

- `JsValue`: JavaScript values, truthiness, property access and `||`.
- `JsString`: `indexOf`, `includes`, `split`, `trim` and `toLowerCase`
  with their laws.
- `Tables`: the `users` and `students` tables and the database's answers.
- `Jwt`: the claim set and the credential lookup.

External pieces are function parameters:

- SHA-256 (FIPS 180-4) is `sha256`.
- The JSON Web Token (RFC 7519) signer, verifier and client-side decoder
  are `sign`, `verify` and `jwtDecode`. `None` stands for "throws".
- The database's success or failure for each statement is a `Read` or
  `Write` value.
- The HTTP call of the client's `login` is the `ApiReply` it produced.

Where the behaviour described for the system differs from the code, the
model follows the code:

- The gates reply with bare strings, not with a failure envelope.
- Nothing in the code enforces a token expiry beyond what the verifier
  does. The earlier login signs tokens that never expire.
- `createResponse(true, message)` puts `true` in `error` and drops the
  message, since `data` is `null` on failure (`Students.Failed`,
  `Response.FailureDropsData`).
- `getCourseIcon` also matches "artificial" for the AI icon.
- The watch-link id is the text after the first `v=`, up to the first
  `&`, the next `v=` or the end of the link. This is what `split` gives.

## Model

| member | source | states |
|---|---|---|
| Response.CreateResponse | Final_Project/Project_Backend/Backend-Server/Utils/Response.js:1-19 | exactly the keys status, data and error; a truthy error gives "failure" with that error and null data; otherwise "success" with the data and a null error; status is "success" iff the error is falsy |
| Response.FailureDropsData | Final_Project/Project_Backend/Backend-Server/Utils/Response.js:5-10 | with a truthy error the envelope does not depend on the data argument |
| LegacyResponse.CreateResponse | Project_Backend/Backend-Server/Utils/Response.js:1-14 | status is always "success" and data is the data argument; an error key is present iff the error is truthy, and then it holds the error |
| LegacyResponse.StatusIgnoresError | Project_Backend/Backend-Server/Utils/Response.js:5-10 | the status is the same whatever the error argument |
| UserAuth.Authenticate | Final_Project/Project_Backend/Backend-Server/Utils/userAuth.js:4-33 | the registration path passes with nothing attached; a missing or empty token gets "Token is missing"; a token the verifier rejects gets "Invalid Token"; a verified token passes and attaches the payload's email and role; it passes iff one of those cases holds, and it never throws |
| UserAuth.AuthenticationUser | Final_Project/Project_Backend/Backend-Server/Utils/userAuth.js:4-33 | returns the decision of `Authenticate`; sets `req.user` to the attached identity, and leaves it alone when nothing is attached |
| UserAuth.AuthorizeUserRole | Final_Project/Project_Backend/Backend-Server/Utils/userAuth.js:35-45 | passes iff the role is exactly the string "admin"; throws iff no user is attached; otherwise sends the permission message |
| UserAuth.RoleCheckCaseSensitive | Final_Project/Project_Backend/Backend-Server/Utils/userAuth.js:37 | the role "Admin" is refused |
| Tables.ErrorArg | Final_Project/Project_Backend/Backend-Server/Routes/Students.js:84-86 | the callback's error argument is truthy iff the statement failed |
| Students.Failed | Final_Project/Project_Backend/Backend-Server/Routes/Students.js:11-12 | `createResponse(true, message)` is a failure envelope whose error is `true` and whose data is null |
| Students.UserAfter | Final_Project/Project_Backend/Backend-Server/Routes/Students.js:42-65 | after the user step the role is "student"; an existing user keeps its password; a new user gets the digest of the default password |
| Students.Register | Final_Project/Project_Backend/Backend-Server/Routes/Students.js:7-67 | a missing field, a failed lookup or a failed user write leaves both tables unchanged, with the matching failure reply; a successful user write upserts the user; the reply is "success" iff every step succeeded, and then exactly one enrolment row is appended and the reply is the success envelope of "Student registered successfully" with a null error; otherwise no row is appended; no user is removed and no existing password changes |
| Students.RegisterAgain | Final_Project/Project_Backend/Backend-Server/Routes/Students.js:42-50 | registering an already-registered email adds no user and keeps its password; a second success adds a second enrolment row |
| Students.RegisterToCourse | Final_Project/Project_Backend/Backend-Server/Routes/Students.js:7-67 | the tables and reply after the handler are exactly those `Register` gives for the old tables |
| Students.InsertStudent | Final_Project/Project_Backend/Backend-Server/Routes/Students.js:25-39 | on a failed insert the enrolments are unchanged with the failure reply; otherwise the row is appended with the success reply |
| Students.PasswordChange | Final_Project/Project_Backend/Backend-Server/Routes/Students.js:70-87 | passwords that are not strictly equal (`!==`, under which any two objects or arrays differ) get the bare mismatch string and change nothing; otherwise the reply is the envelope of the update's outcome; only the caller's row can change, and then only its password, to the digest of the new password |
| Students.ObjectPasswordsMismatch | Final_Project/Project_Backend/Backend-Server/Routes/Students.js:74-78 | an object or array password never matches, even itself, and nothing changes |
| Students.ChangePassword | Final_Project/Project_Backend/Backend-Server/Routes/Students.js:70-87 | the users table and reply after the handler are those `PasswordChange` gives |
| LegacyStudents.UsersAfter | Project_Backend/Backend-Server/Routes/Students.js:22-35 | a new email that is inserted gets the default password digest and role "Student"; an existing email or a failed insert leaves the users unchanged |
| LegacyStudents.Register | Project_Backend/Backend-Server/Routes/Students.js:7-38 | a failed lookup crashes with nothing changed; otherwise the reply is the earlier envelope of the enrolment insert; existing users are untouched; the row is appended iff the insert succeeded; every reply says "success" |
| LegacyStudents.NoPresenceCheck | Project_Backend/Backend-Server/Routes/Students.js:7-20 | a body with every field undefined is still enrolled |
| LegacyStudents.RegisterToCourse | Project_Backend/Backend-Server/Routes/Students.js:7-38 | the tables and reply after the handler are those `LegacyStudents.Register` gives |
| LegacyStudents.PasswordChange | Project_Backend/Backend-Server/Routes/Students.js:40-57 | passwords that are not strictly equal get the bare mismatch string and change nothing; otherwise the reply is the earlier envelope of the update's outcome; only the caller's row can change, and then only its password, to the digest of the new password |
| LegacyStudents.ObjectPasswordsMismatch | Project_Backend/Backend-Server/Routes/Students.js:44-48 | an object or array password never matches, even itself, and nothing changes |
| LegacyStudents.ChangePassword | Project_Backend/Backend-Server/Routes/Students.js:40-57 | the users table and reply after the handler are those `LegacyStudents.PasswordChange` gives |
| Jwt.Claims | Final_Project/Project_Backend/Backend-Server/Routes/Public.js:29-32 | the claim set has exactly the keys email and role, holding the email and the row's role |
| Jwt.Lookup | Final_Project/Project_Backend/Backend-Server/Routes/Public.js:17-19 | at most one row, present iff the email is a user whose stored password equals the digest, and it is that user's row |
| Public.Login | Final_Project/Project_Backend/Backend-Server/Routes/Public.js:12-41 | a failed query gets "Database error" and no match gets "Invalid email or password"; the status is "success" iff the stored password equals the digest of the submitted one, and then data is `{email, token}` with the token signed over the row's claims with a one-hour expiry; a failure has null data and error `true` |
| Public.OnlyDigestCompared | Final_Project/Project_Backend/Backend-Server/Routes/Public.js:15-19 | two passwords with the same digest get the same reply |
| Public.LoginTokenPassesGate | Final_Project/Project_Backend/Backend-Server/Routes/Public.js:29-39 | the token of a successful login, checked by a verifier that accepts what the signer made, passes the authentication gate with the stored email and role attached |
| LegacyPublic.Login | Project_Backend/Backend-Server/Routes/Public.js:12-43 | the reply is "Error in token" iff the query failed or found no match; otherwise the earlier envelope of `{email, token}`, signed without expiry, for a user whose stored password equals the digest |
| LegacyPublic.SuccessEnvelope | Project_Backend/Backend-Server/Routes/Public.js:29-36 | a successful earlier login is a "success" envelope without an error key |
| MyCourses.VideosOf | Final_Project/StudentPortal/src/pages/MyCourses.jsx:38-51 | every collected video belongs to the course, has a truthy id, a title that is neither null nor undefined and a truthy link, and its description is null or truthy |
| MyCourses.VideosFromRows | Final_Project/StudentPortal/src/pages/MyCourses.jsx:38-51 | each video of a course is `VideoOf` the row it came from: a row of that course, admitted when reached, whose title, link and date are copied and whose falsy description becomes null; the source rows' indexes strictly increase with the videos |
| MyCourses.AddRow | Final_Project/StudentPortal/src/pages/MyCourses.jsx:19-53 | one `forEach` step keeps the map and the key order equal to the reference grouping of the rows seen so far |
| MyCourses.GroupCoursesWithVideos | Final_Project/StudentPortal/src/pages/MyCourses.jsx:16-56 | one entry per distinct course id, in order of first appearance; each entry is the first row's course fields with that course's videos |
| MyCourses.CourseIdsDistinct | Final_Project/StudentPortal/src/pages/MyCourses.jsx:17-34 | no course appears twice in the result |
| MyCourses.FirstIndexIsFirst | Final_Project/StudentPortal/src/pages/MyCourses.jsx:22-34 | an entry's fields come from the first row with that course id; no earlier row has it |
| MyCourses.RowIdListed | Final_Project/StudentPortal/src/pages/MyCourses.jsx:19-34 | every row's course appears in the result |
| MyCourses.FirstAppearanceOrder | Final_Project/StudentPortal/src/pages/MyCourses.jsx:55 | the entries are ordered by the index of their first row |
| MyCourses.VideosDistinct | Final_Project/StudentPortal/src/pages/MyCourses.jsx:41-42 | no video id appears twice within a course |
| MyCourses.VideosComplete | Final_Project/StudentPortal/src/pages/MyCourses.jsx:38-51 | every row of the course carrying a video with a truthy id contributes a video with that id |
| MyCourses.VideosInRowOrder | Final_Project/StudentPortal/src/pages/MyCourses.jsx:43-50 | the videos of a prefix of the rows are a prefix of the videos of all rows |
| MyCourses.FirstIndexStable | Final_Project/StudentPortal/src/pages/MyCourses.jsx:22-34 | later rows never change which row a course's fields come from |
| MyCourses.Toggle | Final_Project/StudentPortal/src/pages/MyCourses.jsx:79-87 | the toggled course is in the new set iff it was not in the old one; every other course keeps its membership |
| MyCourses.ToggleTwice | Final_Project/StudentPortal/src/pages/MyCourses.jsx:81-85 | toggling the same course twice restores the set |
| MyCourses.Page.constructor | Final_Project/StudentPortal/src/pages/MyCourses.jsx:12 | no course starts expanded |
| MyCourses.Page.ToggleCourse | Final_Project/StudentPortal/src/pages/MyCourses.jsx:79-87 | the expanded set becomes `Toggle` of the old set |
| VideoDetail.WatchId | Final_Project/StudentPortal/src/pages/VideoDetail.jsx:70 | the id is the text right after the first `v=`, holds no `&` and no `v=`, and ends at a `&`, a `v=` or the end of the link |
| VideoDetail.ShortId | Final_Project/StudentPortal/src/pages/VideoDetail.jsx:73 | the id is the text right after the first `youtu.be/`, holds no `?` and no `youtu.be/`, and ends at a `?`, another marker or the end |
| VideoDetail.EmbedUrl | Final_Project/StudentPortal/src/pages/VideoDetail.jsx:66-79 | the result is empty iff the link is missing or empty; otherwise it is the link itself or starts with the embed prefix |
| VideoDetail.RewrittenIsEmbed | Final_Project/StudentPortal/src/pages/VideoDetail.jsx:71 | a rewritten link holds the embed marker |
| VideoDetail.WatchFirst | Final_Project/StudentPortal/src/pages/VideoDetail.jsx:69-71 | a link holding the watch marker becomes the embed prefix plus the watch id, even when it also holds a short marker |
| VideoDetail.ShortLink | Final_Project/StudentPortal/src/pages/VideoDetail.jsx:72-74 | a short link without a watch marker becomes the embed prefix plus the short id |
| VideoDetail.WatchRewriteDiffers | Final_Project/StudentPortal/src/pages/VideoDetail.jsx:70-71 | a rewritten watch link holds no `v=`, so it differs from the input |
| VideoDetail.ShortRewriteDiffers | Final_Project/StudentPortal/src/pages/VideoDetail.jsx:73-74 | a rewritten short link holds no short marker, so it differs from the input |
| VideoDetail.UnchangedExactly | Final_Project/StudentPortal/src/pages/VideoDetail.jsx:66-79 | a non-empty link is returned unchanged iff it holds neither a watch nor a short marker |
| VideoDetail.EmbedIdempotent | Final_Project/StudentPortal/src/pages/VideoDetail.jsx:66-79 | rewriting a rewritten link changes nothing, provided a watch id does not itself hold a short marker |
| CourseCard.CourseIcon | Final_Project/StudentPortal/src/components/CourseCard.jsx:4-17 | the result is one of the five labels; a missing name gets "default" |
| CourseCard.FirstMatchWins | Final_Project/StudentPortal/src/components/CourseCard.jsx:7-16 | each label is chosen iff its keywords occur in the lowercased name and no earlier group's keywords do |
| CourseCard.CaseInsensitive | Final_Project/StudentPortal/src/components/CourseCard.jsx:5 | a name and its lowercase form get the same icon |
| CourseCard.AiAnywhere | Final_Project/StudentPortal/src/components/CourseCard.jsx:13-14 | "ai" at any position, with no earlier keyword, gives the AI icon |
| CourseCard.EmptyNameDefault | Final_Project/StudentPortal/src/components/CourseCard.jsx:5-16 | the empty name gets "default" |
| Header.Username | Final_Project/StudentPortal/src/components/Header.jsx:28-30 | the call throws exactly when a user's email is neither a string nor null/undefined; otherwise the name is never empty and holds no `@`; no user, or a null or undefined email, gives "student" |
| Header.NameIsLocalPart | Final_Project/StudentPortal/src/components/Header.jsx:29 | with an email, the name is the text before the first `@`; a leading `@` gives "student"; an email without `@` is the whole name |
| Header.NameBeforeAt | Final_Project/StudentPortal/src/components/Header.jsx:29 | the name is "student", or a prefix of the email that ends at its end or at an `@` |
| AuthContext.FromClaims | Final_Project/StudentPortal/src/context/AuthContext.jsx:52-65 | a user results iff the claims are truthy, carry a truthy email and a usable role; the role is non-empty and lowercase, either the lowercased claim or "student" |
| AuthContext.DecodeToken | Final_Project/StudentPortal/src/context/AuthContext.jsx:16-76 | a non-string token, or one that is blank once trimmed, gives null; otherwise the result is that of decoding the trimmed token |
| AuthContext.DecodeClean | Final_Project/StudentPortal/src/context/AuthContext.jsx:31-65 | a token without exactly two dots gives null; otherwise a decoder failure gives null, and decoded claims give `FromClaims` |
| JsString.TrimIsSlice | Final_Project/StudentPortal/src/context/AuthContext.jsx:24 | the trimmed token is a prefix of the token with its leading white space removed |
| AuthContext.DecodeIgnoresSurroundingSpace | Final_Project/StudentPortal/src/context/AuthContext.jsx:24 | trimming a token beforehand does not change what it decodes to |
| AuthContext.RejectedError | Final_Project/StudentPortal/src/context/AuthContext.jsx:158-174 | the reported error is truthy; with a server reply it is the reply's `error` if truthy, else its `data` if truthy, else "Login failed"; with only a request it is the connection message; otherwise the error's message if truthy, else the generic message |
| AuthContext.ResponseStep | Final_Project/StudentPortal/src/context/AuthContext.jsx:99-157 | a refusal carries a truthy error, keeps the user, and leaves the storage unchanged or without the token; a response that does not reach the token store (no body, no data, no token, or a status other than "success") leaves the storage unchanged; a non-success status reports the body's error, or "Login failed"; success iff the token is reached and decodes; then the token is stored, and the user is signed in with that token, the email `ChosenEmail` picks and the decoded role |
| AuthContext.ChosenEmail | Final_Project/StudentPortal/src/context/AuthContext.jsx:118-142 | the response's email when truthy, else the typed email when truthy, else the token's email |
| AuthContext.LoginStep | Final_Project/StudentPortal/src/context/AuthContext.jsx:97-175 | a refusal carries a truthy error, keeps the user, and leaves the storage unchanged or without the token; success needs a response; a rejected request, or a response that does not reach the token store, leaves the storage unchanged; a token in storage afterwards is a new login's or the one already there |
| AuthContext.UndecodableTokenNotKept | Final_Project/StudentPortal/src/context/AuthContext.jsx:128-139 | a token that fails to decode is refused and is not left in storage |
| AuthContext.SessionRoleNormalised | Final_Project/StudentPortal/src/context/AuthContext.jsx:141-145 | a signed-in user's role is non-empty and lowercase |
| AuthContext.Auth.constructor | Final_Project/StudentPortal/src/context/AuthContext.jsx:79 | the provider starts with no user |
| AuthContext.Auth.Restore | Final_Project/StudentPortal/src/context/AuthContext.jsx:82-95 | a truthy stored token that decodes signs its user in with the decoded email and role; otherwise the user is unchanged |
| AuthContext.Auth.Login | Final_Project/StudentPortal/src/context/AuthContext.jsx:97-175 | storage, user and result after the call are those `LoginStep` gives for the old state |
| AuthContext.Auth.LoginWithResponse | Final_Project/StudentPortal/src/context/AuthContext.jsx:99-157 | storage, user and result after the call are those `ResponseStep` gives for the old state |
| AuthContext.Auth.Logout | Final_Project/StudentPortal/src/context/AuthContext.jsx:177-181 | the token and email keys are removed and nothing else; the user becomes null |

## Left out

- The database engine: SQL collation, NULL comparison and type coercion of bound parameters are not modelled. Users are keyed by the bound email value, and each statement's success or failure is an input.
- The order of keys in JSON objects: objects are maps.
- Floating point: JavaScript numbers are integers here.
- `toLowerCase` covers ASCII letters only. Unicode case mapping is not modelled.
- Client-side `===` on objects and arrays is modelled as structural equality, not reference identity. On the server, the password comparison uses `JsValue.StrictEquals`, under which two objects or arrays are never equal. This holds for two fields of one parsed JSON body, which never share a reference.
- Asynchrony: callbacks, awaits and races between concurrent requests are not modelled. Each request runs to completion on its own.
- `localStorage.setItem` coerces values to strings. The model stores the token value as given.
- The internals of SHA-256, signing, verification and client-side decoding are parameters. So is the expiry check inside the verifier.
- Students.PasswordChange: the caller's email is taken as given. An update that matches no row changes nothing, and the envelope then reports the driver's result unchanged.
- The list routes `/student/my-courses`, `/student/my-courses-with-videos` and `/courses/all-active-courses`: each is a single query wrapped in the envelope, so `Response.CreateResponse` covers them. The grouping of their rows is `MyCourses.GroupCoursesWithVideos`.
- The admin routes and admin scripts, which are outside this core.
- `formatDate`, and everything else in the client that only renders markup or logs to the console.
- The loading flags of the pages and the context.
