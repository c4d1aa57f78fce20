# Credential store of a Next.js login/signup demo

The application has two API routes that share one in-memory document
`{ users: [...] }`. Both route modules `require` the same JSON file. The
model takes as its premise that both handlers see one in-memory `users`
array, so that a login sees the records earlier signups pushed.

- `POST /api/signup` rejects a body whose `username` or `password` is falsy
  (absent, null or empty) with 400 "Signup fail". Otherwise it pushes
  `{ username, password, id: users.length + 1 }`, rewrites the whole file and
  answers 201 "Signup successful". Duplicate names are not checked.
- `POST /api/login` takes the first record whose `username` is strictly equal
  to the submitted one and compares passwords as plain text. On a match it
  answers 200 "Login successful" with a token. In every other case it answers
  401 "Invalid credentials". The token payload is `{ userId, username }`. Its
  `userId` is `users.length + 1`, not the stored record's `id`.

The model:

- `Users` defines the record, the request field (`Option<string>`, where
  `None` means the body does not carry the field), JavaScript truthiness of a
  field, the token claims and the reply.
- `SignupRoute` and `LoginRoute` give each handler as a function of the users
  sequence and the request, with lemmas about it.
- `Store.CredentialStore` is the shared document as an object. `Signup`
  updates its `users` field in place, and a ghost `persisted` field stands for
  the file on disk. `Login` is a read-only loop over `users`. Both methods are
  proved against the route functions.
- `Store.Session` is a usage example with no counterpart in the source. It
  drives one store through signup, a good and a wrong password, a duplicate
  name and an empty field, using only the class contracts.
- `Flows` relates the two handlers: the signup-then-login round trip, and
  a second signup of the same name being shadowed by the first.

The `id == index + 1` numbering is a predicate (`Users.WellNumbered`), not a
class invariant. The document loaded from disk is not required to satisfy it,
and signup preserves it when it holds.

## Model

| member | source | states |
|---|---|---|
| SignupRoute.RejectsFalsyField | app/api/signup/route.tsx:16-18 | a missing or empty username or password gives 400 "Signup fail" and leaves the users sequence unchanged |
| SignupRoute.AcceptsAndAppends | app/api/signup/route.tsx:20-28 | with both fields non-empty the reply is 201 "Signup successful", the sequence grows by exactly one, every earlier record stays in place, and the new last record is the submitted pair with id old length + 1 |
| SignupRoute.ReplyReflectsChange | app/api/signup/route.tsx:16-28 | every signup answers either 201 or 400, and it answers 201 exactly when the sequence changed |
| SignupRoute.PreservesNumbering | app/api/signup/route.tsx:20 | if every record has id == index + 1 before a signup, that still holds after it |
| SignupRoute.AcceptsDuplicateName | app/api/signup/route.tsx:16-20 | a name already stored is accepted again, and the sequence then holds two records with that name |
| LoginRoute.FindIndex | app/api/login/route.tsx:32-34 | the result, when present, is a position whose record matches the name, and no earlier record matches; when absent, no record matches |
| LoginRoute.FindIndexIsFirst | app/api/login/route.tsx:32-34 | the search returns the earliest position carrying the name |
| LoginRoute.FindIndexAfterAppend | app/api/login/route.tsx:32-34 | appending a record changes the search result only when no earlier record matched and the new one does |
| LoginRoute.SucceedsIff | app/api/login/route.tsx:37-44 | login answers 200 if and only if the first record carrying the name exists and stores exactly the submitted password |
| LoginRoute.Outcomes | app/api/login/route.tsx:18-21 | every reply is either 200 "Login successful" with claims {userId: length + 1, username: submitted name}, or the single 401 "Invalid credentials" reply |
| LoginRoute.UnknownAndWrongPasswordAlike | app/api/login/route.tsx:45-49 | an unknown name and a known name with a wrong password get the same 401 reply |
| LoginRoute.UserIdIsNoRecordId | app/api/login/route.tsx:39 | when the sequence is well numbered, the claimed userId is the id of no stored record, the matched one included |
| LoginRoute.ShadowedDuplicateFails | app/api/login/route.tsx:32-37 | if the first record carrying a name stores a different password, a later record's password for that name is refused |
| Store.CredentialStore.constructor | app/api/signup/route.tsx:5 | the store starts with the document loaded from disk, in memory and on disk alike |
| Store.CredentialStore.Signup | app/api/signup/route.tsx:13-29 | the new users and the reply are those of SignupRoute.Post. A rejected request changes neither users nor the file. An accepted one appends the record and rewrites the file with the new users. The numbering is preserved |
| Store.CredentialStore.Login | app/api/login/route.tsx:27-51 | the first-match scan answers LoginRoute.Post on the current users, always 200 or 401, and modifies nothing |
| Flows.SignupThenLogin | app/api/login/route.tsx:32-39 | a signup of a fresh name followed by a login with the same pair answers 201 and then 200 with claims naming that user. The claimed userId is the new length + 1, one more than the stored id |
| Flows.SecondSignupIsShadowed | app/api/signup/route.tsx:16-20 | signing up a fresh name twice with different passwords answers 201 both times, but only the first password logs in |

## Left out

- `fs.writeFileSync` of the whole document (app/api/signup/route.tsx:23-26) is file I/O. It appears only as the ghost `persisted` snapshot. A failed write, which the source leaves unhandled, is not modelled.
- `jwt.sign` with the static secret and `expiresIn: "1h"`: signing, encoding and the clock-based `iat`/`exp` claims are a foreign library. The token is modelled by its payload `Claims` only.
- LoginRoute.GenerateToken has no contract of its own. The payload it builds is stated by LoginRoute.Outcomes. The source annotates `id` as a string but passes a number. The model uses an integer.
- `request.json()` parsing and `NextResponse.json` construction are framework plumbing. Inputs are optional strings, outputs are a status, a message and optional claims. A body whose fields are not strings at all (numbers, objects) is not modelled.
- Strings are Dafny strings, sequences of Unicode scalar values, where JavaScript strings are UTF-16 code units. A body field holding a lone surrogate such as `"\ud800"` has no counterpart in the model. Nothing else in the handlers depends on the encoding: they only use `===` and the empty-string test.
- Concurrent requests and the read-modify-write race on the file: the model treats requests as sequential calls on one store.
- The shape of the records in the JSON file loaded at start is taken on trust: every record is assumed to carry string `username` and `password` fields and an integer `id`.
- app/login/page.jsx (form state, `fetch`, cookie string, redirect) and app/page.tsx (static links) are UI and are not part of this model.
