# Credentials sign-in and route-matcher model

This project models the two decision procedures of a Next.js dashboard's access gate:

- **Sign-in** (`auth.ts`). The credentials provider's `authorize` callback works in four steps:
  1. It shape-checks the raw credential object: `email` must be an email-shaped string and `password` a string of at least 6 UTF-16 code units.
  2. It fetches the `users` rows for that exact email through `getUser`, which takes the first row.
  3. It compares the password with the row's stored bcrypt hash.
  4. It returns the row itself or `null`. A store failure surfaces as the error "Failed to fetch user.".

  The model is in module `Auth`. The three collaborators are function parameters: `isEmail` is the schema's email check, `query` is the store's reply for an email, and `compare` is `bcrypt.compare`. `Authorize` also returns a trace of the lookups and comparisons it made, so short-circuit properties can be stated.
- **Route matcher** (`proxy.ts`). The middleware's `config.matcher` is the regular expression `/((?!api|_next/static|_next/image|.*\.png$).*)`. The model is in module `Proxy`:
  - `RegexAccepts` follows the expression's structure: an ordered list of lookahead alternatives, with `.` excluding JavaScript line terminators.
  - `Matched` states the same set of paths as plain prefix and suffix tests.
  - `MatchedIffRegex` proves that the two agree.
- Module `JsText` holds the JavaScript string facts both parts use. Its main item is `.length` counted in UTF-16 code units.

Both source files are pure decision logic, so the model uses only datatypes, functions and lemmas. Gating is a function of the path string alone, so equal paths get equal answers by construction.

Three behaviours of the code are kept as written:
- A successful sign-in returns the whole stored row, password-hash column included. It is not a principal with the hash removed.
- When the store returns several rows for one email, the first is used. This is not an error.
- The matcher does not exempt the sign-in page: `/login` is gated.

## Model

| member | source | states |
|---|---|---|
| JsText.Utf16Encode | auth.ts:29 | A character below U+10000 is one code unit equal to itself; any other character is a high surrogate followed by a low surrogate |
| JsText.Utf16PairRoundTrip | auth.ts:29 | Decoding the surrogate pair of a character above U+FFFF gives the character back |
| JsText.Utf16LengthCountsCodeUnits | auth.ts:29 | The length the password rule uses equals the number of code units in the string's UTF-16 encoding, as JavaScript `.length` counts |
| JsText.Utf16Length | auth.ts:29 | The code-unit length lies between the character count and twice that, and equals the character count iff every character is in the BMP |
| Auth.ParseCredentials | auth.ts:26-31 | The schema succeeds iff both fields are strings, the email passes the email check and the password has at least 6 code units; on success the parsed values are the raw ones, untrimmed |
| Auth.GetUser | auth.ts:11-19 | Store failure becomes the error "Failed to fetch user." and nothing else does; no rows gives `undefined`; otherwise the result is the first row |
| Auth.Authorize | auth.ts:25-42 | At most two oracle calls: the lookup comes first and only there, any comparison comes after it, a sign-in always made both calls, no call at all happens exactly when the schema fails, and once the schema passes and a row is found the trace is exactly the lookup of the submitted email then the comparison of the submitted password with that first row's hash |
| Auth.ShortPasswordRejected | auth.ts:29-41 | A password shorter than 6 code units gives `null` with an empty trace (no lookup, no comparison) |
| Auth.ThreeAstralCharactersSuffice | auth.ts:29 | The minimum counts code units: three characters above U+FFFF meet it |
| Auth.InvalidEmailRejected | auth.ts:28-41 | An email the email check rejects gives `null` with an empty trace |
| Auth.CallArguments | auth.ts:34-37 | The lookup uses the submitted email verbatim; the comparison uses the submitted password and the hash of the first row returned for that email |
| Auth.NotFoundSkipsCompare | auth.ts:33-36 | No row gives `null` after exactly one lookup and no comparison |
| Auth.WrongPasswordLooksLikeNotFound | auth.ts:36-41 | "No such user" and "wrong password" give the same outcome, `null` |
| Auth.SignedInIffFirstRowMatches | auth.ts:33-38 | The result is user `u` iff the schema passes, `u` is the first row for the submitted email and the password matches its hash; the returned record carries the stored hash |
| Auth.StoreFailureSurfaces | auth.ts:15-17 | An error is thrown iff the schema passes and the store fails; its message is "Failed to fetch user." and exactly one lookup was made |
| Auth.FirstRowWins | auth.ts:14 | Two store replies with the same first row give identical runs: later rows are ignored |
| Auth.OnlySubmittedEmailQueried | auth.ts:13 | The run depends on the store only through its reply for the submitted email |
| Proxy.AnyAlternativeExists | proxy.ts:8 | Left-to-right alternation inside the lookahead matches iff some alternative matches |
| Proxy.AlternativeOrderIrrelevant | proxy.ts:8 | Any reordering of the lookahead's alternatives excludes the same remainders |
| Proxy.AnyThenAtEndIsSuffix | proxy.ts:8 | On a line-terminator-free remainder, `.*\.png$` matches iff the remainder ends with `.png` |
| Proxy.MatchedIffRegex | proxy.ts:8 | A path is gated iff it starts with `/` and its remainder has no line terminator, does not start with `api`, `_next/static` or `_next/image`, and does not end with `.png`, exactly as the regular expression decides |
| Proxy.ApiPrefixNotGated | proxy.ts:8 | Every path `/api…` is skipped, `/apiary` included, because the prefix test needs no separator |
| Proxy.NextAssetsNotGated | proxy.ts:8 | Every path `/_next/static…` or `/_next/image…` is skipped |
| Proxy.PngNotGated | proxy.ts:8 | Every path ending in `.png` is skipped, at any depth |
| Proxy.GatedExamples | proxy.ts:8 | `/x.PNG` (the test is case-sensitive), `/`, `/dashboard` and `/login` are gated; `/apiary` and `/_next/static/chunk.js` are not |
| Proxy.LineTerminatorNotGated | proxy.ts:8 | A path with a line terminator after the leading slash is never matched |

## Left out

- The Postgres connection and the SQL text (auth.ts:9, 13) are I/O. The store is the parameter `query`, which returns the rows in order or a failure.
- The internals of `bcrypt.compare` (auth.ts:37) belong to a foreign library. The model uses an opaque parameter `compare(password, hash)`. Any hashing cost or timing is not modelled, so the timing difference between the not-found and wrong-password paths is not captured.
- The email regular expression of the schema library (auth.ts:28) is library internals. It is the abstract predicate `isEmail`. The library's dropping of unknown keys is reflected only in that `ParseCredentials` reads just the two fields.
- `NextAuth(...)` construction, the exported `auth`, `signIn` and `signOut`, and session-token issuance and validation (auth.ts:21-45, proxy.ts:4) are framework plumbing.
- The per-request allow/redirect callback lives in `auth.config.ts`, and auth.config.ts is not part of this model. The model therefore has no `Redirect` decision, only the matcher that decides where that callback runs.
- `app/lib/definitions` (the `User` type) is not part of this model. A row is its email, its `password` hash column and a map of every other column.
- Next.js's compilation of the matcher (path-to-regexp, anchoring, locale and data-route prefixes) is not modelled. The regular expression is taken to match the whole path string.
- `async`/`await` is treated as sequential evaluation.
- The logging calls (auth.ts:16, 40) are left out.
- Strings are sequences of Unicode scalar values. A JavaScript string holding a lone surrogate cannot be expressed, so the code-unit length is modelled only for well-formed strings.
- Raw credential input that is not a plain object (for example `undefined`) is not modelled. The credential object is always a key-to-value map, and a missing or non-string field fails the schema.
