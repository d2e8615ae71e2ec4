# E-mail form with captcha and CSRF session: a Dafny model of its logic

The repository is a small React page: one e-mail field, a Turnstile captcha
and a CSRF session handshake with an API at `localhost:4000`. Four pieces of
its code are exact, deterministic logic, and this project models each of them
and proves what they promise:

- `validate_email` (`validators.ts`) is modelled in `validators.dfy`. It has
  three outcomes. The regular expression `.+@.+` is defined by its
  ECMAScript meaning: an unanchored search, where `.` matches any character
  except LF, CR, U+2028 and U+2029. The model proves that this equals the
  simple test "some `@` has a matchable character on each side".
- `formalizeErrors` in `lib/error-handling.ts` is modelled in
  `error_handling.dfy`, together with its `formKeys` table and its
  first-match `find`.
- The variant of `formalizeErrors` in `App.tsx` is modelled in `app.dfy`.
  It prefixes an unknown key's message with the key itself. The model
  proves how this variant relates to the library one.
- `sync` from `createSessionSynchronizer` (`session-sync.ts`) is modelled
  in `session_sync.dfy`. It is a class whose method changes an injected
  session storage and records the request it sends in an injected network
  log.
- The `post` step of `onSubmit` (`App.tsx`) is modelled in `app.dfy`. It is
  a method over the component's `errors` state: no stored token means no
  request; status 200 clears the errors; any other status shows the
  formalized errors of the body.

`browser.dfy` holds the browser services the code touches:
- `sessionStorage` is a class holding a `map<string, string>`;
- `fetch` is a `Network` object that logs every request sent;
- a response is a value with a status and lower-case headers;
- the `errors` field of a failed submission's JSON body is a separate
  argument of `post`.

The state-changing methods are stated against pure functions of the old
state: `SyncedStore`/`SyncRequests` for `sync`, and
`SubmitRequest`/`ErrorsAfterSubmit` for `post`. The lemmas are proved about
those functions.

How the page's code behaves at submission:
- `onSubmit` neither calls `validate_email` nor waits for the captcha.
- `post` sends only `{ email }`, so the captcha token is never sent.
- The `x-token-recaptcha` header carries the stored `x-session` token.
- A failed submission never clears the token or syncs again.
- Success does not reset the field.
- Only status 200 counts as success.

## Model

| member | source | states |
|---|---|---|
| Validators.ValidateEmail | src/validators.ts:1-8 | The result is always one of `'is required'`, `'is invalid'`, `true`. It is `'is required'` exactly for `null`/`undefined` or the empty string. |
| Validators.MatchesIffFlanked | src/validators.ts:4 | The unanchored `.+@.+` search succeeds exactly when some `@` at index `i`, `0 < i < |s|-1`, has no line terminator at `i-1` or at `i+1`. Both directions are proved. |
| Validators.AcceptedIffFlanked | src/validators.ts:4-8 | A string is accepted (`true`) exactly when some `@` is flanked by non-line-terminator characters. |
| Validators.NoAtSignIsInvalid | src/validators.ts:4-6 | A non-empty string with no `@` yields `'is invalid'`. |
| Validators.AcceptedIsClosedUnderExtension | src/validators.ts:4 | If `s` is accepted, so is every `p + s + q`, because the match is unanchored. |
| Validators.UnflankedIsInvalid | src/validators.ts:4-6 | A non-empty string yields `'is invalid'` when each of its `@` sits at an end or next to a line terminator. |
| Validators.Examples | src/validators.ts:1-8 | `null` and `""` are required. `"foo"`, `" "`, `"a@"`, `"@b"`, `"@"` and `"a\n@b"` are invalid. `"a@b.c"` is accepted. |
| ErrorHandling.FindFormKey | src/lib/error-handling.ts:10 | `find` returns nothing exactly when no entry has the key. Otherwise it returns the first entry with that key. |
| ErrorHandling.FormalizeError | src/lib/error-handling.ts:10-21 | The key is kept. An `email` message becomes `"The e-mail " + message`. Any other record is returned unchanged. |
| ErrorHandling.MapErrors | src/lib/error-handling.ts:9-22 | `errors.map(f)` has the input's length, and its i-th element is `f` of the i-th input. Both formalizers are built on it. |
| ErrorHandling.FormalizeErrors | src/lib/error-handling.ts:6-23 | The output has the input's length and order, and every key is kept. `email` messages get the `"The e-mail "` prefix. Records with any other key are unchanged. |
| ErrorHandling.FormalizeErrorsAppend | src/lib/error-handling.ts:9 | An empty input gives an empty output. Formalizing `a + b` equals formalizing `a` followed by formalizing `b`. |
| ErrorHandling.FormalizeErrorsIdentity | src/lib/error-handling.ts:15-16 | On a list with no `email` key, formalizing is the identity and is therefore idempotent. |
| Browser.SessionStorage.SetItem | src/session-sync.ts:18 | `setItem` maps the key to the value and leaves the rest of the storage unchanged. |
| Browser.Network.Send | src/session-sync.ts:8-12 | Issuing a request appends exactly that request to the log of sent requests. |
| SessionSync.SyncedStore | src/session-sync.ts:14-20 | A sync never removes a key. It never changes or adds any key other than `x-session`. |
| SessionSync.SyncWithTokenIsNoOp | src/session-sync.ts:4-6 | With `x-session` present, sync sends nothing and the store is unchanged. |
| SessionSync.SyncWithoutTokenSendsOneGet | src/session-sync.ts:8-12 | With `x-session` absent, sync sends exactly one request: a GET to the session endpoint. |
| SessionSync.SyncStoresHeaderOn204 | src/session-sync.ts:14-20 | With `x-session` absent, the store changes exactly on a 204 that carries `x-csrf-token`. In that case `x-session` is mapped to the header's value. |
| SessionSync.SyncIdempotentOnceSynced | src/session-sync.ts:4-18 | Once a sync has left `x-session` in the store, a second sync sends nothing and leaves the store as it is. |
| SessionSync.SyncSucceedsOn204WithHeader | src/session-sync.ts:14-19 | After a 204 carrying `x-csrf-token`, `x-session` is in the store. |
| SessionSync.SessionSynchronizer.constructor | src/session-sync.ts:1-27 | The synchronizer works on the storage and network it is given. |
| SessionSync.SessionSynchronizer.Sync | src/session-sync.ts:3-21 | The new store is `SyncedStore(old store, reply)`. The requests sent are exactly `SyncRequests(old store)`. |
| App.FormalizeError | src/App.tsx:14-27 | The key is kept and the new message ends with the old one. `email` gets `"The e-mail "` in front; any other key `k` gets `k + " "` in front. |
| App.FormalizeErrors | src/App.tsx:11-28 | The output has the input's length and order, and every key is kept. Each message ends with the original one. `email` gets `"The e-mail "` in front; any other key `k` gets `k + " "` in front. |
| App.FormalizersCompare | src/App.tsx:20-24 | On `email` records this variant equals the library variant. On other records it has the same key and the message `key + " " + ` the library's message. |
| App.FormalizersAgreeIffAllEmail | src/App.tsx:20-24 | The two variants give equal lists exactly when every key is `email`. |
| App.SubmitWithoutTokenIsNoOp | src/App.tsx:64-66 | With no `x-session` stored, a submit sends no request and leaves the error list unchanged. |
| App.SubmitCarriesStoredToken | src/App.tsx:68-77 | With a token stored, the submit is one POST to the form endpoint. It carries the e-mail and an `x-token-recaptcha` header equal to the stored `x-session`. |
| App.SubmitOutcome | src/App.tsx:79-86 | With a token stored, status 200 empties the error list. Any other status sets it to exactly `formalizeErrors(body.errors)`: same length and keys, each message ending with the server's message. |
| App.SubmitAfterSyncUsesSessionToken | src/App.tsx:64-75 | After a sync that received a 204 with `x-csrf-token`, the next submission carries exactly that token. |
| App.AppState.constructor | src/App.tsx:31-32 | The component starts with an empty e-mail and an empty error list. |
| App.AppState.Post | src/App.tsx:63-87 | The requests sent are exactly `SubmitRequest(store, email)`. The new error list is `ErrorsAfterSubmit(store, old errors, reply, body errors)`. Storage and e-mail are unchanged. |

## Left out

- `fetch` itself: network failures, `AbortController` cancellation and
  `resp.json()` parsing are not modelled. The response arrives as a
  parameter. A body without `errors`, which would make `formalizeErrors`
  throw, is not modelled.
- Asynchrony: `sync` and `post` are `async`. Each is modelled as one atomic
  step. Interleavings with other handlers, such as a submit that runs
  before the mount-time sync resolves, are not modelled.
- React hooks and rendering (`useState`, `useEffect`, `useCallback`, JSX):
  these are UI scheduling. `setErrors` is modelled as a direct assignment to
  the `errors` field. The mount effect, which calls `sync()` and renders
  the captcha, is not modelled as a member.
- `console.log` calls: output only.
- `src/lib/captcha.ts`: a thin adapter over the Turnstile global, whose
  behaviour is not visible, plus promise settlement.
- `vite.config.ts`, `uno.config.ts`, `src/main.tsx` and the type
  declaration files: build, styling and mounting only.
- Characters are Unicode scalar values, not UTF-16 code units. A
  supplementary character is one `char` here but two units for `.`. Neither
  is a line terminator, so the validator's outcome is the same.
- Header-name case-insensitivity: response headers are a map under
  lower-case names.
- `JSON.stringify` of the request body: the request holds the e-mail as a
  value.
