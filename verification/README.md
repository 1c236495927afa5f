# blockchain-authenticator — a Dafny model of its logic

The repository is one React component, `Qwen_jsx_20250924_oblsi633p.jsx`, a mock-up of
"blockchain-backed multi-factor authentication". Nearly all of it is markup. This project
models the sequential logic inside it:

- **`generateHash`** — a rolling checksum over the UTF-16 code units of a string
  (`h = 31*h + c`, truncated to a signed 32-bit integer after every step). The absolute
  value is printed in lower-case hex and left-padded with `0` to 32 characters
  (modules `Int32`, `Hex`, `RollingHash`).
- **`validateForm`** — rejects an empty username or password. On the register tab it
  also rejects a confirmation that differs from the password. Each rejection has its
  own message (module `AuthForm`).
- **The audit block** built by the timer callbacks of `handleLogin` / `handleRegister`
  and put at the front of the audit list (module `AuditChain`).
- **The session**: submit, timer completion, `handleLogout`, and the dashboard guard
  `isLoggedIn && currentUser` (module `Session`).

The strings the user types, the strings that are hashed and the strings stored in a block
are modelled as sequences of UTF-16 code units (`JsText.CodeUnit`, 0..0xFFFF), the values
`charCodeAt` returns. The fixed ASCII status and error messages are plain Dafny `string`
constants, since they are only shown and compared for equality. Every intermediate value
of the hash stays below 2^53 in magnitude, so Number arithmetic is exact and is written
on `int`. The two 32-bit operations are written out explicitly: `<<` (ToInt32 of the
operand, shift, ToInt32 of the result) and `x & x`, which equals ToInt32(x).

The login page advertises "Blockchain Immutable Records" (:467), but no block refers to
another. Each block is a stand-alone record `{id, timestamp, action, user, hash, signature}`,
and nothing re-checks the list. This model follows the code.

The outside world comes in as parameters:
- `AuditChain.Stamp` and `Session.Environment` carry the random user id and the random
  signature characters.
- They also carry three separate `new Date()` readings: `lastLogin`, the block's
  `timestamp`, and the one concatenated into the hash input. These are three calls in
  the source and need not agree.
- The callback's `blockchainData.length` is the length captured when the handler ran.
  It is a parameter distinct from the length of the list the block is prepended to.

## Model

| member | source | states |
|---|---|---|
| Int32.ToInt32 | Qwen_jsx_20250924_oblsi633p.jsx:59 | `hash & hash` yields a signed 32-bit value with the same low 32 bits as its operand |
| Int32.ToInt32Congruent | Qwen_jsx_20250924_oblsi633p.jsx:59 | the 32-bit truncation depends only on the low 32 bits of its argument |
| Int32.ShiftLeft | Qwen_jsx_20250924_oblsi633p.jsx:58 | `x << n` is a signed 32-bit value agreeing with `x * 2^n` in the low 32 bits |
| Int32.MathAbs | Qwen_jsx_20250924_oblsi633p.jsx:61 | `Math.abs` returns `x` or `-x`, non-negative, and at most 2^31 for a 32-bit input |
| Hex.ToHex | Qwen_jsx_20250924_oblsi633p.jsx:61 | `toString(16)` yields a non-empty lower-case hex string with no superfluous leading zero |
| Hex.HexRoundTrip | Qwen_jsx_20250924_oblsi633p.jsx:61 | decoding the hex text of `n` gives back `n` |
| Hex.HexRoundTripText | Qwen_jsx_20250924_oblsi633p.jsx:61 | every canonical hex string is the `toString(16)` of its own value (the converse round trip) |
| Hex.ToHexLength | Qwen_jsx_20250924_oblsi633p.jsx:61 | a number below 16^k prints in at most k hex digits |
| Hex.PadStart | Qwen_jsx_20250924_oblsi633p.jsx:61 | `padStart(32, '0')` keeps the string as its suffix, fills only the front, and yields max(length, 32) units |
| Hex.PaddedHex | Qwen_jsx_20250924_oblsi633p.jsx:61 | padding hex text of at most k units to w units gives w hex units, zeros in the first w-k, and the whole text and its last k units decode to the unpadded value |
| Hex.ZeroPaddingKeepsValue | Qwen_jsx_20250924_oblsi633p.jsx:61 | leading `0` padding does not change the value the hex text denotes |
| RollingHash.Step | Qwen_jsx_20250924_oblsi633p.jsx:58-59 | one loop iteration, `((h << 5) - h) + char` then `h & h`, always leaves a signed 32-bit accumulator |
| RollingHash.StepIsTimes31 | Qwen_jsx_20250924_oblsi633p.jsx:57-59 | one loop step `((h<<5)-h)+c` then `h&h` equals `31*h + c` reduced to [-2^31, 2^31) |
| RollingHash.Accumulator | Qwen_jsx_20250924_oblsi633p.jsx:55-60 | the accumulator after any prefix is a signed 32-bit value |
| RollingHash.AccumulatorIsTruncatedPolynomial | Qwen_jsx_20250924_oblsi633p.jsx:55-60 | truncating at every step equals truncating the untruncated polynomial sum of c_i * 31^(n-1-i) once |
| RollingHash.GenerateHash | Qwen_jsx_20250924_oblsi633p.jsx:53-62 | the hash is exactly 32 lower-case hex units, the first 24 are `0`, and both the last 8 and the whole string decode to the absolute final accumulator |
| RollingHash.ComputeHash | Qwen_jsx_20250924_oblsi633p.jsx:55-61 | the index loop as written computes `GenerateHash`, whose value is the absolute truncated polynomial |
| RollingHash.EmptyInputHash | Qwen_jsx_20250924_oblsi633p.jsx:55-61 | the empty string hashes to 32 zeros |
| AuthForm.ValidateForm | Qwen_jsx_20250924_oblsi633p.jsx:64-74 | "Username and password are required" exactly when either is empty, on both tabs. "Passwords do not match" exactly on register with non-empty credentials and a differing confirmation. Accepted in every other case |
| AuthForm.ValidateIgnoresUnreadFields | Qwen_jsx_20250924_oblsi633p.jsx:64-74 | email never affects the verdict; on the login tab the confirmation does not either |
| AuthForm.RegisterStricterThanLogin | Qwen_jsx_20250924_oblsi633p.jsx:69-73 | whatever register accepts login accepts, and the only extra register rejection is the mismatch |
| AuthForm.EmptyFormRejected | Qwen_jsx_20250924_oblsi633p.jsx:65-68 | the initial empty form is rejected with the missing-credentials message on either tab |
| AuditChain.NewBlock | Qwen_jsx_20250924_oblsi633p.jsx:97-104 | id = captured list length + 1, timestamp = the clock reading, user = the submitted username, action = the handler's label ('User Login'; 'New Account Created' at :133), hash = generateHash(username ++ a clock reading), signature = `sig_` ++ the random suffix |
| AuditChain.Prepend | Qwen_jsx_20250924_oblsi633p.jsx:106 | the new block is at index 0, the length grows by exactly one, and every earlier block is kept unchanged and in order |
| AuditChain.FreshCaptureKeepsIds | Qwen_jsx_20250924_oblsi633p.jsx:98-106 | with an up-to-date captured length the new id equals the new list length, and ids stay a permutation of 1..n |
| AuditChain.StaleCaptureDuplicatesId | Qwen_jsx_20250924_oblsi633p.jsx:130-139 | two callbacks that captured the same length leave two blocks with the same id on top |
| AuditChain.ReplayKeepsBase | Qwen_jsx_20250924_oblsi633p.jsx:106 | after any run of completions the list that was there before is the untouched suffix |
| AuditChain.ReplayIdsCountDown | Qwen_jsx_20250924_oblsi633p.jsx:98-106 | after a run of completions that each see the current list, the new blocks on top carry ids n, n-1, ... counting down from the list length n |
| Session.Initial | Qwen_jsx_20250924_oblsi633p.jsx:6-18 | the mounted component shows no dashboard, and its empty form would be rejected |
| Session.ShowsDashboard | Qwen_jsx_20250924_oblsi633p.jsx:159 | the dashboard is rendered exactly when the logged-in flag is set and a current user is present; either missing shows the form |
| Session.HandlerAction | Qwen_jsx_20250924_oblsi633p.jsx:374 | the login tab submits to `handleLogin`, which records 'User Login'; the register tab submits to `handleRegister`, which records 'New Account Created' |
| Session.Submit | Qwen_jsx_20250924_oblsi633p.jsx:76-81 | submitting changes only the status: the validation error, or the pending message of the tab's handler |
| Session.Complete | Qwen_jsx_20250924_oblsi633p.jsx:83-107 | the callback signs in (dashboard shown), builds the user from the captured form, sets the success message, and records one block |
| Session.Logout | Qwen_jsx_20250924_oblsi633p.jsx:143-147 | logout clears the flag and the user so the dashboard is hidden, reports it, and keeps the audit list |
| Session.SignInThenOut | Qwen_jsx_20250924_oblsi633p.jsx:76-147 | submit, complete, logout on an accepted form returns to the form with exactly one new block on top whose id is the new length |
| Session.RejectedSubmitKeepsSession | Qwen_jsx_20250924_oblsi633p.jsx:64-78 | a rejected submission changes neither the session nor the list, and shows an error status |

## Left out

- Rendering: JSX, Tailwind classes, framer-motion animation and lucide icons. These are presentation only.
- The `setTimeout` delay and React's state scheduling. A callback is one `Session.Complete` step. Which tab, form and list length it captured are explicit parameters.
- `Math.random()`: the user id and the signature characters are opaque parameters. So are the `Date` readings, whose `toISOString` text is not modelled.
- `formatTime` / `formatDate` (`toLocaleTimeString`, `toLocaleDateString`): locale-dependent display helpers.
- The hard-coded `mockBlockchain` list and its installation on mount. It is fixed data; `Session.Initial` takes the installed list as a parameter.
- Tab switching, field editing and the show-password toggles. These are plain one-field `setState` calls.
- Hash chaining, tamper verification and collision resistance. The code has none of them, and `generateHash` is a non-cryptographic checksum.
- Interleaved callbacks in longer runs. `AuditChain.Replay` applies completions one after another, each seeing the list the previous one left. Only the two-callback case with a stale captured length is stated, in `AuditChain.StaleCaptureDuplicatesId`.
