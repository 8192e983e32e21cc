# acceptInvite: a Dafny model

This project models the `acceptInvite` callable of the Cloud-Notes
Firebase functions. A signed-in user redeems an invite code, which is a
workspace's own document id. If every check passes, the user is added to
that workspace's `members` map with the role the owner configured. Their
display name goes into `memberNames`.

The handler is a fixed pipeline, and each step can reject the call:

1. the caller must be signed in;
2. the code must be a string that is not blank after trimming;
3. a workspace must exist under the trimmed code;
4. the caller must not be its owner;
5. the caller must not already be a member;
6. invites must be enabled;
7. the role must resolve to "editor" or "viewer".

Then one write replaces `members`, `memberNames` and `updatedAt`.

In the model:

- Dynamically typed inputs are a small JavaScript value type (`Js.JsValue`) with JavaScript truthiness. This covers `workspaceId`, `ownerId`, `inviteEnabled` and `inviteRole`.
- The `workspaces` collection is a map snapshot passed in.
- The server clock is a `now` parameter.
- The write is returned as a value (`Invite.Update`). `Invite.Invoke` applies it to the snapshot.
- `String.prototype.trim` and `String.prototype.split` are modelled in `JsStrings`. Trimming uses the full ECMAScript whitespace and line-terminator set.

Modules:

- `Wrappers`: `Option`.
- `Js`: JavaScript values and truthiness.
- `JsStrings`: trim, split, join and their lemmas.
- `Invite`: the handler. `AcceptInvite` is the corrected membership reading. `AcceptInviteAsWritten` is the literal one (see Findings).
- `InviteProperties`: lemmas relating calls, invariants and the worked examples.

Three points of the code's behaviour that are easy to misread:

- Only a *falsy* `inviteRole` (absent, `null`, `""`, `false`, `0`) defaults to "viewer". Any other value that is not exactly "editor" or "viewer" is rejected with `internal`.
- The membership check tests the truthiness of `members[uid]`. It does not test key presence, so it also sees properties inherited from `Object.prototype` (see Findings).
- The write replaces the whole `members` and `memberNames` maps rather than single entries, so a concurrent joiner's entry can be overwritten. This race is outside the model (see Left out).

## Model

| member | source | states |
|---|---|---|
| `JsStrings.Trim` | functions/src/index.ts:17 | The trimmed code has no whitespace at either end. It is a contiguous piece of the input, and everything cut from both sides is whitespace. It is empty exactly when the input is all whitespace. |
| `JsStrings.TrimPadded` | functions/src/index.ts:17 | Trimming whitespace padding away from an untrimmable string gives back that string. |
| `JsStrings.TrimIdempotent` | functions/src/index.ts:17 | Trimming an already trimmed code changes nothing. |
| `JsStrings.Split` | functions/src/index.ts:51 | `split("@")` yields at least one piece. No piece contains the separator, and the pieces joined with the separator give back the email. |
| `JsStrings.SplitJoin` | functions/src/index.ts:51 | Splitting a join of separator-free pieces gives back the pieces. Together with Split's contract, this makes split and join inverses. |
| `JsStrings.BeforeFirst` | functions/src/index.ts:51 | `split("@")[0]` is a prefix of the email that contains no "@". It is either the whole email or is followed by an "@". |
| `JsStrings.BeforeFirstStopsAtSeparator` | functions/src/index.ts:51 | For `local@rest`, with no "@" in `local`, the first piece is exactly `local`. |
| `Invite.InviteCode` | functions/src/index.ts:17-20 | A code exists exactly when `workspaceId` is a string that is not all whitespace. The code is then the trimmed string and is non-empty. |
| `Invite.ResolveRole` | functions/src/index.ts:45-48 | A resolved role is always editor or viewer. A falsy `inviteRole` resolves to viewer. A truthy one resolves only when it is exactly the string "editor" or "viewer", and then to itself. Anything else is the internal error. |
| `Invite.DisplayName` | functions/src/index.ts:50-51 | The display name is never empty. A given name claim wins. Otherwise the name is the part of the email before its first "@", when that part is non-empty. Failing both, it is "Member". |
| `Invite.Admit` | functions/src/index.ts:28-55 | Each error kind holds exactly under its condition, in the source's order of precedence. Owner: `invalid-argument`, before every other check. Existing member or invites disabled: `failed-precondition`, with the membership check first. Unresolvable role: `internal`. On success, only the caller's key is set in each map. Its role is the one `ResolveRole` gives for the owner's `inviteRole`, and its name is the derived display name. The write is stamped with `now`. |
| `Invite.Handle` | functions/src/index.ts:12-64 | The checks run in the source's order for either reading of `members[uid]`. With no caller the result is `unauthenticated`, and only then. With a caller but no usable code it is `invalid-argument`. With a code that has no workspace it is `not-found`, and only then. Otherwise the checks against the stored workspace decide. |
| `Invite.AcceptInvite` | functions/src/index.ts:12-64 | With no caller the result is always `unauthenticated`, whatever the input and the store. A code that is missing, not a string or blank gives `invalid-argument`. A trimmed code with no workspace gives `not-found`. Otherwise the workspace stored under the trimmed code decides. |
| `Invite.AcceptInviteAsWritten` | functions/src/index.ts:36-39 | The literal `members[uid]` test differs from the own-key test in one case only. That is a caller who is not in the map and whose uid names an `Object.prototype` property. Such a caller is rejected with `failed-precondition`. Conversely, every such caller who is not the owner is rejected with `failed-precondition`, whatever the invite settings. |
| `Invite.Apply` | functions/src/index.ts:57-61 | The update writes `members`, `memberNames` and `updatedAt` from the update. Every other field of the document (`ownerId`, `inviteEnabled`, `inviteRole`) is kept. |
| `Invite.Invoke` | functions/src/index.ts:53-61 | A rejected call writes nothing. A successful call rewrites only the workspace under the trimmed code, with that document's other fields kept. Every other workspace is untouched. |
| `InviteProperties.MemberTestIsKeyPresence` | functions/src/index.ts:36-39 | When every role is valid, the truthiness test on `members[uid]` is the same as key presence. |
| `InviteProperties.JoinAddsOnlyCaller` | functions/src/index.ts:53-61 | On a valid workspace, a join adds the caller as a new key to both maps and keeps every other entry. Each map grows by one, and the display name is non-empty. `ownerId`, `inviteEnabled` and `inviteRole` are untouched. |
| `InviteProperties.JoinPreservesValid` | functions/src/index.ts:53-61 | A join keeps the workspace invariants. The two maps keep the same key set, the owner stays out of `members`, and every role stays editor or viewer. |
| `InviteProperties.InvokePreservesStoreValid` | functions/src/index.ts:57-61 | No call, successful or rejected, breaks the invariants of any workspace in the store. |
| `InviteProperties.SecondCallRejected` | functions/src/index.ts:36-61 | After a successful join, the same caller calling again with the same code gets `failed-precondition`, and the store is left exactly as the first call left it. |
| `InviteProperties.SameCodeSameOutcome` | functions/src/index.ts:17-26 | The handler depends on `workspaceId` only through the trimmed invite code. |
| `InviteProperties.PaddedCodeSameOutcome` | functions/src/index.ts:17-23 | A code surrounded by whitespace gives the same result as the bare code. |
| `InviteProperties.JoinWithName` | functions/src/index.ts:50-55 | Example: caller u2 with name "Alice" joins an open editor-role workspace owned by u1. The write is `members {u2: editor}` and `memberNames {u2: Alice}`. |
| `InviteProperties.JoinNamedByEmail` | functions/src/index.ts:51-55 | With no name claim and email `local@domain`, the joined member's display name is `local`. |
| `InviteProperties.EmailLocalPart` | functions/src/index.ts:51 | Example: the email "bob@x.com" gives the display name "bob". |
| `InviteProperties.JoinWithoutClaims` | functions/src/index.ts:51-55 | Example: with neither claim, the joined member is named "Member". |
| `InviteProperties.OwnerRejected` | functions/src/index.ts:32-34 | Example: the owner u1 trying to join gets `invalid-argument`, and the store is unchanged. |
| `InviteProperties.RoleDefaults` | functions/src/index.ts:45-48 | Example: with `inviteRole` absent, the new member becomes a viewer. With `inviteRole` "admin", the call fails with `internal`. |
| `InviteProperties.PrototypeNameCounterexample` | functions/src/index.ts:37-39 | Example: a caller with uid "constructor" is refused as an existing member of a workspace with no members. The own-key reading admits them. |

## Left out

- Firebase initialisation and the module-wide Firestore client (functions/src/index.ts:1-6) are foreign SDK calls. The store is a snapshot parameter.
- The asynchronous `get` and `update` calls (functions/src/index.ts:23, 57) become a map lookup and a returned update. A store failure, which the caller sees as an internal error, is not modelled.
- Two callers joining the same workspace at once is not modelled. Both read the same snapshot, and the later whole-map write drops the earlier joiner's entry. This is store concurrency, not visible in one call.
- The store is keyed by the trimmed code verbatim. `doc(workspaceId)` (functions/src/index.ts:22) treats "/" as a path separator, so a code containing "/" may name another document, a subcollection document, or an invalid path that fails as `internal`. Such codes are not modelled.
- `Timestamp.now()` (functions/src/index.ts:60) is the opaque `now` parameter.
- The human-readable messages and the success payload `{ success: true, message }` (functions/src/index.ts:63) are not modelled. Only the error kind, or `Joined` with the write, is kept.
- JavaScript numbers are modelled as integers, so `NaN`, which is falsy, and fractions are not represented. This only matters if `inviteEnabled` or `inviteRole` holds such a number.
- `members` or `memberNames` fields that hold a truthy non-object, and map entries or token claims that are not strings, are not modelled. A missing or `null` map reads as an empty map, as the source's `|| {}` makes it.
- Strings are sequences of Unicode scalar values, not UTF-16 code units. This changes nothing for `trim` and `split("@")`, because every whitespace code point and "@" is a single code unit. Lone surrogates cannot be written, though.
- Which code points count as whitespace follows the current Unicode "Space_Separator" list. An engine built on an older Unicode version may differ.

## Findings

| source | as written | input that shows it | evidently intended | confidence | as-written member | corrected member |
|---|---|---|---|---|---|---|
| functions/src/index.ts:36-39 | `members[uid]` is a JavaScript property read on a plain object. It also finds the twelve properties inherited from `Object.prototype`, all truthy. | Caller uid "constructor" (custom-token uids are arbitrary strings), a workspace with invites enabled and no members: the call is refused with `failed-precondition`, "already a member". | Refuse only callers who have their own entry in `members`. | medium; not executed | `Invite.AcceptInviteAsWritten`, with `InviteProperties.PrototypeNameCounterexample` | `Invite.AcceptInvite`, with `InviteProperties.MemberTestIsKeyPresence` and `InviteProperties.SecondCallRejected` |

The corrected model adds the caller's key even for uid "__proto__". A
JavaScript assignment `members["__proto__"] = role` would instead try to
replace the object's prototype and add no key. That assignment is never
reached as written, because such a uid is already refused at line 37.
