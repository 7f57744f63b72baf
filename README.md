# Invitation index of the NodeBB user module

This project models the invitation index that `src/user/invite.ts` (and its
compiled form `src/user/invite.js`) keeps in the forum's key-value store, and
proves what its operations do to it. The store holds five structures:

| store key | model |
|---|---|
| `invitation:uid:{uid}` — emails a user has invited | `InvitationStore.invitees : map<Uid, set<Email>>` |
| `invitation:uids` — the users with pending invitations | `InvitationStore.inviters : set<Uid>` |
| `invitation:uid:{uid}:invited:{email}` — the invitation object | `InvitationStore.sent : map<(Uid, Email), Invitation>` |
| `invitation:invited:{email}` — the tokens issued to an email | `InvitationStore.tokens : map<Email, set<Token>>` |
| `invitation:token:{token}` — the token record and its expiry | `InvitationStore.records : map<Token, TokenRecord>` |

A set key that is missing reads as the empty set (`KeyValueSets.Members`).

The files are laid out as follows:

- `wrappers.dfy` defines `Option`, `Result` and `Outcome`.
- `kv_sets.dfy` holds the store's set commands: `setAdd`, `setRemove` and `getSetMembers`. The store returns set members in an order it chooses, so `GetSetMembers` is a method that picks members nondeterministically. It is proved to list each member exactly once.
- `invite_state.dfy` holds the rest of the value model:
  - the store as a value (`Db`);
  - the invariants the index keeps (`ValidDb`);
  - one specification function per writing operation (`After*`);
  - the two registration-time decisions;
  - the e-mail payload built by `prepareInvitation`.
- `invite_lemmas.dfy` proves three kinds of facts:
  - what each write changes and what it leaves alone;
  - that every write keeps `ValidDb`;
  - properties across operations: issue then clean up, and issue then confirm or join.
- `token_liveness.dfy` proves which operations keep the token index live (`TokensLive`, below).
- `invite_findings.dfy` holds two of the findings below: `deleteFromReferenceList` racing with `prepareInvitation`, and the `groupsToJoin` field that `joinGroupsFromInvitation` cannot parse.
- `invite_store.dfy` defines the class `InvitationStore`. Its five fields are the five keys, and it has one method per operation. Each writing method performs the source's store commands in order and is proved to leave the store in exactly the state its `After*` function describes.
  - The methods for the source's operations also keep the invariants: `DeleteFromReferenceList`, `DeleteInvitation`, `DeleteInvitationByRecordToken`, `DeleteInvitationKey` and `PrepareInvitation`.
  - The helpers they call are proved only against their `After*` functions: `DeleteInvitationsToEmail`, `DeleteReferencesToEmail`, `DeleteInvitationOfToken` and `WriteInvitation`.

The invariants (`ValidDb`) are:

- `InviterIndexExact`: a uid is in `invitation:uids` exactly when its email set is non-empty.
- `SentMatchesInvitees`: the compound record for (uid, email) exists exactly when the email is in the uid's set.
- `RecordsKeyed`: every compound record and token record is stored under the key built from its own fields.
- `CopiesAgree`: a compound record and the live token record for the same token hold the same invitation.

A fifth invariant, `TokensLive`, is kept apart from `ValidDb`. It says every token listed in `invitation:invited:{email}` has a live token record issued to that email.
- Every operation keeps it except `deleteInvitation` as written. That operation keeps it only when the value it reads as the token is listed under no other email.
- The store's own expiry of token records can break it. The model does not include that expiry.

Everything outside the store is a parameter:

- `User.exists`, `User.getUidByUsername` and `User.getUserField`;
- `validator.escape`;
- `translator.translate`;
- `nconf.get('url')` and `meta.config`;
- `Date.now()`;
- the UUID drawn by `utils.generateUUID`. It is required to be fresh: no token record or compound record holds it yet.

The two decision rules return the collaborator call they make as data, or `None` when they make no call. The calls are `confirmByUid(uid)` and `groups.join(groups, uid)`.

## Model

| member | source | states |
|---|---|---|
| KeyValueSets.SetAdd | src/user/invite.ts:205-206 | `setAdd` puts the value in the key's set and changes no other key's set |
| KeyValueSets.SetRemove | src/user/invite.ts:113 | `setRemove` takes the value out of the key's set, changes no other key's set and creates no key |
| KeyValueSets.EnumerationSize | src/user/invite.ts:89 | a listing with no duplicates that covers exactly a set has as many entries as the set has members |
| KeyValueSets.GetSetMembers | src/user/invite.ts:89 | `getSetMembers` returns each member of the set exactly once, in some order, so its length is the set's cardinality |
| InviteStore.InvitationStore.constructor | src/user/invite.ts:87 | the index starts empty, valid, and with a live token index |
| InviteStore.UidsOf | src/user/invite.ts:105 | the uid column of `getAllInvites` lines up entry by entry with its entries |
| InviteStore.EscapeAll | src/user/invite.ts:90 | one escaped string per email, in the same order |
| InviteStore.InvitationStore.GetInvites | src/user/invite.ts:88-91 | the result is the escaped form of a listing of `invitation:uid:{uid}`, and its length is that set's cardinality |
| InviteStore.InvitationStore.GetInvitesNumber | src/user/invite.ts:93-95 | the count is the cardinality of `invitation:uid:{uid}`, the same as the length of `getInvites(uid)` |
| InviteStore.InvitationStore.GetInvitingUsers | src/user/invite.ts:97-99 | lists every member of `invitation:uids` exactly once |
| InviteStore.InvitationStore.GetAllInvites | src/user/invite.ts:101-108 | one entry per inviting uid, each uid once; each entry's invitations are that uid's escaped invites; in a valid store no entry is empty |
| InviteProperties.DeleteFromReferenceListEffect | src/user/invite.ts:111-120 | the email leaves the uid's set and its compound record is deleted; the uid leaves `invitation:uids` exactly when its set became empty; no other uid's set, compound record or token key changes |
| InviteStore.InvitationStore.DeleteFromReferenceList | src/user/invite.ts:111-120 | the store ends in the state `AfterDeleteFromReferenceList` describes, and `ValidDb` and `TokensLive` are kept |
| InviteProperties.DeleteFromReferenceListKeepsInviterIndex | src/user/invite.js:33-42 | the count-then-remove keeps "uid in `invitation:uids` exactly when its set is non-empty" |
| InviteProperties.DeleteFromReferenceListKeepsSentMatch | src/user/invite.js:33-42 | removing the email together with its compound record keeps the two indices in step |
| InviteProperties.DeleteFromReferenceListKeepsValid | src/user/invite.js:33-42 | `deleteFromReferenceList` keeps all four invariants |
| InviteState.ConfirmIfInviteEmailIsUsed | src/user/invite.ts:122-131 | a confirmation of `uid` happens exactly when the entered email is non-empty, the token record exists and its email equals the entered one; the store is only read |
| InviteState.GroupsField | src/user/invite.ts:134 | the `groupsToJoin` field is present exactly when the token record exists |
| InviteState.JoinGroupsFromInvitation | src/user/invite.ts:133-152 | `groups.join` is called exactly when the field is present and non-empty, parses, and the parsed list is non-empty; it is called with exactly the parsed list and the uid |
| InviteStore.InvitationStore.DeleteInvitation | src/user/invite.ts:155-166 | an unresolvable username fails with `[[error:invalid-username]]` and leaves the store unchanged; otherwise it runs the reference-list cleanup and removes the token that was read from the compound key (as written), keeping `ValidDb`, and keeping `TokensLive` when that value is listed under no other email |
| InviteState.ScalarReadAsToken | src/user/invite.ts:160 | the token read from a missing compound key is the string "null" |
| InviteState.RecordToken | src/user/invite.ts:208-213 | a token is found exactly when the compound record exists, and it is the token that record holds |
| InviteProperties.DeleteInvitationEffect | src/user/invite.ts:161-165 | the email leaves the inviter's set and its compound record is gone; the token that was read leaves `invitation:invited:{email}` and its record is deleted; no token record is created |
| InviteProperties.DeleteInvitationKeepsValid | src/user/invite.ts:155-166 | `deleteInvitation` keeps the invariants, whatever token it read |
| InviteStore.InvitationStore.DeleteInvitationByRecordToken | src/user/invite.ts:155-166 | the corrected `deleteInvitation`: the same error case, and the token taken from the compound record's `token` field; `ValidDb` is kept, and so is `TokensLive` in a valid store |
| InviteStore.InvitationStore.DeleteInvitationKey | src/user/invite.ts:168-188 | the store ends in the state `AfterDeleteInvitationKey` describes, and `ValidDb` and `TokensLive` are kept |
| InviteStore.InvitationStore.DeleteInvitationsToEmail | src/user/invite.ts:169-176 | the email branch: every inviting uid's reference list is cleaned, then the email's token set and every token record it listed are deleted |
| InviteStore.InvitationStore.DeleteReferencesToEmail | src/user/invite.ts:170-171 | running `deleteFromReferenceList(uid, email)` for each uid of the `invitation:uids` snapshot, in any order, reaches `AfterDeleteReferences` over the whole snapshot |
| InviteLemmas.DeleteReferencesNone | src/user/invite.ts:171 | before any uid has been cleaned the store is unchanged |
| InviteLemmas.DeleteReferencesStep | src/user/invite.ts:171 | cleaning one more uid equals `deleteFromReferenceList` applied to the store cleaned so far, so the order of the parallel cleanups does not matter |
| InviteProperties.DeleteReferencesEffect | src/user/invite.ts:170-171 | after the loop each inviting uid's set has lost the email; a uid stays in `invitation:uids` exactly when its set is still non-empty; exactly the compound records of (inviting uid, email) are gone; token keys are untouched |
| InviteProperties.DeleteReferencesKeepsInviterIndex | src/user/invite.ts:170-171 | in a store that keeps the inviter index, the loop removes the email from every uid's set and keeps the index exact |
| InviteProperties.DeleteReferencesKeepsSentMatch | src/user/invite.ts:170-171 | the loop keeps compound records and email sets in step |
| InviteProperties.DeleteReferencesKeepsValid | src/user/invite.ts:170-171 | the loop keeps all four invariants and leaves no uid's set holding the email |
| InviteProperties.DeleteByEmailEffect | src/user/invite.ts:173-175 | the email's token set is deleted, together with every token record it listed and no other token record |
| InviteProperties.DeleteByEmailKeepsValid | src/user/invite.ts:169-176 | the email branch keeps the invariants |
| InviteProperties.DeleteByEmailClearsEmail | src/user/invite.ts:169-176 | after the email branch no uid's set and no compound record names the email, its token set is empty and every token record it listed is gone |
| InviteStore.InvitationStore.DeleteInvitationOfToken | src/user/invite.ts:177-187 | the token branch ends in the state `AfterDeleteByToken` describes |
| InviteProperties.DeleteByTokenEffect | src/user/invite.js:91-101 | without a token record nothing changes; otherwise the record's inviter no longer lists its email, the email's whole token set is deleted, and this token record and no other is deleted |
| InviteProperties.DeleteByTokenKeepsValid | src/user/invite.js:91-101 | the token branch keeps the invariants |
| InviteProperties.DeleteInvitationKeyBranches | src/user/invite.js:82-102 | an empty registration email skips the email branch, an empty token skips the token branch, with both empty the store is unchanged, and with a token that record is gone afterwards |
| InviteProperties.DeleteInvitationKeyKeepsValid | src/user/invite.js:82-102 | `deleteInvitationKey` keeps the invariants |
| InviteStore.InvitationStore.PrepareInvitation | src/user/invite.ts:191-237 | a missing inviter fails with `[[error:invalid-uid]]` before any write; otherwise the store ends in `AfterPrepareInvitation` with the expiry `now + inviteExpiration * 86400000`, the payload is the one `BuildPayload` describes, and `ValidDb` and `TokensLive` are kept |
| InviteStore.InvitationStore.WriteInvitation | src/user/invite.ts:205-222 | the six store commands, run in the source's order, give `AfterPrepareInvitation` |
| InviteProperties.PrepareInvitationEffect | src/user/invite.ts:205-222 | the email joins the uid's set and the uid joins `invitation:uids`; the token joins the email's token set; the token record is `{email, token, groupsToJoin, inviter: uid}` with the given expiry; the compound record holds the same invitation; no other set or record changes |
| InviteProperties.PrepareInvitationKeepsInviterIndex | src/user/invite.js:116-117 | the paired `setAdd`s keep "uid in `invitation:uids` exactly when its set is non-empty" |
| InviteProperties.PrepareInvitationKeepsSentMatch | src/user/invite.js:116-119 | adding the email together with its compound record keeps the two indices in step |
| InviteProperties.PrepareInvitationKeepsRecords | src/user/invite.js:119-132 | with a fresh token the two records written are keyed by their own fields and hold identical contents, and they agree with every record already stored |
| InviteProperties.PrepareInvitationKeepsValid | src/user/invite.js:116-133 | `prepareInvitation` keeps all four invariants |
| InviteProperties.InviteIntoEmptyIndex | src/user/invite.ts:205-206 | in an empty index, one invitation leaves exactly one inviting uid, whose set is exactly the invited email |
| InviteProperties.InviteThenRegisterEmptiesIndex | src/user/invite.ts:169-171 | issuing one invitation into an empty index and then cleaning up by its email empties `invitation:uids` again |
| InviteProperties.PrepareThenDeleteByEmail | src/user/invite.ts:169-176 | after an invitation is issued and its email is cleaned up, no uid's set holds the email, its token set is empty and the issued token record is gone |
| InviteProperties.ConfirmAfterPrepare | src/user/invite.ts:126-130 | right after an invitation is issued, registering with its token confirms exactly when the entered email is the invited one |
| InviteProperties.ConfirmAfterDeleteByEmail | src/user/invite.ts:126-130 | once an email's invitations are cleaned up, none of its tokens confirms anything |
| InviteProperties.JoinAfterPrepare | src/user/invite.ts:134-151 | corrected: when the field holds an encoding that `JSON.parse` reads back, as `JSON.stringify` would write, the join call after registration carries exactly the issued groups, and there is none for an empty list |
| InviteProperties.JoinAfterDeleteByToken | src/user/invite.ts:134-138 | a deleted token record makes no join call |
| TokenLiveness.EmptyIndexTokensLive | src/user/invite.ts:87 | the empty index lists no token, so its token index is live |
| TokenLiveness.DeleteFromReferenceListKeepsTokensLive | src/user/invite.ts:111-120 | `deleteFromReferenceList` writes no token key, so the token index stays live |
| TokenLiveness.PrepareInvitationKeepsTokensLive | src/user/invite.ts:215-222 | the fresh token is listed under its own email beside its new record, and no other record is overwritten, so the token index stays live |
| TokenLiveness.DeleteInvitationKeepsTokensLive | src/user/invite.ts:161-165 | `deleteInvitation` keeps the token index live whenever the token it removes is listed under no other email |
| TokenLiveness.DeleteInvitationByRecordTokenKeepsTokensLive | src/user/invite.ts:155-166 | in a valid store the compound record's own token is listed under its own email only, so the corrected `deleteInvitation` keeps the token index live |
| TokenLiveness.DeleteByEmailKeepsTokensLive | src/user/invite.ts:173-175 | deleting an email's token set with its records leaves every other email's tokens live |
| TokenLiveness.DeleteByTokenKeepsTokensLive | src/user/invite.js:91-101 | the token branch deletes the record's email's whole token set with this record, so the tokens it leaves are live |
| TokenLiveness.DeleteInvitationKeyKeepsTokensLive | src/user/invite.js:82-102 | `deleteInvitationKey` keeps the token index live |
| TokenLiveness.DeleteFromReferenceListKeepsInvariants | src/user/invite.js:33-42 | `deleteFromReferenceList` keeps `ValidDb` and `TokensLive`, each whenever it held before |
| TokenLiveness.PrepareInvitationKeepsInvariants | src/user/invite.js:116-133 | with a fresh token, `prepareInvitation` keeps `ValidDb` and `TokensLive`, each whenever it held before |
| InviteFindings.DeleteFromReferenceListInSteps | src/user/invite.ts:112-119 | run without interleaving, removing the reference, counting, then dropping the uid on a zero count is the whole operation, and equals dropping the uid in the same step that finds its set empty |
| InviteFindings.RemoveReferenceLoosensIndex | src/user/invite.ts:112-115 | after the first two commands, every uid with a non-empty set is still listed, and only `uid` may be listed with an empty set |
| InviteFindings.PrepareKeepsLooseIndex | src/user/invite.ts:205-206 | a `prepareInvitation` that slips in keeps that looser index |
| InviteFindings.DropInviterIfEmptyTightensIndex | src/user/invite.ts:116-119 | dropping `uid` in the same step that finds its set empty makes the index exact again |
| InviteFindings.SingleInvitationValid | src/user/invite.ts:205-222 | the starting store of the race below, where uid "1" has invited only "a", keeps every invariant |
| InviteFindings.InterleavedPrepareBreaksInviterIndex | src/user/invite.ts:116-118 | as written: `deleteFromReferenceList("1", "a")` counts zero, `prepareInvitation("1", "b")` runs before the drop, and "1" then leaves `invitation:uids` although its set holds "b" |
| InviteFindings.InterleavedPrepareKeepsInviterIndex | src/user/invite.ts:111-120 | corrected: when the drop re-reads the set in the same step, a `prepareInvitation` of any uid slipped in after the removal leaves the inviter index exact |
| InviteFindings.ArrayFieldTextOfTwo | src/user/invite.ts:216-221 | a two-element array is stored as its elements joined by a comma |
| InviteFindings.JoinAfterPrepareArrayField | src/user/invite.ts:134-145 | as written: issuing `["g1", "g2"]` stores the field text "g1,g2"; `JSON.parse` rejects that text, so no join call is made after registration |
| InviteState.SiteTitle | src/user/invite.ts:226 | `site_title` is `title`, else `browserTitle`, else `'NodeBB'`, and is never empty |
| InviteState.Language | src/user/invite.ts:224 | the language is `defaultLang`, else `'en'` |
| InviteState.RegisterLink | src/user/invite.ts:199 | the link is the site url, then `/register?token=`, then the token, so the token can be read back from its tail |
| InviteState.ExpireAt | src/user/invite.ts:200-201 | the expiry lies a whole number of days, `inviteExpiration`, after `now`, and lies after `now` when that number is positive |
| InviteState.BuildPayload | src/user/invite.ts:224-236 | every field of the payload: the site title, the register link, the subject translated into the payload language, the inviter's username, the `'invitation'` template, and `expireDays` echoing `inviteExpiration` |
| InviteProperties.DeleteInvitationAsWrittenKeepsToken | src/user/invite.ts:160-164 | as written, whenever the store's reading of the compound object differs from the invitation's token, the live token record and its entry in `invitation:invited:{email}` survive `deleteInvitation` |
| InviteProperties.DeleteInvitationAsWrittenCounterexample | src/user/invite.ts:160-164 | a concrete run in which the invitation disappears from the inviter's list while its token record "T" stays live |
| InviteProperties.DeleteInvitationByRecordTokenRemovesInvitation | src/user/invite.ts:155-166 | with the token taken from the compound record, `deleteInvitation` removes the invitation from every index, deletes its token record and keeps the invariants |

## Left out

- The database engine, and the store's automatic expiry of token records. The expiry timestamp is stored as a field, and the passage of time is not modelled.
- `Date.now()`, `nconf.get('url')`, `meta.config`, `utils.generateUUID`, `validator.escape`, `translator.translate`, `JSON.parse` and the `User.*` directory calls are parameters, not code.
  - The UUID is a caller-supplied token that `PrepareInvitation` requires to be fresh.
  - `JSON.parse` is a function that gives `None` where it would throw. A parse result that is not a list is not modelled.
  - `render`, the text a store field holds for the stored `groupsToJoin` array, is a parameter because it depends on the database backend. `InviteState.ArrayFieldText` models the comma-joined text that JavaScript's `String(array)` gives. `InviteProperties.JoinAfterPrepare` assumes a rendering that `JSON.parse` reads back. The source never arranges that round trip, since it writes the raw array (see Findings).
- `emailer._defaultPayload` is foreign data. The payload models only the six fields `prepareInvitation` sets on top of it.
- `inviteExpiration` is a JavaScript number. The model takes it as an integer number of days, so fractional days and floating-point rounding are not modelled.
- `Promise.all` concurrency. The parallel steps touch distinct keys and set removal commutes, so they run one after another. The per-uid cleanups in `deleteInvitationKey` run in any order (`DeleteReferencesStep`).
- Interleaving of separate calls. Each operation is one sequence of awaited store commands, and other calls can run between them. The methods and the `*KeepsValid` and `*KeepsTokensLive` lemmas treat each call as running to completion before the next starts, so they hold only for such runs. `InviteFindings` shows one interleaving that breaks `InviterIndexExact` (see Findings). No other interleaving is modelled.
- Thrown errors become `Failure`/`Fail` results.
- Falsy values are modelled as follows:
  - an unresolved username is `None` or the empty string;
  - an empty argument is `""`.
- `sendInvitationEmail` and `verifyInvitation` are declared without a body in these files, so they are not modelled. The same goes for duplicate-invitation rejection and the "email already registered" no-op.
- Runtime wiring is not modelled:
  - `src/user/invite.ts` imports `groups` and `utils` (lines 9 and 11) and also re-declares them with `declare const` (lines 81-82);
  - the compiled `src/user/invite.js` does not import them at all (lines 5-10);
  - `prepareInvitation` and `joinGroupsFromInvitation` are modelled as if both resolve.
- `db.get` of a key that holds an object is modelled by the `storedScalar` parameter, the store's scalar rendering of that object. A missing key reads `null`, and the key template renders it as "null".
- `confirmByUid` and `groups.join` are not performed. The decision functions return the call they would make.
- InviteStore.InvitationStore.DeleteInvitation: keeps `TokensLive` only when the value it reads as the token is listed under no other email. The contract states exactly that condition, because as written the read value is not the invitation's token.
- InviteStore.InvitationStore.GetAllInvites: the entries come in the order of one `getInvitingUsers` listing. Because the store's order is left open, the contract does not tie them to a separate call's listing.

## Findings

| source | as written | input that shows it | evidently intended | confidence | as-written member | corrected member |
|---|---|---|---|---|---|---|
| src/user/invite.ts:160 (also src/user/invite.js:75) | `deleteInvitation` reads the token with `db.get` of `invitation:uid:{uid}:invited:{email}`. `prepareInvitation` stored the whole `{email, token, groupsToJoin, inviter}` object under that key (src/user/invite.ts:208-213), so the value read back is not the token. | uid "1" invites "bob@example.com" with token "T". The store reads the object back as "[object Object]". After `deleteInvitation`, the email has left the inviter's list, but record "T" is still live and still listed for the email. | Remove the invitation's own token: take it from the record's `token` field. | not executed | InviteProperties.DeleteInvitationAsWrittenCounterexample | InviteProperties.DeleteInvitationByRecordTokenRemovesInvitation |
| src/user/invite.ts:116-118 (also src/user/invite.js:38-40) | `deleteFromReferenceList` reads the uid's `setCount` and then, in a later command, removes the uid from `invitation:uids` if the count was zero. A `prepareInvitation` for the same uid can run between the two. | uid "1" has invited only "a". `deleteFromReferenceList("1", "a")` counts zero. `prepareInvitation("1", "b")` then adds "b" and re-adds "1". The delete finally removes "1", which leaves "1" with {"b"} but missing from `invitation:uids`, so `getAllInvites` no longer lists that invitation. | Drop the uid only if its set is still empty at the moment of the drop. | not executed | InviteFindings.InterleavedPrepareBreaksInviterIndex | InviteFindings.InterleavedPrepareKeepsInviterIndex |
| src/user/invite.ts:216-221 (read back at src/user/invite.ts:134-142; also src/user/invite.js:127-132 and 54-60) | `prepareInvitation` writes `groupsToJoin` into the token record as a raw array; the comment there says "array of strings". `joinGroupsFromInvitation` reads that field back and passes it to `JSON.parse`. No `JSON.stringify` appears anywhere. | The groups `["g1", "g2"]` are stored. A field value kept as text reads back as "g1,g2", which is `String(array)`; an array handed to `JSON.parse` is turned into the same text first. `JSON.parse` rejects "g1,g2". The catch branch returns, so the new user joins no group. | Store `JSON.stringify(groupsToJoin)`, so the field parses back to the issued list. | not executed | InviteFindings.JoinAfterPrepareArrayField | InviteProperties.JoinAfterPrepare |
