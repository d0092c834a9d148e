# Chat application core, modelled in Dafny

This project models the server core and the pure client logic of a real-time
chat application. The backend runs on Convex and signs users in with Clerk.
Video calls go through ZEGOCLOUD.

The model covers:

- **The identity reconciler** (`Users`, `Reconciler`). This is the `users` table and the four internal mutations Clerk webhooks drive:
  - `createUser` is an upsert.
  - `updateUser` changes the image.
  - `setUserOnline` inserts a guest row when the user is unknown.
  - `setUserOffline` is a no-op when the user is unknown.

  The two queries `getUsers` and `getMe` are modelled too. Deliveries may arrive in any order. The lemmas show that:
  - one row per token identifier is an invariant;
  - a row exists exactly when a `user.created` or `session.created` was seen;
  - presence follows the last session event;
  - `user.created` is idempotent;
  - a guest row is enriched in place.
- **The webhook endpoint** (`Http`). `POST /clerk` checks the svix headers and calls the `fulfill` action. That action refuses to run without a secret and otherwise returns the verification outcome. The endpoint then dispatches by event type and maps every error to 400, 401 or 500.
- **Date labels** (`Dates`, `MessageUtils`). This covers:
  - `formatDate`, `isSameDay` and `getRelativeDateTime`;
  - the chat-bubble helpers `formatMessageTime`, `isLinkMessage`, `getMessageBackgroundClass` and `shouldShowDateIndicator`;
  - the link test of `TextMessage`.
- **`randomID`** (`RandomId`), on both of its random sources.
- **Environment validation** (`Env`). It covers `validateEnvVars` in `constants.ts`, and `requiredEnv` with the three constants it loads in `constantes.ts`.
- **The ZEGOCLOUD token** (`ZegoToken`, `Base64`). It covers:
  - the argument checks;
  - `getAlgorithm`, the nonce and the random IV;
  - the binary frame: a 64-bit expiry, then the IV length, the IV, the ciphertext length and the ciphertext;
  - the `"04"` + base64 token.

  The lemmas show that the frame and the base64 text read back.
- **The security headers** (`SecurityHeaders`). `headers()` in `next.config.ts` builds a Content-Security-Policy. The lemmas show that:
  - `'unsafe-eval'` and web sockets appear exactly in development;
  - the Clerk hosts appear exactly when a publishable key is set;
  - the rendered policy parses back into its directives.
- **Three UI state machines** (`MessageInput`, `UserListDialog`, `MediaDropdown`). Each handler is a pure function from the component state and the outcome of its awaited calls to the requests it issues and the next state.

Shared modules:

- `Wrappers`: `Option` and `Result`.
- `Strings`:
  - JavaScript's `trim`, `split`, `join`, `includes` and `padStart`;
  - decimal rendering and its parser.

Conventions:

- **Randomness and the clock.** `Math.random`, `crypto.getRandomValues` and `Date.now` become parameters.
- **The environment.** Variables are a map or `Option`s, and the empty string counts as unset, as JavaScript's truthiness has it.
- **External libraries.** Svix signature verification and AES encryption are parameters. Verification is its outcome. AES is a function from the algorithm name, the token information, the key and the IV to the ciphertext.
- **Local time.** It is a fixed offset in milliseconds from UTC.

## Model

| member | source | states |
|---|---|---|
| Users.IdsFrom | convex/users.ts:119 | the ids `.collect()` yields are exactly the table's ids in the range, in strictly increasing (insertion) order |
| Users.Matching | convex/users.ts:13-16 | the index scan returns exactly the ids whose row carries the token, and keeps increasing id order |
| Users.FindByToken | convex/users.ts:13-16 | `.unique()` returns the one matching id, nothing exactly when no row has the token, and a failure only when two rows share it; on a valid table it never fails |
| Users.FindInValid | convex/users.ts:48-51 | on a valid table, the lookup of a row's token returns that row's id |
| Users.Insert | convex/users.ts:29-35 | an insert allocates the next id and adds exactly that row |
| Users.CreateUser | convex/users.ts:4-40 | upsert: an existing row for the token is overwritten with the given profile and is online, under its old id; otherwise a new online row is inserted under a fresh id; it never fails on a valid table |
| Users.UpdateUser | convex/users.ts:42-61 | fails with "User not found" exactly when no row has the token; otherwise only that row's image changes |
| Users.SetUserOnline | convex/users.ts:63-87 | an existing row goes online and nothing else changes; an unknown user gets a guest row with the placeholder e-mail, name and image, online |
| Users.SetUserOffline | convex/users.ts:89-109 | an unknown user leaves the table unchanged without error; otherwise exactly that row goes offline |
| Users.Rows | convex/users.ts:119 | `.collect()` lists the stored users in increasing id order: the rows of exactly the issued ids that are stored, each once |
| Users.Others | convex/users.ts:120 | keeps exactly the users whose token differs from the caller's |
| Users.OthersConcat | convex/users.ts:120 | the filter works element by element: filtering a concatenation filters each part and keeps the parts in order |
| Users.Excluding | convex/users.ts:120 | the ids kept are exactly those whose row's token differs, in the order given, so an increasing list stays increasing |
| Users.OthersOfRows | convex/users.ts:119-120 | filtering the listed rows gives the rows of the kept ids, in the same order |
| Users.ExcludingExact | convex/users.ts:119-120 | the kept ids of the whole table are increasing and are exactly the stored ids whose token differs |
| Users.GetUsers | convex/users.ts:111-122 | fails with "Unauthorized" exactly without an identity; otherwise lists exactly the other users, in increasing id order, and never the caller |
| Users.GetMe | convex/users.ts:124-143 | fails with "Unauthorized" exactly without an identity; on a valid table returns the caller's row, or "User not found" when there is none |
| Reconciler.CreatePresent | convex/users.ts:13-27 | `createUser` for a known token patches that row in place and returns its id |
| Reconciler.CreateAbsent | convex/users.ts:29-38 | `createUser` for an unknown token inserts one online row under the next id |
| Reconciler.UpdatePresent | convex/users.ts:57-59 | `updateUser` on a known token changes that row's image only |
| Reconciler.OnlinePresent | convex/users.ts:85 | `setUserOnline` on a known token sets only `isOnline` |
| Reconciler.OnlineAbsent | convex/users.ts:73-82 | `setUserOnline` on an unknown token inserts the guest row |
| Reconciler.OfflinePresent | convex/users.ts:105 | `setUserOffline` on a known token clears only `isOnline` |
| Reconciler.Apply | convex/users.ts:4-109 | on a valid table a mutation fails exactly when it is `updateUser` for an unknown token |
| Reconciler.Next | convex/users.ts:53-55 | a failed `updateUser` of an unknown user is rolled back: the table is unchanged |
| Reconciler.PatchStep | convex/users.ts:19-24 | a patch of the token's own row is a well-behaved step: one row per token, other rows untouched |
| Reconciler.InsertStep | convex/users.ts:75-81 | an insert for an unknown token is a well-behaved step |
| Reconciler.NextStep | convex/users.ts:4-109 | every delivery changes at most the row of its own token, keeps all ids and adds a row only for an unknown token |
| Reconciler.NextValid | convex/users.ts:4-109 | every delivery keeps the one-row-per-token invariant |
| Reconciler.ApplyPreservesValid | convex/users.ts:4-109 | a successful mutation keeps the invariant |
| Reconciler.ReplayLast | convex/users.ts:4-109 | replaying a sequence of deliveries is replaying its prefix, then its last delivery |
| Reconciler.Replay | convex/users.ts:4-109 | any order of deliveries keeps the invariant and keeps every existing row with its token |
| Reconciler.ReplayKeepsRows | convex/users.ts:4-109 | no delivery deletes a row or changes its token |
| Reconciler.PresenceFollowsLastEvent | convex/users.ts:63-109 | after any sequence, every row of a token is online exactly as the last session or profile event for it left it |
| Reconciler.NextHasToken | convex/users.ts:29-35 | a token has a row after a delivery exactly when it had one before or the delivery inserts it |
| Reconciler.RowExistsIff | convex/users.ts:4-109 | a token has a row after a sequence exactly when it had one or some delivery was `createUser` or `setUserOnline` for it |
| Reconciler.InsertsSplit | convex/users.ts:29-35 | a sequence has an inserting delivery exactly when its prefix or its last delivery has one |
| Reconciler.CreateIdempotent | convex/users.ts:13-27 | applying the same `createUser` twice gives the same table and id as applying it once |
| Reconciler.EnrichmentKeepsId | convex/users.ts:12-27 | a guest row from `setUserOnline` is patched by `createUser` under the same id, and it stays the user's only row |
| Reconciler.OfflineFirstIsNoop | convex/users.ts:99-103 | a session end for an unknown user changes nothing and raises no error |
| Reconciler.ReplayThree | convex/users.ts:4-109 | three deliveries replay as three steps in order |
| Reconciler.NextCreateAbsent | convex/users.ts:29-35 | closed form of a first `createUser`, keeping the invariant |
| Reconciler.NextCreatePresent | convex/users.ts:18-24 | closed form of `createUser` over an existing row, keeping the invariant |
| Reconciler.NextOnlineAbsent | convex/users.ts:73-81 | closed form of a first `setUserOnline`, keeping the invariant |
| Reconciler.NextOnlinePresent | convex/users.ts:85 | closed form of `setUserOnline` over an existing row |
| Reconciler.NextOfflinePresent | convex/users.ts:105 | closed form of `setUserOffline` over an existing row, keeping the invariant |
| Reconciler.ScenarioSessionFirst | convex/users.ts:63-109 | session, profile, session end: exactly one new row holding the profile, offline |
| Reconciler.ScenarioProfileFirst | convex/users.ts:4-87 | profile, session end, session: exactly one new row holding the profile, online |
| Http.Issuer | convex/http.ts:10-13 | the issuer is `CLERK_JWT_ISSUER_DOMAIN` when set, else `CLERK_APP_DOMAIN` when set, else empty |
| Http.Fulfill | convex/clerk.ts:17-32 | without a secret it fails with the missing-secret message; otherwise it succeeds exactly on a verified payload, returning its event, and passes the verification error on |
| Http.TokenFor | convex/http.ts:51 | the token identifier is the issuer, `|`, then the Clerk id |
| Http.Dispatch | convex/http.ts:47-77 | maps each handled event type to its mutation on `issuer|id` (or `issuer|user_id` for sessions); a created user gets the first e-mail address, the first and last name joined by a space and the image URL, an updated one the image URL; other types do nothing; `user.created` without an e-mail address fails |
| Http.DisplayName | convex/http.ts:53 | the name is the first name (or "Guest"), one space, then the last name (or "") |
| Http.ErrorResponse | convex/http.ts:82-100 | a message containing either svix signature error is a 401, anything else a 500 |
| Http.Handle | convex/http.ts:24-101 | the status is one of 200/400/401/500; 400 exactly when a svix header is missing; only a 200 has no body; any non-200 leaves the table unchanged |
| Http.NotSignatureError | convex/http.ts:86-99 | a message that cannot contain either signature phrase yields the generic 500 |
| Http.MissingHeadersRefused | convex/http.ts:28-33 | a missing header gives 400 "Missing Svix headers" and no mutation |
| Http.MissingSecretFailsClosed | convex/clerk.ts:18-20 | without a webhook secret every request with headers is a 500 and changes nothing |
| Http.SignatureRejected | convex/http.ts:86-94 | a failed signature check is a 401 and changes nothing |
| Http.UnknownEventIgnored | convex/http.ts:47-81 | a verified event of an unhandled type is acknowledged with 200 and changes nothing |
| Http.UpdateOfUnknownUserIs500 | convex/http.ts:57-63 | `user.updated` for a user without a row is a 500 and changes nothing |
| Http.CreateWithoutEmailIs500 | convex/http.ts:48-56 | `user.created` without an e-mail address is a 500 and changes nothing |
| Http.HandleIsNext | convex/http.ts:24-81 | without a dispatched mutation the table is unchanged; with one, the table is the reconciler step of that mutation and the status is 200 exactly when the mutation succeeds |
| Http.HandlePreservesValid | convex/http.ts:24-101 | no request breaks the one-row-per-token invariant |
| Http.HandleFailsOnlyFor | convex/http.ts:47-100 | with headers and a secret, a verified event fails exactly for `user.created` without an e-mail address or `user.updated` of an unknown user |
| Http.TokenForInjective | convex/http.ts:51 | different Clerk ids under one issuer get different token identifiers |
| Http.DisplayNameSplits | convex/http.ts:53 | when neither name contains a space, the stored name splits back into the first name (or "Guest") and the last name (or "") |
| Http.CreateRedeliveryIdempotent | convex/http.ts:48-56 | delivering the same `user.created` twice leaves the table as one delivery does |
| Dates.StartOfDay | src/lib/utils.ts:11-15 | local midnight is at most the instant and less than a day before it, and lies on the same local day |
| Dates.Hour | src/components/home/chat-bubble/api/message-utils.ts:5 | the local hour is below 24 |
| Dates.Minute | src/components/home/chat-bubble/api/message-utils.ts:6 | the minute is below 60 |
| Dates.IsSameDay | src/lib/utils.ts:39-47 | two instants are on the same day exactly when their local midnights coincide, and they are then less than a day apart |
| Dates.DayShift | src/lib/utils.ts:61-62 | going back k whole days lowers the day number by k |
| Dates.FormatDate | src/lib/utils.ts:8-37 | today shows the clock time, the day before "Yesterday", two to six days back the weekday, anything else (including the future) the numeric date |
| Dates.RelativeDateTime | src/lib/utils.ts:53-83 | no label exactly when the previous message is on the same day; otherwise "Today", "Yesterday", the weekday for days after one week ago, else the numeric date |
| Dates.LabelsAgreeOnThePast | src/lib/utils.ts:21-81 | for past days the conversation label and the bubble date agree |
| Dates.FutureDaysDisagree | src/lib/utils.ts:29-81 | for a future day the bubble shows the numeric date and the conversation label the weekday |
| Dates.LabelShownIndependentOfNow | src/lib/utils.ts:67 | whether a label is shown does not depend on the current time |
| MessageUtils.FormatMessageTime | src/components/home/chat-bubble/api/message-utils.ts:3-8 | always five characters `dd:dd` |
| MessageUtils.TwoDigits | src/components/home/chat-bubble/api/message-utils.ts:5-6 | a number below 100 padded to two digits reads back as itself |
| MessageUtils.FormatMessageTimeParses | src/components/home/chat-bubble/api/message-utils.ts:3-8 | the two fields read back as the local hour and minute |
| MessageUtils.JoinFields | src/components/home/chat-bubble/api/message-utils.ts:7 | two two-digit fields joined by `:` can each be cut back out |
| MessageUtils.AllLinkCharsIff | src/components/home/chat-bubble/api/message-utils.ts:11 | the recursive character test is `[^ "]` on every character |
| MessageUtils.LinkRest | src/components/home/chat-bubble/api/message-utils.ts:11 | a returned rest follows one of `ftp`, `http`, `https` and `://` |
| MessageUtils.LinkRestFinds | src/components/home/chat-bubble/api/message-utils.ts:11 | every scheme prefix is recognised |
| MessageUtils.MatchesLinkIff | src/components/home/chat-bubble/api/message-utils.ts:11 | the scheme-then-rest matcher accepts exactly the strings of the regular expression |
| MessageUtils.IsLinkMessage | src/components/home/chat-bubble/api/message-utils.ts:10-12 | the text is a link exactly for a scheme, `://` and a non-empty rest without spaces or double quotes |
| MessageUtils.BackgroundClass | src/components/home/chat-bubble/api/message-utils.ts:14-18 | each of the three classes is chosen exactly in its case, own messages first |
| MessageUtils.ShouldShowDateIndicator | src/components/home/chat-bubble/api/message-utils.ts:20-27 | the date indicator is shown exactly when the relative label exists, at any current time |
| MessageUtils.TextMessage | src/components/home/chat-bubble/components/text-message.tsx:9-17 | the content is a link anchor opening in a new tab exactly when it is a link message |
| RandomId.AlphabetLength | src/lib/utils.ts:87-88 | the alphabet has 62 characters |
| RandomId.FromWords | src/lib/utils.ts:91-97 | character k is the alphabet entry at word k modulo 62 |
| RandomId.Position | src/lib/utils.ts:101 | `floor(r * 62)` is an index into the alphabet |
| RandomId.FromDraws | src/lib/utils.ts:100-103 | character k is the alphabet entry at `floor(r_k * 62)` |
| RandomId.RandomId | src/lib/utils.ts:86-104 | exactly `len` characters, each from the alphabet, as each source dictates |
| RandomId.RandomIdDefault | src/lib/utils.ts:86-104 | without a length the id has five characters, each from the alphabet as the source dictates |
| Env.ValidateEnvVars | src/lib/constants.ts:8-18 | succeeds exactly when the three variables are set; otherwise names the first missing one |
| Env.RequiredEnv | src/lib/constantes.ts:2-8 | succeeds with the value exactly when it is set, else fails naming the variable |
| Env.LoadConstants | src/lib/constantes.ts:10-12 | loads all three values exactly when all are set; otherwise fails on the first missing one |
| Env.LoadAgreesWithValidate | src/lib/constantes.ts:2-12 | the two files accept the same environments and blame the same variable |
| Env.FirstMissingUnique | src/lib/constants.ts:9-17 | the first missing variable is well defined |
| Env.ReadConstants | src/lib/constants.ts:3-5 | each exported constant is undefined exactly when its variable is absent, and defined after validation |
| Strings.SplitJoin | convex/http.ts:53 | splitting a join on a separator the pieces lack gives the pieces back |
| Strings.LeadingWhitespace | src/components/home/message-input/components/message-input.tsx:17 | the longest whitespace prefix |
| Strings.TrailingWhitespace | src/components/home/message-input/components/message-input.tsx:17 | the longest whitespace suffix |
| Strings.Trim | src/components/home/message-input/components/message-input.tsx:17-19 | `trim` is empty exactly for blank text and otherwise starts and ends with non-whitespace |
| Strings.TrimIsInfix | src/components/home/message-input/components/message-input.tsx:19 | the trimmed text is the text without its leading and trailing whitespace |
| Strings.PadStart | src/components/home/chat-bubble/api/message-utils.ts:5-6 | `padStart` keeps the text at the end and fills the front up to the width |
| Strings.NatToString | src/components/home/chat-bubble/api/message-utils.ts:5-6 | a non-empty string of decimal digits, one digit exactly below 10 |
| Strings.ParseNatToString | src/components/home/chat-bubble/api/message-utils.ts:5-6 | the decimal rendering reads back as the number |
| Strings.PadStartParses | src/components/home/chat-bubble/api/message-utils.ts:5-6 | zero padding does not change the value read |
| Base64.Char | src/components/video-call/api/zegoc-cloud-assistant.ts:113 | every sextet maps to a base64 character |
| Base64.ValueOfChar | src/components/video-call/api/zegoc-cloud-assistant.ts:113 | the character table is injective |
| Base64.CharOfValue | src/components/video-call/api/zegoc-cloud-assistant.ts:113 | the character table is onto the alphabet |
| Base64.EncodeGroup | src/components/video-call/api/zegoc-cloud-assistant.ts:113 | three bytes become four alphabet characters |
| Base64.EncodeOne | src/components/video-call/api/zegoc-cloud-assistant.ts:113 | a final single byte is padded with `==` |
| Base64.EncodeTwo | src/components/video-call/api/zegoc-cloud-assistant.ts:113 | two final bytes are padded with one `=` |
| Base64.DecodeQuad | src/components/video-call/api/zegoc-cloud-assistant.ts:113 | a quad decodes to one to three bytes |
| Base64.DecodeGroup | src/components/video-call/api/zegoc-cloud-assistant.ts:113 | a full group decodes back to its three bytes |
| Base64.DecodeOne | src/components/video-call/api/zegoc-cloud-assistant.ts:113 | a one-byte group decodes back |
| Base64.DecodeTwo | src/components/video-call/api/zegoc-cloud-assistant.ts:113 | a two-byte group decodes back |
| Base64.DecodeEncode | src/components/video-call/api/zegoc-cloud-assistant.ts:113 | decoding the base64 text of any byte string gives the bytes back |
| Base64.EncodeAlphabet | src/components/video-call/api/zegoc-cloud-assistant.ts:113 | the text uses the alphabet, with `=` only in the last two places |
| Base64.Encode | src/components/video-call/api/zegoc-cloud-assistant.ts:113 | the text is `4 * ceil(n / 3)` characters long |
| ZegoToken.CharUtf8 | src/components/video-call/api/zegoc-cloud-assistant.ts:26 | a character takes one to four UTF-8 bytes, one exactly when it is ASCII |
| ZegoToken.Utf8Encode | src/components/video-call/api/zegoc-cloud-assistant.ts:26 | `Buffer.from` of a string is never shorter than its UTF-16 length |
| ZegoToken.AsciiBytes | src/components/video-call/api/zegoc-cloud-assistant.ts:97-102 | for ASCII text both lengths agree and each byte is its character |
| ZegoToken.NonAsciiLonger | src/components/video-call/api/zegoc-cloud-assistant.ts:26-65 | text with a non-ASCII character has more UTF-8 bytes than UTF-16 units |
| ZegoToken.GetAlgorithm | src/components/video-call/api/zegoc-cloud-assistant.ts:25-37 | a key of 16, 24 or 32 bytes selects AES-128, 192 or 256 in CBC mode; any other length throws "Invalid key length: n" |
| ZegoToken.IntToString | src/components/video-call/api/zegoc-cloud-assistant.ts:58 | the rendered integer starts with `-` exactly when it is negative |
| ZegoToken.IntToStringZero | src/components/video-call/api/zegoc-cloud-assistant.ts:58 | a zero argument appears as "0" in the messages |
| ZegoToken.CheckArgsAsWritten | src/components/video-call/api/zegoc-cloud-assistant.ts:57-71 | passes exactly when all four checks hold, the secret measured in UTF-16 units; otherwise the first failing check, in the order appID, userId, secret, effective time, throws its own message ("appID invalid: 0", "userId invalid: ", "secret must be a 32 byte string, got length: n", "effectiveTimeInSeconds invalid: 0") |
| ZegoToken.CheckArgs | src/components/video-call/api/zegoc-cloud-assistant.ts:57-71 | the same checks, order and messages with the secret measured in bytes; passing them guarantees that AES-256 is selected |
| ZegoToken.SecretCheckCountsUnits | src/components/video-call/api/zegoc-cloud-assistant.ts:25-67 | a 32-unit secret with one accented letter passes the written check and then makes `getAlgorithm` throw |
| ZegoToken.ChecksAgreeOnAscii | src/components/video-call/api/zegoc-cloud-assistant.ts:65 | for an ASCII secret both versions of the checks agree |
| ZegoToken.AsWrittenFailsOnlyBeyondAscii | src/components/video-call/api/zegoc-cloud-assistant.ts:25-67 | a secret of 32 UTF-16 units selects a cipher exactly when it is ASCII |
| ZegoToken.NonceAsWritten | src/components/video-call/api/zegoc-cloud-assistant.ts:3-11 | the nonce as written lies in `[0, 2^31 - 1]` and is 0 exactly for a zero draw |
| ZegoToken.Nonce | src/components/video-call/api/zegoc-cloud-assistant.ts:3-11 | the intended nonce lies in the int32 range and is negative for draws below about one half |
| ZegoToken.NonceMissesNegativeHalf | src/components/video-call/api/zegoc-cloud-assistant.ts:3-11 | the written nonce is never negative; a quarter draw gives 2^29 where the int32 range gives -2^30 |
| ZegoToken.IvChar | src/components/video-call/api/zegoc-cloud-assistant.ts:15-19 | IV characters are digits or lower-case letters |
| ZegoToken.RandomIv | src/components/video-call/api/zegoc-cloud-assistant.ts:13-22 | the IV is 16 ASCII characters, character k picked by `floor(r_k * 36)` |
| ZegoToken.BigEndian | src/components/video-call/api/zegoc-cloud-assistant.ts:96-98 | `w` big-endian bytes |
| ZegoToken.FromBigEndian | src/components/video-call/api/zegoc-cloud-assistant.ts:106-111 | the value read from big-endian bytes is below 256^w |
| ZegoToken.BigEndianRoundTrip | src/components/video-call/api/zegoc-cloud-assistant.ts:97-98 | writing `w` big-endian bytes keeps the value modulo 256^w, which is what `setUint16` does |
| ZegoToken.Int64Bytes | src/components/video-call/api/zegoc-cloud-assistant.ts:96 | `setBigInt64` writes eight bytes |
| ZegoToken.Int64RoundTrip | src/components/video-call/api/zegoc-cloud-assistant.ts:96 | a value in the signed 64-bit range reads back from those bytes |
| ZegoToken.Frame | src/components/video-call/api/zegoc-cloud-assistant.ts:94-105 | the frame is the expiry, the IV length, the IV bytes, the ciphertext length and the ciphertext, 12 bytes plus the payloads |
| ZegoToken.ParseParts | src/components/video-call/api/zegoc-cloud-assistant.ts:99-105 | the five concatenated parts are found again at their offsets |
| ZegoToken.FrameRoundTrip | src/components/video-call/api/zegoc-cloud-assistant.ts:94-105 | the frame parses back into expiry, IV and ciphertext when they fit their fields |
| ZegoToken.MakeTokenInfo | src/components/video-call/api/zegoc-cloud-assistant.ts:73-81 | `ctime` is the current second, `expire - ctime` is the effective time, and a missing payload is "" |
| ZegoToken.GenerateToken04 | src/components/video-call/api/zegoc-cloud-assistant.ts:50-114 | the program as written: succeeds exactly when the written checks pass and the secret is ASCII; a failed check fails with its message; a passing check with a non-ASCII secret fails with `getAlgorithm`'s "Invalid key length: n"; a token is "04" followed by base64 of the frame built with the written nonce and AES-256-CBC |
| ZegoToken.Seal | src/components/video-call/api/zegoc-cloud-assistant.ts:94-113 | the token is "04" followed by text that decodes to the frame of the expiry, the IV and the ciphertext |
| ZegoToken.GenerateToken04Corrected | src/components/video-call/api/zegoc-cloud-assistant.ts:50-114 | with the corrected checks and nonce: succeeds exactly when the checks pass, otherwise fails with their message; the token is "04" followed by base64 of the frame |
| ZegoToken.CorrectedAgreesOnAscii | src/components/video-call/api/zegoc-cloud-assistant.ts:25-67 | for an ASCII secret the written and the corrected program succeed on the same arguments |
| ZegoToken.TokenReadsBack | src/components/video-call/api/zegoc-cloud-assistant.ts:94-113 | a client decoding the token reads the server's expiry, the 16-byte IV and the ciphertext |
| SecurityHeaders.ScriptParts | next.config.ts:46 | starts with `'self' 'unsafe-inline'`; has `'unsafe-eval'` exactly in development and each Clerk host exactly with Clerk |
| SecurityHeaders.ConnectParts | next.config.ts:47 | starts with `'self' https:`; has `ws:` and `wss:` exactly in development and each Clerk host exactly with Clerk |
| SecurityHeaders.FrameParts | next.config.ts:48 | `'self'` then nothing but Clerk hosts, each exactly with Clerk |
| SecurityHeaders.ImgParts | next.config.ts:49 | starts with `'self' data: https:`; has each Clerk host exactly with Clerk |
| SecurityHeaders.HostsAreLong | next.config.ts:40-50 | every Clerk host is longer than any keyword or scheme source in the lists |
| SecurityHeaders.Policy | next.config.ts:68-77 | eight directives in the source's order, each with its name and its sources: `default-src` and `style-src` fixed, `img-src`, `script-src`, `script-src-elem`, `connect-src` and `frame-src` from their lists, `font-src` fixed |
| SecurityHeaders.PolicyShape | next.config.ts:69-76 | `script-src` and `script-src-elem` share their sources; `default-src`, `style-src` and `font-src` do not depend on the environment |
| SecurityHeaders.HostsAreNotKeywords | next.config.ts:40-44 | no Clerk host can be mistaken for a quoted keyword |
| SecurityHeaders.UnsafeEvalOnlyInDev | next.config.ts:37-46 | `'unsafe-eval'` is allowed in scripts exactly in development |
| SecurityHeaders.WebSocketsOnlyInDev | next.config.ts:37-47 | `ws:` and `wss:` connections are allowed exactly in development |
| SecurityHeaders.ClerkHostsIffEnabled | next.config.ts:38-50 | each Clerk host is in img, script, connect and frame sources exactly when a publishable key is set, and never in fonts |
| SecurityHeaders.RenderAll | next.config.ts:68-76 | each directive renders as its name and sources |
| SecurityHeaders.JoinSemicolonSpace | next.config.ts:77 | joining with "; " is joining with ";" after leading spaces |
| SecurityHeaders.DirectiveRoundTrip | next.config.ts:52-56 | a rendered directive splits back into its name and sources |
| SecurityHeaders.NoSemicolonInJoin | next.config.ts:52-56 | a joined source list holds no `;` when its sources hold none |
| SecurityHeaders.PolicyRoundTrip | next.config.ts:68-77 | a well-formed policy parses back from its header value |
| SecurityHeaders.ConfiguredPolicyRoundTrip | next.config.ts:46-77 | the configured policy, in every environment, parses back from its header value |
| SecurityHeaders.Headers | next.config.ts:58-82 | one route for all paths with six headers; the fifth is the rendered Content-Security-Policy |
| SecurityHeaders.CspHeader | next.config.ts:66-78 | the key is `Content-Security-Policy` and the value is the rendered policy of the build's environment and Clerk setting |
| SecurityHeaders.HeaderKeysDistinct | next.config.ts:61-80 | no header name is sent twice |
| SecurityHeaders.FixedHeadersConstant | next.config.ts:62-79 | every header except the Content-Security-Policy is the same in every environment |
| SecurityHeaders.ProductionWithClerk | next.config.ts:37-49 | production with Clerk has no `'unsafe-eval'`, neither `ws:` nor `wss:`, but has the Clerk hosts |
| MessageInput.HandleSendTextMsg | src/components/home/message-input/components/message-input.tsx:15-23 | nothing is sent exactly for blank text or no open conversation; the trimmed text goes to the open conversation; the input is cleared only after a successful send |
| MessageInput.SentContentIsTrimmedText | src/components/home/message-input/components/message-input.tsx:17-19 | a message is sent only for non-blank text in an open conversation, and it is the trimmed text: non-empty, with no whitespace at either end |
| MessageInput.HandleEmojiSelect | src/components/home/message-input/components/message-input.tsx:25-27 | the emoji is appended and the text before it is kept |
| MessageInput.EmojisAppendInOrder | src/components/home/message-input/components/message-input.tsx:25-27 | several emoji picks append all of them in order |
| MessageInput.ButtonIcon | src/components/home/message-input/components/message-input.tsx:46-62 | the send icon shows exactly for non-empty text |
| MessageInput.BlankTextShowsSendButSendsNothing | src/components/home/message-input/components/message-input.tsx:17-46 | whitespace-only text shows the send icon but sends nothing and stays |
| MessageInput.SendOutcomeIcon | src/components/home/message-input/components/message-input.tsx:19-46 | after a successful send the microphone shows again; after a failure the icon stays |
| MediaDropdown.WithSelected | src/components/home/media-dropdown/components/media-dropdown.tsx:17-18 | setting one kind's selection leaves the other and the loading flag alone |
| MediaDropdown.Choose | src/components/home/media-dropdown/components/media-dropdown.tsx:52-60 | the first chosen file becomes the selection of its kind, none when the chooser was cancelled |
| MediaDropdown.StartSend | src/components/home/media-dropdown/components/media-dropdown.tsx:24-28 | nothing happens exactly without a selection or an open conversation; otherwise loading starts and the selected file is uploaded to the conversation |
| MediaDropdown.FinishSend | src/components/home/media-dropdown/components/media-dropdown.tsx:29-32 | loading stops; the selection is cleared only on success; the other kind is untouched |
| MediaDropdown.HandleSend | src/components/home/media-dropdown/components/media-dropdown.tsx:24-44 | a handler that issues nothing changes nothing; one that uploads ends with loading off |
| MediaDropdown.SendOutcome | src/components/home/media-dropdown/components/media-dropdown.tsx:24-44 | a send uploads exactly the selected file and clears exactly that selection on success |
| MediaDropdown.FailedSendRetries | src/components/home/media-dropdown/components/media-dropdown.tsx:29-32 | a failed send leaves the state as it was, so retrying issues the same upload |
| MediaDropdown.PreviewDialog | src/components/home/media-dropdown/components/media-dropdown.tsx:64-82 | a preview is shown exactly while a file of its kind is selected, open, with that file and the loading flag |
| MediaDropdown.Close | src/components/home/media-dropdown/components/media-dropdown.tsx:67-77 | closing drops that selection and hides its dialog only |
| MediaDropdown.ChooseShowsDialog | src/components/home/media-dropdown/components/media-dropdown.tsx:52-82 | choosing a file previews it; choosing another replaces it |
| UserListDialog.Remove | src/components/home/user-list-dialog.tsx:175 | `filter` drops exactly that id and keeps the others |
| UserListDialog.RemoveSingle | src/components/home/user-list-dialog.tsx:175 | on one element the filter keeps it exactly when it is not the id removed |
| UserListDialog.RemoveConcat | src/components/home/user-list-dialog.tsx:175 | the filter works element by element: filtering a concatenation filters each part and keeps the parts in order |
| UserListDialog.RemoveAbsent | src/components/home/user-list-dialog.tsx:175 | removing an absent id changes nothing |
| UserListDialog.RemoveKeepsDistinct | src/components/home/user-list-dialog.tsx:175 | removal keeps the selection free of duplicates |
| UserListDialog.Toggle | src/components/home/user-list-dialog.tsx:173-179 | a click selects an unselected user at the end and deselects a selected one; no other user changes |
| UserListDialog.ToggleKeepsDistinct | src/components/home/user-list-dialog.tsx:173-179 | a selection built by clicks never holds an id twice |
| UserListDialog.ToggleTwice | src/components/home/user-list-dialog.tsx:173-179 | two clicks on a user restore the selection, exactly when it was unselected and as a set otherwise |
| UserListDialog.PostFor | src/components/home/user-list-dialog.tsx:60-64 | the image is posted with its own type, or "image/jpeg" when it has none |
| UserListDialog.HandleCreateConversation | src/components/home/user-list-dialog.tsx:46-99 | without a selection or the caller nothing happens; one user makes a direct chat with the caller; several ask for an upload URL, POST the image only when a URL came back, and create the group (caller as admin, image = the reply's storage id or none) exactly when the POST reply parsed, whatever its status; on success the form clears; loading always ends |
| UserListDialog.ReplyWithoutIdStillCreates | src/components/home/user-list-dialog.tsx:60-74 | a parsed upload reply without a storage id still creates the group, without an image, and success clears the form |
| UserListDialog.CallerJoinsLast | src/components/home/user-list-dialog.tsx:52-74 | the caller is the last participant, after the picks in order, and administers any group |
| UserListDialog.EnabledCreateSends | src/components/home/user-list-dialog.tsx:204-210 | an enabled Create button always issues a request (the create call, or for a group the upload-URL request), and a group it creates has a name |
| UserListDialog.CreatedResets | src/components/home/user-list-dialog.tsx:77-80 | after a successful creation the dialog is back in its initial state with Create disabled |
| UserListDialog.ShownName | src/components/home/user-list-dialog.tsx:195 | the name when non-empty, else the e-mail up to its first `@` |
| UserListDialog.ShownNameOfEmail | src/components/home/user-list-dialog.tsx:195 | for `local@domain` the local part is shown |

## Left out

- Convex itself is not modelled: the transactional database, index maintenance, argument validators and the `ConvexError` wrapping. A mutation is a pure function on one table snapshot, and concurrent mutations are not modelled.
- `Users.Message`: the message of the `.unique()` failure when two rows share a token is an approximation. The library's exact wording is not part of this model.
- `Http.Dispatch`: a `user.created` event without an e-mail address fails with an approximation of the Convex argument-validator message. Only its effect, a 500 with no write, is proved.
- `image_url` is assumed present on user events. A missing one would be rejected by the validator like a missing e-mail.
- Svix signature verification is a parameter, as is the HMAC it computes. So are the request body and the event JSON.
- All `console.log`, `console.warn` and `console.error` output is left out. That includes the warning printed when no issuer domain is set.
- `Dates.FormatDate`: local time is a fixed offset. Daylight-saving changes are not modelled. Around a DST change, the source's `floor(ms difference / 24h)` can be off by one from the calendar difference the model uses.
- `Dates.FormatDate`: locale rendering is not modelled. `toLocaleTimeString` and `toLocaleDateString` become a label datatype holding the day or the clock time.
- JavaScript numbers are integers here, and arbitrary-precision reals for `Math.random`. NaN, fractions, non-numeric arguments and the `typeof` guards of `generateToken04` are not modelled.
- `RandomId.RandomId`: `len` is a natural number. A negative or fractional length, which makes `new Uint32Array` throw, is not modelled. The model proves the character each word selects and leaves out distribution properties. One such property is the slight bias of `word % 62`, because 2^32 is not a multiple of 62.
- `ZegoToken.GenerateToken04`: AES-CBC encryption and `JSON.stringify` are a parameter function. The model proves the framing and encoding, not the cipher.
- `ZegoToken.FrameRoundTrip`: read-back is proved for an ASCII IV, which `makeRandomIv` always produces. For other text, `iv.length` counts UTF-16 units while the bytes written are UTF-8.
- `ZegoToken.Utf8Encode`: lone surrogates, which `Buffer.from` replaces, are not modelled. Each character is a code point.
- `UserListDialog.HandleCreateConversation`:
  - The throwing steps are outcome parameters: whether `generateUploadUrl` returned a URL, whether the POST and the parse of its JSON reply returned (and the reply's `storageId` if they did), and whether `createConversation` succeeded. A throw in the POST and one in parsing its reply are a single outcome, because both skip the creation the same way.
  - The toast, the dialog-close button click and the image preview (`renderedImage` with `FileReader`) are not modelled.
- `MediaDropdown.HandleSend`: `uploadImage` and `uploadVideo` are outcome parameters. Their toasts and the dropdown menu markup are not modelled.
- The `headers()` builder is modelled on the two environment values it reads. The `images` and PWA configuration around it is not part of this model.

## Findings

| source | as written | input that shows it | evidently intended | confidence | as-written member | corrected member |
|---|---|---|---|---|---|---|
| src/components/video-call/api/zegoc-cloud-assistant.ts:65 | the secret is checked with `secret.length !== 32`, which counts UTF-16 units, but `getAlgorithm` (lines 25-36) sizes the key by `Buffer.from(secret).length`, which counts UTF-8 bytes | 31 × `a` followed by `é`: 32 units pass the check, then the key is 33 bytes and the call throws "Invalid key length: 33" | the check accepts exactly the 32-byte secrets the message "secret must be a 32 byte string" asks for | not executed; real secrets are ASCII hex, where both counts agree | ZegoToken.CheckArgsAsWritten, ZegoToken.SecretCheckCountsUnits, ZegoToken.GenerateToken04 | ZegoToken.CheckArgs, ZegoToken.GenerateToken04Corrected |
| src/components/video-call/api/zegoc-cloud-assistant.ts:5 | `Math.ceil((a + (b - a)) * Math.random())` multiplies `b` alone, because `a + (b - a)` is `b` | a draw of 0.25 gives 536870912, and no draw gives a negative nonce | a number in the range from `a` to `b`, as the comments on lines 4 and 8 say: `Math.ceil(a + (b - a) * r)` | not executed; the nonce stays random, but over half of the int32 range | ZegoToken.NonceAsWritten, ZegoToken.NonceMissesNegativeHalf, ZegoToken.GenerateToken04 | ZegoToken.Nonce, ZegoToken.GenerateToken04Corrected |
