# KAIST Events — verified model of the decision logic

KAIST Events is a campus event board: students sign in with a KAIST e-mail
address, create events, join and leave them, move them through
upcoming → started → finished, and attach images. This project models, in
Dafny, the parts of the application that decide things without talking to the
database:

- the per-user daily **rate limiter** (`src/lib/rate-limit.ts`), a class with a
  mutable store of `{count, resetTime}` records per identifier, and its two
  keyed instances for event creation and event joining;
- **file-name sanitising** and the **KAIST e-mail domain check**
  (`src/lib/sanitize.ts`);
- every **request schema** (`src/lib/zod-schemas.ts`), each as a parse
  function returning either the parsed value with its defaults or the list of
  issues, with the path and message of each issue;
- the **route-protection middleware** (`src/middleware.ts`): skip list,
  protected prefixes, the redirect to login and the redirect for foreign
  e-mail domains;
- the **local geocoder** (`src/app/api/geocode/route.ts`): the table of known
  places, the exact-then-partial lookup, and the endpoint's outcome;
- four UI components whose rules do not depend on rendering: the place-name
  and status wording of `EventCard`, the status state machine of
  `EventStatusButton`, the click, label and disabled rules of `JoinButton`,
  and the bounded preview list of `ImageUploader`.

Time (`Date.now()`, `new Date()`), the session lookup, the remote geocoder's
answer, `JSON.parse`'s `text` field, zod's built-in format checks (e-mail,
URL, UUID) and `URL.createObjectURL` are parameters of the model. String
built-ins (`trim`, `split`, `includes`, `startsWith`, `endsWith`,
`toLowerCase`) are modelled in the module `Text` with JavaScript's
semantics. `trim` uses ECMAScript's exact white-space and line-terminator
set, and `split` always returns at least one part.

The rate limiter, the two status/join buttons and the image uploader change
state in place, so they are classes whose methods are proved against
specification functions (`AfterCheck`, `Remaining`, `ClickEffect`,
`Admitted`, `RemoveImage`, …). All the rest is pure code and is modelled as
functions and lemmas.

Expiry follows the code. A record is replaced only when `now > resetTime`,
strictly, so at `now == resetTime` the old record still governs.

## Model

| member | source | states |
|---|---|---|
| RateLimit.AfterCheck | src/lib/rate-limit.ts:21-39 | a check adds only its own identifier to the store, never changes another identifier's record, and keeps every count at least 1 |
| RateLimit.Remaining | src/lib/rate-limit.ts:41-47 | remaining requests never exceed `maxRequests`, and equal it when no live record exists |
| RateLimit.ResetTime | src/lib/rate-limit.ts:49-55 | a live record's reset time is not in the past |
| RateLimit.FreshWindow | src/lib/rate-limit.ts:25-30 | without a live record the check is admitted and stores count 1 with reset time `now + windowMs` |
| RateLimit.LiveAtResetTime | src/lib/rate-limit.ts:25 | at `now == resetTime` the record is still live: it is not replaced and its count does not drop |
| RateLimit.SaturatedRejects | src/lib/rate-limit.ts:33-35 | a live record at the ceiling refuses and leaves the whole store unchanged, so refusals consume nothing |
| RateLimit.UnderCeilingIncrements | src/lib/rate-limit.ts:37-38 | under the ceiling the check is admitted, the count rises by exactly one and the reset time stays |
| RateLimit.CheckLeavesLiveRecord | src/lib/rate-limit.ts:21-39 | after any check the identifier has a live record, and the reset time it reports is that record's |
| RateLimit.RemainingTracksAdmission | src/lib/rate-limit.ts:33-47 | a check is refused exactly when a live record reports 0 remaining; an admitted check lowers the remaining count by one, a refused one leaves it |
| RateLimit.LiveWindowBound | src/lib/rate-limit.ts:21-39 | within one live window, any sequence of checks admits at most `maxRequests - count` for that identifier, and the window end never moves |
| RateLimit.SaturatedStaysRefused | src/lib/rate-limit.ts:33-35 | once saturated, every further check in the same window is refused |
| RateLimit.WindowAdmitsAtMostMax | src/lib/rate-limit.ts:21-39 | a window opened at `t0`, followed by any checks up to `t0 + windowMs`, admits at least one and at most `maxRequests` checks (one when `maxRequests` is 0) |
| RateLimit.RateLimiter.constructor | src/lib/rate-limit.ts:13-19 | a new limiter has the given configuration and an empty store |
| RateLimit.RateLimiter.IsAllowed | src/lib/rate-limit.ts:21-39 | the answer is `Admits` of the old store, and the new store is `AfterCheck` of the old one |
| RateLimit.RateLimiter.GetRemainingRequests | src/lib/rate-limit.ts:41-47 | read-only; reports `Remaining` |
| RateLimit.RateLimiter.GetResetTime | src/lib/rate-limit.ts:49-55 | read-only; reports `ResetTime`, which is 0 without a live record |
| RateLimit.KeysDistinct | src/lib/rate-limit.ts:69-83 | creation keys and join keys never coincide, and each key determines its user |
| RateLimit.Limiters.constructor | src/lib/rate-limit.ts:58-67 | two separate limiters, each allowing 3 requests per 24 hours, both with empty stores |
| RateLimit.Limiters.CheckEventCreationLimit | src/lib/rate-limit.ts:69-71 | checks `create:<user>` on the creation limiter and leaves the join limiter untouched |
| RateLimit.Limiters.CheckEventJoinLimit | src/lib/rate-limit.ts:73-75 | checks `join:<user>` on the join limiter and leaves the creation limiter untouched |
| RateLimit.Limiters.GetRemainingCreations | src/lib/rate-limit.ts:77-79 | the remaining creations of `create:<user>` |
| RateLimit.Limiters.GetRemainingJoins | src/lib/rate-limit.ts:81-83 | the remaining joins of `join:<user>` |
| RateLimit.DailyJoinScenario | src/lib/rate-limit.ts:59-83 | three joins a day are admitted and the fourth refused; another user and the creation limiter are unaffected; the refusal holds at exactly 24 hours and lifts one millisecond later |
| Sanitize.ReplaceDisallowed | src/lib/sanitize.ts:31 | the replace pass keeps the length; each character outside `[a-zA-Z0-9.-]` becomes `_`, and every other character stays |
| Sanitize.SanitizeFileName | src/lib/sanitize.ts:29-32 | the sanitised name has the input's length, holds at every position the independent per-character map `SanitizedChar` of the input, and so only characters from `[a-z0-9._-]` |
| Sanitize.SanitizeFileNameIdempotent | src/lib/sanitize.ts:29-32 | sanitising a sanitised name changes nothing |
| Sanitize.AllowedDomain | src/lib/sanitize.ts:25 | the configured domain is used unless it is unset or empty, in which case `@kaist.ac.kr` is used |
| Sanitize.ValidateKaistEmail | src/lib/sanitize.ts:24-27 | an address is accepted exactly when it is some string followed by the allowed domain |
| Sanitize.ValidateKaistEmailPrefix | src/lib/sanitize.ts:24-27 | the bare domain is accepted, and putting anything in front of an accepted address keeps it accepted |
| Sanitize.DefaultDomainExamples | src/lib/sanitize.ts:24-27 | with the default domain a campus address is accepted, while an address on another domain and `kaist.ac.kr` without the `@` are refused |
| Text.ToLowerAscii | src/app/api/geocode/route.ts:21 | lower-casing keeps the length, maps each character, and is the identity on text without capitals |
| Text.Trim | src/components/EventCard.tsx:32 | the trimmed text is the slice left after removing only white space from both ends, with no white space at either of its ends; text already without such ends is unchanged |
| Text.TrimUnique | src/components/EventCard.tsx:32 | any slice with only white space outside it and none at its own ends is exactly what trimming returns |
| Text.TrimPadded | src/components/EventCard.tsx:32 | white space added around a string does not change what it trims to |
| Text.SplitJoin | src/components/EventCard.tsx:32 | joining the parts of a split with the separator gives back the original string |
| Text.SplitPartsFree | src/components/EventCard.tsx:32 | no part of a split contains the separator |
| Text.ContainsIff | src/app/api/geocode/route.ts:30 | `includes` holds exactly when the substring occurs at some index |
| Text.EndsWithIff | src/lib/sanitize.ts:26 | `endsWith` holds exactly when the string is some prefix followed by the suffix |
| EventTypes.ParseStatus | src/lib/zod-schemas.ts:44 | a parsed status is spelled exactly as the input |
| EventTypes.ParseStatusRoundTrip | src/lib/zod-schemas.ts:44 | parsing a status's name gives that status back, and only the three names parse |
| ZodSchemas.ParseCreateEvent | src/lib/zod-schemas.ts:3-28 | accepted exactly when the title is 1–100 characters, the optional description is at most 1000, the optional location is at most 200, the date is in the future and the images are at most one URL; the output carries the date and defaults `image_url` to empty; a title issue or date issue appears exactly when that check fails |
| ZodSchemas.ParseJoinEvent | src/lib/zod-schemas.ts:30-32 | accepted exactly for a UUID; otherwise the single issue "Invalid event ID" |
| ZodSchemas.ParseCreateReview | src/lib/zod-schemas.ts:34-41 | accepted exactly for a UUID, content of 1–1000 characters and URL photos; `photo_urls` defaults to empty |
| ZodSchemas.ParseUpdateEventStatus | src/lib/zod-schemas.ts:43-45 | accepted exactly for the three status names, giving the named status; otherwise an issue at `status` |
| ZodSchemas.ParseEventFilters | src/lib/zod-schemas.ts:47-55 | accepted exactly when the range is one of the four names, `limit` is within 1–50 and `offset` is at least 0; defaults are "all", 20 and 0, and the output is always within those bounds |
| ZodSchemas.ParseUploadUrl | src/lib/zod-schemas.ts:57-69 | accepted exactly for a non-empty name, one of five image types and at most 5 MiB; each field's issue appears exactly when that field fails |
| ZodSchemas.KaistEmailCheck | src/lib/zod-schemas.ts:74-79 | no issue exactly when the address is well-formed and ends with `@kaist.ac.kr`; all issues are at `email` |
| ZodSchemas.ParseSignUp | src/lib/zod-schemas.ts:72-93 | accepted exactly for a campus address, a name of 1–100 characters, a password of 8–100 and a matching confirmation; the mismatch issue appears, at `confirmPassword`, exactly when the passwords differ |
| ZodSchemas.ParseVerifyOtp | src/lib/zod-schemas.ts:95-101 | accepted exactly for a well-formed address and a token of exactly six characters |
| ZodSchemas.ParseSignIn | src/lib/zod-schemas.ts:103-112 | accepted exactly for a campus address and a known login method; the method defaults to "password" |
| ZodSchemas.ParseResendOtp | src/lib/zod-schemas.ts:114-116 | accepted exactly for a well-formed address |
| Middleware.Decide | src/middleware.ts:6-60 | on a path that is not skipped and is protected: redirect to login (carrying the original path) exactly when there is no session, and to the invalid-email page exactly when the session's e-mail is non-empty and foreign; every other case passes through, including lookup errors and exceptions |
| Middleware.RedirectPath | src/middleware.ts:37-51 | a pathname is set exactly for the two redirects: the login redirect goes to `/auth/login` and the foreign-domain redirect to `/auth/invalid-email` |
| Middleware.RedirectTargetsPass | src/middleware.ts:32-51 | neither redirect target is protected, so the request that follows a redirect passes the gate whatever its session |
| Middleware.SkippedIgnoresSession | src/middleware.ts:8-14 | skipped paths pass through whatever the session |
| Middleware.SkippedNotProtected | src/middleware.ts:8-35 | no skipped path is protected |
| Middleware.SessionWithoutForeignEmailPasses | src/middleware.ts:46-54 | a session without an e-mail, or with an allowed one, is let through |
| Middleware.ProtectedExamples | src/middleware.ts:32-35 | the prefix test is a plain `startsWith`: `/dashboardX` and `/api/events/42/join` are protected and `/dashboardX` without a session redirects to login, while `/dash` and `/` are not protected |
| Geocode.KeysDistinct | src/app/api/geocode/route.ts:4-16 | the eleven keys of the place table are distinct |
| Geocode.CleanLocation | src/app/api/geocode/route.ts:21 | the cleaned input is a slice of the lower-cased input with only white space cut from either end; it holds no ASCII capital and has no white space at either end |
| Geocode.CleanIgnoresCaseAndPadding | src/app/api/geocode/route.ts:21 | lower-casing the input or padding it with white space leaves its cleaned form unchanged |
| Geocode.LookupIgnoresCaseAndPadding | src/app/api/geocode/route.ts:18-36 | the lookup ignores ASCII letter case and white space around the input: neither changes the answer |
| Geocode.FindLocationInMap | src/app/api/geocode/route.ts:18-36 | the lookup over the table's own keys: any answer is the coordinates of a key related to the cleaned input, and there is none exactly when no key is related |
| Geocode.ExactMatchWins | src/app/api/geocode/route.ts:21-26 | an input that cleans to a key gets that key's coordinates |
| Geocode.PartialMatchFirst | src/app/api/geocode/route.ts:28-35 | with no exact match the answer is the first entry, in table order, whose key contains or is contained in the input; there is no answer exactly when no key is related |
| Geocode.BlankMatchesKaist | src/app/api/geocode/route.ts:21-33 | an all-white-space input cleans to "" and is answered with the first entry, `kaist` |
| Geocode.CleanIdentity | src/app/api/geocode/route.ts:21 | text without capitals and without white-space ends is already clean |
| Geocode.ExactBeforePartial | src/app/api/geocode/route.ts:24-33 | "seoul station" gets its own coordinates, not those of the earlier related key "seoul" |
| Geocode.FindLocationInMapAsWritten | src/app/api/geocode/route.ts:18-36 | the lookup as written, where the direct index also reaches members inherited from `Object.prototype` |
| Geocode.CamelCasedUnreachable | src/app/api/geocode/route.ts:21-25 | no name with a capital letter is ever looked up, so of the inherited members only `constructor` and `__proto__` are reachable |
| Geocode.PrototypeNamesHit | src/app/api/geocode/route.ts:24-25 | as written, an input that cleans to `constructor` or `__proto__` is answered with that inherited member |
| Geocode.ConstructorHitsPrototype | src/app/api/geocode/route.ts:24-25 | "constructor" is related to no key, yet as written it gets the inherited constructor; the corrected lookup gives none |
| Geocode.AsWrittenAgreesOffPrototype | src/app/api/geocode/route.ts:18-36 | away from the inherited names, the code as written and the corrected lookup agree |
| Geocode.Get | src/app/api/geocode/route.ts:38-119 | with the corrected lookup: status 400 exactly when `location` is missing or empty; a local hit answers from the local database with the raw input as display name; only the remote geocoder supplies another display name, and only when it found the place and the table did not |
| Geocode.RemoteAnswer | src/app/api/geocode/route.ts:61-118 | without a table entry the source is the remote geocoder exactly when it found the place; otherwise KAIST's coordinates with the raw input as display name |
| Geocode.GetAsWritten | src/app/api/geocode/route.ts:38-58 | as written: missing input gives 400, and an input that cleans to an inherited member name is served from the local database with that member instead of coordinates |
| Geocode.GetAsWrittenAgreesOffPrototype | src/app/api/geocode/route.ts:38-119 | away from the inherited names, the endpoint as written answers exactly as the corrected one |
| Geocode.ConstructorServedLocally | src/app/api/geocode/route.ts:24-25 | any input that cleans to `constructor` (such as `?location=Constructor`) is served locally without coordinates as written, while the corrected endpoint does not answer it from the local database |
| EventCard.TrimmedParts | src/components/EventCard.tsx:32 | one trimmed part per comma-separated piece, at least one |
| EventCard.TrimmedPartsClean | src/components/EventCard.tsx:32 | each trimmed part has no comma and no white space at its ends |
| EventCard.Extracted | src/components/EventCard.tsx:21-28 | a non-empty JSON `text` replaces the location; without one (not JSON, or an empty `text`) the location is used as is; the result is non-empty whenever the location is |
| EventCard.PlaceName | src/components/EventCard.tsx:17-41 | the place name is empty exactly when the location is, and otherwise is the extracted string itself or one of its trimmed comma-separated parts |
| EventCard.PlaceNameShape | src/components/EventCard.tsx:17-41 | the place name is empty exactly when the location is; otherwise it is the whole extracted string or one of its clean parts |
| EventCard.PlaceNameStreetAddress | src/components/EventCard.tsx:32-40 | when the first part starts with a digit and there are several parts, the name is the second part, or the first if the second is blank; otherwise it is the first part, and when that part is blank the whole extracted string |
| EventCard.TwoPartStreetAddress | src/components/EventCard.tsx:32-37 | "<number …>, <place>" is named by the trimmed place |
| EventCard.SinglePartName | src/components/EventCard.tsx:32-40 | a location without commas is named by itself, trimmed, unless it is blank |
| EventCard.StatusLabel | src/components/EventCard.tsx:91-95 | the badge is "Upcoming" exactly for upcoming, "Started" exactly for started, and "Finished" for every other value |
| EventCard.ParticipantWord | src/components/EventCard.tsx:91-113 | the word is "going", "attending" or "attended" exactly when the badge reads "Upcoming", "Started" or "Finished", so both classify every status alike |
| EventCard.ParticipantCount | src/components/EventCard.tsx:107 | the first row's count, and 0 when there is no row or no count |
| EventStatusButton.NextStatus | src/components/EventStatusButton.tsx:38-42 | there is no next status exactly at finished; otherwise the next status is one step further along |
| EventStatusButton.ButtonText | src/components/EventStatusButton.tsx:44-48 | the label names the transition a click performs, and "Event Finished" exactly when there is none |
| EventStatusButton.ButtonColor | src/components/EventStatusButton.tsx:50-55 | grey exactly when there is no next status; green exactly for upcoming |
| EventStatusButton.Render | src/components/EventStatusButton.tsx:23-66 | nothing is rendered for a non-creator; the button is disabled exactly while loading or when finished; it reads "Updating..." while loading; an enabled button offers a real transition |
| EventStatusButton.AdvanceRank | src/components/EventStatusButton.tsx:38-42 | after n clicks the status is n steps further along, capped at finished |
| EventStatusButton.AdvanceEndsFinished | src/components/EventStatusButton.tsx:38-42 | two clicks reach finished from anywhere, and after any click the event is never upcoming |
| EventStatusButton.StatusButton.constructor | src/components/EventStatusButton.tsx:15-21 | not loading, and no updates sent yet |
| EventStatusButton.StatusButton.Click | src/components/EventStatusButton.tsx:27-62 | a click on a disabled button (loading, or finished) changes nothing; otherwise the button starts loading and sends exactly (event id, next status) |
| EventStatusButton.StatusButton.UpdateSettled | src/components/EventStatusButton.tsx:33-35 | loading ends whatever the outcome, and nothing more is sent |
| EventStatusButton.ClickDisablesUntilSettled | src/components/EventStatusButton.tsx:27-65 | one click on an enabled button sends one update and disables the button until the update settles; a second click meanwhile sends nothing |
| JoinButton.ClickEffect | src/components/JoinButton.tsx:28-45 | a creator's click edits and never toggles; a non-creator's click on a finished event does nothing; any other click toggles with `isJoining` the negation of `isJoined` |
| JoinButton.ButtonText | src/components/JoinButton.tsx:47-52 | "Loading..." exactly while loading; otherwise "Edit Event" exactly for creators; otherwise "Event Finished" exactly for finished events |
| JoinButton.ButtonStyle | src/components/JoinButton.tsx:54-64 | grey exactly for finished events; red exactly for a joined non-creator of an unfinished event |
| JoinButton.IsDisabled | src/components/JoinButton.tsx:70-74 | disabled whenever the prop is set or a toggle is in flight; otherwise disabled exactly when a click would have no effect |
| JoinButton.LabelMatchesEffect | src/components/JoinButton.tsx:28-74 | without the external `disabled` prop and with nothing loading, the button is enabled exactly when a click has an effect, and its label names that effect |
| JoinButton.FinishedCreatorCanEdit | src/components/JoinButton.tsx:49-74 | a creator of a finished event gets an enabled, grey "Edit Event" button |
| JoinButton.PluralSuffix | src/components/JoinButton.tsx:80-81 | the suffix is empty exactly when the count is 1, otherwise "s" |
| JoinButton.JoinButtonState.constructor | src/components/JoinButton.tsx:16-26 | not loading, and no callbacks invoked yet |
| JoinButton.JoinButtonState.Click | src/components/JoinButton.tsx:28-74 | a click on a disabled button changes nothing; otherwise it invokes exactly the effect `ClickEffect` names, and is loading afterwards exactly when that effect is a toggle |
| JoinButton.JoinButtonState.ToggleSettled | src/components/JoinButton.tsx:42-44 | loading ends and no callback is invoked |
| JoinButton.ClickScenario | src/components/JoinButton.tsx:28-74 | a joined participant's click asks to leave; a creator's click edits; a second click while a toggle is in flight is swallowed |
| ImageUploader.ValidImages | src/components/ImageUploader.tsx:24-25 | only images from the selection are kept |
| ImageUploader.ValidImagesAppend | src/components/ImageUploader.tsx:25 | filtering distributes over concatenation, so images keep their relative order |
| ImageUploader.ValidImagesKeepsImages | src/components/ImageUploader.tsx:25 | every image in the selection is kept |
| ImageUploader.ValidImagesNone | src/components/ImageUploader.tsx:25-28 | a selection without images yields nothing |
| ImageUploader.ValidImagesAllImages | src/components/ImageUploader.tsx:25 | a selection of images only is kept whole |
| ImageUploader.SliceFront | src/components/ImageUploader.tsx:26 | `slice(0, end)` returns a prefix: for `end >= 0` of length `min(end, length)`, and for a negative `end` of length `max(0, length + end)` |
| ImageUploader.Admitted | src/components/ImageUploader.tsx:24-26 | the admitted files are a prefix of the selection's images, so every one is an image from the selection |
| ImageUploader.AdmittedWithinCapacity | src/components/ImageUploader.tsx:26 | within capacity, the admitted files are the first images of the selection, as many as fit, so previews never exceed `maxFiles` |
| ImageUploader.AdmittedOverCapacity | src/components/ImageUploader.tsx:26 | past capacity the slice bound is negative: all but the last `previews − maxFiles` images are still admitted |
| ImageUploader.OverCapacityExample | src/components/ImageUploader.tsx:14-26 | with three existing previews and `maxFiles` 1, two of four selected images are still admitted |
| ImageUploader.RemoveImage | src/components/ImageUploader.tsx:51-53 | removing position i deletes exactly that element and keeps the rest in order; an index out of range changes nothing |
| ImageUploader.PreviewUrls | src/components/ImageUploader.tsx:29 | one preview URL per admitted file, in order |
| ImageUploader.Uploader.constructor | src/components/ImageUploader.tsx:12-19 | previews start as the existing images, with no highlight and no uploads |
| ImageUploader.Uploader.Default | src/components/ImageUploader.tsx:12-16 | mounted without the optional props: a capacity of 3 files and no existing images |
| ImageUploader.Uploader.HandleFileSelect | src/components/ImageUploader.tsx:21-33 | a missing list or a selection that admits nothing changes nothing; otherwise the admitted files' previews are appended after the existing ones, and the admitted files are uploaded once; within capacity the previews stay within `maxFiles` |
| ImageUploader.Uploader.HandleDrop | src/components/ImageUploader.tsx:35-39 | clears the highlight, then behaves as a file selection |
| ImageUploader.Uploader.HandleDragOver | src/components/ImageUploader.tsx:41-44 | sets the highlight and nothing else |
| ImageUploader.Uploader.HandleDragLeave | src/components/ImageUploader.tsx:46-49 | clears the highlight and nothing else |
| ImageUploader.Uploader.Remove | src/components/ImageUploader.tsx:51-53 | the previews become `RemoveImage` of the old previews; nothing else changes |

## Left out

- The HTML sanitisers in `src/lib/sanitize.ts` (`sanitizeContent`, `sanitizeEventDescription`, `sanitizeReviewContent`): they only configure the `sanitize-html` library.
- Database, authentication and storage calls in the route handlers other than geocoding: they are I/O against a remote backend.
- The remote geocoding request, its response parsing (`parseFloat`) and the coordinate formatting of `Get`: the remote answer is a parameter (`Remote`), already reduced to coordinates and a display name.
- Reverse geocoding, the Discord bot, the maps and the page components: network and rendering.
- `Date` parsing and the clock: `createEventSchema` takes `parseDate` and `now` as parameters, and the limiter takes `now` per call; invalid dates are parse failures.
- zod's built-in e-mail, URL and UUID checks: they are parameters (`isEmail`, `isUrl`, `isUuid`), and zod's type errors are excluded because inputs are well-typed values.
- ZodSchemas: only the issue path and message are modelled, not zod's issue codes or its default message texts.
- Text.ToLowerAscii: `toLowerCase` is modelled on ASCII letters only; letters outside ASCII pass through unchanged.
- Sanitize.SanitizeFileName: strings are sequences of Unicode scalar values, not UTF-16 code units, so a character outside the Basic Multilingual Plane is one character here and two in JavaScript: `"😀.png"` sanitises to `"__.png"` in the code and to `"_.png"` in the model. The zod length bounds (`min`/`max` on title, description, location, review content, file name, user name, password and one-time code) count the same way in the model.
- `JSON.parse` in `EventCard`: the parsed `text` field is the parameter `jsonText`. A JSON `text` that is not a string is not modelled.
- RateLimit.RateLimiter.IsAllowed: identifiers that name members inherited by the store's object literal (such as `constructor`) are treated as absent, because the keyed wrappers always add a `create:` or `join:` prefix.
- Concurrency between requests to the process-wide limiters, and the store's unbounded growth: the model runs one call at a time.
- Query parameters that survive the middleware redirects, and the Next.js `matcher` configuration that decides which paths reach the middleware.
- React state batching and stale closures: each state update in the buttons and the uploader takes effect before the next event. In particular, `handleFileSelect` reads the `previews.length` of its last render, and the model reads the current length.
- ImageUploader.PreviewUrls: `URL.createObjectURL` is a function of the file (`objectUrl`), although the browser hands out a fresh URL on each call.
- The awaited callbacks of the buttons are split into a click step and a settle step; their own effects (the database update) are outside the model.
- Geocode.Get: specified over the corrected lookup; the endpoint as the code reads, where `constructor` and `__proto__` are served locally without coordinates, is `Geocode.GetAsWritten`.
- The creation limiter is defined but never used by the event routes; the model covers it as written.

## Findings

| source | as written | input that shows it | evidently intended | confidence | as-written member | corrected member |
|---|---|---|---|---|---|---|
| src/app/api/geocode/route.ts:24-25 | the direct lookup indexes the place table, an object literal, so the inherited members whose names survive lower-casing, `constructor` and `__proto__`, count as hits and are returned in place of coordinates | `?location=constructor` (or `Constructor `, or `__proto__`) | only the table's own eleven keys match; "constructor" relates to no key, so the answer should come from the remote geocoder or the fallback | not executed | Geocode.ConstructorHitsPrototype | Geocode.FindLocationInMap |
