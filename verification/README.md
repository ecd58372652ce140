# juntelecom — a Dafny model of the request gating, form logic and admin-table logic

The repository holds two Next.js applications on Supabase: `juntell-main`, a
corporate and careers site with a public résumé upload, and `kt-market`, a
phone storefront with an admin back office. Most of it is rendering and
database calls. This project models the small, sequential decision logic in
between, as immutable datatypes and pure functions:

- **Rate limiter** (`RateLimiter`). This is the fixed-window limiter that guards
  the upload and download endpoints. The process-wide store is a
  `map<string, RateRecord>` and the clock reading `now` is a parameter. The
  store is a plain object literal, so an identifier that names a property
  every object inherits (`__proto__`, `toString`, …) finds a built-in instead
  of a record there and is never limited; the model keeps that behaviour.
- **Request gating.** `ClientIp` derives the client identifier from the headers.
  `UploadUrlRoute` and `FileUrlRoute` model the ordered accept/reject decisions
  of the two pre-signed-URL endpoints and the shape of the generated object key.
  `FileUploadHook` is the client-side upload hook as a state machine: selection,
  the one-second throttle, and the progress and error steps.
- **Forms** (`FormCheck`, `StringUtil`, `EventForm`, `ProductForm`). These cover
  phone and business-number hyphenation, the validators, `slugify` and
  `truncate`, the five-step event sign-up page, and the admin product form.
- **Paging and filters** (`CareersRoute`, `ProductActions`, `AdminPager`,
  `ApplicationTable`, `PostTable`, `SearchParams`). These cover page/limit
  repair, row windows, page counts, row normalisation, query-string rewriting
  and the update-by-id list edits of the admin tables.
- **Small decisions** (`Middleware`, `AdminGate`, `AuthStorage`, `Countdown`,
  `EventActions`, `Seo`). These cover the admin-route middleware, the
  `requireAdmin` guard every admin product action runs first, the local-storage settings and
  token expiry, the countdown split, event upsert, and the JSON-LD builders.

Shared helpers: `Wrappers` (`Option`, `Result`), `Text` (the JavaScript string
operations the code uses: `trim`, `split`, `join`, `toLowerCase`, digit
extraction, decimal numerals) and `JsNumber` (`Number(string)`, truthiness,
`Number.isFinite`, `Math.ceil`).

Outside inputs become parameters:

- clock readings (`now`, `nowMs`, `currentYear`);
- the random UUID, ISO date and timestamp of an object key (`KeyStamp`);
- whether S3 signing succeeds (`signerReady`);
- the database's answers (`Result` values, `storeError`, `dbError`, `freshId`);
- the browser's `confirm` dialog (`confirmed`);
- the outcome of the upload hook's two network requests (`Network`);
- the signed-in user and their profile row.

## Model

| member | source | states |
|---|---|---|
| RateLimiter.Check | app/juntell-main/lib/utils/rateLimiter.ts:36-61 | An identifier naming an inherited property is always admitted and the store is unchanged. Otherwise: with no record or an expired one (strictly `now > resetTime`), the call is admitted and the record becomes `{1, now + windowMs}`. A full open window rejects with `retryAfter = ceil((resetTime - now)/1000)` and leaves the store unchanged. Otherwise the count rises by one and resetTime stays. No other identifier's record changes. |
| RateLimiter.Reset | app/juntell-main/lib/utils/rateLimiter.ts:67-69 | Only that identifier's record is removed; every other record is kept unchanged. |
| RateLimiter.Cleanup | app/juntell-main/lib/utils/rateLimiter.ts:75-82 | Exactly the records with `resetTime < now` are deleted; the rest are kept unchanged. |
| RateLimiter.CheckPreservesValid | app/juntell-main/lib/utils/rateLimiter.ts:44-60 | With `maxRequests >= 1`, every stored record keeps `1 <= count <= maxRequests` across a check. |
| RateLimiter.ResetAndCleanupPreserveValid | app/juntell-main/lib/utils/rateLimiter.ts:67-82 | Reset and the sweep keep the count invariant. |
| RateLimiter.OpenWindowAdmits | app/juntell-main/lib/utils/rateLimiter.ts:44-60 | For an ordinary identifier inside one open window, a run of requests admits exactly `min(n, maxRequests - count)` of them and never moves the window's end. |
| RateLimiter.WindowAdmitsExactly | app/juntell-main/lib/utils/rateLimiter.ts:44-60 | For an ordinary identifier, a burst that starts with no live window and stays inside the window it opens admits exactly `min(n, maxRequests)` requests. |
| RateLimiter.InheritedNameNeverLimited | app/juntell-main/lib/utils/rateLimiter.ts:41-60 | An identifier naming an inherited property has every request admitted, and the store never changes. |
| RateLimiter.ProtoBypassesLimit | app/juntell-main/lib/utils/rateLimiter.ts:38-60 | Under the default one-per-second policy, three requests at the same instant from `__proto__` are all admitted. |
| RateLimiter.RetryAfterSteady | app/juntell-main/lib/utils/rateLimiter.ts:53-55 | Two rejections less than a second apart report retry delays that differ by at most one, and the later one is not larger. |
| RateLimiter.ResetReadmits | app/juntell-main/lib/utils/rateLimiter.ts:44-69 | After a reset, the identifier's next request is admitted whatever the policy. |
| RateLimiter.CleanupInvisible | app/juntell-main/lib/utils/rateLimiter.ts:44-82 | A sweep at time `t` changes no verdict of a later check at time `>= t`, and sweeping commutes with checking. |
| RateLimiter.OnePerSecondScenario | app/juntell-main/lib/utils/rateLimiter.ts:38-56 | With one request per second: admitted at 0 ms, rejected with 1 s at 200 ms, rejected with 0 s at exactly 1000 ms, admitted at 1050 ms. |
| ClientIp.GetClientIp | app/juntell-main/lib/utils/getClientIp.ts:5-26 | A non-empty x-forwarded-for yields its trimmed text before the first comma, which contains no comma. Otherwise x-real-ip is used, then cf-connecting-ip, each trimmed. With none present the result is "unknown". |
| ClientIp.HigherPriorityWins | app/juntell-main/lib/utils/getClientIp.ts:11-18 | Lower-priority headers never affect the result once a higher-priority header is non-empty. |
| UploadUrlRoute.Decide | app/juntell-main/app/api/upload-url/route.ts:106-163 | The checks run in the order missing field (0 counts as missing) → type → size, and the first failure decides. The six MIME types are the only ones allowed. The size limit of 10 485 760 is inclusive. A key is issued only when signing works, and it is the generated safe name. |
| UploadUrlRoute.Post | app/juntell-main/app/api/upload-url/route.ts:82-104 | The rate limiter runs first. A rejection gives 429 with the limiter's retryAfter before the body is looked at. The store is the limiter's. |
| UploadUrlRoute.Extension | app/juntell-main/app/api/upload-url/route.ts:56 | The extension is the last piece of `split('.')`, lower-cased. It never contains '.', so the key gets exactly one dot before it, and it is no longer than the name. |
| UploadUrlRoute.GeneratedKeyDownloadable | app/juntell-main/app/api/upload-url/route.ts:55-63 | Every generated key starts with "applications/" and contains neither "../" nor "..\\", provided the date and UUID contain no '.'. |
| UploadUrlRoute.IssuedKeySignable | app/juntell-main/app/api/upload-url/route.ts:140-163 | Any key the upload endpoint issues passes every check of the download endpoint. |
| UploadUrlRoute.SizeBoundaries | app/juntell-main/app/api/upload-url/route.ts:111-138 | Exactly 10 MiB is accepted, one byte more is too large, and size 0 is reported as a missing field. |
| UploadUrlRoute.TypeCheckedBeforeSize | app/juntell-main/app/api/upload-url/route.ts:119-138 | A disallowed type is reported even when the size is also too large. |
| FileUrlRoute.Decide | app/juntell-main/app/api/file-url/route.ts:65-114 | A missing or empty key gives 400. A key outside "applications/", or one containing "../" or "..\\", gives 400. A URL is produced exactly for keys passing all checks when signing works. |
| FileUrlRoute.Get | app/juntell-main/app/api/file-url/route.ts:41-63 | The rate limiter runs first and a rejection gives 429 with its retryAfter. A URL is only ever produced for a non-empty key that passes the path checks. |
| FileUrlRoute.ThrottledIgnoresKey | app/juntell-main/app/api/file-url/route.ts:44-63 | A throttled request gets 429 whatever key it names. |
| FileUploadHook.SelectFile | app/juntell-main/lib/hooks/useFileUpload.ts:74-108 | `null` resets the state. A disallowed type, checked before size, sets the error and clears the file. A file above maxSize does the same. An accepted file is stored with error and fileKey cleared. Nothing else changes. |
| FileUploadHook.Reset | app/juntell-main/lib/hooks/useFileUpload.ts:217-225 | The state returns to the initial one; the throttle clock is kept. |
| FileUploadHook.WaitSeconds | app/juntell-main/lib/hooks/useFileUpload.ts:125 | The wait is `ceil((1000 - elapsed)/1000)` seconds, at least 1. |
| FileUploadHook.Transfer | app/juntell-main/lib/hooks/useFileUpload.ts:134-211 | Progress runs 0 → 10 → 30 → 100 on success and ends idle with the key. A failure ends idle at 0 with the error message and the previous key. A failed presign request never reaches 30. |
| FileUploadHook.UploadFile | app/juntell-main/lib/hooks/useFileUpload.ts:113-211 | With no target file nothing changes. Within a second of the last upload only the error is set, the clock is not moved, and the error callback fires with the wait. Otherwise the clock moves to now, the states are exactly those of the transfer, and the completion callback fires with the key, or the error callback with the failure message. |
| FileUploadHook.DeselectIsReset | app/juntell-main/lib/hooks/useFileUpload.ts:74-225 | `selectFile(null)` and `reset()` leave the same state. |
| FileUploadHook.OperationsKeepRest | app/juntell-main/lib/hooks/useFileUpload.ts:74-225 | Between operations, each modelled as one atomic step, the hook is idle, with progress 0 or 100. |
| FileUploadHook.SuccessfulUpload | app/juntell-main/lib/hooks/useFileUpload.ts:134-200 | A successful upload reports 0, 10, 30 and 100 percent while uploading, ends idle with the key, and fires the completion callback with it. |
| FileUploadHook.FailedUpload | app/juntell-main/lib/hooks/useFileUpload.ts:201-210 | A failed upload ends idle at 0 with the error set, keeps the earlier fileKey, and fires the error callback. |
| FileUploadHook.ThrottleSpacing | app/juntell-main/lib/hooks/useFileUpload.ts:121-132 | After an upload starts, another attempt within the second is refused with a throttle error. |
| FileUploadHook.DefaultsMatchEndpoint | app/juntell-main/lib/hooks/useFileUpload.ts:48-56 | A file the hook accepts with its defaults passes the endpoint's type and size checks; a zero size is reported there as missing. |
| FormCheck.FormatBusinessNumber | app/juntell-main/lib/utils/formCheck.ts:1-12 | The result keeps the digits only: the digits themselves up to 3, DDD-rest for 4–5, and DDD-DD-rest over at most 10 digits otherwise. Its digits are the input's first ten. |
| FormCheck.RemoveBusinessNumberHyphen | app/juntell-main/lib/utils/formCheck.ts:14-19 | The result is exactly the digit characters in order. |
| FormCheck.IsValidBusinessNumber | app/juntell-main/lib/utils/formCheck.ts:21-28 | Holds exactly when the input has ten digits. |
| FormCheck.FormatBusinessNumberIdempotent | app/juntell-main/lib/utils/formCheck.ts:6-11 | Formatting twice equals formatting once. |
| FormCheck.FormattedBusinessNumberValid | app/juntell-main/lib/utils/formCheck.ts:1-28 | A formatted number is valid exactly when the input held at least ten digits. |
| FormCheck.FormatPhoneNumber | app/juntell-main/lib/utils/formCheck.ts:111-134 | The digits themselves up to 3, DDD-rest for 4–7, and DDD-DDDD-rest over at most 11 digits otherwise. The length is at most 13, and exactly 13 iff the input has at least 11 digits. |
| FormCheck.FormatPhoneNumberIdempotent | app/juntell-main/lib/utils/formCheck.ts:117-133 | Formatting twice equals formatting once. |
| FormCheck.ValidatePhoneNumber | app/juntell-main/lib/utils/formCheck.ts:136-157 | Valid iff there are exactly 11 digits starting with "010". The errors come in the order empty → length → prefix. |
| FormCheck.FormattedPhoneValid | app/juntell-main/lib/utils/formCheck.ts:128-157 | A full-length formatted number is valid exactly when the input's first eleven digits start with 010. |
| FormCheck.ValidatePassword | app/juntell-main/lib/utils/formCheck.ts:30-48 | Valid iff the length is 8..15 and there is an ASCII letter, a digit and one of `!@#$%^&*(),.?":{}\|<>`. An empty password has its own error. |
| FormCheck.ValidateConfirmPassword | app/juntell-main/lib/utils/formCheck.ts:50-63 | An error only when both entries are non-empty and differ. |
| FormCheck.MakeDateRoundTrip | app/juntell-main/lib/utils/formCheck.ts:97-105 | The `Date` round trip gives back year, month and day exactly when the day exists in that Gregorian month. |
| FormCheck.ValidateBirthDate | app/juntell-main/lib/utils/formCheck.ts:65-108 | Valid iff the input is 8 digits YYYYMMDD with 1900 <= YYYY <= currentYear, 1 <= MM <= 12, and DD a real day of that month, leap years included. Empty and badly formed inputs have their own errors. |
| FormCheck.LeapDay | app/juntell-main/lib/utils/formCheck.ts:98-105 | 29 February of a year in range is accepted exactly in leap years. |
| StringUtil.Slugify | app/juntell-main/lib/utils/string.ts:4-12 | The output has no white space, no upper-case ASCII, and no "--". Every character is a word character, '-' or a Hangul syllable. |
| StringUtil.ReplaceSpaceRunsStep | app/juntell-main/lib/utils/string.ts:9 | A space-free stretch followed by a run of white space becomes the stretch and one '-', followed by the replacement of the rest. |
| StringUtil.ReplaceSingleSpaces | app/juntell-main/lib/utils/string.ts:9 | When no two white-space characters are adjacent and none ends the text, each one becomes '-' and nothing else changes. |
| StringUtil.KeepSlugCharsAppend | app/juntell-main/lib/utils/string.ts:10 | Dropping the non-slug characters works piece by piece, so the kept characters stay in order. |
| StringUtil.KeepSlugCharsDrops | app/juntell-main/lib/utils/string.ts:10 | A character outside `[\w\-가-힣]` is removed. |
| StringUtil.SlugifySpacedWords | app/juntell-main/lib/utils/string.ts:4-12 | Words of lower-case slug characters without '-', separated by single white-space characters, slugify to the same words joined by '-'. |
| StringUtil.SlugifyIdempotent | app/juntell-main/lib/utils/string.ts:4-12 | Slugifying a slug changes nothing. |
| StringUtil.Truncate | app/juntell-main/lib/utils/string.ts:17-20 | The text is unchanged when it fits. Otherwise the result is the first maxLength characters plus "...", of length maxLength + 3; a negative maxLength counts from the end, as `slice` does. |
| CareersRoute.PageOf | app/juntell-main/app/api/careers/route.ts:12-16 | A missing, non-finite or sub-1 page becomes 1, so the page is at least 1. |
| CareersRoute.LimitOf | app/juntell-main/app/api/careers/route.ts:13-20 | A missing, non-finite or sub-1 limit becomes 10, and a limit above 50 becomes 50, so the limit lies in 1..50. |
| CareersRoute.Window | app/juntell-main/app/api/careers/route.ts:22-23 | `from >= 0`, and the window covers exactly `limit` rows. |
| CareersRoute.Filters | app/juntell-main/app/api/careers/route.ts:37-56 | The status 'active' filter always comes first. Each of q, department, location and employmentType adds its filter exactly when non-empty, and no other filter is added. The title filter is the `ilike` pattern `%q%`, with q unescaped. |
| CareersRoute.BuildQuery | app/juntell-main/app/api/careers/route.ts:9-40 | The query's window comes from the repaired page and limit, and carries the filters. |
| CareersRoute.Get | app/juntell-main/app/api/careers/route.ts:58-68 | A database error gives 500; otherwise the rows are returned, and absent rows read as none. |
| CareersRoute.PagesAdjacent | app/juntell-main/app/api/careers/route.ts:22-23 | Page p+1 starts right after page p ends. |
| CareersRoute.NumeralsInRangeKept | app/juntell-main/app/api/careers/route.ts:12-20 | A page >= 1 inside the double range and a limit in 1..50, written as numerals, are taken as written. |
| CareersRoute.InfiniteLimitIsDefault | app/juntell-main/app/api/careers/route.ts:13-17 | `limit=Infinity` falls back to 10. |
| CareersRoute.LargeLimitCapped | app/juntell-main/app/api/careers/route.ts:20 | A whole limit above 50 that is still inside the double range is capped to 50. |
| CareersRoute.HugeNumeralsAreDefault | app/juntell-main/app/api/careers/route.ts:12-17 | A page or limit numeral too large for a double reads as Infinity, so it falls back to page 1 or limit 10. |
| CareersRoute.MissingParametersDefault | app/juntell-main/app/api/careers/route.ts:12-17 | An unreadable page gives 1, and missing parameters give page 1 of size 10. |
| EventForm.HandleNext | app/juntell-main/app/event-form/page.tsx:140-149 | An invalid step changes nothing. A valid step below 5 advances by one without submitting. At step 5 the step stays. Submission happens exactly at step 5 when the step is valid and all five fields are filled. The step stays in 1..5. |
| EventForm.HandlePrev | app/juntell-main/app/event-form/page.tsx:151-153 | The step goes back one only above 1, so it stays in 1..5. |
| EventForm.PhoneChange | app/juntell-main/app/event-form/page.tsx:226-235 | The stored phone is the formatted input. Its error is recomputed when the formatted length is 13 and cleared otherwise. Nothing else changes. |
| EventForm.PhoneBlur | app/juntell-main/app/event-form/page.tsx:236-241 | A non-empty phone is validated on blur; an empty one is left alone. |
| EventForm.ToggleManualRegion | app/juntell-main/app/event-form/page.tsx:278-281 | Switching the region mode flips it and clears the region, and nothing else. |
| EventForm.StepStaysInRange | app/juntell-main/app/event-form/page.tsx:142-153 | Whatever sequence of user actions follows, the step stays within 1..5. |
| EventForm.PhoneStepAccepts | app/juntell-main/app/event-form/page.tsx:131-235 | After typing into the phone field, step 2 accepts exactly the inputs whose first eleven digits start with 010. |
| EventForm.SubmitNeedsEveryField | app/juntell-main/app/event-form/page.tsx:138-144 | Submission requires step 5 and all five fields non-empty. |
| Countdown.GetTimeLeft | app/juntell-main/components/common/CountdownTimer.tsx:20-31 | `total = max(end - now, 0)`, with hours < 24 and minutes, seconds < 60. An unparsable end time gives the NaN result. |
| Countdown.TimeLeftDecomposes | app/juntell-main/components/common/CountdownTimer.tsx:23-30 | `days·86 400 000 + hours·3 600 000 + minutes·60 000 + seconds·1000 <= total <` that sum + 1000. |
| Countdown.StyleOf | app/juntell-main/components/common/CountdownTimer.tsx:52-72 | Red iff at most one hour is left. The pulse appears iff at most ten minutes are left and the countdown has not ended. |
| Countdown.Pad | app/juntell-main/components/common/CountdownTimer.tsx:33 | Values below 10 get exactly two digits, a leading '0' and the digit; values from 10 up are unchanged. The result reads back as the value. |
| Countdown.Show | app/juntell-main/components/common/CountdownTimer.tsx:85-102 | The ended text shows exactly when ended. Otherwise the padded parts show, and days only when positive. |
| Countdown.EndedIffPast | app/juntell-main/components/common/CountdownTimer.tsx:23-49 | The countdown has ended iff `end <= now`. |
| Countdown.ThresholdsNest | app/juntell-main/components/common/CountdownTimer.tsx:49-72 | Under ten minutes implies under one hour, and an ended countdown never pulses. |
| Countdown.TimeLeftMonotone | app/juntell-main/components/common/CountdownTimer.tsx:21-23 | The time left never grows as the clock advances. |
| Middleware.Decide | app/kt-market/src/middleware.ts:7-43 | '/login', '/signup', '/' and '/products…' pass, as does every non-'/admin' path. An '/admin…' path redirects to /login with redirectTo when there is no user. Without a profile whose is_admin is exactly true it redirects to '/'. |
| Middleware.AdminPathsNotPublic | app/kt-market/src/middleware.ts:10-23 | No '/admin…' path is public. |
| Middleware.AdminPassIffAdministrator | app/kt-market/src/middleware.ts:19-42 | An '/admin…' request passes iff the user's profile has is_admin === true. |
| Middleware.PublicIgnoresSession | app/kt-market/src/middleware.ts:19-21 | Public paths pass whatever the session. |
| AdminGate.RequireAdmin | app/kt-market/src/shared/lib/auth/admin.ts:9-35 | No user (or a failed lookup) redirects to '/login?redirectTo=/admin'. A user whose profile is missing or lacks is_admin redirects to '/'. Exactly an administrator is admitted, as that user. |
| AdminGate.GateAgreesWithMiddleware | app/kt-market/src/shared/lib/auth/admin.ts:18-32 | On every '/admin…' path the guard admits a session iff the middleware passes it, and both send the same sessions to login and to '/'. |
| AuthStorage.GetRememberMe | app/kt-market/src/shared/lib/auth.ts:21-26 | True only when storage holds exactly "true"; absent values and missing storage give false. |
| AuthStorage.GetSavedEmail | app/kt-market/src/shared/lib/auth.ts:40-45 | The stored address, or "" when there is none or no storage. |
| AuthStorage.IsTokenExpired | app/kt-market/src/shared/lib/auth.ts:95-105 | A null or 0 expiry is expired. Otherwise the token is expired iff `floor(nowMs/1000) >= expiresAt - 300`. |
| AuthStorage.RememberMeRoundTrip | app/kt-market/src/shared/lib/auth.ts:12-26 | setRememberMe(b) and then getRememberMe() gives b. |
| AuthStorage.SavedEmailRoundTrip | app/kt-market/src/shared/lib/auth.ts:31-54 | setSavedEmail(e) and then getSavedEmail() gives e. After clearSavedEmail it gives "". |
| AuthStorage.SettingsIndependent | app/kt-market/src/shared/lib/auth.ts:12-54 | The remember-me flag and the saved e-mail never disturb each other. |
| AuthStorage.NoStorage | app/kt-market/src/shared/lib/auth.ts:12-54 | Without browser storage the setters are no-ops, and the getters give false and "". |
| AuthStorage.ExpiryMonotone | app/kt-market/src/shared/lib/auth.ts:95-105 | Once expired, a token stays expired as time advances. |
| ProductActions.Normalize | app/kt-market/src/features/admin/products/actions.ts:50-56 | colors_kr, capacities and images are filled with [] and release_date with null only when absent. Keys present in the row win. |
| ProductActions.NormalizeIdempotent | app/kt-market/src/features/admin/products/actions.ts:50-56 | Normalising twice equals normalising once. |
| ProductActions.Request | app/kt-market/src/features/admin/products/actions.ts:16-40 | page and limit default to 1 and 10, `from = (page-1)·limit`, and the window holds limit rows. The category filter applies iff category is given and not 'all'. The search filter applies iff search is non-empty and is the `or` expression with search pasted in. No other filter is added. |
| ProductActions.SearchConditions | app/kt-market/src/features/admin/products/actions.ts:39 | A search without commas gives exactly two conditions, `model.ilike.%search%` and `pet_name.ilike.%search%`. |
| ProductActions.CommaInSearchAddsConditions | app/kt-market/src/features/admin/products/actions.ts:39 | The search "a,b" splits the expression into four conditions instead of two. |
| ProductActions.TotalPages | app/kt-market/src/features/admin/products/actions.ts:61 | 0 when the count is 0; otherwise a whole number (Infinity for a zero limit). |
| ProductActions.TotalPagesLeastCover | app/kt-market/src/features/admin/products/actions.ts:61 | For a positive count and limit, totalPages is the fewest pages of that size holding every row, i.e. `ceil(count/limit)`. |
| ProductActions.GetProducts | app/kt-market/src/features/admin/products/actions.ts:16-62 | A caller who is not an administrator is redirected by the guard before the query, to the guard's target. After the guard, a database error throws the list error. Otherwise every row is normalised in order, count defaults to 0, and totalPages follows from it. |
| ProductActions.UpdateProduct | app/kt-market/src/features/admin/products/actions.ts:84-101 | A caller who is not an administrator is redirected before anything else is checked. After the guard, a missing or falsy model throws. Otherwise only the rows with that model take the given columns, and a database error throws with its message. |
| ProductActions.UpdateTouchesOnlyModel | app/kt-market/src/features/admin/products/actions.ts:90-93 | Rows of other models are untouched; matching rows keep their model and take every given column. |
| ProductActions.CreateProduct | app/kt-market/src/features/admin/products/actions.ts:65-82 | A caller who is not an administrator is redirected before the insert. After the guard, the row is appended with exactly the given columns plus created_at, created_at set to now and every other column kept. A database error throws with its message. |
| ProductActions.CreatedRowIsData | app/kt-market/src/features/admin/products/actions.ts:69-74 | Setting created_at aside, the inserted row equals the given data. |
| ProductActions.NonAdministratorChangesNothing | app/kt-market/src/features/admin/products/actions.ts:65-86 | Neither create nor update succeeds for a caller who is not an administrator. A caller with no user is sent to the login page. |
| ApplicationTable.UpdateFilters | app/kt-market/src/features/admin/applications/components/ApplicationTable.tsx:57-69 | The key is removed when the value is empty or 'all' and set otherwise. Any key other than 'page' forces page to '1'. Every other parameter is preserved. |
| ApplicationTable.FilterOf | app/kt-market/src/features/admin/applications/components/ApplicationTable.tsx:33-34 | The status and type filters default to 'all'. |
| ApplicationTable.SearchOf | app/kt-market/src/features/admin/applications/components/ApplicationTable.tsx:35 | The search defaults to ''. |
| ApplicationTable.SelectRoundTrip | app/kt-market/src/features/admin/applications/components/ApplicationTable.tsx:33-63 | Choosing a status or type shows that choice as selected afterwards. |
| ApplicationTable.HandleStatusChange | app/kt-market/src/features/admin/applications/components/ApplicationTable.tsx:42-55 | A confirmed, successful change sets the status of the matching id only; length, order and other fields are unchanged. An unconfirmed or failed change leaves the list alone. |
| ApplicationTable.MemoUpdate | app/kt-market/src/features/admin/applications/components/ApplicationTable.tsx:205-207 | Only the matching id's memo changes. |
| ApplicationTable.EditsKeepOtherRows | app/kt-market/src/features/admin/applications/components/ApplicationTable.tsx:49-206 | Rows of other ids are untouched by both edits. |
| ApplicationTable.StatusChangeIdempotent | app/kt-market/src/features/admin/applications/components/ApplicationTable.tsx:49 | Applying the same status change twice equals applying it once. |
| AdminPager.CurrentPage | app/kt-market/src/features/admin/applications/components/ApplicationTable.tsx:32 | `Number(param) \|\| 1`: a missing, 0 or NaN page gives 1, and any other number is kept. |
| AdminPager.UpdateFilters | app/kt-market/src/features/admin/applications/components/ApplicationTable.tsx:57-69 | The key is set or removed as the table decides. A non-'page' key resets page to "1", and the other parameters are kept. |
| AdminPager.FilterChangeShowsFirstPage | app/kt-market/src/features/admin/applications/components/ApplicationTable.tsx:32-67 | After any filter change other than paging, the table reads page 1. |
| AdminPager.NextPageRoundTrip | app/kt-market/src/features/admin/applications/components/ApplicationTable.tsx:32-193 | "Next" on whole page n shows page n+1. |
| AdminPager.PrevPageRoundTrip | app/kt-market/src/features/admin/applications/components/ApplicationTable.tsx:32-183 | "Previous" on whole page n > 1 shows page n-1. |
| AdminPager.ButtonsMatchPages | app/kt-market/src/features/admin/applications/components/ApplicationTable.tsx:179-193 | Prev is enabled iff page >= 2, and next iff page + 1 <= totalPages. |
| PostTable.UpdateFilters | app/kt-market/src/features/admin/posts/components/PostTable.tsx:43-49 | An empty value removes the key, and any other value, 'all' included, is set. Non-'page' keys reset page to '1'. Other parameters are kept. |
| PostTable.Without | app/kt-market/src/features/admin/posts/components/PostTable.tsx:28 | Exactly the posts of other ids remain. |
| PostTable.WithoutAppend | app/kt-market/src/features/admin/posts/components/PostTable.tsx:28 | Filtering works piecewise, so the survivors keep their relative order. |
| PostTable.HandleDelete | app/kt-market/src/features/admin/posts/components/PostTable.tsx:24-32 | A confirmed, successful delete removes exactly that id's posts; otherwise the list is unchanged. |
| PostTable.HandleTogglePublish | app/kt-market/src/features/admin/posts/components/PostTable.tsx:34-41 | A successful toggle sets is_published to `!current` for that id only; a failure changes nothing. |
| PostTable.ToggleTwiceRestores | app/kt-market/src/features/admin/posts/components/PostTable.tsx:34-38 | Toggling a post and toggling it back restores the list. |
| SearchParams.Set | app/kt-market/src/features/admin/applications/components/ApplicationTable.tsx:57-69 | After `set`, `get` gives the new value and every other name is unaffected. |
| SearchParams.Delete | app/kt-market/src/features/admin/applications/components/ApplicationTable.tsx:62 | After `delete`, the name is gone and every other name is unaffected. |
| ProductForm.DefaultValues | app/kt-market/src/features/admin/products/components/ProductForm.tsx:22-28 | is_available true, colors_kr [], capacities [] and price 0, each overridden by the initial data. |
| ProductForm.HandleChange | app/kt-market/src/features/admin/products/components/ProductForm.tsx:56-60 | A number input stores `Number(value)`, any other input the raw text. Only the named field changes. |
| ProductForm.ParseList | app/kt-market/src/features/admin/products/components/ProductForm.tsx:62-66 | Every element is non-empty, trimmed and comma-free. |
| ProductForm.ParseListKeeps | app/kt-market/src/features/admin/products/components/ProductForm.tsx:64 | Every comma-separated piece that is not blank appears in the list, trimmed. |
| ProductForm.ParseListFrom | app/kt-market/src/features/admin/products/components/ProductForm.tsx:64 | Every list element is a trimmed comma-separated piece of the input. |
| ProductForm.NonEmptyKeeps | app/kt-market/src/features/admin/products/components/ProductForm.tsx:64 | `filter(v => v !== '')` keeps every non-empty string. |
| ProductForm.NonEmptyFrom | app/kt-market/src/features/admin/products/components/ProductForm.tsx:64 | The filter keeps only non-empty strings of its input. |
| ProductForm.NonEmptyAppend | app/kt-market/src/features/admin/products/components/ProductForm.tsx:64 | The filter works piecewise, so the kept strings stay in order. |
| ProductForm.ListRoundTrip | app/kt-market/src/features/admin/products/components/ProductForm.tsx:62-125 | For trimmed, non-empty, comma-free items, parsing their ", "-join gives the items back. |
| ProductForm.HandleArrayChange | app/kt-market/src/features/admin/products/components/ProductForm.tsx:62-66 | The field becomes the parsed list, and no other field changes. |
| ProductForm.EncodeUriComponent | app/kt-market/src/features/admin/products/components/ProductForm.tsx:72 | The encoding never contains '/' and leaves unreserved text unchanged. |
| ProductForm.GetPreviewUrl | app/kt-market/src/features/admin/products/components/ProductForm.tsx:68-73 | There is no URL without a thumbnail, or without both category and model. Otherwise the folder is the category, else the model, in `<cdn>/phone/<folder>/<thumbnail>/01.png`. |
| ProductForm.PreviewUrlSegments | app/kt-market/src/features/admin/products/components/ProductForm.tsx:72 | After the CDN address come exactly the segments phone, folder, thumbnail and 01.png, whatever the names. |
| ProductForm.HandleSubmit | app/kt-market/src/features/admin/products/components/ProductForm.tsx:39-54 | Submission is blocked while submitting, when the model is empty, or when not confirmed. |
| EventActions.SlugOfTitle | app/kt-market/src/app/admin/event/actions.ts:15 | The derived slug has no white space and no capitals, and keeps the title's other characters. |
| EventActions.SlugOfTitleStep | app/kt-market/src/app/admin/event/actions.ts:15 | A space-free stretch, a run of white space and the rest give the stretch lower-cased, one '-', and the slug of the rest. |
| EventActions.SlugOfSpaceFreeTitle | app/kt-market/src/app/admin/event/actions.ts:15 | A title without white space only loses its capitals. |
| EventActions.Slug | app/kt-market/src/app/admin/event/actions.ts:13-15 | The submitted slug when non-empty, otherwise derived from the title; with neither, the action throws. |
| EventActions.EventData | app/kt-market/src/app/admin/event/actions.ts:16-33 | Empty start_date and end_date are stored as null. is_finish holds iff the value is exactly 'on'. The other fields are copied. |
| EventActions.Upsert | app/kt-market/src/app/admin/event/actions.ts:9-60 | A non-empty id updates only that row; otherwise a new row is inserted. A store error throws and leaves the table. Revalidation and the redirect follow only success. |
| EventActions.Delete | app/kt-market/src/app/admin/event/actions.ts:62-75 | A successful delete removes only that id and revalidates; an error throws. |
| EventActions.EditAfterCreate | app/kt-market/src/app/admin/event/actions.ts:37-50 | Saving a form naming the event just inserted updates it in place. |
| EventActions.UpdateIdempotent | app/kt-market/src/app/admin/event/actions.ts:37-43 | Saving the same edit twice equals saving it once. |
| EventActions.DerivedSlugIsSegment | app/kt-market/src/app/admin/event/actions.ts:15 | A slug derived from a '/'-free title is one URL path segment. |
| Seo.BreadcrumbSchema | app/kt-market/src/shared/lib/seo.ts:135-146 | Same length and order as the input; the i-th item has position i+1 and copies name and url. |
| Seo.BreadcrumbRoundTrip | app/kt-market/src/shared/lib/seo.ts:139-145 | The list's items give back the trail. |
| Seo.BreadcrumbAppend | app/kt-market/src/shared/lib/seo.ts:139-145 | Extending the trail appends items that continue the numbering. |
| Seo.ProductSchemaOf | app/kt-market/src/shared/lib/seo.ts:104-133 | sku defaults to '', brand to 'KT Market', currency to 'KRW' and availability to InStock. offers.price equals the price, and offers.url interpolates the sku as given. |
| Seo.OfferUrlMatchesSku | app/kt-market/src/shared/lib/seo.ts:120-130 | The offer URL names the product's page iff a SKU was given: an absent SKU is "" in the sku field but "undefined" in the URL. |

## Left out

- Network and SDKs: S3 presigning and clients, `crypto.randomUUID`, Supabase queries, auth provider calls and cookies. Their outcomes are parameters; the database is a map or a list of rows where an action needs it.
- Logging: the `console.error` and `console.warn` calls (among them the guard's warning about a refused user) have no effect on any outcome and are not modelled.
- Clock and timers: the five-minute sweep timer of the rate limiter, the countdown's one-second interval. Every clock reading is a parameter.
- Concurrency and deployment: the limiter store is process-local, and several server instances each with their own store are not modelled.
- FileUploadHook.UploadFile: the upload is one atomic step. The source awaits the signing request, its JSON body, the object-store request and an error body, and `selectFile`, `reset` or another `uploadFile` can run in between. Their functional state updates then interleave, so a `reset()` mid-upload can be followed by the progress and key updates of the running upload.
- FileUploadHook.OperationsKeepRest: holds because the upload is atomic in the model. While a real upload is awaiting, the hook is uploading with progress 10 or 30.
- ProductActions.Request: the filters are the values sent to the database. How PostgREST parses the `or` expression, and which rows the `ilike` patterns match, is not modelled; likewise for the careers title pattern in `CareersRoute.Filters`.
- JavaScript types: request bodies and form values whose fields are not strings (or numbers) are not modelled, nor are `typeof` guards against them.
- Strings: one `char` is one Unicode scalar value. A character outside the Basic Multilingual Plane counts as one here and as two in JavaScript, so `truncate` and the phone field's 13-character check count such characters differently. The error `encodeURIComponent` throws on a lone surrogate is not modelled.
- Text.ToLower: only ASCII letters are lower-cased. JavaScript's full Unicode case mapping (which can turn a non-ASCII letter into an ASCII one) is not modelled; `StringUtil.Slugify` and `EventActions.SlugOfTitle` inherit this.
- JsNumber.ToNumber: a magnitude of at least 2^1024 - 2^970 overflows to an infinity and one of at most 2^-1075 underflows to zero, as in JavaScript. Every value in between is kept as an exact real, with no rounding to double precision, so numerals beyond 2^53 and fractional arithmetic are exact in the model.
- The `Date` object: birth dates use a Gregorian days-in-month function; the countdown's end time is integer milliseconds or unparsable.
- Floating-point display helpers: `formatNumber`, `formatCurrency` (Intl), the progress-bar width and chart tick formatting.
- Rendering: JSX markup, animations, toasts, alerts, router navigation beyond the redirect target, the sitemap and metadata constants.
- Repeated table logic: ConsultationTable, ProductTable and ReviewTable repeat the update-by-id and filter logic of ApplicationTable and PostTable.
- The product form's availability select and the remaining auth helpers (session and token refresh) are Supabase or rendering glue.
- The event form's phone input `maxLength` is a browser limit on typing and is not modelled; the phone formatter itself caps the length at 13.
