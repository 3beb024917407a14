# sectorMVP core, modelled in Dafny

sectorMVP is a React Native client for a location-sharing app. This
project models the parts of it that are plain logic, each as immutable
datatypes and pure functions over explicit inputs:

- the authenticated HTTP client (`src/services/api.ts`):
  - its failure classifier;
  - the token-refresh coordinator, with its FIFO queue of requests that
    failed while a refresh was in flight;
  - the read de-duplication registry;
  - the body unwrapping and the upload progress arithmetic.

  The client is a state machine over a sequence of events. An in-flight
  promise is an id.
- the error normaliser (`src/services/errorHandler.ts`);
- the location tracker (`src/services/locationService.ts`), a state
  machine over tracking flag, watch, callback and configuration;
- the debounced viewport synchronisation of the map screen, with its
  radius clamp over reals;
- the string validators, the input sanitiser and the secure-id generator,
  the validated input field and the phone login screen's own check;
- the auth, user, location, map and theme slices of the store, as
  reducers plus the actions their thunks settle with;
- the notification list helpers (relative ages, read marking, unread
  badge) and the avatar's initials, fallback and size map.

The clock, randomness, the network and the platform are parameters.
Strings are sequences of UTF-16 code units. Numbers are exact reals or
integers.

| file | module |
|---|---|
| `wrappers.dfy` | `Wrappers` (Option, Result) |
| `js_string.dfy` | `JsString` (JavaScript string operations) |
| `json.dfy` | `Json` (plain objects and their spread merge) |
| `error_handler.dfy` | `ErrorHandler` |
| `api_client.dfy` | `ApiClient` |
| `location_service.dfy` | `LocationService` |
| `viewport_sync.dfy` | `ViewportSync` |
| `validation.dfy` | `Validation` |
| `security.dfy` | `Security` |
| `validated_input.dfy` | `ValidatedInput` |
| `phone_login.dfy` | `PhoneLogin` |
| `auth_slice.dfy` | `AuthSlice` |
| `user_slice.dfy` | `UserSlice` |
| `location_slice.dfy` | `LocationSlice` |
| `map_slice.dfy` | `MapSlice` |
| `theme_slice.dfy` | `ThemeSlice` |
| `notifications.dfy` | `Notifications` |
| `avatar.dfy` | `Avatar` |

## Model

| member | source | states |
|---|---|---|
| ApiClient.AuthorizationHeader | src/services/api.ts:53-56 | The request carries `Bearer <token>` exactly when the stored token is a non-empty string, and carries no header otherwise. |
| ApiClient.RequestAndRefreshHeaders | src/services/api.ts:53-56 | Ordinary requests and the refresh call send the same header while a token is stored. Without a token, ordinary requests send none and the refresh call sends "Bearer null". |
| ApiClient.Classify | src/services/api.ts:102-167 | The interceptor's first-match decision tree. A failure without a response takes the network branch. A refresh starts exactly for an unmarked 401 off the refresh URL. Logout happens exactly for an unmarked 401 on it. 403, 429 and 5xx get their fixed messages. Everything else, including 404, takes the generic branch with the status in the context. |
| ApiClient.RetriedUnauthorizedAndNotFoundAreGeneric | src/services/api.ts:116-166 | A 401 already marked for retry, and any 404, is rejected as a normalised network error carrying its status, with no logout and no refresh. |
| ApiClient.OnlyUnauthorizedLeavesTheRejectPath | src/services/api.ts:102-167 | Every failure other than a 401 is simply rejected: no refresh and no logout. |
| ApiClient.TaggedIsUnknown | src/services/api.ts:108-159 | The plain `{code, message}` objects the client builds normalise to UNKNOWN_ERROR with their message kept, whatever code they name. |
| ApiClient.OnFailure | src/services/api.ts:169-198 | A 401 during a refresh joins the queue, with no second refresh. Otherwise the request is marked, the coordinator becomes busy and exactly one refresh call is made. Rejections and the refresh-URL logout pass through. The registry is untouched. |
| ApiClient.ProcessQueue | src/services/api.ts:223-233 | Every queued request is settled once, in queue order, all with the same outcome: re-sent on success, rejected with the refresh error on failure. |
| ApiClient.OnRefreshSettled | src/services/api.ts:184-198 | Settling a refresh empties the queue and makes the coordinator idle. On success the trigger is re-sent first, then the queued requests in order, because `processQueue` only resolves their promises. On failure the queue is rejected in order, logout is dispatched once and the trigger is rejected. An idle client ignores it. |
| ApiClient.StepPreservesValid | src/services/api.ts:169-260 | Every event keeps the invariant: a queue exists only during a refresh; the trigger is marked and queued requests are not; every registered key names a live read that will delete that key; promise ids are fresh. |
| ApiClient.RunPreservesValid | src/services/api.ts:169-260 | The invariant holds after any sequence of events. |
| ApiClient.WhileRefreshingFailuresQueue | src/services/api.ts:173-182 | During a refresh, each further unmarked 401 is appended to the queue in arrival order. Nothing is sent. |
| ApiClient.RefreshBurstSucceeds | src/services/api.ts:169-214 | A burst that ends in a successful refresh makes exactly one refresh call. It then re-sends the trigger marked, then the queued requests unmarked and in order. The store, including its token, is untouched. |
| ApiClient.RefreshBurstFails | src/services/api.ts:169-233 | A burst that ends in a failed refresh makes exactly one refresh call. It rejects every queued request with the refresh error, dispatches logout exactly once, then rejects the trigger. The store still holds the session while the logout call is in flight. |
| ApiClient.FailedBurstEndsSession | src/store/slices/authSlice.ts:57-67 | When the logout call after a failed burst settles, the store is logged out, whatever the server answered. |
| ApiClient.RefreshCallUnauthorizedLogsOut | src/services/api.ts:116-121 | A 401 from the refresh endpoint dispatches logout and rejects with the original failure. No refresh starts. Once the logout call settles, the session is over. |
| ApiClient.SystemStep | src/store/slices/authSlice.ts:57-67 | Only the logout call settling changes the store, and it always leaves the initial auth state. Dispatching logout changes nothing yet, because the slice has no case for the pending action. |
| ApiClient.LogoutUnauthorizedRefreshesAgain | src/services/api.ts:116-125 | The logout call goes through the client with the stored token. A 401 on it starts a new refresh. If that refresh fails, logout is dispatched again and the system is back where it started. |
| ApiClient.ClassifyExemptingLogout | src/services/api.ts:116-125 | The corrected classifier refreshes exactly for an unmarked 401 that targets neither the refresh URL nor the logout URL. It agrees with the original everywhere else. |
| ApiClient.ExemptedLogoutUnauthorizedIsRejected | src/services/api.ts:116-166 | Under the corrected classifier, a 401 on the logout call is rejected as a network error with status 401. No refresh starts and no second logout follows. |
| ApiClient.ReadKey | src/services/api.ts:269 | The read key is built from the method, the URL and the parameters' JSON text. It has no clock or random part. |
| ApiClient.ReadKeyDistinguishesUrls | src/services/api.ts:269 | Two reads with the same parameters share a key only if they have the same URL. |
| ApiClient.OnRead | src/services/api.ts:245-260 | A read whose key is registered joins the registered promise and sends nothing. Otherwise it is sent once under a fresh promise, which is registered under its key. |
| ApiClient.OnReadSettled | src/services/api.ts:254-256 | When a read settles, its key is deleted from the registry. A promise the client does not know changes nothing. |
| ApiClient.IdenticalReadsShareOnePromise | src/services/api.ts:245-260 | Two identical reads in a row send one request, and the second joins the first's promise. |
| ApiClient.SettledReadIsSentAgain | src/services/api.ts:245-260 | After the shared read settles, the same read is sent afresh. |
| ApiClient.StaleSettleDropsNewerRead | src/services/api.ts:355-358 | After `cancelAllRequests`, a newer read can be registered under the old key. The old read settling then deletes that key, so a third identical read is sent again. |
| ApiClient.WritesLeaveClientUnchanged | src/services/api.ts:278-350 | Posts, puts, patches, deletes and uploads never touch the registry or the coordinator. Each sends exactly one request. |
| ApiClient.UnwrapBody | src/services/api.ts:91-94 | The success body becomes its `data` field when that field is present. Otherwise it is kept as it is. |
| ApiClient.UnwrapEnvelope | src/services/api.ts:93 | Unwrapping a server envelope gives back exactly its payload. |
| ApiClient.UnwrapWithoutEnvelope | src/services/api.ts:93 | A body without a `data` field passes through unchanged. |
| ApiClient.UploadProgress | src/services/api.ts:331-344 | Progress is reported exactly when the caller passed a callback and the total is known and non-zero. It is `loaded * 100 / total` rounded half up, and lies in 0..100 while loaded is at most total. |
| ApiClient.ProgressIsTheNearestInteger | src/services/api.ts:340-342 | The reported percentage is the only integer within one half of the exact ratio, rounding halves upward. |
| ApiClient.ProgressMonotonic | src/services/api.ts:339-344 | More bytes sent never lowers the reported percentage. |
| ErrorHandler.NormalizeError | src/services/errorHandler.ts:63-115 | The first matching rule decides the code. A response gives NETWORK_ERROR with the status in the context. Otherwise a message mentioning "auth" or the code "auth/" gives AUTH_ERROR with the message or "Authentication error". Otherwise a code that compares as a number from 1 to 5, a numeral string included, gives LOCATION_ERROR with that code in the context. Otherwise the name ValidationError gives VALIDATION_ERROR with the message or "Validation failed". Anything else gives UNKNOWN_ERROR. The message is never empty and the stack is kept. |
| ErrorHandler.StringCodeIsIgnored | src/services/errorHandler.ts:63-115 | A plain object with a string code that does not read as a number from 1 to 5, and no response, normalises to UNKNOWN_ERROR with its own message. |
| ErrorHandler.LetterCodeIsNoGeolocationCode | src/services/errorHandler.ts:89 | A string code that starts with a capital letter never passes the location range test. |
| ErrorHandler.NumeralCodeIsLocationError | src/services/errorHandler.ts:88-96 | The string codes "1" to "5" pass the range test, so they give LOCATION_ERROR. The strict `switch` still gives them the generic message, and the context keeps the string. |
| JsString.NumeralToNumber | src/services/errorHandler.ts:89 | Converting a decimal numeral to a number gives back the number it renders. |
| JsString.LetterLedIsNaN | src/services/errorHandler.ts:89 | A string that starts with anything but white space, a sign or a digit converts to NaN. |
| ErrorHandler.UserFriendlyMessage | src/services/errorHandler.ts:120-137 | Only a validation error shows its own message. Every other code maps to a fixed non-empty text. |
| ErrorHandler.UserMessageDependsOnlyOnCode | src/services/errorHandler.ts:120-137 | Outside validation errors, two errors with the same code get the same user message. |
| ErrorHandler.UserMessageDistinguishesCodes | src/services/errorHandler.ts:120-137 | Outside validation errors, different codes get different user messages. |
| ErrorHandler.LocationMessagesDistinct | src/services/errorHandler.ts:142-149 | The numbers 1, 2 and 3 get three distinct messages. The numbers 4 and 5 share the generic one. |
| LocationService.MergeConfig | src/services/locationService.ts:164 | Merging a partial configuration overrides exactly the supplied keys and keeps the rest. |
| LocationService.MergeConfigLaws | src/services/locationService.ts:164 | Merging nothing is the identity, and merging the same patch twice is merging it once. |
| LocationService.StartTracking | src/services/locationService.ts:55-72 | While tracking, starting changes nothing. Otherwise it stores the callback, opens exactly one watch with the current configuration and starts tracking. The tracker invariant is kept. |
| LocationService.StopTracking | src/services/locationService.ts:77-85 | From any state, stopping clears the watch if there is one, stops tracking and drops the callback. The configuration is kept. |
| LocationService.StopTrackingIdempotent | src/services/locationService.ts:77-85 | Stopping twice is stopping once. |
| LocationService.UpdateConfig | src/services/locationService.ts:163-172 | The configuration is merged. The tracker restarts only when it is tracking with a callback; otherwise nothing else changes. The invariant is kept. |
| LocationService.UpdateConfigDropsCallback | src/services/locationService.ts:163-172 | After a configuration change while tracking, the tracker is running a new watch with no callback, so a later fix reaches nobody. |
| LocationService.UpdateConfigWithoutCallbackDoesNotRestart | src/services/locationService.ts:167 | Once tracking without a callback, a further configuration change only merges the configuration. |
| LocationService.UpdateConfigKeepingCallback | src/services/locationService.ts:163-172 | The corrected restart keeps the callback and the tracking flag. It reopens one watch with the merged configuration. |
| LocationService.CorrectedUpdateKeepsDelivering | src/services/locationService.ts:163-172 | With the corrected restart, a later fix still reaches the original callback. |
| LocationService.GetConfigAfterUpdate | src/services/locationService.ts:163-174 | After an update, `getConfig` shows exactly the merged configuration. |
| LocationService.FromPosition | src/services/locationService.ts:182-195 | A platform fix becomes a location with the same coordinates, accuracy and timestamp, marked as current. |
| LocationService.HandlePositionSuccess | src/services/locationService.ts:182-195 | A fix invokes the stored callback exactly once with the converted location, and does nothing when no callback is stored. |
| LocationService.HandlePositionError | src/services/locationService.ts:198-202 | A watch error stops tracking. |
| LocationService.UpdateLocationOnServer | src/services/locationService.ts:121-132 | The location is always posted first. The socket emit happens exactly when the post succeeds. The post's outcome is passed on unchanged. |
| LocationService.CurrentLocation | src/services/locationService.ts:91-111 | A one-off fix is returned as a current location. A failure is rethrown with its message behind a fixed prefix. |
| ViewportSync.Radius | src/screens/main/MapScreen.tsx:43-51 | The search radius is the larger span in metres at 111000 m per degree, capped at 5000. It is never above the cap. |
| ViewportSync.RadiusExamples | src/screens/main/MapScreen.tsx:43-51 | Spans 0.02 by 0.01 give 2220 m. A latitude span of 0.5 hits the cap, whatever the longitude span. |
| ViewportSync.RadiusMonotonic | src/screens/main/MapScreen.tsx:43-51 | Widening either span of the view never lowers the radius. |
| ViewportSync.RadiusSymmetric | src/screens/main/MapScreen.tsx:43-51 | Swapping the latitude and longitude spans leaves the radius unchanged. |
| ViewportSync.StepScreen | src/screens/main/MapScreen.tsx:30-57 | A region change is recorded locally and in the store at once and replaces any pending timer. Time passing fires the timer's single fetch only when a full second has elapsed. Teardown cancels the timer. |
| ViewportSync.StepKeepsConsistent | src/screens/main/MapScreen.tsx:30-57 | A pending timer always holds the latest region, which the store also holds. |
| ViewportSync.FetchUsesLatestRegion | src/screens/main/MapScreen.tsx:41-54 | Every fetch asks about the latest region the user settled on. |
| ViewportSync.BurstFetchesNothing | src/screens/main/MapScreen.tsx:35-54 | Changes less than a second apart fetch nothing, and leave exactly one timer for the last region. |
| ViewportSync.BurstThenQuietFetchesOnce | src/screens/main/MapScreen.tsx:35-54 | A burst followed by a second of quiet fetches exactly once, for the last region. |
| ViewportSync.NoFetchAfterTeardown | src/screens/main/MapScreen.tsx:21-27 | With no pending timer, no fetch ever fires, however long the clock runs. |
| ViewportSync.TeardownCancelsPendingFetch | src/screens/main/MapScreen.tsx:21-27 | Teardown cancels a pending fetch for good. |
| Validation.ValidatePhoneNumber | src/utils/validation.ts:3-18 | White space is removed first. A missing '+' gives the country-code message. The number is valid exactly when seven to fifteen ASCII digits follow the '+'; otherwise it gets the format message. A valid result has no message and an invalid one has one. |
| Validation.PhoneIgnoresWhitespace | src/utils/validation.ts:4 | Two inputs that differ only in white space get the same verdict. |
| Validation.ValidateDisplayName | src/utils/validation.ts:20-39 | A name is valid exactly when it is not blank, has 2 to 50 characters and uses only the allowed class. Otherwise the first failing check gives the message. |
| Validation.ValidNameSanitisesToItsTrim | src/utils/validation.ts:20-39 | A valid name holds no bracket and no colon, so sanitising it only trims it. |
| Validation.DisplayNameLengthIsUntrimmed | src/utils/validation.ts:25-31 | The length counts surrounding white space: " a" passes, 50 letters pass, and 51 fail with the too-long message. |
| Validation.ValidateVerificationCode | src/utils/validation.ts:41-47 | A code is valid exactly when it is six ASCII digits. |
| Validation.ValidCodeIsSanitised | src/utils/validation.ts:41-47 | The sanitiser leaves a valid code unchanged. |
| Validation.ValidateBio | src/utils/validation.ts:49-55 | A bio is valid exactly when it has at most 200 characters. |
| Validation.BioPrefixClosed | src/utils/validation.ts:50 | Shortening a valid bio keeps it valid. |
| Security.StripAngles | src/utils/security.ts:8 | The first pass leaves no '<' or '>', only removes characters, and leaves text without brackets unchanged. |
| Security.StripProtocol | src/utils/security.ts:9 | The second pass only removes characters. |
| Security.StripProtocolIdentity | src/utils/security.ts:9 | Text with no case-insensitive "javascript:" passes through the second pass unchanged. |
| Security.StripProtocolShrinks | src/utils/security.ts:9 | Text containing the protocol loses at least its eleven characters. |
| Security.SanitizeInput | src/utils/security.ts:6-11 | The output has no angle brackets, is no longer than the input, only removes characters, and has no white space at either end. |
| Security.SanitizeInputFixesCleanText | src/utils/security.ts:6-11 | Trimmed text without brackets or protocol is returned unchanged. |
| Security.SanitizeKeepsTagNames | src/utils/security.ts:7-10 | On the tag input used by the unit test, the code returns "scriptalert(1)/script Hello". |
| Security.NestedProtocolSurvives | src/utils/security.ts:9-10 | "javajavascript:script:" sanitises to "javascript:", so the output can still contain the protocol. |
| Security.StripTags | src/utils/security.ts:8 | The corrected tag pass only removes characters. |
| Security.StripProtocolFully | src/utils/security.ts:9 | The corrected protocol pass leaves no case-insensitive "javascript:" and only removes characters. |
| Security.SanitizeMarkup | src/utils/security.ts:6-11 | The corrected sanitiser leaves no angle brackets and no protocol, is no longer than the input, and is trimmed. |
| Security.SanitizeMarkupOnTestInput | src/utils/security.ts:7-10 | On the unit test's tag input, the corrected sanitiser gives the expected "alert(1) Hello". |
| Security.SanitizersAgreeOnPlainText | src/utils/security.ts:6-11 | On text without brackets or protocol, both sanitisers just trim. |
| Security.AlphabetIsAlphanumeric | src/utils/security.ts:25 | The 62-character alphabet holds exactly the ASCII letters and digits. |
| Security.Iterations | src/utils/security.ts:27 | The loop runs the least whole number of times not below the length, and not at all for a length that is not positive. |
| Security.GenerateSecureId | src/utils/security.ts:24-31 | The id has one character per loop round (16 by default), each an ASCII letter or digit, whatever the random draws. |
| ValidatedInput.Validate | src/components/common/ValidatedInput.tsx:39-52 | Each field kind is checked by its own validator, so the result is always well formed. |
| ValidatedInput.HandleTextChange | src/components/common/ValidatedInput.tsx:29-57 | The sanitised text is always forwarded, even when invalid. A required blank field gets "<label or Field> is required", ahead of type validation. An optional empty field and an untyped field show no error. Otherwise the error is shown exactly when the kind's validator rejects the text, and it is that validator's message. |
| ValidatedInput.BlankRequiredFieldReportsRequired | src/components/common/ValidatedInput.tsx:36-37 | Typing only white space into a required field forwards nothing and shows the required message. |
| ValidatedInput.SurroundingSpaceIsIgnored | src/components/common/ValidatedInput.tsx:31-53 | Padding plain text with spaces changes neither what is forwarded nor the error shown. |
| ValidatedInput.ForwardedTextIsStable | src/components/common/ValidatedInput.tsx:29-57 | Sending the forwarded text through the handler again gives the same text and error, unless a protocol survived sanitising. |
| PhoneLogin.PlusIsOptionalHere | src/screens/auth/PhoneLoginScreen.tsx:29-32 | The screen takes 2 to 15 digits without a '+', which the shared validator refuses for the missing country code. |
| PhoneLogin.LeadingZeroRefusedHere | src/screens/auth/PhoneLoginScreen.tsx:29-32 | The screen refuses a leading zero after the '+' that the shared validator accepts. |
| PhoneLogin.ShortNumbersAcceptedHere | src/screens/auth/PhoneLoginScreen.tsx:29-32 | The screen takes 2 to 6 digits after the '+', which the shared validator refuses as badly formatted. |
| PhoneLogin.ChecksAgreeOnFullNumbers | src/screens/auth/PhoneLoginScreen.tsx:29-32 | On '+' numbers with at least seven digits after the '+' and no leading zero, the two checks agree. |
| PhoneLogin.AcceptedNumberEnablesButton | src/screens/auth/PhoneLoginScreen.tsx:79 | A number the screen accepts never leaves the send button disabled while idle. |
| PhoneLogin.SendCodeAction | src/screens/auth/PhoneLoginScreen.tsx:44 | The dispatched request settles exactly as the auth slice's send-code thunk does. |
| PhoneLogin.HandleSendCode | src/screens/auth/PhoneLoginScreen.tsx:34-49 | A refused number raises the fixed alert and dispatches nothing. An accepted one dispatches the raw, unstripped text. Success navigates with that same text; failure alerts the rejection message. The session is never changed. |
| PhoneLogin.OnMount | src/screens/auth/PhoneLoginScreen.tsx:25-27 | Mounting the screen clears only the slice's error. |
| AuthSlice.Reduce | src/store/slices/authSlice.ts:73-140 | Pending sets loading and clears the error. Rejection sets the error and leaves the session. Login and signup store the user and token and authenticate. Logout and reset return the initial state. Only login and signup authenticate, and only the listed actions change the token. A user patch never creates or removes a user. |
| AuthSlice.SetTokenChangesOnlyToken | src/store/slices/authSlice.ts:84-86 | Setting the token changes nothing else. |
| AuthSlice.UpdateCoreUserMerges | src/store/slices/authSlice.ts:79-83 | A patch is merged key by key over a present user. An absent user stays absent. |
| AuthSlice.HandleAsyncError | src/store/slices/authSlice.ts:14-16 | The message is the server's, else the error's own, else the fixed fallback. It is never empty. |
| AuthSlice.AsyncErrorAgreesWithNormalizer | src/store/slices/authSlice.ts:14-16 | For an error with a response that carries any message, the thunks' message equals the normaliser's. |
| AuthSlice.SettleThunk | src/store/slices/authSlice.ts:19-54 | Each request thunk fulfils with the server's answer or rejects with the async-error message. |
| AuthSlice.LogoutThunk | src/store/slices/authSlice.ts:57-67 | Logout fulfils whatever the server answered. |
| AuthSlice.LogoutAlwaysEndsSession | src/store/slices/authSlice.ts:134-140 | Logging out ends the session from any state, even when the server call failed. |
| AuthSlice.FailedRequestKeepsSession | src/store/slices/authSlice.ts:92-132 | A failed send, login or signup leaves authentication, user and token as they were, and ends with loading off and the message shown. |
| UserSlice.MergePreferences | src/store/slices/userSlice.ts:115-120 | Each preference the patch carries is taken from it; the others are kept. |
| UserSlice.MergePreferencesLaws | src/store/slices/userSlice.ts:115-120 | Merging a patch twice is merging it once, an empty patch changes nothing, and in-range privacy levels stay in range. |
| UserSlice.Reduce | src/store/slices/userSlice.ts:106-172 | The pending matcher sets loading for fetch, update and upload, but not for preferences. Every rejection sets the error, and every fulfilment ends loading. A fetch replaces the profile. An update merges over the profile or `{}`. An upload leaves the profile alone. Only the listed actions change profile, preferences or loading. |
| UserSlice.LocalAndServerUpdatesAgree | src/store/slices/userSlice.ts:108-139 | A local profile edit and the server's echo of the same patch produce the same profile. |
| UserSlice.LocalAndServerPreferencesAgree | src/store/slices/userSlice.ts:115-142 | A local preference change and the server's echo of it produce the same preferences and leave the profile alone. |
| UserSlice.RejectWith | src/store/slices/userSlice.ts:40-97 | A thunk rejects with the error's message when it has one, else with the thunk's own fallback. The payload is never empty. |
| UserSlice.FetchUserProfileThunk | src/store/slices/userSlice.ts:40-55 | Without a truthy user id the service is never called and the thunk rejects with "User not authenticated". Otherwise it settles with the server's answer. |
| UserSlice.UpdateUserProfileThunk | src/store/slices/userSlice.ts:57-67 | The fields are sent as given, and the thunk settles with the server's answer or its message. |
| UserSlice.UpdatePreferencesThunk | src/store/slices/userSlice.ts:69-82 | The patch is sent as given, and the server's answer is what gets merged. |
| UserSlice.UploadProfileImageThunk | src/store/slices/userSlice.ts:86-97 | The image is sent as given, and the thunk settles with the reported URL or the message. |
| UserSlice.SignedOutFetchFails | src/store/slices/userSlice.ts:45-48 | A fetch while signed out sends nothing and ends with the error shown and loading off. |
| UserSlice.UploadLeavesProfile | src/store/slices/userSlice.ts:86-97 | A whole upload request, successful or not, leaves the profile as it was. |
| UserSlice.PreferencesRequestSkipsLoading | src/store/slices/userSlice.ts:143-149 | A preferences request never switches the loading flag on. |
| UserSlice.ResetIsInitial | src/store/slices/userSlice.ts:24-34 | Reset returns the initial state from anywhere, and its preferences are in range. |
| LocationSlice.Reduce | src/store/slices/locationSlice.ts:88-133 | A location update stores the location and time and clears the error. Only a start request turns tracking on; only a failed start or a stop turns it off. A stop drops the location. Nearby results replace the list. Each rejection records its payload. Unhandled actions pass through. |
| LocationSlice.TrackingPersists | src/store/slices/locationSlice.ts:106-118 | Once on, tracking stays on through any actions that contain no stop and no failed start. |
| LocationSlice.SettleSync | src/store/slices/locationSlice.ts:28-42 | A successful sync fulfils with the very location it was given. A failure rejects with the message, or the fallback when there is none. |
| LocationSlice.SettleNearby | src/store/slices/locationSlice.ts:45-59 | The nearby fetch fulfils with the service's list, or rejects with its message or the fallback. |
| LocationSlice.SettleStart | src/store/slices/locationSlice.ts:62-76 | The start fails exactly when registering the watch throws, and then with the fixed message. |
| LocationSlice.LocationShownBeforeSync | src/store/slices/locationSlice.ts:66-71 | For each location the callback shows and timestamps it before syncing, whatever the server says. The error is clear exactly when the sync succeeded. Tracking and the nearby list are untouched. |
| LocationSlice.OnFix | src/services/locationService.ts:182-195 | A platform fix reaches the slice only through the stored callback, as the three dispatches of one location. |
| LocationSlice.FixesLostAfterConfigChange | src/services/locationService.ts:163-172 | After a configuration change while tracking, fixes dispatch nothing, so the slice keeps its state. With the corrected restart they still arrive. |
| LocationSlice.StartRequest | src/store/slices/locationSlice.ts:104-114 | A whole start request ends tracking exactly when it failed, with the fixed message. |
| LocationSlice.StopRequest | src/store/slices/locationSlice.ts:115-118 | A whole stop request ends tracking and drops the location, and keeps the last update time and the error. |
| MapSlice.Reduce | src/store/slices/mapSlice.ts:56-81 | Only `setMapRegion` and reset move the region. Pending sets loading and clears the error. Fulfilment ends loading and replaces both lists. Rejection ends loading and shows the message or the fallback. Only fulfilment and reset change the lists. |
| MapSlice.FetchNearbyData | src/store/slices/mapSlice.ts:42-52 | The thunk as it stands answers with two empty lists. |
| MapSlice.FetchClearsLists | src/store/slices/mapSlice.ts:68-76 | A whole fetch ends with loading off and both lists empty. |
| MapSlice.ClearMapErrorIdempotent | src/store/slices/mapSlice.ts:61-63 | Clearing the error twice is clearing it once, and it leaves the loading flag alone. |
| ThemeSlice.Reduce | src/store/slices/themeSlice.ts:11-16 | `setTheme` stores its payload. A toggle always lands on a declared theme different from before, and gives dark exactly from light. |
| ThemeSlice.ToggleTwice | src/store/slices/themeSlice.ts:14-16 | Toggling twice is the identity exactly on the two declared themes. |
| ThemeSlice.ToggleRepairsUndeclared | src/store/slices/themeSlice.ts:11-16 | After an undeclared payload is stored, one toggle returns to the initial light theme. |
| ThemeSlice.InitialIsLight | src/store/slices/themeSlice.ts:5 | The initial theme is light, and it toggles to dark. |
| Notifications.FormatTimestamp | src/screens/main/NotificationsScreen.tsx:134-147 | The label is "Just now" under a minute. Below an hour, a day and a week it is the whole minutes, hours or days elapsed, with "m ago", "h ago" or "d ago". From a week on it is the calendar date. |
| Notifications.AgeBoundaries | src/screens/main/NotificationsScreen.tsx:134-147 | 59999 ms is just now, one minute is "1m ago", one hour is "1h ago", a week less a millisecond is "6d ago" and a week is a date. |
| Notifications.FutureIsJustNow | src/screens/main/NotificationsScreen.tsx:136-142 | A timestamp in the future reads as just now. |
| Notifications.OlderIsCoarser | src/screens/main/NotificationsScreen.tsx:134-147 | An older notification never gets a finer label than a newer one. |
| Notifications.MarkRead | src/screens/main/NotificationsScreen.tsx:97-105 | Exactly the entries with the pressed id become read. Order, length and every other field are kept. |
| Notifications.MarkAllRead | src/screens/main/NotificationsScreen.tsx:107-110 | Every entry becomes read, and nothing else changes. |
| Notifications.UnreadCountZero | src/screens/main/NotificationsScreen.tsx:221 | The unread count is zero exactly when every entry is read. |
| Notifications.UnreadCountFull | src/screens/main/NotificationsScreen.tsx:221 | The unread count is the list's length exactly when no entry is read. |
| Notifications.MarkAllReadClears | src/screens/main/NotificationsScreen.tsx:107-110 | After mark-all the count is zero, and marking all again changes nothing. |
| Notifications.MarkReadLowersCount | src/screens/main/NotificationsScreen.tsx:97-105 | A press never raises the count. It lowers it unless every entry with that id was already read. |
| Notifications.MarkReadIdempotent | src/screens/main/NotificationsScreen.tsx:97-110 | Pressing twice is pressing once, and after mark-all a press changes nothing. |
| Notifications.BadgeText | src/screens/main/NotificationsScreen.tsx:237-243 | The badge is the count and the noun, and ends in 's' exactly when the count is not one. |
| Notifications.HeaderOf | src/screens/main/NotificationsScreen.tsx:229-243 | The mark-all control and the badge are shown exactly when some entry is unread, and the badge shows the unread count. |
| Notifications.MarkAllReadHidesHeader | src/screens/main/NotificationsScreen.tsx:107-110 | After mark-all, neither the control nor the badge is shown. |
| Avatar.Dimension | src/components/common/Avatar.tsx:12-19 | Small is 28, medium 40 and large 56; a missing size is small. |
| Avatar.Split | src/components/common/Avatar.tsx:21 | Splitting on single spaces gives at least one piece, and no piece contains a space. |
| Avatar.SplitJoin | src/components/common/Avatar.tsx:21 | Joining the pieces back with single spaces restores the name. |
| Avatar.FirstCharsAreWordStarts | src/components/common/Avatar.tsx:20-25 | The first characters of the pieces are exactly the non-space characters that start the name or follow a space. |
| Avatar.NoWordStartsMeansSpaces | src/components/common/Avatar.tsx:20-25 | A name has no word starts exactly when it is all spaces. |
| Avatar.Initials | src/components/common/Avatar.tsx:20-25 | The initials are the first two word starts, upper-cased, so at most two characters. |
| Avatar.TwoWordInitials | src/components/common/Avatar.tsx:20-25 | A two-word name gives the two words' first letters, upper-cased. |
| Avatar.Render | src/components/common/Avatar.tsx:27-37 | The image is shown exactly when its URI is non-empty. Otherwise the box shows "?" exactly when the name is missing or all spaces, and the initials otherwise. The font is at least 12. |
| Avatar.FontSizes | src/components/common/Avatar.tsx:35 | The small box uses the minimum font and the large box uses 20. |

## Left out

- Transport, logging and platform calls: the HTTP library, the socket, the Geolocation library and `console` output are not modelled. Failures are abstract statuses and messages. Server answers, post outcomes and thrown-or-not flags are parameters.
- `handleError` in `src/services/errorHandler.ts`: besides logging, it returns the normaliser's result unchanged, so the model uses `ErrorHandler.NormalizeError` in its place.
- The clock: `Date.now()`, `new Date()` and the notification screen's current time are parameters. The `X-Request-Time` header is not modelled.
- The `X-Request-ID` generator: it depends on the clock and randomness and feeds nothing the model reads.
- `toLocaleDateString`: a week-old notification's label is modelled as its timestamp only.
- Randomness: `Math.random()` is an arbitrary draw in [0, 1).
- `SecurityUtils.encrypt` and `decrypt`: they only call the AES library.
- `getNearbyUsers` in `src/services/locationService.ts`: it unwraps `data` a second time after the interceptor already did. The service's answer is a parameter of `LocationSlice.SettleNearby`.
- Floating point: the radius, upload progress and Avatar font size use exact reals and integers, not IEEE doubles. NaN and infinities are not represented.
- Concurrency: promise interleavings are an explicit sequence of events, and timers are an elapse event.
- Text: strings are UTF-16 code units, so surrogate pairs are two characters. Upper-casing covers ASCII letters only.
- Partial objects: a key explicitly set to `undefined` is treated as absent.
- The theme payload: the declared type admits only "light" and "dark", but `setTheme` stores any string, and the model follows that.
- The tracking flag: a watch error stops the location service, but no action tells the location slice. The slice's flag is modelled as the code leaves it.
- Rendering, styles, navigation and the icon and colour maps of the notification screen are not modelled.
- Security.GenerateSecureId: states the length and the alphabet, not the distribution of the characters.
- Notifications.FormatTimestamp: the calendar-date branch keeps the timestamp, not the locale's text.
- JsString.StringToNumber: reads only optional white space, an optional sign and ASCII decimal digits, and a blank string as zero. Fractions, exponents, the `0x`, `0o` and `0b` prefixes and "Infinity" are read as NaN, so a code such as "2.5" or "0x3" does not reach the location branch here, although it does in the source.
- ErrorHandler.CodeField: a code is absent, a number or a string. A boolean, object or `null` code is not represented; `true` would compare as 1 and reach the location branch.

## Findings

| source | as written | input that shows it | evidently intended | confidence | as-written member | corrected member |
|---|---|---|---|---|---|---|
| src/utils/security.ts:8 | Removes only the characters '<' and '>', so the names of tags survive | `"<script>javascript:alert(1)</script> Hello "` gives "scriptalert(1)/script Hello" | Remove whole tags, giving "alert(1) Hello" as `__tests__/securityUtils.test.ts:7` expects | not executed | Security.SanitizeKeepsTagNames | Security.SanitizeMarkupOnTestInput |
| src/utils/security.ts:9 | A single left-to-right pass of `replaceAll`, so removing one match can join a new one | "javajavascript:script:" gives "javascript:" | No case-insensitive "javascript:" left in the output | not executed | Security.NestedProtocolSurvives | Security.SanitizeMarkup |
| src/services/api.ts:116-125 | The logout thunk posts to `/auth/logout` through the same client (`src/services/authService.ts:23-25`), and only the refresh URL is kept out of the refresh path | A refresh fails, and the server answers each logout call with 401 | A failed refresh ends the session without starting another refresh | not executed | ApiClient.LogoutUnauthorizedRefreshesAgain | ApiClient.ClassifyExemptingLogout |
| src/services/locationService.ts:169-170 | `stopTracking` clears the stored callback (line 83) before `startTracking(this.onLocationUpdate)` reads it | Any configuration change while tracking with a callback | Restart with the same callback | not executed | LocationService.UpdateConfigDropsCallback | LocationService.CorrectedUpdateKeepsDelivering |

Three choices in how the corrected definitions are used:

- `ValidatedInput` keeps the as-written sanitiser, because that is the one the component calls.
- `ApiClient.Step` keeps the as-written classifier, because that is the one the interceptor runs. `ApiClient.ExemptedLogoutUnauthorizedIsRejected` shows that the corrected classifier ends the cycle.
- `LocationSlice.FixesLostAfterConfigChange` follows the as-written restart to the slice. It also shows that the corrected restart, `LocationService.UpdateConfigKeepingCallback`, keeps delivering fixes.
