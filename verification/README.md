# printex entitlement and device-limit core, in Dafny

This project models the part of printex that decides who may use the
calculator, and on how many devices.

- **Backend auth controller.** `signup`, `login` (credential check, device
  quota, session creation), `refresh` and `logout`. They run over a document
  store whose collections follow the Mongoose schemas of users, devices,
  auth sessions and subscriptions.
- **Subscription middleware.** `requireActiveSubscription` and its
  trial-or-subscription test.
- **Subscription controller.** `activateSubscription` creates a
  subscription and links it to the user.
- **Legacy email/password routes.** `/register` and `/login` over the legacy
  user schema, including input normalisation and the schema's setters.
- **Frontend auth context.** `checkAccess`, the allowed-device quota,
  `registerDevice`, `removeDevice`, the free-slot count,
  `deviceLimitReached`, and the profile that `signUp` creates.
- **Browser device identity.** The 32-bit fold hash behind
  `generateDeviceId` and its `device_<hex>` form, the user-agent classifiers,
  and the store-once `initializeDevice`.
- **Pages.**
  - Pricing: the plan table, the trial countdown and the purchase guard.
  - Add-on devices: the quote and the bounded quantity picker.
  - Calculator: the access redirect and the device-limit error.
  - Sign-up form: the validation order and the error handling.
  - App shell: page selection and the landing redirect.

Parts that update state in place are Dafny classes:

- the backend store `Store.Db`
- the legacy store `LegacyAuth.LegacyDb`
- the device registry `AuthContext.DeviceContext`
- the browser's `localStorage` entry `DeviceUtils.DeviceStorage`
- the React state of each page

Each class method's `ensures` ties the new state to a pure
function. Pure rules are functions, with lemmas that relate them.

Representation choices:

- Timestamps are integer milliseconds.
- bcrypt hashes and SHA-256 device keys are symbolic terms.
- JWT generators are function parameters.
- Anything read from Supabase that the model does not compute is an input:
  plan device limits and add-on purchases.
- What the browser supplies is an input too: the navigator data and the user agent.

One file per module:

| module | file |
|---|---|
| `Common` | common.dfy |
| `Text` | text.dfy |
| `Records` | records.dfy |
| `Store` | store.dfy |
| `Http` | http.dfy |
| `AuthController` | auth_controller.dfy |
| `SubscriptionController` | subscription_controller.dfy |
| `Access` | access.dfy |
| `LegacyAuth` | legacy_auth.dfy |
| `ClientRecords` | client_records.dfy |
| `DeviceUtils` | device_utils.dfy |
| `AuthContext` | auth_context.dfy |
| `Countdown` | countdown.dfy |
| `PricingPage` | pricing_page.dfy |
| `AddDevicePage` | add_device_page.dfy |
| `CalculatorPage` | calculator_page.dfy |
| `SignupPage` | signup_page.dfy |
| `AppPage` | app_page.dfy |

## Model

| member | source | states |
|---|---|---|
| Text.TrimShape | backend/routes/auth.js:14-15 | `trim` returns a contiguous piece of the input that neither starts nor ends with whitespace; everything cut off on either side is whitespace |
| Text.TrimIdempotent | backend/routes/auth.js:15 | trimming an already trimmed value changes nothing |
| Text.LowerIdempotent | backend/routes/auth.js:14 | lowercasing an already lowercased value changes nothing |
| Text.TrimLowerCommute | backend/models/user.js:6-12 | `trim` then `toLowerCase` equals `toLowerCase` then `trim`, so the route's normalisation and the schema's setters agree |
| Records.CreateUser | backend/src/models/user.model.js:5-49 | creation succeeds exactly when the trimmed username, email, mobile, password and trial end are all present; the stored username is the trimmed input and the stored email the lowercased input; the user is active, has `maxDevices` 1 and no subscription |
| Records.CreateDevice | backend/src/models/device.model.js:5-24 | the new device carries the given user, key and name; `lastUsedAt` defaults to the creation time |
| Records.CreateSubscription | backend/src/models/subscription.model.js:5-33 | creation succeeds exactly when `planName` is non-empty and `price`, `durationDays` and a valid `endsAt` are all present; the subscription carries the given price, duration and dates and is active by default |
| Records.InsertDevicePreservesIndex | backend/src/models/device.model.js:31-32 | inserting a `(userId, deviceId)` pair not yet present keeps the compound unique index; the owner's device count rises by one and every other user's count is unchanged |
| AuthController.SignupAsWrittenAlwaysRejected | backend/src/controllers/auth.controller.js:31-37 | the document as written (hash under `passwordHash`) never passes `User.create` |
| AuthController.SignupFieldsAccepted | backend/src/controllers/auth.controller.js:26-37 | with the hash under `password`, a signup with its required fields is stored; the trial ends one day later and the stored hash verifies the signup password |
| AuthController.AppendUserKeepsIndexes | backend/src/controllers/auth.controller.js:19-24 | a user whose id, email and mobile are all new keeps the unique indexes |
| AuthController.SignupConflict | backend/src/controllers/auth.controller.js:19-24 | the first user whose email equals the lowercased email or whose mobile equals the mobile; none exactly when every user differs in both |
| AuthController.Signup | backend/src/controllers/auth.controller.js:15-46 | a duplicate email (after lowercasing) or mobile gives 400 and stores nothing; a validation failure gives 500 and stores nothing, and neither consumes an id; otherwise exactly the created user is appended under the next id and the answer is 201 with the trial end; the store stays valid |
| AuthController.LoginCompareAsWrittenThrows | backend/src/controllers/auth.controller.js:60 | as written, the password check receives an undefined hash and throws, whatever the password |
| AuthController.LoginCompareMatchesHash | backend/src/controllers/auth.controller.js:60-63 | reading `password`, the check never throws and matches exactly the password the hash was made from (up to bcrypt's 72-byte truncation, see Left out) |
| AuthController.Gate | backend/src/controllers/auth.controller.js:55-78 | a login gets through only for an active user with that lowercased email and the right password; the device is new exactly when it is not registered to the user; a new device gets through only while the count is below `maxDevices` |
| AuthController.SameAnswerForEveryCredentialFailure | backend/src/controllers/auth.controller.js:55-63 | an unknown email, an inactive account and a wrong password all give the same rejection, and nothing else gives it |
| AuthController.DeviceLimitExactly | backend/src/controllers/auth.controller.js:66-78 | after the credential check, a login is refused for the device limit exactly when the fingerprint is unknown for the user and the count is at least `maxDevices` |
| AuthController.KnownDeviceAlwaysAdmitted | backend/src/controllers/auth.controller.js:67-86 | a device already registered to the user is always admitted and adds no device record |
| AuthController.LoginKeepsDeviceQuota | backend/src/controllers/auth.controller.js:72-86 | a login keeps the compound device index and never takes a user within their quota above it |
| AuthController.Login | backend/src/controllers/auth.controller.js:51-104 | 401 exactly for bad credentials and 403 exactly for the device limit, neither writing anything nor consuming an id; on admission, a new device is inserted, then a session expiring one week later is stored and both tokens are returned (500 if the refresh token is already stored); users are never changed |
| AuthController.OpenSession | backend/src/controllers/auth.controller.js:88-100 | stores a session that expires one week after `now` and answers 200 with both tokens, or answers 500 without storing anything when the refresh token is already stored |
| AuthController.AppendSessionKeepsIndex | backend/src/models/authSession.model.js:12-16 | a new refresh token keeps the unique index, and the lookup then finds the new session |
| AuthController.Refresh | backend/src/controllers/auth.controller.js:109-124 | 401 exactly when the token is unknown or its expiry is before `now`; otherwise 200 with an access token for the session's user |
| AuthController.RefreshAcceptedForAWeek | backend/src/controllers/auth.controller.js:91-95 | the session a login stores is found for its owner and is refused exactly after one week from the login |
| AuthController.DeleteOne | backend/src/controllers/auth.controller.js:132 | an unknown token leaves the sessions as they are; otherwise exactly one session is removed |
| AuthController.DeleteOneRemovesExactlyTheToken | backend/src/controllers/auth.controller.js:132 | deleting keeps every session with another token and adds none; under the unique index, no session with the token remains |
| AuthController.LogoutIdempotent | backend/src/controllers/auth.controller.js:129-137 | a second logout with the same token deletes nothing more |
| AuthController.Logout | backend/src/controllers/auth.controller.js:129-137 | always 200; the session with the token is gone and nothing else in the store changes |
| SubscriptionController.SubscriptionEnd | backend/src/controllers/subscription.controller.js:9-11 | definition: the start plus `durationDays` whole days; its properties are those of SubscriptionController.SubscriptionEndOrdered |
| SubscriptionController.SubscriptionEndOrdered | backend/src/controllers/subscription.controller.js:9-11 | a positive duration ends after it starts, a non-positive one does not, and each extra day adds one day |
| SubscriptionController.RebindUser | backend/src/controllers/subscription.controller.js:21-23 | only users with that id change, and only in `subscriptionId` (now the new subscription) and `updatedAt`; an unknown id changes nothing |
| SubscriptionController.RebindKeepsUsersValid | backend/src/controllers/subscription.controller.js:21-23 | rebinding keeps the users' unique indexes and stored form |
| SubscriptionController.ActivationKeepsInvariants | backend/src/controllers/subscription.controller.js:13-23 | storing the new subscription under the next id and linking the user to it keeps the unique indexes, the stored form of users and the required plan name |
| SubscriptionController.ActivateSubscription | backend/src/controllers/subscription.controller.js:4-32 | an empty plan name or a missing `price` or `durationDays` gives 500 and changes nothing; otherwise an active subscription ending `durationDays` after now is appended, the user is linked to it, and the answer carries the end date |
| Access.Populate | backend/src/middlewares/subscription.middleware.js:5 | the populated subscription is the referenced one, or none when the reference is missing or dangles |
| Access.AccessDeadline | backend/src/middlewares/subscription.middleware.js:9-13 | the deadline is no earlier than the trial end, nor than the end of an active subscription |
| Access.HasAccess | backend/src/middlewares/subscription.middleware.js:9-13 | definition: a running trial, or a subscription that is active and not yet ended; Access.HasAccessIffBeforeDeadline ties it to the independent deadline |
| Access.HasAccessIffBeforeDeadline | backend/src/middlewares/subscription.middleware.js:9-13 | the middleware grants access exactly before the later of the trial end and the active subscription's end |
| Access.TrialOverridesSubscription | backend/src/middlewares/subscription.middleware.js:9-10 | a running trial grants access whatever the subscription |
| Access.SubscriptionOverridesTrial | backend/src/middlewares/subscription.middleware.js:11-13 | an active, unexpired subscription grants access after the trial |
| Access.AccessLossPermanent | backend/src/middlewares/subscription.middleware.js:9-13 | with the records fixed, access once lost is never regained later |
| Access.RequireActiveSubscription | backend/src/middlewares/subscription.middleware.js:4-20 | an unknown user crashes; otherwise `next` runs exactly when access holds, and a 403 "Subscription required" is sent otherwise |
| Access.CheckAccess | frontend/app/contexts/AuthContext.js:43-55 | definition: false without a profile; an "active" subscription decides by its end date, anything else by the trial end; Access.ActiveSubscriptionIgnoresTrial, Access.InactiveSubscriptionFallsBackToTrial and Access.AccessDivergence state it |
| Access.ActiveSubscriptionIgnoresTrial | frontend/app/contexts/AuthContext.js:46-50 | with an "active" subscription, `checkAccess` depends on its end date alone and never on the trial |
| Access.InactiveSubscriptionFallsBackToTrial | frontend/app/contexts/AuthContext.js:52-54 | without an "active" subscription, `checkAccess` grants exactly during the trial |
| Access.AccessDivergence | frontend/app/contexts/AuthContext.js:43-55 | on mirrored records, frontend and backend disagree exactly for an active, expired subscription during a running trial; the frontend never grants what the backend denies |
| LegacyAuth.NormalizeEmail | backend/routes/auth.js:14 | a present email becomes its trimmed, lowercased form; the result is "" exactly when the email is missing or blank, which is what sends whitespace to the missing-field 400 |
| LegacyAuth.NormalizePassword | backend/routes/auth.js:15 | a present password becomes its trimmed form; the result is "" exactly when the password is missing or blank |
| LegacyAuth.NormalizedIsNormal | backend/routes/auth.js:14-15 | a normalised email is lowercased and trimmed, so the schema's setters leave it unchanged; a normalised password is trimmed |
| LegacyAuth.NormalizeIdempotent | backend/routes/auth.js:14-15 | normalising twice is normalising once |
| LegacyAuth.ValidateRegister | backend/routes/auth.js:17-24 | a request passes exactly when both fields are present and the password has at least 6 characters; the missing-field message takes precedence over the length message |
| LegacyAuth.RegisteredUser | backend/routes/auth.js:35-40 | the saved user holds the bcrypt hash (never the plaintext), a trial ending one day later, no company, and an email in setter-normal form that equals a normal input |
| LegacyAuth.FindByEmail | backend/routes/auth.js:75 | the first user stored under exactly that email; none exactly when no stored email equals it |
| LegacyAuth.Authenticate | backend/routes/auth.js:75-93 | the credentials open the user with that email exactly when its stored hash verifies the password |
| LegacyAuth.AppendedUserAuthenticates | backend/routes/auth.js:75-93 | a user saved under a new email opens with its own password and with no other (up to bcrypt's 72-byte truncation, see Left out) |
| LegacyAuth.RegisterThenAuthenticate | backend/routes/auth.js:12-117 | a user registered from raw input logs in with the same raw input and with no other password (up to bcrypt's 72-byte truncation, see Left out) |
| LegacyAuth.AppendKeepsEmailsUnique | backend/models/user.js:6-12 | saving a user whose email was not found keeps the unique email index |
| LegacyAuth.Register | backend/routes/auth.js:12-57 | a validation failure gives 400 with its message, and a known email gives 400 "User already exists", neither storing anything nor consuming an id; otherwise exactly the registered user is appended under the next id and a token for its id is returned |
| LegacyAuth.Login | backend/routes/auth.js:60-117 | 400 for a missing field; 400 "Invalid credentials" exactly when authentication fails; 200 exactly when it succeeds, with a token for the authenticated user |
| DeviceUtils.ToInt32 | frontend/app/lib/deviceUtils.js:13 | the bitwise or with 0 yields a signed 32-bit value congruent to its argument modulo 2^32 |
| DeviceUtils.ToInt32Identity | frontend/app/lib/deviceUtils.js:13 | the bitwise or with 0 leaves values in the signed 32-bit range alone |
| DeviceUtils.ToInt32Periodic | frontend/app/lib/deviceUtils.js:13 | the bitwise or with 0 sees its argument only modulo 2^32 |
| DeviceUtils.CharCode | frontend/app/lib/deviceUtils.js:11-12 | a character's code is below 2^16: its own code in the Basic Multilingual Plane, otherwise its high surrogate |
| DeviceUtils.StepIsTimes31 | frontend/app/lib/deviceUtils.js:13 | the shift-and-subtract step equals 31·h + code wrapped to 32 bits |
| DeviceUtils.Hash | frontend/app/lib/deviceUtils.js:11-14 | the fold stays in the signed 32-bit range |
| DeviceUtils.HashAppend | frontend/app/lib/deviceUtils.js:11-14 | the fold starts at 0, and each character multiplies by 31, adds its code and wraps |
| DeviceUtils.AbsHash | frontend/app/lib/deviceUtils.js:16 | `Math.abs(hash)` is the hash or its negation, and at most 2^31 |
| DeviceUtils.ToHex | frontend/app/lib/deviceUtils.js:16 | `toString(16)` gives lowercase hex digits with no leading zero, and reading them back gives the number |
| DeviceUtils.ToHexLength | frontend/app/lib/deviceUtils.js:16 | a number below 16^k takes at most k hex digits |
| DeviceUtils.GenerateDeviceId | frontend/app/lib/deviceUtils.js:1-17 | the id is "device_" followed by lowercase hex digits with no leading zero that read back as the absolute hash |
| DeviceUtils.DeviceIdLength | frontend/app/lib/deviceUtils.js:16 | every generated id is 8 to 15 characters long |
| DeviceUtils.DeviceName | frontend/app/lib/deviceUtils.js:19-37 | Windows takes precedence, then Mac; "Unknown Device" exactly when no marker occurs |
| DeviceUtils.DeviceNameIsFirstMatch | frontend/app/lib/deviceUtils.js:22-36 | the if-chain gives the name of the first rule in the priority table that fires |
| DeviceUtils.DeviceTypeAsWritten | frontend/app/lib/deviceUtils.js:39-55 | the type is one of mobile, tablet and desktop |
| DeviceUtils.AndroidTabletTestIsDead | frontend/app/lib/deviceUtils.js:42-54 | as written, the type is "tablet" exactly for a user agent with "iPad" and without "iPhone" |
| DeviceUtils.AndroidTabletClassedMobile | frontend/app/lib/deviceUtils.js:42-46 | as written, the user agent "Android Tablet" is classed "mobile" |
| DeviceUtils.DeviceType | frontend/app/lib/deviceUtils.js:39-55 | corrected: an Android user agent that says "Tablet", and an iPad, are tablets unless they mention "iPhone" |
| DeviceUtils.DeviceTypeCorrectionIsMinimal | frontend/app/lib/deviceUtils.js:42-54 | the correction changes the answer exactly for Android tablets that mention neither "iPhone" nor "iPad" |
| DeviceUtils.DeviceStorage.InitializeDevice | frontend/app/lib/deviceUtils.js:65-74 | a stored non-empty id is kept and returned; otherwise a generated id is stored and returned; the stored id is never empty afterwards |
| DeviceUtils.ChosenDeviceId | frontend/app/lib/deviceUtils.js:66-71 | the stored id when it is non-empty, otherwise the generated id; never empty |
| DeviceUtils.DeviceStorage.InitializeTwice | frontend/app/lib/deviceUtils.js:65-74 | two successive initialisations return the same id, whatever the second navigator data |
| AuthContext.SumBounds | frontend/app/contexts/AuthContext.js:212-216 | non-negative purchase counts sum to at least zero and to at least each count |
| AuthContext.BaseDevices | frontend/app/contexts/AuthContext.js:192-204 | the base is 2, unless the plan-limit table has a row for the subscription's plan type |
| AuthContext.AllowedDevices | frontend/app/contexts/AuthContext.js:191-219 | the quota is the base plus the sum of purchases, and just the base when the purchase query fails |
| AuthContext.AllowedDevicesGrowWithPurchases | frontend/app/contexts/AuthContext.js:206-218 | with non-negative purchases the quota is at least the base, and one more purchase of c devices adds exactly c |
| AuthContext.RowsOf | frontend/app/contexts/AuthContext.js:176-189 | the fetched devices are exactly the table rows of that user |
| AuthContext.FindDeviceAgreesWithQuery | frontend/app/contexts/AuthContext.js:231-247 | the in-memory `find` over the user's devices and the table query agree on whether the device is known |
| AuthContext.Touch | frontend/app/contexts/AuthContext.js:248-251 | only the touched row changes, and only in `last_active_at` |
| AuthContext.TouchKeepsIndex | frontend/app/contexts/AuthContext.js:248-251 | touching a row keeps the table index and every user's row count |
| AuthContext.InsertKeepsIndex | frontend/app/contexts/AuthContext.js:253-259 | inserting a device the user does not have keeps the index and adds one to the user's count |
| AuthContext.Upsert | frontend/app/contexts/AuthContext.js:240-260 | definition: the row for (user, device id) gets a new `last_active_at` when it exists, otherwise a new row is appended; AuthContext.UpsertKeepsIndex and AuthContext.UpsertKeepsQuota state its properties |
| AuthContext.LimitExceeded | frontend/app/contexts/AuthContext.js:231-238 | definition: the user already has at least the allowed number of rows and none of them has this device id; AuthContext.DeviceContext.RegisterDevice throws exactly then |
| AuthContext.UpsertKeepsIndex | frontend/app/contexts/AuthContext.js:240-260 | the upsert keeps the index and the key counter, and leaves a row for the device |
| AuthContext.UpsertKeepsQuota | frontend/app/contexts/AuthContext.js:231-260 | after the gate, the upsert never takes a user within the quota above it |
| AuthContext.RemoveRows | frontend/app/contexts/AuthContext.js:276-280 | the delete removes exactly the user's row with that key and keeps every other row |
| AuthContext.RemoveKeepsIndex | frontend/app/contexts/AuthContext.js:273-286 | deleting keeps the table index |
| AuthContext.DeviceContext.AvailableDeviceSlots | frontend/app/contexts/AuthContext.js:288-290 | the free slots are zero exactly when the quota is used up, and otherwise fill the quota together with the devices |
| AuthContext.DeviceContext.DeviceLimitReached | frontend/app/contexts/AuthContext.js:292 | definition: at least as many devices as allowed and no current device; AuthContext.DeviceContext.LimitReachedMeansNoSlots states its consequence |
| AuthContext.DeviceContext.LimitReachedMeansNoSlots | frontend/app/contexts/AuthContext.js:288-292 | a reached device limit leaves no free slot |
| AuthContext.DeviceContext.RegisterDevice | frontend/app/contexts/AuthContext.js:221-271 | without a user nothing changes; otherwise the stored non-empty device id is kept, or a generated one is stored, before anything else; the registration is refused exactly when the quota is used up and the device is not among the user's rows, changing nothing else; on success the table is the upsert of that id with `getDeviceType` as written, the state is reloaded, the current device is found and the limit is not reached |
| AuthContext.DeviceContext.Register | frontend/app/contexts/AuthContext.js:228-271 | the gate refuses exactly when the user's rows fill the quota and do not contain the device; on success the table is the upsert and the reloaded state holds the device |
| AuthContext.DeviceContext.Reload | frontend/app/contexts/AuthContext.js:262-270 | the devices state is the user's rows, the current device is the row for this device id, and the quota state is the fetched quota |
| AuthContext.DeviceContext.UpsertRow | frontend/app/contexts/AuthContext.js:240-260 | the table becomes the upsert, keeps its index, and holds a row for the device |
| AuthContext.DeviceContext.RemoveDevice | frontend/app/contexts/AuthContext.js:273-286 | without a user nothing changes; otherwise the user's row with that key is deleted and the devices state is reloaded |
| AuthContext.NewProfile | frontend/app/contexts/AuthContext.js:146-156 | the profile's trial starts now and lasts exactly 24 hours |
| AuthContext.NewProfileTrialWindow | frontend/app/contexts/AuthContext.js:152-155 | without a subscription, a new profile has access exactly for its first 24 hours |
| Countdown.TrialRemaining | frontend/app/pricing/page.jsx:87 | the remaining time is 0 without a profile or after the trial end; otherwise it is exactly the time to the trial end |
| Countdown.Hours | frontend/app/pricing/page.jsx:89 | the whole hours in the remaining time: that many hours fit and one more does not |
| Countdown.Minutes | frontend/app/pricing/page.jsx:90 | the leftover minutes are below 60 |
| Countdown.HoursMinutesDecompose | frontend/app/pricing/page.jsx:89-90 | minutes never reach 60, and hours and minutes together never overstate the remaining time and understate it by less than one minute |
| Countdown.CountdownMatchesTrialAccess | frontend/app/calculator/page.jsx:28-30 | a running countdown is exactly frontend trial access without a subscription |
| PricingPage.PlansImproveWithLength | frontend/app/pricing/page.jsx:5-80 | four plans with distinct durations; each longer plan costs less per month, includes at least as many devices and charges no more per extra device |
| PricingPage.IsTrialActive | frontend/app/pricing/page.jsx:88 | definition: time is left on the trial; PricingPage.TrialFlagIgnoresSubscription states it |
| PricingPage.TrialFlagIgnoresSubscription | frontend/app/pricing/page.jsx:87-88 | the pricing page's trial flag depends on the profile alone |
| PricingPage.PricingState.HandleSelectPlan | frontend/app/pricing/page.jsx:92-94 | the selected plan becomes the given plan |
| PricingPage.PricingState.HandlePurchase | frontend/app/pricing/page.jsx:96-111 | the checkout is shown exactly when a plan is selected and a user is signed in, and the spinner is off afterwards |
| AddDevicePage.Quote | frontend/app/addDevice/page.jsx:14-34 | no subscription or an unknown plan type is quoted 199 as "Monthly"; every quote is 99, 149 or 199 |
| AddDevicePage.QuoteAgreesWithPlans | frontend/app/addDevice/page.jsx:14-34 | every plan of the pricing table is quoted its own add-on price and name |
| AddDevicePage.TotalPrice | frontend/app/addDevice/page.jsx:36 | definition: quantity times the unit price; AddDevicePage.TotalPriceBounds states its bounds |
| AddDevicePage.TotalPriceBounds | frontend/app/addDevice/page.jsx:36 | within the picker's range the total is between one and ten unit prices, and one more device adds one unit price |
| AddDevicePage.NextQuantity | frontend/app/addDevice/page.jsx:38-43 | a change is applied exactly when it lands in 1..10; otherwise the quantity is kept |
| AddDevicePage.QuantityStaysInRange | frontend/app/addDevice/page.jsx:9-43 | from the initial quantity, any sequence of changes keeps it in 1..10 |
| AddDevicePage.AddDevices.HandleQuantityChange | frontend/app/addDevice/page.jsx:38-43 | the quantity becomes the next quantity and stays in 1..10 |
| AddDevicePage.AddDevices.PurchaseDisabled | frontend/app/addDevice/page.jsx:155 | definition: loading or no subscription; AddDevicePage.AddDevices.NoSubscriptionNoPurchase states it |
| AddDevicePage.AddDevices.NoSubscriptionNoPurchase | frontend/app/addDevice/page.jsx:155 | without a subscription the purchase button is disabled |
| CalculatorPage.IsTrialActive | frontend/app/calculator/page.jsx:36 | definition: no subscription and time left on the trial; CalculatorPage.FlagsExclusive and Countdown.CountdownMatchesTrialAccess state it |
| CalculatorPage.SubscriptionActive | frontend/app/calculator/page.jsx:37 | definition: a subscription whose status is "active"; CalculatorPage.FlagsExclusive states it |
| CalculatorPage.FlagsExclusive | frontend/app/calculator/page.jsx:36-37 | the trial and subscription banners exclude each other; the trial banner needs a running trial and no subscription |
| CalculatorPage.CalculatorView.AccessEffect | frontend/app/calculator/page.jsx:39-43 | without access the page navigates to pricing; with access nothing changes |
| CalculatorPage.CalculatorView.DeviceEffect | frontend/app/calculator/page.jsx:45-60 | registration runs exactly when a user is present and no device error is recorded, and otherwise the context and the stored id are unchanged; when it runs, the outcome and new context are those of `registerDevice` (the stored or generated id, refusal exactly at the quota, the upsert on success); only a limit refusal records "device_limit_exceeded" |
| CalculatorPage.CalculatorView.Rendered | frontend/app/calculator/page.jsx:129-131 | the page is hidden exactly when the device-limit error is recorded |
| SignupPage.ValidateSignup | frontend/app/signup/page.jsx:18-26 | the form passes exactly when the passwords match and have at least 6 characters; a mismatch is reported before the length |
| SignupPage.FailureMessage | frontend/app/signup/page.jsx:33-38 | the shown error is never empty: the error's own message when there is one, the fallback text otherwise |
| SignupPage.SignupForm.HandleSubmit | frontend/app/signup/page.jsx:14-42 | `signUp` is called exactly when validation passes; otherwise the validation message is shown; on success the form navigates to the calculator, on failure it shows the failure message; loading is off at the end |
| AppPage.SelectScreen | frontend/app/page.jsx:27-75 | the spinner shows exactly while loading; the device-limit screen takes precedence on the calculator page; a protected screen is only shown to a signed-in user |
| AppPage.PublicAndProtectedPages | frontend/app/page.jsx:42-75 | public pages render the same with or without a user; protected pages without a user render the login screen; unknown pages render the landing screen |
| AppPage.AfterRedirect | frontend/app/page.jsx:17-21 | a signed-in user on the landing page is moved to the calculator once loading is over; any other page is kept |
| AppPage.SignedInUserLeavesLanding | frontend/app/page.jsx:17-54 | after the redirect, a signed-in user sees the calculator or the device-limit screen, never the landing page |
| AppPage.AppContent.HandleNavigate | frontend/app/page.jsx:23-25 | the current page becomes the requested page |
| AppPage.AppContent.RedirectEffect | frontend/app/page.jsx:17-21 | the current page becomes the redirect of the old page |

## Left out

Opaque primitives:

- bcrypt salt and cost are not modelled. A hash is a symbolic term, so two hashes are equal exactly when their plaintexts are.
- SHA-256 (`hashDevice`) is treated as collision-free.
- JWT minting is a parameter. The signing callback's error path is not modelled, so the legacy routes never answer 500 "Server Error".

Outside the model:

- `deviceFringerprint.util.js` and the JWT utility module are not part of this model. The import paths that do not match those file names are not modelled.
- Database and network failures are not modelled. Only validation and unique-index rejections reach the `catch` blocks.
- Error message texts are reduced to the `Fault` kind.
- Request bodies are strings. A missing `email`, `mobile` or `password` field in the device-aware controller is not modelled, and neither is its effect on the `findOne` filter.
- `durationDays` or `price` arriving as a string is not modelled: a number is either present or missing. A missing `planName` is modelled as the empty string, which fails the same `required` check.
- `/me`, the `Company` model and all logging are not modelled.
- Supabase query execution is not modelled:
  - Plan limits and add-on purchases are inputs.
  - The malformed `gt.` date filter on purchases is not modelled; the purchases passed in are those the query returned.
  - The `last_active_at` ordering of `fetchDevices` is not modelled; rows keep table order.
- The React effects that fetch the profile, subscription and devices on load are not modelled (frontend/app/contexts/AuthContext.js:294-309). Neither are `fetchProfile`, `refreshProfile`, `signIn`, `signOut` and the auth-state listener.
- Concurrency is not modelled: each request or effect runs alone, with no interleaving and no race between `registerDevice` calls.
- The calculator's floating-point formulas, history and result state are not modelled.

Time and strings:

- Dates are whole milliseconds. `setDate(getDate() + n)` is read as n whole days, ignoring DST and time zones.
- `toLowerCase` maps only ASCII letters.
- String lengths count code points, not UTF-16 units. An astral character makes a JavaScript `length` larger than the model's.

Member-specific notes:

- Access.RequireActiveSubscription: an unknown user id is the outcome `Crash` (reading a property of `null` throws), not a response.
- AuthController.Refresh: follows the code's `<`. A session is still accepted at the exact instant it expires.
- AuthController.Login: models the corrected password read (`password`, see Findings). The device's `lastUsedAt` is never refreshed on a later login, as in the code.
- LegacyAuth.FindByEmail: compares the normalised email directly. The schema's setters run on the filter but are a no-op on a normalised value (LegacyAuth.NormalizedIsNormal).
- LegacyAuth.LegacyDb: `Valid` does not carry the setter-normal form of stored emails. LegacyAuth.RegisteredUser guarantees it for every saved user.
- AuthController.Signup: models the corrected document (`password`, see Findings).
- LegacyAuth.AppendedUserAuthenticates: "no other password" holds for the injective symbolic hash only. Real bcrypt, both `bcrypt` and `bcryptjs`, reads only the first 72 bytes of a password, so any password sharing those 72 bytes also opens the account.
- LegacyAuth.RegisterThenAuthenticate: the same 72-byte bcrypt truncation applies. A raw password whose stored form shares those first 72 bytes also logs in.
- AuthController.LoginCompareMatchesHash: "matches exactly the password the hash was made from" holds for the symbolic hash. Under real bcrypt a candidate sharing the first 72 bytes also matches.

## Findings

| source | as written | input that shows it | evidently intended | confidence | as-written member | corrected member |
|---|---|---|---|---|---|---|
| backend/src/controllers/auth.controller.js:31-37 | the bcrypt hash is passed to `User.create` under `passwordHash`, a key the schema does not declare, so the required `password` is missing | any signup with a new email and mobile, e.g. `{username: "a", email: "a@x", mobile: "1", password: "secret1"}` | store the hash under `password` | not executed | AuthController.SignupAsWrittenAlwaysRejected | AuthController.SignupFieldsAccepted |
| backend/src/controllers/auth.controller.js:60 | `bcrypt.compare(password, user.passwordHash)` reads a path that is never stored, so bcrypt gets `undefined` and throws | any login for an existing active user | compare against `user.password` | not executed | AuthController.LoginCompareAsWrittenThrows | AuthController.LoginCompareMatchesHash |
| frontend/app/lib/deviceUtils.js:42-54 | the mobile test `Android && !iPad` catches every Android user agent, so the Android-tablet test is never reached | the user agent "Android Tablet" is classed "mobile" | classify Android tablets as "tablet" | not executed | DeviceUtils.AndroidTabletClassedMobile | DeviceUtils.DeviceTypeCorrectionIsMinimal |
