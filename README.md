# Blood donation platform: a verified model

The system is a campus blood-donation platform. Students and staff sign up as
donors or recipients. Recipients post blood requests, and the server alerts
matching donors. Donors accept or decline requests, register for donation camps
and log donations for an administrator to approve. Approval credits the donor and
awards badges.

The server is an Express application over Mongoose documents. The client is a React
application with two reducers, an HTTP layer that retries, an error-message
classifier and two camp views.

The model has one Dafny module per core source file:

- `Common` holds shared types (identifiers, instants as milliseconds, the route
  `Reply`, the outgoing `Notice`) and the express-validator `trim`.
- `BloodGroups` covers the blood-group enums and the compatibility table of the
  donor request feed.
- The schemas with their virtuals and pre-save hooks: `Donors` (age and
  eligibility), `BloodRequests` (urgency score, expiry, the responses and
  completions lists), `Camps` (free places, whether registration is open, status
  rollover) and `DonationRequests` (the donation claim).
- The route handlers: `AuthRoutes`, `DonorRoutes`, `RecipientRoutes`, `CampRoutes`
  and `DonationRequestRoutes`.
- The client: `NotificationReducer`, `AuthReducer`, `ApiRetry`, `ErrorMessages`,
  `CampDetailsPage` and `CampCardView`.

A document that a handler changes in place is a class with `var` fields. A handler
is a method that `modifies` the documents it loads, and a `null` document means
"not found". Every `save()` runs the model's pre-save hook. Each handler's guard
chain is a pure function returning the reply. The handler's `ensures` ties the
reply and the new document state to those functions, and lemmas state what the
functions promise.

Values the handlers get from outside are parameters:
- the wall clock (`now` in milliseconds, and `today` as a calendar date for ages);
- `Math.random()`;
- the outcome of a password comparison;
- the verdicts of format validators (e-mail, phone, postal code, ISO date);
- the documents a query returns.

The client reducers are pure functions `Reduce(state, action)`, and `new Date()`
inside the reducer travels in the action. The HTTP layer's attempts are a function
from attempt number to outcome.

## Model

| member | source | states |
|---|---|---|
| Common.Trim | server/routes/recipients.js:13-27 | the result is a contiguous part of the input with only white space before and after it, and it neither starts nor ends with white space |
| Common.ContainsSelf | server/routes/donors.js:182-184 | a case-insensitive city filter always matches the city it was built from |
| BloodGroups.ParseRequestGroup | server/models/BloodRequest.js:14-18 | a parsed request group has exactly the given name |
| BloodGroups.ParseName | server/models/BloodRequest.js:14-18 | every request group's name parses back to that group |
| BloodGroups.UnknownIsNotARequestGroup | server/models/Donor.js:12 | "Unknown" is a donor group but not a request group |
| BloodGroups.CompatibleGroups | server/routes/donors.js:157-168 | the compatibility table with its own-group fallback; TableIsAntigenRule and FallbackIsOwnGroup state what it lists |
| BloodGroups.CanDonateTo | server/routes/donors.js:157-168 | a recipient group is in the donor's table row; TableIsAntigenRule, Reflexive and Transitive state its properties |
| BloodGroups.TableIsAntigenRule | server/routes/donors.js:157-166 | the table lets a donor serve a recipient exactly when the recipient carries every antigen (A, B, Rh) of the donor |
| BloodGroups.FallbackIsOwnGroup | server/routes/donors.js:168 | a group missing from the table, "Unknown", serves only its own group |
| BloodGroups.UniversalDonorAndRecipient | server/routes/donors.js:157-166 | O- serves every group; AB+ serves only AB+ and receives from every group |
| BloodGroups.Reflexive | server/routes/donors.js:157-168 | every group can donate to itself |
| BloodGroups.Transitive | server/routes/donors.js:157-168 | compatibility is transitive |
| BloodGroups.RhNegativeServesMore | server/routes/donors.js:157-166 | the Rh-negative variant of a group serves every recipient the group serves |
| BloodGroups.UnknownServesNoRequest | server/routes/donors.js:168 | a donor of unknown group sees no request of any request group |
| Donors.Age | server/models/Donor.js:81-92 | the `age` virtual; AgeIsCompletedYears, AgeOnBirthday, AgeOnDayOfBirth and AgeMonotone state what it computes |
| Donors.IsEligible | server/models/Donor.js:95-120 | the `isEligible` virtual; EligibleIffAllRules states it as the four rules, and BoundariesPass and JustUnderNinetyDaysFails its edges |
| Donors.SchemaValid | server/models/Donor.js:18-22 | the schema's `min: 45` on weight; PlaceholderRefusedBySchema and CompleteDonation state what a failed save does |
| Donors.AgeIsCompletedYears | server/models/Donor.js:81-92 | the age is n or more exactly when the n-th birthday has been reached |
| Donors.AgeOnBirthday | server/models/Donor.js:81-92 | on the n-th birthday the age is n |
| Donors.AgeOnDayOfBirth | server/models/Donor.js:81-92 | the age on the day of birth is 0 |
| Donors.AgeMonotone | server/models/Donor.js:81-92 | the age never decreases as the date advances |
| Donors.FloorOfDays | server/models/Donor.js:107-110 | fewer than 90 whole days have elapsed exactly when less than 90 days of milliseconds have elapsed |
| Donors.EligibleIffAllRules | server/models/Donor.js:95-120 | a donor is eligible exactly when the age, weight, donation-gap and medical rules all hold |
| Donors.BoundariesPass | server/models/Donor.js:100-117 | ages 18 and 65, weight 45 and a gap of exactly 90 days are all accepted |
| Donors.JustUnderNinetyDaysFails | server/models/Donor.js:107-110 | one millisecond short of 90 days since the last donation is ineligible |
| Donors.EligibilityIgnoresGroupAndOtherConditions | server/models/Donor.js:95-120 | the blood group and the free-text conditions do not affect eligibility |
| Donors.EligibilityIgnoresFlags | server/models/Donor.js:95-120 | the availability and verification flags do not affect eligibility |
| Donors.BornTodayIsIneligible | server/models/Donor.js:100-102 | a donor born today is ineligible |
| Donors.DonorDoc.constructor | server/models/Donor.js:35-75 | a donor document holds the given donor value |
| BloodRequests.UrgencyScore | server/models/BloodRequest.js:144-152 | the score lies between 1 and 4, and an urgency outside the list scores as medium (2) |
| BloodRequests.ScoreIsRank | server/models/BloodRequest.js:144-152 | the score orders urgencies low < medium < high < critical |
| BloodRequests.IsExpired | server/models/BloodRequest.js:155-157 | the `isExpired` method; FreshRequestNotExpired and ShownIffActiveCompatible state its strict edge |
| BloodRequests.PreSaveStatus | server/models/BloodRequest.js:160-165 | the pre-save hook's status; PreSaveOnlyExpiresPending and PreSaveIdempotent state what it changes |
| BloodRequests.PreSaveOnlyExpiresPending | server/models/BloodRequest.js:155-165 | the hook changes the status only of a pending request past its expiry, and then to expired |
| BloodRequests.PreSaveIdempotent | server/models/BloodRequest.js:160-165 | saving twice at one moment gives the status saving once gives |
| BloodRequests.FreshRequestNotExpired | server/models/BloodRequest.js:128-133 | a request saved at its creation moment with the default expiry stays pending |
| BloodRequests.FindResponse | server/routes/donors.js:270-276 | finds the first response by the donor, and none exactly when the donor has none |
| BloodRequests.FindAccepted | server/routes/recipients.js:359-365 | finds an accepted response by the donor, and none exactly when there is none |
| BloodRequests.ResponsesByAppend | server/models/BloodRequest.js:73-90 | appending a response adds one to its donor's response count and nothing to others |
| BloodRequests.NoResponseCountsZero | server/models/BloodRequest.js:73-90 | a donor with no response has a count of zero |
| BloodRequests.AppendNewResponse | server/routes/donors.js:270-290 | a first response keeps the list free of duplicate donors and gives that donor exactly one response |
| BloodRequests.SumUnitsAppend | server/routes/recipients.js:368-375 | the sum of units grows by the units of the appended completion |
| BloodRequests.FindAcceptedAppend | server/models/BloodRequest.js:73-90 | a later response does not hide an earlier acceptance |
| BloodRequests.CompletionsAcceptedAppend | server/models/BloodRequest.js:73-104 | completions stay backed by acceptances when new responses arrive |
| BloodRequests.CompletionsAcceptedPush | server/routes/recipients.js:359-373 | a completion by an accepted donor keeps every completion backed by an acceptance |
| BloodRequests.NewRequest | server/routes/recipients.js:51-67 | a new request is pending, unverified, has no responses, completions or units, and expires seven days after creation |
| BloodRequests.BloodRequestDoc.constructor | server/models/BloodRequest.js:68-133 | a created document holds the new-request value, created by the requester and not yet updated |
| BloodRequests.BloodRequestDoc.PreSave | server/models/BloodRequest.js:160-165 | saving applies the expiry rule to the status and changes nothing else |
| Camps.NewRegistration | server/models/DonationCamp.js:50-67 | a registration records the donor, the moment, the slot and the registered status |
| Camps.AvailableSlots | server/models/DonationCamp.js:122-124 | free places are never negative, are positive exactly when below capacity, and with the registrations make up the capacity |
| Camps.IsRegistrationOpen | server/models/DonationCamp.js:127-137 | the `isRegistrationOpen` virtual; RegistrationOpenIff states it as an iff |
| Camps.IsOngoing | server/models/DonationCamp.js:140-143 | the `isOngoing` virtual; PreSaveMakesOngoing states that a save inside the dates makes it true |
| Camps.PreSaveStatus | server/models/DonationCamp.js:146-156 | the pre-save rollover; PreSaveTransitions, PreSaveIdempotent and PreSaveMakesOngoing state its effect |
| Camps.RegistrationOpenIff | server/models/DonationCamp.js:127-137 | registration is open exactly before the end date, for a scheduled or ongoing camp with a free place; never for paused, completed or cancelled camps |
| Camps.PreSaveTransitions | server/models/DonationCamp.js:146-156 | the hook only moves scheduled to ongoing inside the dates and ongoing to completed after the end; it never touches paused, cancelled or completed camps, and a scheduled camp past its end stays scheduled |
| Camps.PreSaveIdempotent | server/models/DonationCamp.js:146-156 | saving twice at one moment gives the status saving once gives |
| Camps.PreSaveMakesOngoing | server/models/DonationCamp.js:140-156 | a scheduled or ongoing camp saved within its dates is ongoing |
| Camps.FindRegistration | server/routes/camps.js:348-355 | finds the first registration of the donor, and none exactly when the donor has none |
| Camps.RemoveAt | server/routes/camps.js:418 | removing one entry shifts the later entries down by one and keeps the earlier ones |
| Camps.RegisterThenUnregister | server/routes/camps.js:363-419 | removing a fresh registration restores the list |
| Camps.AppendKeepsNoDuplicates | server/routes/camps.js:348-366 | registering an unregistered donor keeps one registration per donor |
| Camps.RemoveKeepsNoDuplicates | server/routes/camps.js:410-419 | removing a donor's registration keeps one registration per donor and leaves that donor unregistered |
| Camps.CampDoc.constructor | server/models/DonationCamp.js:46-111 | a new camp is scheduled, has no registrations and no totals, created by its organizer |
| Camps.CampDoc.PreSave | server/models/DonationCamp.js:146-156 | saving applies the rollover rule to the status and changes nothing else |
| DonationRequests.ClaimDoc.constructor | server/models/DonationRequest.js:18-22 | a new donation claim is pending, unverified and has no rejection reason |
| DonorRoutes.VisibleToDonor | server/routes/donors.js:171-184 | the feed query as a predicate; RequestsForDonor and ShownIffActiveCompatible state the feed it gives |
| DonorRoutes.RequestsForDonor | server/routes/donors.js:171-184 | the feed lists exactly the requests the donor's group can serve, pending or matched, unexpired, verified and passing the urgency and city filters |
| DonorRoutes.ShownIffActiveCompatible | server/routes/donors.js:171-176 | without filters a request is listed exactly when compatible, pending or matched, unexpired and verified; a listed one is not expired; one expiring this instant is not listed |
| DonorRoutes.UnknownDonorSeesNothing | server/routes/donors.js:168-176 | a donor of unknown group gets an empty feed whatever the filters |
| DonorRoutes.UniversalDonorSeesAllActive | server/routes/donors.js:157-176 | an O- donor sees every active verified request |
| DonorRoutes.RespondCheck | server/routes/donors.js:237-276 | a response is accepted exactly for accept or decline, a known donor and request, an eligible and available donor who has not responded yet; refusals are 400, 404 or a validation failure |
| DonorRoutes.RespondingTwiceRefused | server/routes/donors.js:270-276 | a second response by the same donor is refused as already responded |
| DonorRoutes.IneligibleReportedFirst | server/routes/donors.js:260-262 | an ineligible donor is told so before any other check on the request |
| DonorRoutes.Response | server/routes/donors.js:278-309 | the stored response names the donor and the moment, accepted exactly on accept, declined otherwise |
| DonorRoutes.RespondedStatus | server/routes/donors.js:286-288 | only an acceptance of a pending request changes its status, to matched |
| DonorRoutes.AcceptOnClosedRequest | server/routes/donors.js:254-290 | a cancelled, completed or expired request still takes an acceptance and keeps its status |
| DonorRoutes.AcceptNotices | server/routes/donors.js:293-300 | an acceptance notifies the requester that a donor was found; a decline notifies nobody |
| DonorRoutes.Respond | server/routes/donors.js:240-316 | the reply is the guard chain's; on success the whole new value is the old one with the response appended and the status following acceptance and the pre-save hook, `updatedBy` is kept, and the requester is notified on acceptance; on refusal nothing changes |
| DonorRoutes.RespondedOnce | server/routes/donors.js:270-290 | after a successful response the donor has exactly one response and the list has no duplicate donors |
| RecipientRoutes.ParseUrgency | server/models/BloodRequest.js:25-29 | a parsed urgency has exactly the given name |
| RecipientRoutes.ParseUrgencyName | server/models/BloodRequest.js:25-29 | every urgency's name parses back to it |
| RecipientRoutes.CreateErrors | server/routes/recipients.js:13-27 | there is at most one message per validated field |
| RecipientRoutes.CreateErrorsEmptyIff | server/routes/recipients.js:13-32 | a request body passes exactly when every field rule holds |
| RecipientRoutes.SanitizedContact | server/routes/recipients.js:23-25 | the contact's name and relationship are trimmed and the phone is kept |
| RecipientRoutes.AlertPriority | server/routes/recipients.js:88 | an alert is urgent exactly for a critical request, and high otherwise |
| RecipientRoutes.Alerted | server/routes/recipients.js:72-79 | the `Donor.find` filter and the `isEligible` test; FanOut and AlertedDonorsQualify state who passes it |
| RecipientRoutes.FanOut | server/routes/recipients.js:72-91 | exactly the available, verified, eligible donors of the same group and city are alerted |
| RecipientRoutes.AlertNotice | server/routes/recipients.js:80-91 | one donor's alert; AlertNotices and CreateAlerts state the list of them |
| RecipientRoutes.AlertNotices | server/routes/recipients.js:80-91 | one blood-request alert per alerted donor, with the urgency's priority |
| RecipientRoutes.ExactGroupOnly | server/routes/recipients.js:72-77 | an O- donor, compatible with an A+ request, is still not alerted for it |
| RecipientRoutes.AlertedDonorsQualify | server/routes/recipients.js:72-91 | every alerted donor has the request's group, is available, verified and meets every eligibility rule |
| RecipientRoutes.CreateDetails | server/routes/recipients.js:51-67 | every stored detail field: the parsed urgency, the units in range, the trimmed (and non-empty) texts, the pincode as the schema trims it, the sanitized contact, the date and the trimmed optional description |
| RecipientRoutes.CreateGroup | server/routes/recipients.js:51-67 | the stored group is the one the body names |
| RecipientRoutes.CreateAlerts | server/routes/recipients.js:72-91 | a notice is sent exactly when it is the alert of a stored donor who meets the query and eligibility filter, and there are no more alerts than donors |
| RecipientRoutes.CreateRequest | server/routes/recipients.js:30-91 | the request is created exactly when the body passes; a failure returns every message and creates nothing; success stores the new request and returns the alerts |
| RecipientRoutes.UpdateErrors | server/routes/recipients.js:194-212 | an update passes exactly when every given field meets its rule |
| RecipientRoutes.UpdateCheck | server/routes/recipients.js:212-225 | an update is allowed exactly for a valid body and a request found that is neither completed nor cancelled |
| RecipientRoutes.ApplyUpdate | server/routes/recipients.js:229-241 | for each of the eleven allowed fields, a given value replaces it (texts trimmed, contact sanitized, urgency parsed) and an absent one keeps it |
| RecipientRoutes.UpdateKeepsUnitsInRange | server/routes/recipients.js:197-241 | a valid update keeps the units required between 1 and 10 |
| RecipientRoutes.EmptyUpdateIsIdentity | server/routes/recipients.js:229-241 | an update with no fields changes nothing |
| RecipientRoutes.UpdateIdempotent | server/routes/recipients.js:229-241 | applying an update twice is applying it once |
| RecipientRoutes.UpdateRequest | server/routes/recipients.js:209-250 | the reply is the guard chain's; on success the details are updated, the pre-save hook runs and the updater is recorded; on refusal nothing changes |
| RecipientRoutes.UpdateExpiresStalePending | server/routes/recipients.js:224-243 | updating a pending request past its expiry is accepted, and the save marks it expired |
| RecipientRoutes.CancelCheck | server/routes/recipients.js:258-270 | cancelling is allowed exactly for a request found that is not completed |
| RecipientRoutes.CancelRefusesOnlyCompleted | server/routes/recipients.js:269-274 | every status but completed can be cancelled, and the pre-save hook keeps it cancelled |
| RecipientRoutes.CancelNotice | server/routes/recipients.js:276-288 | one cancellation call, with the recipient undefined; CancelNotices and CancelNoticesReachNoDonor state the calls made |
| RecipientRoutes.CancelNotices | server/routes/recipients.js:276-288 | one notification call per accepted response, each with the undefined recipient that `match.donor.user` gives on an unpopulated donor id |
| RecipientRoutes.CancelNoticesReachNoDonor | server/routes/recipients.js:258-288 | with any accepted response there is a call, but no notice is addressed to a donor, and none to any accepting donor's user |
| RecipientRoutes.AcceptedCountPositive | server/routes/recipients.js:277-279 | an accepted response makes the count of accepted responses positive |
| RecipientRoutes.CorrectedCancelNotices | server/routes/recipients.js:276-288 | as intended: one notice per accepted response, and a notice goes to a donor's user exactly when that donor accepted |
| RecipientRoutes.CancelNoticesDifferOnlyInRecipient | server/routes/recipients.js:276-288 | the calls as written and as intended agree one for one, in order, except that the written ones have no recipient |
| RecipientRoutes.CancelRequest | server/routes/recipients.js:258-288 | on success the whole new value is the old one with status cancelled, `updatedBy` is kept, and the notification calls are those of CancelNotices; on refusal nothing changes |
| RecipientRoutes.CompleteCheck | server/routes/recipients.js:336-365 | a completion is accepted exactly for at least one unit, a request found and a donor who accepted it |
| RecipientRoutes.CompletionStatus | server/routes/recipients.js:386-390 | the request is completed exactly when the units received reach the units required, in progress otherwise |
| RecipientRoutes.RecordDonation | server/routes/recipients.js:368-390 | the completion is appended, the units grow by the units donated, the status follows the total and survives the pre-save hook |
| RecipientRoutes.RecordDonationKeepsInvariant | server/routes/recipients.js:368-390 | the units received stay the sum of the completions, and every completion stays backed by an acceptance |
| RecipientRoutes.CompleteDonation | server/routes/recipients.js:336-404 | the reply is the guard chain's; on success the donation is recorded on the request and credited to the donor; a donor document failing its schema gives a 500 with nothing saved |
| RecipientRoutes.DuplicateCompletionCounted | server/routes/recipients.js:359-375 | after a recorded donation the completion check passes again for the same donor, and a second record adds a second completion and twice the units |
| RecipientRoutes.CancelledRequestCanComplete | server/routes/recipients.js:349-390 | a cancelled request with an accepted response passes the completion check, and recording the donation reopens it as completed or in progress, which the save keeps |
| CampRoutes.CompletePassSelects | server/routes/camps.js:31-34 | the first `updateMany` filter as written; DuplicateKeyHarmless compares it with the intended one |
| CampRoutes.CompletePass | server/routes/camps.js:31-34 | the first pass's effect on a camp; DuplicateKeyHarmless and ListRollover state it |
| CampRoutes.OngoingPass | server/routes/camps.js:37-40 | the second pass's effect on a camp; ListRollover states it |
| CampRoutes.ListStatus | server/routes/camps.js:31-40 | the status after both passes; ListRollover and ListAgreesWithById state it |
| CampRoutes.DuplicateKeyHarmless | server/routes/camps.js:31-34 | the filter with its duplicated status key selects what the intended filter selects plus completed camps, which it leaves completed |
| CampRoutes.ListRollover | server/routes/camps.js:31-40 | every listed camp gets the status of the two rollover passes |
| CampRoutes.ByIdStatus | server/routes/camps.js:101-113 | cancelled and completed camps keep their status; others past their end are completed; a scheduled camp that has started is ongoing |
| CampRoutes.ListAgreesWithById | server/routes/camps.js:31-40 | the list rollover and the by-id rollover agree on every camp |
| CampRoutes.ByIdIdempotent | server/routes/camps.js:101-113 | reading a camp twice rolls it over once, and the pre-save hook keeps the result |
| CampRoutes.ReadCompletesPausedCamp | server/routes/camps.js:101-113 | reading a paused camp past its end completes it, although the pre-save hook alone leaves it paused |
| CampRoutes.ReadCamp | server/routes/camps.js:98-121 | a missing camp is a 404; a found camp gets the by-id status and nothing else changes |
| CampRoutes.TextErrors | server/routes/camps.js:218-228 | the text fields pass exactly when none given is blank |
| CampRoutes.LocationErrors | server/routes/camps.js:220-224 | a given location passes exactly when its parts are not blank and its postal code is valid |
| CampRoutes.OtherErrors | server/routes/camps.js:225-232 | dates, capacity and contact pass exactly when each given one is valid |
| CampRoutes.PatchErrors | server/routes/camps.js:217-237 | a patch passes exactly when all field groups pass |
| CampRoutes.ApplyPatch | server/routes/camps.js:246-256 | for each of the thirteen stored allowed fields, a given value replaces it (texts trimmed, location and coordinator name trimmed) and an absent one keeps it |
| CampRoutes.EmptyPatchIsIdentity | server/routes/camps.js:246-256 | a patch with no fields changes no detail |
| CampRoutes.PatchIdempotent | server/routes/camps.js:246-256 | applying a patch twice is applying it once |
| CampRoutes.Patched | server/routes/camps.js:246-258 | a patch keeps the identity, registrations and totals, sets the status when given and records the updater |
| CampRoutes.PatchCamp | server/routes/camps.js:217-260 | an invalid patch returns its messages and changes nothing; a missing camp is a 404; otherwise the camp is patched and saved through the pre-save hook |
| CampRoutes.PatchedStatusAfterSave | server/routes/camps.js:246-260 | patching a camp to paused keeps it paused; patching to scheduled within its dates makes it ongoing on save |
| CampRoutes.SlotValue | server/routes/camps.js:323-365 | a blank or absent slot is stored as null, otherwise trimmed |
| CampRoutes.RegisterCheck | server/routes/camps.js:333-360 | registration succeeds exactly for a found camp open for registration, a donor profile, no earlier registration and an eligible donor; refusals are 400 or 404 |
| CampRoutes.ClosedReportedFirst | server/routes/camps.js:338-339 | a closed camp is reported before the donor is looked at |
| CampRoutes.WithRegistration | server/routes/camps.js:363-366 | the registration is appended after the existing ones |
| CampRoutes.RegistrationKeepsCapacityAndUniqueness | server/routes/camps.js:338-366 | an accepted registration never exceeds capacity, keeps one registration per donor and is found at the end |
| CampRoutes.Register | server/routes/camps.js:322-392 | the reply is the guard chain's; on success the registration is appended within capacity, the pre-save hook runs and the organizer is notified; on refusal nothing changes |
| CampRoutes.UnregisterCheck | server/routes/camps.js:397-415 | unregistering succeeds exactly for a found camp, a donor profile and an existing registration |
| CampRoutes.WithoutRegistration | server/routes/camps.js:410-418 | removes one entry when the donor is registered, nothing otherwise |
| CampRoutes.UnregisterRemovesOnlyTheDonor | server/routes/camps.js:410-418 | unregistering leaves the donor unregistered and every other donor's registration in place |
| CampRoutes.RegisterThenUnregisterRestores | server/routes/camps.js:363-418 | registering and then unregistering restores the registrations |
| CampRoutes.Unregister | server/routes/camps.js:397-426 | the reply is the guard chain's; on success the donor's registration is removed and the pre-save hook runs; on refusal nothing changes |
| DonationRequestRoutes.CreateClaim | server/routes/donationRequests.js:12-49 | an invalid date is refused, a missing donor profile is a 404, otherwise a pending claim with trimmed location and notes is created |
| DonationRequestRoutes.NextBadges | server/routes/donationRequests.js:115-122 | at most one badge is added, at the end, and never the emergency-hero badge; no donations, no badge |
| DonationRequestRoutes.NextBadgesKeepsNoDuplicates | server/routes/donationRequests.js:115-122 | badges never repeat |
| DonationRequestRoutes.BadgeAwarded | server/routes/donationRequests.js:115-122 | first donation at 1, regular donor from 5, lifesaver from 10 only once the regular badge is held, nothing between 2 and 4 |
| DonationRequestRoutes.TenthApprovalWithoutRegularBadge | server/routes/donationRequests.js:118-121 | a tenth approval for a donor without the regular badge awards that badge, not lifesaver |
| DonationRequestRoutes.ProcessCheck | server/routes/donationRequests.js:95-102 | a claim can be processed exactly when found and pending; missing is 404, processed is 400 |
| DonationRequestRoutes.ApprovedClaim | server/routes/donationRequests.js:104-106 | approval sets the status, the verifying admin and the moment, and nothing else |
| DonationRequestRoutes.Credited | server/routes/donationRequests.js:110-122 | crediting sets the last donation date, adds one donation and applies the badge rule, and nothing else |
| DonationRequestRoutes.VerifyClaim | server/routes/donationRequests.js:93-132 | on a refusal nothing changes; otherwise the claim is approved and the donor credited, and a donor document failing its schema gives a 500 after the claim was saved |
| DonationRequestRoutes.ApprovalIsOneShot | server/routes/donationRequests.js:99-102 | an approved claim can be neither approved nor rejected again |
| DonationRequestRoutes.RejectCheck | server/routes/donationRequests.js:138-155 | rejection succeeds exactly for a non-blank reason and a pending claim; a blank reason is a validation failure |
| DonationRequestRoutes.RejectedClaim | server/routes/donationRequests.js:157-160 | rejection sets the status, the trimmed reason, the admin and the moment, and nothing else |
| DonationRequestRoutes.ReasonCheckedBeforeLookup | server/routes/donationRequests.js:138-143 | a blank or missing reason is refused whether or not the claim exists |
| DonationRequestRoutes.RejectClaim | server/routes/donationRequests.js:137-168 | the reply is the guard chain's; on success the claim is rejected, on refusal it is unchanged |
| DonationRequestRoutes.RejectionIsTerminal | server/routes/donationRequests.js:152-155 | a rejected claim can be neither approved nor rejected again |
| AuthRoutes.ParseRole | server/routes/auth.js:28 | exactly "donor" and "recipient" are accepted roles, never admin |
| AuthRoutes.OtpValue | server/routes/auth.js:45 | the code is a six-digit number from 100000 to 999999 |
| AuthRoutes.DecimalString | server/routes/auth.js:45 | the decimal text is non-empty and all digits |
| AuthRoutes.DecimalRoundTrip | server/routes/auth.js:45 | reading the decimal text back gives the number |
| AuthRoutes.DecimalLength | server/routes/auth.js:45 | a k-digit number has k characters |
| AuthRoutes.LeadingDigit | server/routes/auth.js:45 | a positive number's text does not start with 0 |
| AuthRoutes.IssueOtp | server/routes/auth.js:45-46 | the code is six digits, does not start with 0, reads as 100000 to 999999, and expires ten minutes after issue |
| AuthRoutes.UserDoc.constructor | server/routes/auth.js:49-63 | a new user is unverified, active, has the code and has not logged in, and holds no role twice |
| AuthRoutes.RegisterErrors | server/routes/auth.js:22-28 | a registration body passes exactly when every field rule holds |
| AuthRoutes.Register | server/routes/auth.js:22-63 | invalid bodies return their messages, a taken email is refused, otherwise an unverified user with a fresh code and no duplicate role is created |
| AuthRoutes.VerifyCheck | server/routes/auth.js:100-121 | verification succeeds exactly for a known unverified user with a non-empty code equal to the one given and not expired; every refusal is 400 |
| AuthRoutes.VerifyOtp | server/routes/auth.js:95-126 | the reply is the check's; success marks the email verified and clears the code |
| AuthRoutes.VerifyTwiceRefused | server/routes/auth.js:107-108 | a verified user cannot verify again |
| AuthRoutes.IssuedCodeAccepted | server/routes/auth.js:45-46 | an issued code is accepted exactly within its ten minutes, and later refused as expired |
| AuthRoutes.ResendCheck | server/routes/auth.js:157-165 | a new code is sent exactly to a known unverified user |
| AuthRoutes.ResendOtp | server/routes/auth.js:152-174 | the reply is the check's; success replaces the code |
| AuthRoutes.ResendReplacesCode | server/routes/auth.js:167-174 | after a resend the new code is accepted and a different old code is refused |
| AuthRoutes.LoginErrors | server/routes/auth.js:201-203 | a login body passes exactly with a valid email and a non-empty password |
| AuthRoutes.LoginCheck | server/routes/auth.js:206-236 | login succeeds exactly for a valid body and a known, active, verified user whose password matches |
| AuthRoutes.LoginOrder | server/routes/auth.js:214-236 | deactivation is reported before verification, and a wrong password reads like an unknown email |
| AuthRoutes.Login | server/routes/auth.js:201-240 | the reply is the check's; success records the login time and nothing else |
| AuthRoutes.ProfileErrors | server/routes/auth.js:307-317 | a profile update passes exactly when each given field meets its rule |
| AuthRoutes.ApplyProfile | server/routes/auth.js:322-334 | each field given non-empty replaces the old value and every other field is kept |
| AuthRoutes.ProfileUpdateIdempotent | server/routes/auth.js:322-334 | applying a profile update twice is applying it once |
| AuthRoutes.UpdateProfile | server/routes/auth.js:307-349 | an invalid update returns its messages and changes nothing; a missing user is a 500; otherwise only the profile is updated |
| AuthRoutes.AddRoleCheck | server/routes/auth.js:392-409 | a role is added exactly when it is donor or recipient, the user exists and does not hold it yet |
| AuthRoutes.AddRoleKeepsNoDuplicates | server/routes/auth.js:408-412 | adding a role not held keeps the roles free of duplicates |
| AuthRoutes.Placeholder | server/routes/auth.js:416-439 | the placeholder donor is born today, of unknown group, for the user |
| AuthRoutes.PlaceholderRefusedBySchema | server/routes/auth.js:420-438 | the placeholder donor as written fails the donor schema |
| AuthRoutes.AddRole | server/routes/auth.js:392-451 | the role is saved first; adding the donor role without a profile then fails with a 500 and creates no profile |
| AuthRoutes.CorrectedPlaceholder | server/routes/auth.js:416-439 | the corrected placeholder is born today, of unknown group, for the user |
| AuthRoutes.CorrectedPlaceholderStoredButIneligible | server/routes/auth.js:416-439 | the corrected placeholder passes the schema and is still ineligible |
| AuthRoutes.AddRoleCorrected | server/routes/auth.js:392-451 | with the corrected placeholder, a donor role without a profile creates one that passes the schema |
| NotificationReducer.Reduce | client/src/contexts/NotificationContext.jsx:13-60 | the reducer; the six effect lemmas, CountStaysNonNegative and CounterAgreement state what each action does |
| NotificationReducer.MarkedRead | client/src/contexts/NotificationContext.jsx:29-38 | a marked notification is read at the given moment and otherwise unchanged |
| NotificationReducer.MarkMatching | client/src/contexts/NotificationContext.jsx:29-38 | every notification with the id is marked read, every other one is kept, and the list keeps its length |
| NotificationReducer.MarkEvery | client/src/contexts/NotificationContext.jsx:39-48 | every notification is marked read and the list keeps its length |
| NotificationReducer.Without | client/src/contexts/NotificationContext.jsx:49-56 | exactly the notifications with other ids remain |
| NotificationReducer.Decrement | client/src/contexts/NotificationContext.jsx:35-36 | the counter drops by one and never below zero |
| NotificationReducer.AddNotificationEffect | client/src/contexts/NotificationContext.jsx:23-28 | an added notification goes first and raises the counter by one |
| NotificationReducer.MarkAsReadEffect | client/src/contexts/NotificationContext.jsx:29-38 | the matching entries are read at the moment given, others are unchanged, and the counter drops by one but not below zero |
| NotificationReducer.MarkAllReadEffect | client/src/contexts/NotificationContext.jsx:39-48 | all entries are read and the counter is zero; repeating at the same moment changes nothing |
| NotificationReducer.RemoveNotificationEffect | client/src/contexts/NotificationContext.jsx:49-56 | exactly the entries with other ids remain, and the counter drops by one but not below zero |
| NotificationReducer.OtherActionsEffect | client/src/contexts/NotificationContext.jsx:15-22 | loading and loading the list change only their own fields; an unknown action changes nothing |
| NotificationReducer.CountStaysNonNegative | client/src/contexts/NotificationContext.jsx:13-60 | from a non-negative counter, any sequence of actions with non-negative payloads keeps it non-negative |
| NotificationReducer.UnreadIn | client/src/contexts/NotificationContext.jsx:7-11 | the unread entries are no more than the entries |
| NotificationReducer.UnreadWithId | client/src/contexts/NotificationContext.jsx:29-56 | the unread entries with an id are no more than the unread entries |
| NotificationReducer.UnreadWithAbsentId | client/src/contexts/NotificationContext.jsx:29-56 | an absent id has no unread entries |
| NotificationReducer.UnreadWithUniqueId | client/src/contexts/NotificationContext.jsx:29-56 | with unique ids at most one unread entry has the id |
| NotificationReducer.UnreadAfterMarking | client/src/contexts/NotificationContext.jsx:29-38 | marking by id removes exactly that id's unread entries from the unread count |
| NotificationReducer.UnreadAfterRemoving | client/src/contexts/NotificationContext.jsx:49-56 | removing by id removes exactly that id's unread entries from the unread count |
| NotificationReducer.UnreadAfterMarkingAll | client/src/contexts/NotificationContext.jsx:39-48 | after marking all read nothing is unread |
| NotificationReducer.CounterAgreement | client/src/contexts/NotificationContext.jsx:23-56 | from a counter that agrees with the list: adding keeps agreement exactly for an unread entry; marking and removing keep it exactly when the id names an unread entry or the counter is zero; marking all always does |
| NotificationReducer.MarkingReadEntryDrifts | client/src/contexts/NotificationContext.jsx:29-38 | marking an already read entry lowers the counter below the unread entries |
| AuthReducer.Reduce | client/src/contexts/AuthContext.jsx:13-44 | the reducer; LoginSuccessEffect, LogoutEffect, UpdateUserEffect and OtherActionsEffect state each case |
| AuthReducer.InitialState | client/src/contexts/AuthContext.jsx:6-11 | the start state has no user, the stored token, is not authenticated and is loading |
| AuthReducer.Spread | client/src/contexts/AuthContext.jsx:36-40 | the merged user has the fields of both, and the payload wins on a shared field |
| AuthReducer.LoginSuccessEffect | client/src/contexts/AuthContext.jsx:15-22 | login stores the user and token, authenticates and stops loading, whatever the state before |
| AuthReducer.LogoutEffect | client/src/contexts/AuthContext.jsx:23-30 | logout clears user and token; a second logout changes nothing; logout then login equals the login |
| AuthReducer.UpdateUserEffect | client/src/contexts/AuthContext.jsx:36-40 | the payload overlays the user, other fields and the token, flag and loading are kept, and repeating it changes nothing |
| AuthReducer.UpdateAfterLogout | client/src/contexts/AuthContext.jsx:23-40 | an update after logout leaves a user object while nobody is authenticated |
| AuthReducer.OtherActionsEffect | client/src/contexts/AuthContext.jsx:31-42 | setting loading changes only loading; an unknown action changes nothing |
| ApiRetry.ShouldRetry | client/src/utils/api.js:27-29 | the retry test; RetryRequest, NotRetriedRethrown and AlwaysUnavailable state when it holds |
| ApiRetry.BackoffDelay | client/src/utils/api.js:32-35 | each wait lies between 1000 and 10000 ms and is the cap or 1000 times a power of two |
| ApiRetry.BackoffDoubles | client/src/utils/api.js:32-35 | each wait doubles the previous one until it reaches the cap |
| ApiRetry.RetryRequest | client/src/utils/api.js:23-45 | at most three retries in all; the result is the outcome of the last attempt; each wait is the backoff of its attempt; every attempt before the last was retryable and the last one is not |
| ApiRetry.RetryBudget | client/src/utils/api.js:13-45 | from zero, a request runs at most four times and waits 7000 ms at most |
| ApiRetry.AlwaysUnavailable | client/src/utils/api.js:23-45 | a server that keeps answering 503 is tried four times, with waits of 1000, 2000 and 4000 ms |
| ApiRetry.NotRetriedRethrown | client/src/utils/api.js:27-43 | an error without a response or outside the retry list is rethrown at once |
| ApiRetry.RateLimitDelay | client/src/utils/api.js:97-98 | the wait before a rate-limit retry is the retry-after header in seconds, or 1000 ms |
| ApiRetry.Request | client/src/utils/api.js:87-116 | a 401 is rethrown and signs out; a 429 waits and then runs the retry loop from zero; anything else passes through |
| ApiRetry.RateLimitedCallAttempts | client/src/utils/api.js:96-113 | a call runs at most five times; one always rate limited ends with waits of the header delay, 1000, 2000 and 4000 ms |
| ApiRetry.RateLimitWarningIff | client/src/utils/api.js:64-82 | the warning fires exactly when five times the remaining count is below the limit, and never without both headers |
| ErrorMessages.ResponseText | client/src/utils/errorHandler.js:14-70 | the per-status text; StatusTexts and ServerRepliesShown state it status by status |
| ErrorMessages.OrElse | client/src/utils/errorHandler.js:22-28 | a non-empty text is used, otherwise the fallback |
| ErrorMessages.ItemText | client/src/utils/errorHandler.js:22-25 | an item shows its msg, else its message, else an empty text |
| ErrorMessages.HandleApiError | client/src/utils/errorHandler.js:7-77 | a custom message always wins; without a response the network text is shown; a setup error shows its own message or the generic text |
| ErrorMessages.StatusTexts | client/src/utils/errorHandler.js:19-69 | fixed texts for 401, 403, 404, 500 and 502 to 504 whatever the body; 429 uses the retry-after header; 400 without items uses its message; other statuses use the message or the generic text |
| ErrorMessages.ValidationErrorsJoined | client/src/utils/errorHandler.js:20-28 | a 400 with two items shows their texts joined by a comma and a space |
| ErrorMessages.AsError | server/routes/recipients.js:30-33 | a reply is an error for the client exactly when it is not a success |
| ErrorMessages.ItemTextsOfMsgItems | client/src/utils/errorHandler.js:22-25 | the items the server sends show back exactly its messages |
| ErrorMessages.ServerRepliesShown | client/src/utils/errorHandler.js:19-58 | a validation failure shows the server's messages in order joined by ", "; a 400 refusal shows its message; a 404 or 500 shows the client's text |
| CampDetailsPage.IsUserRegistered | client/src/pages/public/CampDetails.jsx:53-58 | a user is registered exactly when some registration's donor refers to the user |
| CampDetailsPage.RegisteredByEitherReference | client/src/pages/public/CampDetails.jsx:55-57 | a populated or an id reference both count; unpopulated donors never do |
| CampDetailsPage.GetRegistrationStatus | client/src/pages/public/CampDetails.jsx:60-84 | loading before the camp arrives; already registered exactly for a registered user; completed and cancelled camps are named |
| CampDetailsPage.CanRegisterIff | client/src/pages/public/CampDetails.jsx:60-84 | the button is enabled exactly for a loaded camp the user has not joined, not completed or cancelled, not ended and with room; the ended and full messages come in that order |
| CampDetailsPage.PageAgainstServer | client/src/pages/public/CampDetails.jsx:70-84 | the page enables registration exactly where the server's open check holds, plus paused camps not yet ended with room |
| CampDetailsPage.PausedCampOffered | client/src/pages/public/CampDetails.jsx:70 | a paused camp with room and time left is offered although the server's open check refuses it |
| CampDetailsPage.CorrectedRegistrationStatus | client/src/pages/public/CampDetails.jsx:70-72 | the corrected panel refuses a paused camp and otherwise behaves as written |
| CampDetailsPage.CorrectedAgreesWithServer | client/src/pages/public/CampDetails.jsx:60-84 | the corrected panel enables registration exactly where the server's open check holds and the user has not registered |
| CampDetailsPage.DisplayedSlots | client/src/pages/public/CampDetails.jsx:127-128 | the free places shown are the server's free places |
| CampCardView.IsFull | client/src/pages/public/CampCard.jsx:21 | `percentage >= 100`; FullIff states it as 99.5% taken |
| CampCardView.CanRegister | client/src/pages/public/CampCard.jsx:22-26 | the `canRegister` conjunction; CanRegisterNeeds and CardNeverOffersRegistration state when it holds |
| CampCardView.Percentage | client/src/pages/public/CampCard.jsx:6-8 | the fill is between 0 and 100, 0 without capacity, and otherwise the rounded percentage of places taken, capped at 100 |
| CampCardView.FullIff | client/src/pages/public/CampCard.jsx:21 | a card shows full exactly from 99.5% of places taken; 995 of 1000 is full and 994 is not |
| CampCardView.CanRegisterNeeds | client/src/pages/public/CampCard.jsx:22-26 | the button needs a scheduled open camp, the donor role and less than 99.5% taken; an ongoing camp never gets it |
| CampCardView.CardNeverOffersRegistration | client/src/pages/public/CampCard.jsx:22-26 | with `isRegistrationOpen` as it arrives (undefined), no camp ever shows the button, while an open camp given the server's value would |
| CampCardView.NearlyFullCampHidden | client/src/pages/public/CampCard.jsx:21-26 | a camp with five of 1000 places free is open on the server but shows no button |
| CampCardView.GetStatusConfig | client/src/pages/public/CampCard.jsx:10-18 | the four listed statuses get their own badge and any other status the scheduled badge |
| CampCardView.StatusBadges | client/src/pages/public/CampCard.jsx:10-19 | each camp status is badged after itself, except paused, which is badged as scheduled |

## Left out

- E-mail sending (OTP mails, notification mails), JWT issuing and checking, and password hashing are left out. A password comparison enters as a verdict.
- The `Notification` model is not part of this model. A handler returns the notices it would create as `Notice` values with recipient, type, title and priority. Their message texts are left out.
- Format validators (`isEmail`, `isMobilePhone`, `isPostalCode('IN')`, `isISO8601`) enter as verdicts. `normalizeEmail` is not modelled.
- `server/models/User.js` is not part of this model: the user's initial roles and the password-hash hook are parameters or left out.
- `populate`, `select`, pagination, sorting (including the urgency sort) and the `countDocuments` totals are presentation of query results and are left out.
- The urgency and city filters of the donor feed are a predicate. City matches are case-insensitive substring matches of the query text. Regular-expression metacharacters in the query are not interpreted.
- The TTL index on `expiresAt` (server/models/BloodRequest.js:141) deletes expired requests in the background. Deletion by the database is not modelled.
- The camp create and delete routes, the upcoming-camps routes, the admin and analytics routes and the database scripts are outside the core.
- An enum value outside the schema, in a patch or an update, makes `save()` throw and the route answer 500. Patches and updates in the model carry parsed enum values only.
- `RecipientRoutes.CompleteDonation`: `unitsDonated` is taken as a number. `isInt({ min: 1 })` also accepts a numeric string such as "2", and then `totalUnitsReceived += unitsDonated` concatenates text ("1" + "2"), which the schema casts to 12. The model does not capture that, so `totalUnitsReceived == SumUnits(completedDonors)` holds only for numeric bodies. The client's payload types are not shown in the sources, so whether the case arises is open.
- `DonorRoutes.RespondCheck`, `RecipientRoutes.CompleteCheck`: a malformed id in the body fails `isMongoId()` (server/routes/donors.js:238, server/routes/recipients.js:337-338) with a 400 `{ errors }`. The model takes ids as well-formed numbers, so only the 404 and not-accepted replies are modelled.
- The `:id` routes (`UpdateRequest`, `CancelRequest`, `ReadCamp`, `PatchCamp`, `Register`, `Unregister`, `VerifyClaim`, `RejectClaim`): a malformed `:id` makes `findById`/`findOne` throw a cast error, and the route answers 500. The model's lookups only find a document or find none, so it answers 404.
- `RecipientRoutes.UpdateRequest`: a `contactPerson` with only some of its fields passes the optional validators (server/routes/recipients.js:202-204) and replaces the whole sub-document. `save()` then fails on the missing required fields (server/models/BloodRequest.js:55-59), and the route answers 500. The update always carries the contact whole.
- `DonationRequestRoutes.VerifyClaim`, `DonationRequestRoutes.ApprovalIsOneShot`: concurrency is not modelled. Approval is a read, a check and a save (server/routes/donationRequests.js:95-106), so two approvals running at once can both see `pending` and credit the donor twice. One-shot approval is proved for requests handled one after another.
- `RecipientRoutes.CancelRequest`: the `Notification` model is not part of this model, so it is open whether `createNotification` with an undefined recipient throws or stores a notice that reaches nobody. If it throws, the route answers 500 after the cancellation was saved. Either way, no accepted donor is notified.
- `Common.Trim`, `Common.ContainsIgnoringCase`: only ASCII is handled. `Trim` strips the six ASCII white-space characters, while JavaScript's `trim` also strips U+00A0, U+FEFF, U+2028, U+2029 and the other Unicode spaces. `ContainsIgnoringCase` folds only A to Z, while a RegExp with the `i` flag also folds non-ASCII letters.
- `CampRoutes.PatchCamp`: a partial `location` or `contactInfo` object replaces the whole sub-document in the source as in the model. The patch always carries the sub-document whole.
- `DonorRoutes.Respond`: the notice's message text is left out. In the source it reads `donor.user.name` from a donor whose `user` is not populated, so the name would be missing.
- `CampCardView.Percentage`: rounding is exact. The source rounds the floating-point quotient, which can fall just below an exact half (23 of 40 gives 57 in floating point and 58 exactly).
- `BloodRequests.UrgencyScore`: the score is defined on the stored urgency text. In the source, a key that every object inherits (such as "constructor" or "toString") would give a truthy non-number instead of 2. The urgency enum (server/models/BloodRequest.js:25-29) keeps such values out of stored requests, so the model scores every text outside the four names as 2.
- `AuthRoutes.Register`: the initial roles are a parameter, taken without duplicates; the schema that sets them, server/models/User.js, is not part of this model.
- `ApiRetry.RateLimitDelay`: `parseInt` of a non-numeric `retry-after` header gives `NaN`, which `sleep` treats as no wait. The model takes the header as an already parsed number or absent.
- `ApiRetry.Request`: the `userMessage` text set on a repeated 429 is never read by any caller and is left out. So are the redirect and `localStorage` removal on 401, the `rateLimitWarning` event payload, `console.log` calls and the sleeps themselves (only their lengths are modelled).
- The client providers' asynchronous wrappers (fetching notifications, login and register calls, storing the token) are I/O around the reducers and are left out.
- Wall-clock time is a parameter everywhere. Time zones are not modelled: a calendar date and an instant are given together.

## Findings

| source | as written | input that shows it | evidently intended | confidence | as-written member | corrected member |
|---|---|---|---|---|---|---|
| server/routes/auth.js:420-438 | adding the donor role builds a placeholder donor with weight 0, while the donor schema requires at least 45 (server/models/Donor.js:18-22); the save throws after the role was already saved | a user with only the recipient role and no donor profile adds the role "donor" | the placeholder passes the schema, so a profile is created that the donor must complete and that stays ineligible meanwhile | not executed; follows from the schema's `min: 45` | AuthRoutes.AddRole, AuthRoutes.PlaceholderRefusedBySchema | AuthRoutes.AddRoleCorrected, AuthRoutes.CorrectedPlaceholderStoredButIneligible |
| client/src/pages/public/CampDetails.jsx:70 | the panel refuses only completed and cancelled camps, so a paused camp with room and time left shows "Register Now" | a paused camp ending tomorrow with 10 places and no registrations | a paused camp is refused like the server's open check (server/models/DonationCamp.js:127-137) refuses it | not executed | CampDetailsPage.GetRegistrationStatus, CampDetailsPage.PausedCampOffered | CampDetailsPage.CorrectedRegistrationStatus, CampDetailsPage.CorrectedAgreesWithServer |
| server/routes/recipients.js:276-288 | the request is loaded without `populate` (server/routes/recipients.js:260-263), so `match.donor` is a bare id and `match.donor.user` is undefined; the cancellation notification gets no recipient | a pending request with one accepted response is cancelled | each donor who accepted is notified, by populating `matchedDonors.donor` or by looking each donor up | not executed; the outcome of an undefined recipient depends on the Notification model, which is not part of this model | RecipientRoutes.CancelNotices, RecipientRoutes.CancelNoticesReachNoDonor | RecipientRoutes.CorrectedCancelNotices |
| client/src/pages/public/CampCard.jsx:22-26 | `canRegister` reads `camp.isRegistrationOpen`, a virtual (server/models/DonationCamp.js:127-137) that the camp schema, with only `timestamps: true` (server/models/DonationCamp.js:113), does not put into JSON; the routes send camps with `res.json` (server/routes/camps.js:88, 124), so the field is undefined and the register button never shows; client/src/pages/public/DonationCamps.jsx:226 reads it the same way | any scheduled, open camp with free places shown to a signed-in donor | the card shows the button where the server accepts, by enabling virtuals in JSON or computing the test on the client | not executed; follows from the schema options and the `res.json` calls | CampCardView.CanRegister, CampCardView.CardNeverOffersRegistration | CampCardView.CanRegisterNeeds |
