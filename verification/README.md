# aura: referral ledger, analysis records, questionnaire and display rules

aura is an iOS app that rates hair from a photo and keeps a history of the
ratings. This project models the parts of it that carry logic of their own and
proves properties of them in Dafny:

- **Referral ledger.** Users mint six-character referral codes, and friends
  redeem them. A user document holds `referralCode`, `usedReferralCode` and an
  `availableAnalyses` counter. A code document holds its owner and the
  `usedBy` list. The document store is a map from user id to user document plus
  a sequence of code documents. A query by code returns the first match, and
  every merge-write updates only the field it names. Each remote call is one
  atomic step. A redemption returns the new store together with its outcome.
- **Analysis and diagnostic records.** These are an encoder and decoder over a
  small dynamic value type: string, real, integer, list, map and timestamp.
  Fetching filters a collection by user and decodes every match.
- **The onboarding questionnaire.** A state machine over the questions, the
  index of the question on screen and a completion flag.
- **Display rules.** The 0–100 category score with its colour band. The
  five-star row. `Color(hex:)` up to the division of its channels by 255.

Modules: `Wrappers` (Option, Result, Outcome), `Text` (ASCII case mapping, the
whitespace set, trimming), `ReferralCodes`, `ReferralLedger` and `LedgerProofs`,
`Documents`, `AnalysisRecords` and `AnalysisProofs`, `DiagnosticRecords`,
`DiagnosticStepper`, `ScoreDisplay`, `StarRating`, `HexColor`.

The main result is about redemption. With the validity rule as written
(`usedBy.count < 1`), a code that passes the validity check has no users. Two
branches are therefore dead:
- the branch that credits the owner when `usedBy` held one entry;
- the "You have already used this referral code" rejection.

`LedgerProofs.RedeemNeverGrantsCredit` and
`LedgerProofs.NeverAlreadyUsedThisCode` prove this.

## Model

| member | source | states |
|---|---|---|
| ReferralCodes.IsValid | aura/Models/ReferralCode.swift:10-12 | a referral code is valid exactly when nobody has used it, so no user is among its users |
| ReferralCodes.FreshCodeIsValid | aura/Models/ReferralCode.swift:10-12 | a code with an empty `usedBy`, as generation creates it, is valid |
| ReferralCodes.InvalidStaysInvalid | aura/Models/ReferralCode.swift:10-12 | extending the user list of an invalid code leaves it invalid |
| ReferralCodes.ValidityDependsOnlyOnUsers | aura/Models/ReferralCode.swift:3-12 | two codes with the same `usedBy` agree on validity, whatever their id, owner, text or date |
| ReferralLedger.NormalizeCode | aura/Services/FirebaseService.swift:189 | the lookup key is the upper-cased input with whitespace removed from the two ends and nowhere else: it sits inside the upper-cased text, only whitespace surrounds it, and its own first and last characters are not whitespace; it has no lower-case letters, and a text made only of code characters is its own key |
| ReferralLedger.DecodeCode | aura/Services/FirebaseService.swift:204-210 | id and code text are copied, and so is the stored creation time (a stored code document always carries one); an absent owner reads as the empty string and an absent user list as empty |
| ReferralLedger.DecodeEncodeCode | aura/Services/FirebaseService.swift:177-182 | a code document written with every field present, as the app writes it, reads back as the code it was written from |
| ReferralLedger.ArrayUnion | aura/Services/FirebaseService.swift:242-244 | the old array, an absent one counting as empty, is kept as a prefix; the element is appended only when it is not already there; the members are the old ones plus the element |
| ReferralLedger.UsedCodeOfOwner | aura/Services/FirebaseService.swift:213-226 | the same-owner rejection applies exactly when the redeemer's stored code text has a first matching code document whose stored owner is the new code's owner |
| ReferralLedger.MessagesDistinct | aura/Services/FirebaseService.swift:196-239 | the five rejection messages are pairwise different, so each message names one rejection |
| ReferralLedger.GetReferralStatus | aura/Services/FirebaseService.swift:268-277 | a missing user document reads as no codes and zero credits; otherwise the two code fields are copied and an absent counter reads as 0 |
| ReferralLedger.FindCodeFrom | aura/Services/FirebaseService.swift:192-200 | the code query returns the first document whose code equals the key, or nothing when none does |
| ReferralLedger.Redeem | aura/Services/FirebaseService.swift:188-256 | every rejection leaves both the users and the code documents unchanged |
| LedgerProofs.NormalizeCodeIdempotent | aura/Services/FirebaseService.swift:189 | upper-casing and trimming an already normalised key changes nothing |
| LedgerProofs.ExtraUppercaseIsHarmless | aura/Services/FirebaseService.swift:189 | upper-casing the input first, as the referral screen does, gives the same lookup key |
| LedgerProofs.RedeemCheckOrder | aura/Services/FirebaseService.swift:196-239 | the outcome is decided in order: no match, then a previous code from the same owner, then own code, then an exhausted code; the redemption is accepted exactly when all of these pass |
| LedgerProofs.NeverAlreadyUsedThisCode | aura/Services/FirebaseService.swift:233-239 | the "already used this referral code" rejection can never happen |
| LedgerProofs.RedeemNeverGrantsCredit | aura/Services/FirebaseService.swift:246-256 | no redemption changes any user's `availableAnalyses`, so neither the redeemer nor the owner is credited |
| LedgerProofs.RedeemSuccessEffect | aura/Services/FirebaseService.swift:241-249 | an accepted redemption turns the matched code's empty `usedBy` into the redeemer alone and records the normalised key as the redeemer's `usedReferralCode`; every other code and every other user is unchanged |
| LedgerProofs.RedeemThenStatus | aura/Services/FirebaseService.swift:247-249 | after an accepted redemption, the redeemer's status reports the normalised code and unchanged credits |
| LedgerProofs.FindCodeSameCodes | aura/Services/FirebaseService.swift:192-194 | the query result depends only on the `code` fields of the documents |
| LedgerProofs.SecondRedeemFails | aura/Services/FirebaseService.swift:213-226 | redeeming the same code again fails and changes nothing; when the document names its owner, the rejection is "already used a referral code from this user" |
| LedgerProofs.RedeemLeavesExhaustedCode | aura/Services/FirebaseService.swift:233-235 | a redemption never touches an exhausted code document |
| LedgerProofs.ExhaustedCodeFrozen | aura/Services/FirebaseService.swift:233-235 | under any sequence of requests that mints nothing under its id, an exhausted code document stays exactly as it is |
| LedgerProofs.RedeemPreservesInvariant | aura/Services/FirebaseService.swift:229-244 | every code keeps at most one user, and never its own owner |
| LedgerProofs.GeneratePreservesInvariant | aura/Services/FirebaseService.swift:164-183 | minting a code keeps that invariant |
| LedgerProofs.RunPreservesInvariant | aura/Services/FirebaseService.swift:161-297 | any sequence of generate, redeem, increment and decrement requests keeps that invariant |
| LedgerProofs.GeneratedCodeIsNormal | aura/Services/FirebaseService.swift:162 | a minted code is its own lookup key |
| LedgerProofs.FindAppended | aura/Services/FirebaseService.swift:192-194 | the query finds a newly added document when no earlier document carries its code |
| LedgerProofs.GenerateThenRedeem | aura/Services/FirebaseService.swift:161-256 | when a friend who never redeemed enters a freshly minted unique code, they are accepted and recorded on the code, the code is recorded on them, and the owner's credits are unchanged |
| ReferralLedger.GenerateReferralCode | aura/Services/FirebaseService.swift:161-186 | the code has six characters from A–Z and 0–9, no users, belongs to the caller, carries the given id and time, and is valid; only the caller's `referralCode` changes among the users; the document under the id is the new code, every document with another id stays where it was, and at most one document is added; every stored code document is either the one under the id or was stored before |
| ReferralLedger.PutCodeDoc | aura/Services/FirebaseService.swift:178-183 | writing a document by id replaces whatever was stored under that id, leaves documents with other ids in place, and adds at most one document |
| ReferralLedger.UpdateAvailableAnalyses | aura/Services/FirebaseService.swift:261-266 | the counter grows by exactly `increment`, an absent counter counting as 0; no other field or user changes |
| ReferralLedger.DecrementAvailableAnalyses | aura/Services/FirebaseService.swift:293-297 | the counter drops by exactly one; the two code fields and every other user are unchanged |
| LedgerProofs.StatusOfUnknownUser | aura/Services/FirebaseService.swift:268-277 | a user without a document reports no codes and zero credits |
| LedgerProofs.DecrementUndoesIncrement | aura/Services/FirebaseService.swift:261-297 | incrementing by one and then decrementing restores the reported credits |
| LedgerProofs.DecrementBelowZero | aura/Services/FirebaseService.swift:293-297 | nothing floors the counter: decrementing zero credits reports minus one |
| Documents.MatchPositions | aura/Services/FirebaseService.swift:55-58 | the positions the query selects are strictly increasing, each holds a document of the user with a date, and every such document's position is among them |
| Documents.QueryByUser | aura/Services/FirebaseService.swift:55-58 | the answer is the collection's documents at exactly those positions, in order, so it is an order-preserving filter that keeps duplicates |
| Documents.QueryMembers | aura/Services/FirebaseService.swift:55-58 | every answer is a document of the user with a date from the collection, and every such document is answered |
| Documents.QueryAll | aura/Services/FirebaseService.swift:55-60 | a property holds of every selected document exactly when it holds of every answered one |
| AnalysisRecords.EncodeAnalysis | aura/Services/FirebaseService.swift:22-49 | the document has exactly the five fields ratings, overallScore, recommendations, date and userId, and the owner's query, and no other user's, selects it |
| AnalysisRecords.SaveHairAnalysis | aura/Services/FirebaseService.swift:22-52 | the owner's query answers the new document first, followed by its earlier answers; every other user's query is unchanged |
| AnalysisRecords.DecodeAnalysis | aura/Services/FirebaseService.swift:60-110 | a document is read exactly when all ten casts of the guard succeed, whatever other fields it carries; the overall score, date, thickness and health come from those fields, the scores through the zero default, the products one by one through the empty-string defaults, and the technique and lifestyle lists as stored |
| AnalysisProofs.OtherFieldsIgnored | aura/Services/FirebaseService.swift:63-74 | adding, changing or removing a field other than ratings, recommendations, overallScore and date does not change what the reader returns |
| AnalysisProofs.IntegerScoreAccepted | aura/Services/FirebaseService.swift:66 | a score stored as an integer passes the `[String: Double]` cast and reads as that number, the other scores unchanged |
| AnalysisRecords.DecodeAll | aura/Services/FirebaseService.swift:60-110 | the read succeeds exactly when every document reads, and then yields one record per document, in order |
| AnalysisRecords.FetchHairAnalyses | aura/Services/FirebaseService.swift:54-111 | the fetch succeeds exactly when every dated document of the user reads; it then yields one record per such document, in collection order |
| AnalysisProofs.DecodeEncodeScores | aura/Services/FirebaseService.swift:27-35 | the score map reads back the seven scores that were written |
| AnalysisProofs.DecodeEncodeStrings | aura/Services/FirebaseService.swift:44-45 | a list of strings reads back as itself |
| AnalysisProofs.DecodeEncodeProducts | aura/Services/FirebaseService.swift:39-43 | product recommendations read back as themselves, in order |
| AnalysisProofs.DecodeEncodeAnalysis | aura/Services/FirebaseService.swift:22-110 | reading a saved analysis returns it unchanged: labels, seven scores, overall score, recommendations and date |
| AnalysisProofs.EncodedIsWellFormed | aura/Services/FirebaseService.swift:22-52 | every document the save writes passes all ten casts of the reader's guard at lines 63-74 |
| AnalysisProofs.FetchAfterSave | aura/Services/FirebaseService.swift:22-111 | after a save, the owner's history is the new analysis followed by the earlier history; a history that failed to read still fails |
| AnalysisProofs.FetchIgnoresOtherUsers | aura/Services/FirebaseService.swift:54-58 | another user's save does not change this user's history |
| AnalysisProofs.MissingScoreReadsZero | aura/Services/FirebaseService.swift:78-86 | a missing score key reads as 0 and the other scores read as stored |
| AnalysisProofs.MissingProductFieldReadsEmpty | aura/Services/FirebaseService.swift:88-94 | a missing product field reads as the empty string |
| AnalysisProofs.MissingTopFieldFails | aura/Services/FirebaseService.swift:63-74 | a document without ratings, recommendations or overall score is rejected |
| AnalysisProofs.MissingNestedFieldFails | aura/Services/FirebaseService.swift:63-74 | a document without thickness, health, scores, products, techniques or lifestyle is rejected |
| AnalysisProofs.UndatedDocumentSkipped | aura/Services/FirebaseService.swift:55-58 | a document without a date is excluded by the date ordering and does not affect the history |
| AnalysisProofs.BadDocumentFailsFetch | aura/Services/FirebaseService.swift:60-74 | one malformed document of the user makes the whole fetch fail instead of being skipped |
| DiagnosticRecords.EncodeDiagnostic | aura/Services/FirebaseService.swift:130-135 | the document has exactly the fields answers, date and userId; the answers read back as written, and the owner's query selects it |
| DiagnosticRecords.SaveDiagnosticResults | aura/Services/FirebaseService.swift:130-138 | the owner's query answers the new document first, followed by its earlier answers; every other user's query is unchanged |
| DiagnosticRecords.DecodeDiagnostic | aura/Services/FirebaseService.swift:151-158 | a document reads exactly when its answers are a string map, its date a timestamp and its owner a string, and the result carries those values |
| DiagnosticRecords.FetchLatestDiagnosticResults | aura/Services/FirebaseService.swift:140-159 | no results exactly when no dated document of the user exists; otherwise the first such document alone decides, read or rejected |
| DiagnosticRecords.DecodeEncodeDiagnostic | aura/Services/FirebaseService.swift:130-158 | a saved diagnostic reads back unchanged |
| DiagnosticRecords.FetchLatestAfterSave | aura/Services/FirebaseService.swift:130-158 | after a save, the latest diagnostic of that user is the one just saved |
| DiagnosticRecords.FetchLatestOfNewUser | aura/Services/FirebaseService.swift:140-149 | a user without diagnostics gets none, not an error |
| DiagnosticStepper.CurrentQuestion | aura/ViewModels/DiagnosticViewModel.swift:30-33 | there is no current question exactly when the index is past the list; otherwise it is the question at the index |
| DiagnosticStepper.IsLastQuestion | aura/ViewModels/DiagnosticViewModel.swift:35-37 | the last question is the one whose index is one below the count, so a last question is always on screen and an empty list has none |
| DiagnosticStepper.CanProceed | aura/ViewModels/DiagnosticViewModel.swift:39-41 | the continue button is enabled exactly when a question is on screen and has an answer |
| DiagnosticStepper.SelectOption | aura/ViewModels/DiagnosticViewModel.swift:43-46 | only the current question's selection changes; index, flag and other questions are untouched; out of range nothing changes |
| DiagnosticStepper.NextQuestion | aura/ViewModels/DiagnosticViewModel.swift:48-54 | on the last question the questionnaire completes and the index stays; otherwise the index grows by one and the flag is unchanged |
| DiagnosticStepper.SelectEnablesProceed | aura/ViewModels/DiagnosticViewModel.swift:39-46 | after a selection the continue button is enabled exactly when a question is on screen |
| DiagnosticStepper.AdvanceStaysInRange | aura/ViewModels/DiagnosticViewModel.swift:48-54 | from an index inside a non-empty list, any number of presses keeps the index inside it |
| DiagnosticStepper.AdvanceFromStart | aura/ViewModels/DiagnosticViewModel.swift:27-54 | from the start, fewer presses than questions reach that index; more reach the last question, completed |
| DiagnosticStepper.AdvanceSplit | aura/ViewModels/DiagnosticViewModel.swift:48-54 | n + 1 presses are n presses followed by one more |
| DiagnosticStepper.EmptyNeverCompletes | aura/ViewModels/DiagnosticViewModel.swift:35-37 | with no questions there is never a last question, so the index keeps growing and the questionnaire never completes |
| DiagnosticStepper.DefaultQuestionsWellFormed | aura/ViewModels/DiagnosticViewModel.swift:4-25 | the five shipped questions have distinct texts and start unanswered, so the button starts disabled |
| DiagnosticStepper.GetAnswers | aura/ViewModels/DiagnosticViewModel.swift:56-64 | the keys are exactly the texts of answered questions; each maps to the answer of the last question with that text, and with distinct texts to every question's own answer |
| ScoreDisplay.Clamp | aura/Views/Components/CategoryScoreView.swift:14-16 | the result lies in [0, 100], equals the input inside it, and is 0 below and 100 above |
| ScoreDisplay.NormalizedScore | aura/Views/Components/CategoryScoreView.swift:10-18 | the result lies in [0, 100] and is the floor of the clamped score, inverted for damage and frizz |
| ScoreDisplay.LabelCaseIrrelevant | aura/Views/Components/CategoryScoreView.swift:12 | labels that agree once lower-cased give the same score |
| ScoreDisplay.DamageInAnyCase | aura/Views/Components/CategoryScoreView.swift:12-14 | "Damage", "DAMAGE" and "damage" behave alike, and so do "Frizz" and "frizz" |
| ScoreDisplay.NormalizedScoreMonotone | aura/Views/Components/CategoryScoreView.swift:13-16 | the score is non-decreasing in the input for normal labels and non-increasing for damage and frizz |
| ScoreDisplay.WholeScoresShownExactly | aura/Views/Components/CategoryScoreView.swift:13-16 | a whole score k in [0, 100] shows as k, or as 100 − k for damage and frizz |
| ScoreDisplay.OutOfRangeScores | aura/Views/Components/CategoryScoreView.swift:16 | for normal labels, negative inputs show 0 and inputs above 100 show 100 |
| ScoreDisplay.ScoreGradient | aura/Views/Components/CategoryScoreView.swift:82-91 | red–orange exactly for 0 to 39, orange–yellow exactly for 40 to 69, green–mint for everything else, negatives included |
| ScoreDisplay.GradientBands | aura/Views/Components/CategoryScoreView.swift:82-91 | below 40 is red–orange, 40 to 69 is orange–yellow, 70 and above is green–mint |
| StarRating.StarImageFor | aura/Views/Components/AnalysisComponents.swift:101-109 | a half star exactly at index + 0.5, a full star exactly when the index is below the score otherwise, an empty star exactly when the score is at most the index |
| StarRating.SystemNamesDistinct | aura/Views/Components/AnalysisComponents.swift:101-109 | the three star kinds are drawn with three different system images |
| StarRating.Stars | aura/Views/Components/AnalysisComponents.swift:93-97 | the row has five stars, each chosen for its own index |
| StarRating.AtMostOneHalfStar | aura/Views/Components/AnalysisComponents.swift:94-109 | at most one half star appears, and one appears exactly when the score is k + 0.5 for some k in 0..4 |
| StarRating.WholeScoreStars | aura/Views/Components/AnalysisComponents.swift:101-109 | a whole score k in [0, 5] shows k full stars followed by empty ones |
| StarRating.FullStarsCountIndicesBelow | aura/Views/Components/AnalysisComponents.swift:104-105 | when no half star appears, the full stars are the indices below the score |
| StarRating.ThreePointThreeShowsFourStars | aura/Views/Components/AnalysisComponents.swift:104-105 | a score of 3.3 shows four full stars |
| StarRating.ScoreFor | aura/Views/Components/AnalysisComponents.swift:75-86 | a category has a score exactly when it is one of the seven listed keys |
| StarRating.ScoreForReadsEachField | aura/Views/Components/AnalysisComponents.swift:43-51 | the seven listed categories read seven different fields, in order |
| Text.TrimIsInfix | aura/Utilities/Theme.swift:45 | the trimmed text is a contiguous part of the input, and only characters of the set were removed around it |
| Text.TrimIdempotent | aura/Utilities/Theme.swift:45 | trimming twice is trimming once |
| Text.UpperIdempotent | aura/Services/FirebaseService.swift:189 | upper-casing twice is upper-casing once |
| HexColor.ColorFromHex | aura/Utilities/Theme.swift:43-58 | every channel lies in [0, 255] |
| HexColor.ScanHex | aura/Utilities/Theme.swift:47 | the value is that of the longest run of hex digits, starting after a `0x`/`0X` prefix when a digit follows it and at the front otherwise; so it has no more digits than the text, and a text of hex digits only is read whole |
| HexColor.PrefixedDigitsScan | aura/Utilities/Theme.swift:47 | after a `0x`/`0X` prefix, a text of hex digits is read whole |
| HexColor.Components | aura/Utilities/Theme.swift:48-57 | every length but eight gives alpha 255, lengths other than 3, 6 and 8 give opaque black, and a value with no more digits than the length gives byte channels |
| HexColor.HexValueAppend | aura/Utilities/Theme.swift:47 | the value of two digit strings written one after the other is the first shifted left by the second's digits plus the second |
| HexColor.LeadingPunctuationIgnored | aura/Utilities/Theme.swift:45 | leading non-alphanumeric characters such as `#` do not change the colour |
| HexColor.SixDigitColor | aura/Utilities/Theme.swift:52-53 | six digits give an opaque colour whose red, green and blue are the three digit pairs |
| HexColor.ThreeDigitColor | aura/Utilities/Theme.swift:50-51 | three digits give an opaque colour with each digit times 17 |
| HexColor.EightDigitColor | aura/Utilities/Theme.swift:54-55 | eight digits give alpha, red, green and blue from the four digit pairs, alpha first |
| HexColor.OtherLengthIsBlack | aura/Utilities/Theme.swift:56-57 | any other trimmed length, empty included, gives opaque black |
| HexColor.PrimaryColor | aura/Utilities/Theme.swift:5 | the brand colour "#006D77" is (255, 0x00, 0x6D, 0x77) |
| HexColor.RedShorthand | aura/Utilities/Theme.swift:50-51 | "F00" is (255, 255, 0, 0) |

## Left out

- Real I/O is not modelled: Firestore, Storage and Auth calls, `uploadImage` (aura/Services/FirebaseService.swift:115-127) and the sign-in flow. The store is an in-memory value, and each remote call is one atomic step.
- Concurrency is not modelled. `useReferralCode` is an untransacted read-then-write spread over separate writes. Races between redemptions and partial failures between the writes cannot be expressed in a sequential model.
- Randomness and the clock become parameters: the six random alphabet draws, the document UUID and `Date()`.
- Query ordering by date is not modelled. A collection's sequence order stands for the date-descending order, and a save puts the new document first. This matches the real order only when the newest document has the latest date. What is modelled is that the ordering drops documents without a `date` field.
- The order of code-query answers is not modelled faithfully. The model keeps code documents in the order they were first written, and a query by code takes the first match in that order. The cloud store answers a query without an explicit ordering in document-id order, and the ids are random UUIDs. When two documents carry the same code text, the model and the store can therefore pick different documents. Generation checks neither the code text nor the id for collisions, and the model does not either.
- Scores are exact reals. Swift's `Double` rounding, NaN and infinity are not modelled, so results that depend on rounding can differ. For example, a "damage" score of 1e-20 makes `100 - score` round to exactly 100 in `Double`, which shows as 100; the model shows 99.
- NSNumber bridging is modelled one way. `as? Double` accepts an integer, `as? Int` accepts a whole-number real, and nothing else converts. Integer width and precision limits are not modelled.
- Case mapping and character classes cover ASCII only. `uppercased()` and `lowercased()` map only ASCII letters. The alphanumeric set is ASCII letters and digits. The whitespace set is the ASCII controls tab to carriage return, space, and the listed Unicode spaces. Other scripts, and case mappings that change length, are not modelled.
- HexColor.ColorFromHex models only part of the scanner. `Scanner.scanHexInt64` is an optional `0x`/`0X` prefix followed by the longest run of hex digits, with no overflow saturation beyond 16 digits. The channels are unbounded naturals, not `UInt64`, so wrap-around is not modelled. The conversion to `Double` channels divided by 255 is left out.
- HexColor.ColorFromHex counts Unicode scalars where Swift's `hex.count` counts grapheme clusters. For "AB\r\nCD" Swift counts 5 characters and gives opaque black, while the model counts 6 and gives Argb(255, 0, 0, 0xAB). Grapheme segmentation is not modelled; every colour in the app is built from an ASCII literal without such pairs (aura/Utilities/Theme.swift:5-40).
- String equality is exact equality of Unicode scalars. Swift's `String ==` also equates canonically equivalent texts; this affects the owner and user comparisons at aura/Services/FirebaseService.swift:223, 229 and 237 and the keys of the answers dictionary. Ids and codes in the app are ASCII, where the two agree.
- Timestamps are whole numbers of seconds. Sub-second precision and the `Date` ⇄ `Timestamp` conversion are not modelled.
- The documents of the user store have a fixed shape, the three ledger fields each present or absent. A field holding a value of the wrong type is not modelled.
- ReferralLedger.DecodeCode: a code document always carries its `createdAt` as a timestamp, so the reader's fallback to the current date for a missing or wrong-typed `createdAt` (aura/Services/FirebaseService.swift:209) is not modelled; nor is the empty-string fallback for a missing `code` field (line 206), nor code-document fields of the wrong type. Redemption never reads the creation time, so no ledger result depends on this.
- `getReferralCode` (aura/Services/FirebaseService.swift:279-290) is left out. It decodes with Firestore's `Codable` decoder, and that decoder's behaviour is not part of this model. Nothing in the app calls the function.
- The weighted overall score is not modelled. `overallScore` is only written and read back, and no file computes it.
- StarRating.ScoreFor reads a record of its own with the fields moisture, damage, scalp, breakage, shine, porosity and elasticity. The `CategoryScores` type that `scoreFor` reads is not part of this model. The record the ledger service builds has texture, frizz and density instead of scalp, breakage and porosity.
- SwiftUI views, animations, navigation, the OpenAI request, camera capture, the mock dashboard and industry data, and the floating-point chart code are not part of this model.
- The ledger's stored validity threshold is the named constant `RequiredRedemptions = 1`. The "2 friends" wording in the share view is not modelled.
