# Telegram VIP access-request bot: a verified model of its handler logic

The bot (`index.js`) takes users through a questionnaire that builds a request for access to a
VIP channel. Admins approve or reject the request, or ask its author a question. Users open
support tickets that admins answer. Every registered user holds an invite code (`VIP-` followed
by eight characters), which the bot reveals once their request is approved. Every fourth person
who submits a request with that code pays for one prize voucher.

This project models that logic in Dafny, one event at a time:

- **Store.** The Supabase tables are maps with their unique columns as indexes.
- **Sessions.** The four session maps (`stateUser`, `stateAdmin`, `pendingReplies` and
  `pendingSupport`) are fields of a `Bot` class.
- **Outbox.** Every message the bot delivers is appended to an outbox.

The modules follow the program's structure:

| module | what it holds |
|---|---|
| `Wrappers`, `Ids` | `Option`/`Result`, and the id types (`wrappers.dfy`) |
| `JsText` | the JavaScript string operations the handlers use: `trim`, `safeText`, ASCII `toUpperCase`/`toLowerCase`, `includes`, `split` and `Number` |
| `AdminConfig` | the `ADMIN_TELEGRAM_IDS` parse, `getVipChannelId` and `isAdmin` |
| `InviteCodes` | `makeRandomCode` (a loop method with its specification), the `VIP-` code shape, and the duplicate/unique error test |
| `Requests` | the `cashback_requests` row, the patches `updateRequest` sends, and the `setStatus` patch |
| `Store` | the tables and the DB helpers; `IssueFrom` specifies the retry loop of `ensureInviteCode` |
| `Referral` | the decision of `applyInviteReferralIfAny` and the `[INVITE_COUNTED]` marker |
| `Ledger` | the prize catalogue, `floor(count / 4)`, and the decrement by 4 |
| `Inbound` | the incoming message (text, photo or document) and the truthiness checks the router applies to it |
| `Questionnaire` | the steps, the user session, the operator catalogue, and what each step does with a message |
| `Sessions` | the admin session, the pending answer, and the order in which the router consults them |
| `Outbound` | the messages and the fan-outs to every admin |
| `AccessBot` | the `Bot` class: one method per button handler and per router lane, each proved against the store functions or an outcome predicate |

Each `Bot` method states the whole new state it produces, in terms of the state before it. A
delivered relay, an accepted questionnaire answer and a granted prize are all spelled out this
way. The pure functions carry the facts those states rely on:

- codes are unique and well-formed;
- a credit happens at most once per request;
- a decrement never makes the counter negative;
- the steps advance one at a time;
- the router gives priority to an admin's `/annulla`, then to a ticket, then to a pending
  answer, then to the questionnaire.

Several inputs are parameters. Random draws and the store's answer to each insert attempt come
in as `Attempt` values. The current time is a `Time` parameter. The channel link that
`createChatInviteLink` would mint is `minted`. Whether the one relay send a message may cause,
or the approval or rejection notice to a request's owner, was delivered is the `sent` flag.

## Model

| member | source | states |
|---|---|---|
| AdminConfig.ParseIds | index.js:31-35 | the `split/trim/filter/Number/isFinite` chain never yields more ids than there are pieces |
| AdminConfig.ParseIdsMembers | index.js:31-35 | an id is in the list exactly when some piece, trimmed and not blank, reads as that number |
| AdminConfig.ParseShownIds | index.js:31-35 | a list of ids given as decimal pieces parses back to the same list, in order |
| AdminConfig.RenderParses | index.js:31-35 | any list of ids written comma-separated in `ADMIN_TELEGRAM_IDS` is read back as exactly that list |
| AdminConfig.VipChannelId | index.js:191-196 | an unset variable gives no channel; a set one that is blank gives 0, which `Number` makes of it; a set one gives no channel exactly when `Number` finds it not finite |
| AdminConfig.VipChannelIdOfNumber | index.js:191-196 | a channel id written in decimal is read as that number, so the link is single-use exactly when the id is not 0 |
| InviteCodes.AlphabetUnambiguous | index.js:199 | the alphabet has 31 symbols, all code characters, and none of O, 0, I, 1, L |
| InviteCodes.Pick | index.js:201 | `alphabet[floor(r * 31)]` picks an alphabet character for every draw in [0, 1) |
| InviteCodes.CodeFromDraws | index.js:198-203 | one alphabet character per draw |
| InviteCodes.MakeRandomCode | index.js:198-203 | the loop returns exactly `len` characters, all from the alphabet, the i-th picked by the i-th draw |
| InviteCodes.PerDraw | index.js:198-203 | the i-th character of the code is the one the i-th draw picks |
| InviteCodes.PrefixedIsInviteCode | index.js:247 | `VIP-` followed by eight alphabet characters has the shape of every stored code |
| InviteCodes.UpperOfInviteCode | index.js:661-663 | upper-casing a well-formed code leaves it unchanged, so the look-up finds a code typed exactly as issued |
| InviteCodes.DuplicateKeyIsCollision | index.js:256-259 | the store's unique-violation message is one the retry loop retries on |
| JsText.LeadingSpaces | index.js:32 | counts exactly the white space at the start |
| JsText.TrailingSpaces | index.js:32 | counts exactly the white space at the end |
| JsText.Trim | index.js:32 | `trim()` returns an infix that neither starts nor ends with white space, and only white space is cut off after it |
| JsText.TrimOfTrimmed | index.js:32 | a string that starts and ends with non-white space is its own trim |
| JsText.TrimIdempotent | index.js:939-940 | trimming twice is trimming once |
| JsText.SafeText | index.js:176-178 | `safeText` leaves no NUL and never lengthens the text |
| JsText.SafeTextDropsNuls | index.js:176-178 | the text gets shorter by exactly its number of NULs, so each NUL is dropped, not replaced |
| JsText.SafeTextKeeps | index.js:176-178 | text without NUL passes unchanged |
| JsText.SafeTextConcat | index.js:176-178 | `safeText` commutes with concatenation |
| JsText.SafeTextIdempotent | index.js:176-178 | applying `safeText` twice is applying it once |
| JsText.Or | index.js:658 | `x \|\| fallback` is `x` exactly when `x` is a non-empty string, and the fallback otherwise |
| JsText.CaseFolding | index.js:810 | lower-casing an upper-cased or lower-cased text gives the same as lower-casing it once |
| JsText.ToUpperFacts | index.js:971 | upper-casing adds no NUL and is idempotent |
| JsText.ContainsMiddle | index.js:671 | `includes` finds any piece between two others |
| JsText.Split | index.js:31 | `split(',')` gives at least one piece, and no piece holds the separator |
| JsText.JoinSplit | index.js:31 | joining the pieces of a split gives back the string |
| JsText.SplitWithoutSep | index.js:31 | a string free of the separator splits into itself alone |
| JsText.SplitAtSep | index.js:31 | splitting at the first separator peels off the first piece |
| JsText.SplitJoin | index.js:31 | splitting a join of separator-free pieces gives back the pieces |
| JsText.ShowNat | index.js:34 | decimal notation: at least one digit, digits only |
| JsText.ShowInt | index.js:34 | decimal notation with an optional leading minus |
| JsText.DigitsOfShowNat | index.js:34 | reading a number's decimal digits gives the number back |
| JsText.ParseShowInt | index.js:34 | `Number` of an integer's decimal notation is that integer, and the notation has nothing to trim |
| JsText.ShowIntUntrimmed | index.js:32-34 | an integer's decimal notation is its own trim |
| Ledger.Available | index.js:459 | `floor(count / 4)` is the largest number of prizes whose cost fits in the counter |
| Ledger.TakeFour | index.js:286-294 | refused exactly below 4, with the counter as it is; otherwise exactly 4 less |
| Ledger.AvailableBands | index.js:103-106 | 4 to 7 referrals give 1 prize, 8 to 11 give 2, and so on, as the rules announce |
| Ledger.AvailableGate | index.js:500-502 | a prize is available exactly when the counter is at least 4, so `CLAIM_REWARD`'s gate agrees with `PRIZE_`'s |
| Ledger.TakeFourSpendsOnePrize | index.js:542-543 | a successful decrement spends exactly one prize |
| Requests.StatusPatch | index.js:324-329 | the patch always sets the status, carries the note only when given, and the time only for SUBMITTED |
| Requests.SetStatusEffect | index.js:324-329 | the new status is set whatever the old one; `submitted_at` is stamped exactly for SUBMITTED; the note changes exactly when one is given; the collected fields stay |
| Referral.CreditFor | index.js:657-677 | a credit goes to the owner of the looked-up code |
| Referral.CreditConditions | index.js:657-677 | a credit happens exactly when the code is non-empty, has a truthy owner, the owner is not the submitter, and the note lacks the marker |
| Referral.TagSurvives | index.js:671 | a NUL-free tag is still found after `safeText`, whatever surrounds it |
| Referral.CreditedNoteFacts | index.js:675 | the new note starts with the old one and carries the marker, even after `safeText` |
| Referral.MarkedNotCredited | index.js:670-671 | a note with the marker stops the credit |
| Referral.CreditIdempotent | index.js:657-677 | on the request with its updated note the decision is "nothing to do" |
| Referral.NoSelfReferral | index.js:667 | a user never earns a referral from their own code |
| Store.Candidate | index.js:247 | every code the loop tries has the `VIP-` shape |
| Store.Db.SetReferrals | index.js:281-282 | only the user's counter changes: no code, no other row, no other table; consistency is kept |
| Store.Db.InsertRequest | index.js:296-304 | a DRAFT row under a fresh id, which is returned; other tables unchanged |
| Store.Db.UpdateRequest | index.js:306-309 | the row with the id is patched, and a missing row means nothing changes; other tables unchanged |
| Store.Db.SetStatus | index.js:324-329 | status, `submitted_at` and note as `setStatus` sets them; no other row, column or table changes |
| Store.SaveUserFacts | index.js:208-231 | the sender's row is written; a known Telegram account keeps its id and a new one gets a fresh id |
| Store.IssueFromFacts | index.js:244-263 | a returned code is well-formed and not taken; a failure is either exhaustion or the first error that is not a collision |
| Store.ExhaustedMeansAllCollided | index.js:246-263 | "no unique code" means every one of the 8 attempts hit a retried error |
| Store.AllCollidedExhausts | index.js:246-263 | if all 8 attempts collide, the loop gives up |
| Store.RethrowsOtherErrors | index.js:256-260 | an error without "duplicate"/"unique" is rethrown at once |
| Store.EnsuredInviteFacts | index.js:239-264 | an existing code is returned and nothing is written; otherwise exactly one fresh, well-formed code with a zero counter is inserted, or nothing on failure |
| Store.UpsertedFacts | index.js:208-236 | on success the sender has the profile row, their old id if known, and an invite code; every failure comes from the code loop |
| Store.RequestReadBack | index.js:296-315 | `getRequest` returns the DRAFT just created under its id, the row as `updateRequest` patched it, and fails on a missing row |
| Store.UserReadBack | index.js:208-231 | after the row write, `getUserTelegramIdByUserId` of the returned id gives the sender's Telegram id |
| Store.InviteReadBack | index.js:266-282 | `getInviteRowByUserId` finds the code `ensureInviteCode` returned, and the counter a write set, with the code kept |
| Store.InsertedCodeCollides | index.js:248-259 | after an insert, a second one for the same user or the same code is a unique violation, which the loop retries on |
| Store.CodesStayWellFormed | index.js:247 | every stored code keeps the `VIP-` shape across user writes, code inserts and counter writes |
| Questionnaire.MergeStep | index.js:157 | `setUserState(tid, { step })` changes the step only and keeps the request |
| Questionnaire.FindLabel | index.js:111-114 | a label is found exactly when some entry has the key, and it is the label of the first such entry |
| Questionnaire.OperatorLabels | index.js:45-66 | the four buttons' keys map to their labels; any other key comes back unchanged |
| Questionnaire.TypedAnswerAccepts | index.js:937-973 | a typed answer is taken exactly when it is text whose trim is long enough |
| Questionnaire.AdvanceAccepts | index.js:937-1008 | a message moves the questionnaire exactly when the step accepts it (text of at least 3, 2 or 4 characters, or a photo or document); otherwise the step stays |
| Questionnaire.AdvanceMovesOn | index.js:937-1004 | an accepted answer moves to the very next step |
| Questionnaire.StoredAnswers | index.js:937-1004 | the answers are stored trimmed and long enough, the code upper-cased, and the screenshot as the largest photo or the document with its MIME type |
| Sessions.AdminsAndUsersApart | index.js:807-862 | a message goes to an admin lane exactly when its sender is an admin |
| Sessions.CancelFirst | index.js:810-813 | an admin's `/annulla` wins over every session |
| Sessions.CancelInAnyCase | index.js:810 | every text that is `/annulla` up to the case of its letters is the cancel command |
| Sessions.SupportTicketFirst | index.js:866 | a pending ticket takes the user's next message, whatever else is pending |
| Sessions.AnswerNeedsIdleUser | index.js:891-894 | an answer to an admin is taken exactly from a user with no active step, no ticket, and a pending question |
| Sessions.QuestionnaireLast | index.js:929 | the questionnaire gets a user's message exactly when no ticket is pending and both a step and a request are set |
| Outbound.ForwardedKinds | index.js:818-828 | a relay forwards a text trimmed, a photo's largest size or a document's file id, and nothing exactly when the message has none of them; a blank forward is white-space text |
| Outbound.FanoutGrows | index.js:400-406 | sending to one more admin extends the fan-out by that admin's message |
| Outbound.NewRequestNotices | index.js:347-387 | one or two messages per admin, as the request has a screenshot, and nobody else gets anything |
| Outbound.NewRequestNoticesPerAdmin | index.js:347-387 | the k-th admin's block is exactly the summary, then the screenshot when there is one, in list order |
| AccessBot.CreditFindsRow | index.js:663-664 | a code that resolves always leads to an inviter with a counter row |
| AccessBot.CreditAddsOne | index.js:673-676 | a credit adds exactly 1 to the inviter and touches no other counter, code, user or redemption |
| AccessBot.CreditOrNothing | index.js:657-677 | without a credit nothing is written; either way the store stays consistent |
| AccessBot.CreditCountsOnce | index.js:657-677 | crediting the stored request again changes nothing |
| AccessBot.Bot.constructor | index.js:156-167 | the bot starts from the parsed configuration, empty tables, no sessions and nothing sent |
| AccessBot.Bot.EnsureInviteCode | index.js:239-264 | the retry loop computes exactly `EnsuredInvite`: existing code, or up to 8 inserts |
| AccessBot.Bot.UpsertUser | index.js:208-236 | the row write and then `ensureInviteCode`, as `Upserted` |
| AccessBot.Bot.IncrementReferrals | index.js:278-284 | the read-then-write adds `amount`; a missing row fails and writes nothing |
| AccessBot.Bot.DecrementReferralsBy4 | index.js:286-294 | below 4 it is refused with no write; otherwise the counter is written exactly 4 lower |
| AccessBot.Bot.ApplyInviteReferral | index.js:657-677 | the store after the call is `AfterCredit` of the store before it |
| AccessBot.Bot.GiveCredit | index.js:673-676 | the counter first, then the note |
| AccessBot.Bot.Start | index.js:412-421 | registers the user, then welcomes them or reports a temporary error |
| AccessBot.Bot.StartFlow | index.js:426-438 | a fresh DRAFT request, and the session at FULL_NAME on it |
| AccessBot.Bot.Support | index.js:440-444 | the user's next message becomes a ticket |
| AccessBot.Bot.RefStatus | index.js:447-486 | only an approved user sees their code, counter and available prizes |
| AccessBot.Bot.ClaimReward | index.js:488-522 | an approved user with a prize available gets the menu; others are refused |
| AccessBot.Bot.Prize | index.js:524-583 | an unknown prize is refused before anything is read; a known one is handled as `PrizeHandled` says |
| AccessBot.Bot.ClaimPrize | index.js:530-583 | registration first, and an error there is reported |
| AccessBot.Bot.Claim | index.js:532-583 | a claim is recorded only for an approved user with at least 4 referrals, with exactly 4 taken |
| AccessBot.Bot.GrantPrize | index.js:542-582 | 4 referrals taken, then the PENDING claim row, then the admins, then the user, with the new counter |
| AccessBot.Bot.CancelFlow | index.js:585-589 | the session is forgotten |
| AccessBot.Bot.Edit | index.js:591-598 | back to FULL_NAME on the same request; without a request nothing changes |
| AccessBot.Bot.SkipInvite | index.js:600-608 | the code is cleared and the step is SCREENSHOT, whatever it was; without a request nothing changes |
| AccessBot.Bot.ChooseOperator | index.js:611-631 | the label is stored and the step is OPERATOR_ID, whatever it was; without a request nothing changes |
| AccessBot.Bot.Submit | index.js:633-652 | SUBMITTED with a timestamp, the credit decision on the re-read row, the admins notified, the session ended; failures change no session |
| AccessBot.Bot.AdminApprove | index.js:682-727 | non-admins are refused; the status stays APPROVED even when no link or code can be sent; the user gets the link and their code, and an undelivered message gives the admin the approval error |
| AccessBot.Bot.AdminReject | index.js:729-752 | non-admins are refused; the row is REJECTED with the note, and the user is told; an undelivered message gives the admin the rejection error |
| AccessBot.Bot.AdminAsk | index.js:754-775 | the admin's next message becomes a question to the request's owner |
| AccessBot.Bot.AdminSupportReply | index.js:780-798 | the admin's next message becomes the answer to that user's ticket |
| AccessBot.Bot.OnMessage | index.js:803-1014 | the lane taken is `Route` of the state before; the lane's outcome holds; everything the lane does not own is unchanged |
| AccessBot.Bot.AdminMessage | index.js:807-862 | the admin half of `Route`, with each admin lane's outcome |
| AccessBot.Bot.UserMessage | index.js:866-1013 | the user half of `Route`, with each user lane's outcome |
| AccessBot.Bot.AnswerTicket | index.js:816-836 | a blank text keeps the session; anything else ends it after one message, delivered or not |
| AccessBot.Bot.AskQuestion | index.js:840-859 | non-text keeps the session; a delivered question records exactly one pending answer and notes the request; the session ends after one message |
| AccessBot.Bot.ForwardTicket | index.js:866-888 | the ticket is closed on first use, and every admin gets the header and then the content |
| AccessBot.Bot.NotifyAdmins | index.js:400-406 | the loop sends exactly `Fanout(adminIds, m)` |
| AccessBot.Bot.RelayReply | index.js:895-924 | a forwarded answer drops the pending entry; a failed send keeps it for a retry |
| AccessBot.Bot.Answer | index.js:929-1013 | the step's verdict: stored, asked again, pointed at the buttons, or ignored at OPERATOR |
| AccessBot.Bot.StoreAnswer | index.js:937-1004 | the patch is written and the next step's prompt sent; at CONFIRM the re-read row is summarised, and a missing row ends the session |

## Left out

- Message wording, keyboards, Markdown, `answerCbQuery` and `editMessageReplyMarkup` are left out, as are `introMessage` and `inviteExplanationText`. Each message is a constructor with the data it carries.
- Sends to the sender and fan-outs to the admins are treated as delivered. The source catches each admin's failure and changes no state. The router's relay sends and the message to a request's owner on approval or rejection take a `sent` flag, because their failure changes a session or the admin's reply. Treating replies to the sender as delivered also leaves out the two places where a failed reply does change a session. In the questionnaire, a reply that throws ends in the catch that clears the user session (index.js:1009-1012). After a relayed answer, a failed "received" reply skips the delete, so the pending answer stays (index.js:918-922).
- `createChatInviteLink` is replaced by the `minted` parameter. `Math.random` is replaced by the draws and `Date` by `now`.
- Store errors are modelled only where the handlers react to them. These are a `.single()` read of a missing row, and the insert result that `ensureInviteCode` inspects. A network error on any other read or write is left out.
- A failing insert of the prize-claim row is left out as well. In the source it throws after the counter has already been decremented.
- Concurrency is left out: events are handled one at a time. This closes the read-then-write race in `incrementReferrals` and `decrementReferralsBy4`.
- String lengths count Unicode scalar values; JavaScript's `length` counts UTF-16 code units. Case mapping is ASCII only.
- `Number()` of a string reads only an optional sign followed by decimal digits. Hex, exponent and fractional forms, and `Infinity`, are treated as not finite.
- ParseInt and JsNumber read decimal digits as an exact, unbounded integer. JavaScript's `Number` returns a double: above 2^53 it rounds (`9007199254740993` reads as `9007199254740992`), and a long enough digit string becomes `Infinity`, which `Number.isFinite` then drops. So AdminConfig.RenderParses, AdminConfig.ParseShownIds, JsText.ParseShowInt and AdminConfig.VipChannelIdOfNumber hold for the program only for ids of magnitude at most 2^53. Telegram user and channel ids are well below that.
- `errToString`, console logging, environment loading, `process.exit`, and the `bot.launch`/`start`/SIGINT wiring are left out.
- reset.js is not part of this model; it only deletes a webhook.
- The caption text of relayed photos and documents is left out. A relayed message keeps its content, the ids and the sender.
