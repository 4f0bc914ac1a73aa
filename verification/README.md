# Verified model of Cozea's stateful core

This project models, in Dafny, the parts of Cozea where state changes step by step, where a
calculation takes a shortcut, or where a printed form has to be read back, and proves what those
parts are for. `dafny verify dfyconfig.toml` checks all of it.

## How it is organised

Each module follows one part of the program.

- **Collaboration sessions.** `SessionState` says what each mutation does to the rows of a
  session. `SessionTables` has the handlers as they run, a class whose fields are the tables, and
  proves each of them against that description. `SessionKeys` proves the key protocol over every
  run (generations, revocation, custody, sharing) and `SessionFences` the revision-fenced
  lifecycle. `SessionRefusals` says on the rows when each mutation is accepted, what it is refused
  with, and what it writes. A refused mutation leaves the tables as they were.
- **Scheduled tasks.** `Calendar` is the Gregorian calendar; `ScheduledTasks` is the
  estimate-then-walk search for the next run. A zone is a pair of conversions; it is *orderly*
  when local days never run backwards and a local time converts to an instant on its own day.
- **Graphs and printed forms.** `MessageBudget` (worklist over cyclic graphs), `InputBudget`,
  `ToolSchema` and `ToolInput` (a stack loop that recognises trees, and the schema matcher behind
  it), `SchemaWords` and `SchemaProblems` (what a schema asks for in its own words, and that a
  problem reported is real), `CanonicalJson` and `PlainJson` (two printers), `CanonicalSpelling`
  (what the text looks like), `DeviceIdentity` (base32 in 32-bit words), `DevAppRef` with `Decimals`
  and `Strings` (printer and parser of references).
- **Projects.** `ProjectRegistry` (slugs, creation tokens, statuses), `ProjectSeats` (members,
  invitations, join links), `ProjectPurge` (the batched deletion).
- **Ledgers and trust.** `SessionMetrics`, `DevAppReleases` with `RuntimeImage`, `Capabilities`
  and `DevelopmentTrust`.

Code that updates things in place is a class with methods, or a method with a loop, proved against
functions and predicates; what the program promises is proved about those, over all inputs and all
runs.

## Where the code and its own words differ

The model follows the code. Each point is proved, and where something expected fails, so is exactly
when it does.

- A closed session is described as terminal, but a forced pause takes it out of that state
  (`SessionFences.ForcedPauseLeavesClosed`); nothing else does
  (`SessionFences.OnlyForcedPauseReopens`).
- The month-length helper is a day short for February of the year 0 and for no other month, because
  the `Date` constructor reads the years 0 to 99 as 1900 to 1999
  (`ScheduledTasks.DaysInMonthIsExact`).
- The budget on tool inputs reports cycles, and refuses objects that are merely shared as well
  (`InputBudget.SharedIsRefused`; `InputBudget.InputBudgetError` says exactly what is let through).
- A publication whose organization is named `builtin` or `dev` does not survive printing and
  parsing; every other well-formed reference does, and the condition is exact
  (`DevAppRef.RoundTrip`).
- Taking up an invitation that has run out patches its status and then reports it by an exception.
  The exception undoes the patch, so the invitation stays pending
  (`ProjectSeats.Project.ResolveEnrollment`).
- Because such an invitation is still the first one found, a device may come to hold two open ones.
  `ProjectSeats.ThreeRequests` shows it from a new project; `ProjectSeats.SecondOpenInvitation` says
  exactly when. The seat limit holds all the same.
- The guard against losing the last project manager never fires: the caller must be a manager other
  than the one acted upon, so there are always two (`ProjectSeats.TwoManagers`).
- Two passes are meant to catch writes already in flight when the project was deleted. They do for
  rows keyed by project (`ProjectPurge.LateRowsGoToo`). A row keyed by session that arrives in the
  first pass after its own stage is left behind when the session goes
  (`ProjectPurge.LateMemberStays`, with the exact condition in `ProjectPurge.LateSessionRows`).
- An empty creation token is stored but not looked up. Two creations with it leave two live projects
  (`ProjectRegistry.EmptyTokenRepeats`), so a creator has at most one for a token exactly when the
  token is not empty (`ProjectRegistry.OneLiveExactly`).
- A request for nothing is approved without looking at whether an approval still held has run out,
  and carries its expiry: `DevelopmentTrust.NothingAfterExpiry` shows it and
  `DevelopmentTrust.ApprovedUntilThePast` says exactly when.

## Model

| member | source | states |
|---|---|---|
| SessionTables.Tables.constructor | convex/collaborationSessions.ts:422-457 | A new session is active, at the first key generation, and has its creator as its one present member, a manager, no key copies and no invitations; it is sound. |
| SessionTables.Tables.Join | convex/collaborationSessions.ts:648-736 | Who gets in: with a row of their own, those not revoked who have access; without one, whom the organization admits if it may join, and otherwise those with access or an open invitation and a seat; nobody once the session is closed or closing. A caller let in is present and the session is awake; nobody else's row and no copy changes; the invariants are kept. |
| SessionTables.Tables.Leave | convex/collaborationSessions.ts:738-761 | The same for leaving: afterwards the caller is not present, no other row changes, and a session left active still has a present member. |
| SessionTables.Tables.ResolveInvitation | convex/collaborationSessions.ts:1229-1300 | The same for accepting or declining an invitation: who accepts is present and was not revoked, and no other row and no copy changes. |
| SessionTables.Tables.UpdateMemberRole | convex/collaborationSessions.ts:582-607 | Accepted exactly for a manager, by project or by a present row, of a session that is not closed or closing, and for a present target; the target has the role, and nothing else changes. |
| SessionTables.Tables.UpdateAccessMode | convex/collaborationSessions.ts:610-646 | Accepted exactly for a manager of a session that is not closed or closing, and opening it needs a live project in an organization; the flag is as asked, and no row changes. |
| SessionTables.Tables.InviteParticipant | convex/collaborationSessions.ts:507-580 | Accepted exactly for a manager of a session that is not closed or closing who names a registered device or the owner of a key, and not itself; whom it is for has an open invitation afterwards, added only if there was none. |
| SessionTables.Tables.RevokeMember | convex/collaborationSessions.ts:1023-1083 | Accepted if and only if the target is not the caller, and the caller manages the project or has a present row with that role; without that authority the caller is told so. A member that is removed is revoked, has no unrevoked copy and no pending invitation, no other row changes, and the generation reported is the active one. |
| SessionTables.Tables.InitializeSessionKey | convex/collaborationSessions.ts:880-915 | Accepted exactly for a present member who is no viewer of a session that is not closed or closing. The active generation exists afterwards; a copy is added only if it had none, and the caller then holds it; nothing else changes. |
| SessionTables.Tables.ListMembersNeedingSessionKey | convex/collaborationSessions.ts:918-961 | The loop returns the members lacking a copy, in row order, and changes nothing. |
| SessionTables.Tables.ShareSessionKey | convex/collaborationSessions.ts:964-1021 | Accepted exactly when sender and recipient are present with access, the recipient's device is active, and the sender holds the active generation and the one asked for. Adds one copy if the recipient lacks one; unless it refuses the recipient holds the generation afterwards. |
| SessionTables.Tables.FinalizeLifecycle | convex/collaborationSessions.ts:1086-1140 | Refused as not attested exactly when device, access or authority is lacking. Unless it refuses, the fence is well-formed and, if it is no repeat, fits revision, generation, positions and lifecycle; the receipt is for this fence and expected revision, the revision reported is the current one, and superseded is reported exactly when it has moved past the commit; no other row changes. |
| SessionTables.Tables.Pause | convex/collaborationSessions.ts:1142-1167 | Accepted exactly for a manager who forces it or whose session is paused already; unless it refuses the session is paused, with the receipt and every row as they were. |
| SessionTables.Tables.Resume | convex/collaborationSessions.ts:1169-1191 | Accepted exactly for a manager of a session that is being created, active, dormant, paused or blocked; unless it refuses the session is active, and every row is as it was. |
| SessionTables.Tables.Close | convex/collaborationSessions.ts:1193-1227 | Accepted exactly for a manager who forces it or whose session is closed already; unless it refuses the session is closed, and if it was not before nobody is present. |
| SessionTables.WalkLifecycle | convex/collaborationSessions.ts:89-98 | The loop accepts a list of steps exactly when each is an allowed transition from the one before, and ends at the last. |
| SessionRefusals.RowsDecide | convex/collaborationSessions.ts:81-86 | Being present, managing, being invited and holding a key are what the rows say, each in terms of single fields. |
| SessionRefusals.TransitionTable | shared/collaboration/stateMachines.ts:39-56 | The transitions there are, listed by where they lead. |
| SessionRefusals.GenerationsStartAtOne | convex/collaborationSessions.ts:768-772 | A session stored without a generation, or with one below the first, is at the first. |
| SessionRefusals.RunsStepByStep | convex/collaborationSessions.ts:507-1300 | A run is its calls one after the other. |
| SessionRefusals.JoinDecides | convex/collaborationSessions.ts:648-736 | When a caller may join, and which refusal is given otherwise. |
| SessionRefusals.JoinWrites | convex/collaborationSessions.ts:648-736 | A row of the caller's own becomes present and keeps its role; a new one has the role of the invitation taken up, or else developer for those who may edit and viewer for the rest; a dormant session wakes. |
| SessionRefusals.LeaveWrites | convex/collaborationSessions.ts:738-761 | Leaving is never refused: it writes the caller's present row, and an active session that is deserted goes dormant. |
| SessionRefusals.ResolutionDecides | convex/collaborationSessions.ts:1229-1300 | When an invitation is found missing, resolved, run out, declined or accepted, or accepting it is refused. |
| SessionRefusals.ResolutionWrites | convex/collaborationSessions.ts:1229-1300 | The invitation gets its status and its time; only acceptance writes a row, with the role the invitation gives. |
| SessionRefusals.RoleUpdateDecides | convex/collaborationSessions.ts:582-607 | When a role may be changed, which refusal is given otherwise, and that only the target's role changes. |
| SessionRefusals.AccessModeDecides | convex/collaborationSessions.ts:610-646 | When the access mode may be changed, and which refusal is given otherwise. |
| SessionRefusals.InvitationDecides | convex/collaborationSessions.ts:507-580 | When an invitation may be made, and which refusal is given otherwise. |
| SessionRefusals.InvitationWrites | convex/collaborationSessions.ts:545-580 | An open invitation is reused as it is; a new one is pending, from the caller, and open for a week. |
| SessionRefusals.RevocationDecides | convex/collaborationSessions.ts:1023-1037 | Only a manager removes a member, and nobody removes itself. |
| SessionRefusals.RevocationWrites | convex/collaborationSessions.ts:1037-1083 | Row by row, what a removal stamps: the target's row, its unrevoked copies, its pending invitations; and the generation moves on exactly when a member is removed. |
| SessionRefusals.InitializationDecides | convex/collaborationSessions.ts:880-915 | Who may start a generation, and that a started one is left as it is. |
| SessionRefusals.SharingDecides | convex/collaborationSessions.ts:964-1021 | When a key may be shared, which refusal is given otherwise, and the one copy that is added. |
| SessionRefusals.ListingDecides | convex/collaborationSessions.ts:918-961 | A caller fit to share sees exactly the present members with an active device and access that hold no copy; others see nobody or are refused. |
| SessionRefusals.ListedInRowOrder | convex/collaborationSessions.ts:943-960 | Members are listed in the order of their rows. |
| SessionRefusals.PauseDecides | convex/collaborationSessions.ts:1142-1167 | When a pause is accepted, which refusal is given otherwise, and every field it writes. |
| SessionRefusals.ResumeDecides | convex/collaborationSessions.ts:1169-1191 | The same for resuming. |
| SessionRefusals.CloseDecides | convex/collaborationSessions.ts:1193-1210 | The same for closing: only a manager, and only by force unless it is closed already. |
| SessionRefusals.CloseWrites | convex/collaborationSessions.ts:1205-1227 | Everyone present leaves, nobody else's row changes, and the fields of the session that closing writes. |
| SessionRefusals.WellFormedFences | convex/collaborationSessions.ts:1104-1113 | A fence is valid exactly when it is the caller's, its names are a dashed 36-digit identifier and a barrier with 32 hexadecimal digits, and its numbers are positions. |
| SessionRefusals.FinalizationDecides | convex/collaborationSessions.ts:1096-1130 | When a commit is accepted, and which refusal is given otherwise. |
| SessionRefusals.FinalizationWrites | convex/collaborationSessions.ts:1124-1138 | Every field that a commit writes; the commit of the last checkpoint is kept only for the same checkpoint. |
| SessionKeys.ReachableIsSound | convex/collaborationSessions.ts:768-1083 | In every reachable state: rows are unique per device, the active generation is one more than the number of revoked rows, no copy is newer than it, copies of it are unrevoked, a copy is revoked exactly when its recipient is, and each generation's copies form a custody tree. |
| SessionKeys.NextKeepsSound | convex/collaborationSessions.ts:507-1300 | Every mutation, whoever calls it and whatever the other tables say, keeps that invariant. |
| SessionKeys.RevokeKeepsSound | convex/collaborationSessions.ts:1023-1083 | Removing a device, a member or not, keeps it. |
| SessionKeys.AddedCopyKeepsSound | convex/collaborationSessions.ts:880-1021 | A copy made by its own recipient when it starts a generation, and by a holder otherwise, keeps it. |
| SessionKeys.RevokedHoldNothing | convex/collaborationSessions.ts:1039-1059 | A removed device has no copy of the active generation and no unrevoked copy at all. |
| SessionKeys.RemovalIsForever | convex/collaborationSessions.ts:648-736 | After a removal no later run gives the device a copy or makes it present again. |
| SessionKeys.RevokedStaysRevoked | convex/collaborationSessions.ts:648-761 | Revocation survives every single mutation: joining, leaving, closing and invitations included. |
| SessionKeys.OneRoot | convex/collaborationSessions.ts:896-914 | Each generation in use has exactly one copy that its own recipient made. |
| SessionKeys.OneKeyPerGeneration | convex/collaborationSessions.ts:880-1021 | If everyone who shares re-wraps the key in their own copy, all copies of a generation carry the key of its first. |
| SessionKeys.ListedIffShareable | convex/collaborationSessions.ts:918-1021 | For every state, caller and generation, a principal is listed exactly when sharing with it would add a copy. |
| SessionKeys.SharingShortensTheList | convex/collaborationSessions.ts:918-1021 | Sharing with the first device listed leaves exactly the rest of the list. |
| SessionKeys.SharingDrainsTheList | convex/collaborationSessions.ts:918-1021 | Sharing with everyone listed empties the list and adds exactly as many copies as were listed. |
| SessionKeys.SharingReachesEveryone | convex/collaborationSessions.ts:918-1021 | Afterwards every present member with an active device and access has exactly one copy. |
| SessionFences.CommitMovesRevision | convex/collaborationSessions.ts:1114-1138 | A commit needs the revision it expected, moves it up by one, becomes the receipt, and ends paused or closed from an allowed state. |
| SessionFences.ReplayChangesNothing | convex/collaborationSessions.ts:1116-1122 | A replay of the current receipt changes nothing and reports superseded exactly when the revision has moved on. |
| SessionFences.NextAdvances | convex/collaborationSessions.ts:507-1300 | Every mutation keeps the lifecycle row sound, and neither the revision nor the durable position goes back. |
| SessionFences.ReachableLifecycleIsSound | convex/collaborationSessions.ts:1086-1227 | Over every run the durable and snapshot positions agree and bound the position saved in Git, and a receipt is older than the revision. |
| SessionFences.RunAdvances | convex/collaborationSessions.ts:1086-1227 | Revision and durable position are monotone between any two points of a run. |
| SessionFences.OneCommitPerRevision | convex/collaborationSessions.ts:1123-1138 | Over any run, two commits never expect the same revision; so a fence with its expected revision commits at most once. |
| SessionFences.CommitIsIdempotent | convex/collaborationSessions.ts:1116-1138 | Repeating a committed call before the session moves on changes nothing. |
| SessionFences.ForcedPauseLeavesClosed | convex/collaborationSessions.ts:1142-1167 | A forced pause takes a closed session to paused. |
| SessionFences.OnlyForcedPauseReopens | shared/collaboration/stateMachines.ts:39-56 | Every other mutation leaves a closed session closed. |
| Calendar.MonthsAbut | shared/scheduledTasks.ts:203-205 | Every month of the Gregorian calendar starts where the one before it ends, leap years included. |
| Calendar.MonthIsUnique | shared/scheduledTasks.ts:212-239 | A day belongs to exactly one month, and its date is its distance from the start of it. |
| Calendar.KnownMonths | shared/scheduledTasks.ts:203-205 | Days are counted from 1 January 1970, and months have 31, 30, 29 or 28 days, February by the rule of leap years. |
| ScheduledTasks.Date.SetDate | shared/scheduledTasks.ts:219-228 | In an orderly zone the local day becomes the one so many days from the first of its month, in another month if need be. |
| ScheduledTasks.Date.SetMonth | shared/scheduledTasks.ts:227-227 | In an orderly zone the local day becomes the one with its old number counted from the first of the month asked for, in another year if need be. |
| ScheduledTasks.DaysInMonthIsExact | shared/scheduledTasks.ts:203-205 | The helper gives a month's length if and only if the month is not February of the year 0. |
| ScheduledTasks.NormalizeRecurrence | shared/scheduledTasks.ts:190-201 | A recurrence without a unit happens once; any other keeps its unit and rounds its interval down, to one at the least. |
| ScheduledTasks.AddCalendarSteps | shared/scheduledTasks.ts:212-230 | The in-place date arithmetic arrives at the specified slot. |
| ScheduledTasks.MonthlySlotKeepsDate | shared/scheduledTasks.ts:225-229 | A monthly slot lies exactly so many months on, on the start's own date or the last day of a shorter month, with no drift. |
| ScheduledTasks.DailySlotDay | shared/scheduledTasks.ts:220-224 | Slot k lies k intervals of days, or seven times as many for weeks, on from the start's local day. |
| ScheduledTasks.SlotKeepsTime | shared/scheduledTasks.ts:207-230 | With a fixed offset every calendar slot keeps the local time of day. |
| ScheduledTasks.SlotsIncrease | shared/scheduledTasks.ts:212-230 | Slots come in strict order for every unit in every orderly zone. |
| ScheduledTasks.MonthsBetween | shared/scheduledTasks.ts:233-239 | Counts calendar months between two instants, whatever their days. |
| ScheduledTasks.MonthlyEstimate | shared/scheduledTasks.ts:272-285 | The monthly estimate is never a slot too high and at most one too low, in every orderly zone. |
| ScheduledTasks.DailyEstimate | shared/scheduledTasks.ts:277-285 | With a fixed offset so is the estimate for days and weeks. |
| ScheduledTasks.HourlySlot | shared/scheduledTasks.ts:266-270 | The closed form for hours is the first slot after the last run. |
| ScheduledTasks.ComputeNextRunAt | shared/scheduledTasks.ts:249-297 | For every start, interval, unit and last run both walks stop and the result is the least slot strictly after the last run, or nothing when nothing is owed. With a fixed offset it is the first time after the last run among start + m intervals of 604,800,000, 86,400,000 or 3,600,000 milliseconds for weeks, days and hours. For months and for fixed offsets nothing is walked back and at most one step forward. |
| ScheduledTasks.PlainNextRun | shared/scheduledTasks.ts:249-297 | Whatever is owed in a zone with a fixed offset, by hours, days or weeks, is found by counting milliseconds from the start. |
| ScheduledTasks.FeedbackVisitsEverySlot | shared/scheduledTasks.ts:241-297 | Feeding each result back as the last run visits every slot once, in order. |
| MessageBudget.IsWithinMessageBudget | shared/devAppWorkerProtocol.ts:231-264 | The traversal stops on every finite graph, cycles included, and accepts exactly the graphs whose weight is within the limit. |
| MessageBudget.WeightIgnoresOrder | shared/devAppWorkerProtocol.ts:228-264 | The weight does not depend on the order in which slots are stored or pushed. |
| MessageBudget.TotalWeightSplits | shared/devAppWorkerProtocol.ts:242-260 | Each reachable object is counted once, whichever is counted first. |
| MessageBudget.PrimitiveCharges | shared/devAppWorkerProtocol.ts:237-246 | Two bytes for each code unit, eight for a number, four for a truth value, nothing for the rest. |
| MessageBudget.EmptyCharges | shared/devAppWorkerProtocol.ts:242-262 | A buffer weighs its bytes, and an object without entries nothing. |
| MessageBudget.EntryCharges | shared/devAppWorkerProtocol.ts:246-262 | One entry more costs 16 bytes in a map, 8 in a set, 8 and its key in an object, and what its slots hold. |
| CanonicalJson.CanonicalForm | shared/devAppContainedRuntime.ts:247-255 | Two JSON values print the same if and only if they are equal up to the order of object keys. |
| CanonicalJson.PrintCancels | shared/devAppContainedRuntime.ts:247-255 | Printed values cannot be confused whatever text follows them, and the same text follows. |
| CanonicalJson.SamePrintsAlike | shared/devAppContainedRuntime.ts:251-254 | Reordering keys anywhere in a value leaves the text as it is. |
| CanonicalJson.QuoteCancels | shared/devAppContainedRuntime.ts:253-253 | A quoted string ends at its closing quote and determines its contents: escapes as in section 7 of RFC 8259, lone surrogates included. |
| CanonicalJson.SortIsAscending | shared/devAppContainedRuntime.ts:251-252 | Sorting keys puts them in one strict order and loses none; which order is `CanonicalSpelling.BeforeMeansPrecedes`. |
| CanonicalJson.AscendingIsUnique | shared/devAppContainedRuntime.ts:251-252 | A set of keys has one ascending arrangement. |
| CanonicalSpelling.BeforeMeansPrecedes | shared/devAppContainedRuntime.ts:251-252 | The order is that of code units: a proper prefix first, or else the smaller unit where two keys first differ. |
| CanonicalSpelling.SortedByCodeUnits | shared/devAppContainedRuntime.ts:251-252 | Sorted keys are the keys, each before the next in that order. |
| CanonicalSpelling.KeyOrder | shared/devAppContainedRuntime.ts:251-253 | The members written are the members there are, in the order of their keys. |
| CanonicalSpelling.ObjectText | shared/devAppContainedRuntime.ts:250-254 | An object is written in braces, member by member in that order, each a quoted key, a colon and a value, with commas between. |
| CanonicalSpelling.ArrayText | shared/devAppContainedRuntime.ts:249-249 | An array is written in brackets, item by item, with commas between. |
| CanonicalSpelling.UnitText | shared/devAppContainedRuntime.ts:248-253 | Each code unit of a string: quotation mark, backslash and five controls by short escapes, other controls and lone surrogates by four lower-case hexadecimal digits, and every other unit as it is (section 7 of RFC 8259). |
| CanonicalSpelling.QuotedText | shared/devAppContainedRuntime.ts:248-253 | A string is its units' spellings in order between quotation marks. |
| CanonicalSpelling.Words | shared/devAppContainedRuntime.ts:248-248 | The words null, true and false; numbers and strings are written by themselves. |
| CanonicalSpelling.NumberText | shared/devAppContainedRuntime.ts:248-248 | Number tokens have digits, signs, points and exponent marks only, and start with a digit or a minus sign. |
| DeviceIdentity.EncodeCrockfordBase32 | shared/deviceIdentity.ts:9-29 | With the accumulator wrapping at 32 bits, the output has ceil(8n/5) symbols whose five-bit values spell the input bits, padded with zeros (the grouping of section 6 of RFC 4648). |
| DeviceIdentity.SymbolsAreTheAlphabet | shared/deviceIdentity.ts:1-1 | The symbols are those of the alphabet, in its order. |
| DeviceIdentity.OnlyTheAlphabet | shared/deviceIdentity.ts:1-6 | A character is a symbol exactly when the alphabet has it. |
| DeviceIdentity.DecodeInvertsEncode | shared/deviceIdentity.ts:9-29 | A decoder recovers byte strings of every length. |
| DeviceIdentity.EncodingIsInjective | shared/deviceIdentity.ts:9-29 | Different byte strings have different spellings. |
| DeviceIdentity.SpellingIsUnique | shared/deviceIdentity.ts:9-29 | A byte string has only one spelling. |
| DeviceIdentity.SpellingIsANumeral | shared/deviceIdentity.ts:9-29 | Read in base 32 the text is the bytes read in base 256, times the power of two that fills the last group. |
| DeviceIdentity.KeyTest | shared/deviceIdentity.ts:38-52 | A text passes the key test exactly when, between white space, it is the prefix and 26 symbols, in capitals or small letters. |
| DeviceIdentity.SpacesAre | shared/deviceIdentity.ts:38-40 | The white space that is trimmed, sign by sign. |
| DeviceIdentity.CreateDeviceIdentityKey | shared/deviceIdentity.ts:31-52 | Succeeds exactly for sixteen bytes; the key is the prefix and a numeral of four times their number, passes the key test, and gives the bytes back. |
| InputBudget.InputBudgetError | shared/devAppToolInputValidation.ts:157-186 | Nothing is reported if and only if the graph unfolds to a tree of JSON values, no object met twice, within 16384 nodes, depth 32 and 1 MiB. What is reported is so: a value that is not finite, or not JSON, within that depth; an object that two ways lead to; a way longer than 32 or more than 16384 ways; ways to values of more than 1 MiB. |
| InputBudget.StepKeepsPromise | shared/devAppToolInputValidation.ts:162-184 | Replacing the value on top of the stack by its slots preserves, both ways, whether the rest can still be trees within the budget. |
| InputBudget.DenotesOneTree | shared/devAppToolInputValidation.ts:157-186 | A slot denotes at most one tree. |
| InputBudget.CycleHasNoTree | shared/devAppToolInputValidation.ts:172-172 | An object that leads back to itself through any chain denotes no tree. |
| InputBudget.SharedIsRefused | shared/devAppToolInputValidation.ts:171-173 | An array with one empty array in two slots is refused, although it denotes a tree and has no cycle. |
| InputBudget.LeavesDenote | shared/devAppToolInputValidation.ts:157-172 | Primitives denote themselves; what is not finite or no JSON denotes nothing. |
| InputBudget.ContainersDenote | shared/devAppToolInputValidation.ts:172-184 | Lists denote arrays slot by slot and records objects field by field, keys included; other objects denote nothing. |
| InputBudget.LeavesMeasure | shared/devAppToolInputValidation.ts:160-172 | Leaves and empty containers are one node at no depth; their bytes are two for each code unit, eight for a number, four for the rest. |
| InputBudget.ContainersMeasure | shared/devAppToolInputValidation.ts:160-184 | One item or member more adds its own nodes and bytes, two bytes for each unit of its key, and lies one level down. |
| PlainJson.StringifyIsInjective | shared/devAppToolInputValidation.ts:79-85 | Values serialise alike only when they are equal, the order of their keys included. |
| ToolSchema.JsonEqualIsEquality | shared/devAppToolInputValidation.ts:79-85 | Comparing serialisations is comparing values. |
| ToolSchema.AcceptedAllTheWayDown | shared/devAppToolInputValidation.ts:30-72 | Below an accepted schema every chain of subschemas is at most thirteen long and ends in a well-formed node. |
| ToolSchema.AcceptedMeansEveryNode | shared/devAppToolInputValidation.ts:30-72 | The recursive check accepts a schema if and only if every node reachable below it, by any way, is well-formed and near enough. |
| ToolSchema.BelowIsSchema | shared/devAppToolInputValidation.ts:95-155 | Every node the matcher goes on to is itself an accepted schema. |
| ToolSchema.MatchDecides | shared/devAppToolInputValidation.ts:95-155 | No problem is found if and only if the value conforms: the conjunction of all keywords, oneOf meaning exactly one position. |
| ToolSchema.CountDecides | shared/devAppToolInputValidation.ts:107-115 | The count of matching alternatives is positive when some alternative conforms and one when exactly one does. |
| ToolSchema.AnyEqualIsMembership | shared/devAppToolInputValidation.ts:98-100 | The enum check is membership. |
| ToolSchema.FirstMissingDecides | shared/devAppToolInputValidation.ts:141-143 | Nothing is reported missing exactly when every required key is there. |
| ToolSchema.SizeProblemDecides | shared/devAppToolInputValidation.ts:116-139 | No size problem is found exactly when lengths, bounds and counts are within the limits given. |
| SchemaWords.ConformsInWords | shared/devAppToolInputValidation.ts:95-155 | For an accepted schema that is written out: a value conforms if and only if it has the constructor of the type named, respects every limit given, is the constant and among those enumerated, fits the combined schemas, its items fit, required keys are there, and members fit or are allowed. Said by the words of the schema. |
| SchemaWords.TypeAloneDecides | shared/devAppToolInputValidation.ts:87-97 | For each of the seven type words, the schema with that keyword alone accepts every value of the type and no other; for integers, the safe ones. |
| SchemaWords.MatchedFits | shared/devAppToolInputValidation.ts:95-155 | A value with which no problem is found has the type, the limits and the constants that the schema says. |
| SchemaWords.NodeInWords | shared/devAppToolInputValidation.ts:30-72 | A node is well-formed exactly when it is written with the 23 words, names one of seven types, and keeps to the limits 128, 256 and 16. |
| SchemaWords.BelowInWords | shared/devAppToolInputValidation.ts:37-71 | The nodes below are its properties, its items and its combined schemas. |
| SchemaWords.ToolSchemasAskForObjects | shared/devAppToolInputValidation.ts:74-77 | A tool schema is supported if and only if it asks for an object and every chain of nodes below it is at most thirteen long and ends in one that is well put. |
| SchemaProblems.MatchIsReal | shared/devAppToolInputValidation.ts:95-155 | A problem reported is real: its path leads to a value in the input, and its reason is true of that value and a schema node that applies to it. |
| ToolInput.ValidateDevAppToolInput | shared/devAppToolInputValidation.ts:188-191 | An input is accepted if and only if the schema is supported and the input is a tree within the budget that conforms to it; which of the three failed is reported, and a mismatch is real. |
| Decimals.ValueOfDigits | shared/devAppRef.ts:31-31 | Reading a printed number gives the number back. |
| Decimals.PaddedValue | shared/devAppRef.ts:72-72 | Leading zeros do not change what is read. |
| Decimals.ReadingADigit | shared/devAppRef.ts:72-72 | Each further digit makes the number ten times as large, and adds its own. |
| Decimals.TenDigits | shared/devAppRef.ts:71-71 | The ten digits. |
| DevAppRef.RoundTrip | shared/devAppRef.ts:28-75 | Parsing the printed form gives the reference back if and only if its parts fit the grammar and its organization is not named builtin or dev. |
| DevAppRef.AcceptedStrings | shared/devAppRef.ts:36-75 | The strings accepted for a reference are exactly its printed form with any zeros before the version that leave it nine places. |
| DevAppRef.TextsAreRead | shared/devAppRef.ts:21-75 | A text is read as a reference if and only if the reference fits the grammar and the text is the scheme, the owner and the rest as written out, a version in one to nine digits. |
| DevAppRef.PrintedTexts | shared/devAppRef.ts:28-33 | What is printed for each kind of reference. |
| DevAppRef.ReparseIsStable | shared/devAppRef.ts:28-75 | Printing and parsing again what was read from any accepted string gives the same reference. |
| DevAppRef.ReservedOwnerIsLost | shared/devAppRef.ts:49-57 | A publication of an organization named builtin never comes back as a publication. |
| ProjectPurge.Database.DeleteCollaborationSessionRows | convex/projects.ts:737-757 | The loop over sessions deletes one batch of the rows found, all of them when there are fewer, and touches nothing else. |
| ProjectPurge.Database.DeleteProjectPurgeStage | convex/projects.ts:759-981 | In each of the 22 tables keyed by project one call removes the smaller of 64 and the number of the project's rows; in the four keyed by session, of the rows of its sessions; other stages delete nothing, and no other row goes. |
| ProjectPurge.Database.PurgeDeletedProjectData | convex/projects.ts:989-1022 | One invocation deletes a batch and schedules the same or the next stage, starts the second pass, or ends the purge. |
| ProjectPurge.InvocationCountsDown | convex/projects.ts:995-1022 | Without concurrent inserts each invocation takes exactly one off the number that remain. |
| ProjectPurge.StageInNumbers | convex/projects.ts:721-981 | The tables that have a stage, listed, and what a stage does counted in rows of an owner. |
| ProjectPurge.WholePurge | convex/projects.ts:721-1022 | A whole purge takes 68 invocations and one for each full batch of 64 that a stage finds; at its end none of the 22 tables keyed by project has a row of the project, and none of the four keyed by session has a row of a session it had. |
| ProjectPurge.SecondPass | convex/projects.ts:983-1012 | A run from the start of the second pass takes 34 invocations and one for each full batch, and clears whatever the project and its sessions have at its start. |
| ProjectPurge.LateRowsGoToo | convex/projects.ts:983-1022 | A purge from its start, with rows arriving in any table all through the first pass, ends with no row of the project in any table keyed by project. |
| ProjectPurge.LateSessionRows | convex/projects.ts:737-757 | With rows arriving all through the first pass, and new sessions under ids that nothing refers to yet, a row keyed by one of the project's sessions outlives the purge if and only if its session is deleted while it is there, or it arrives when its session is gone. |
| ProjectPurge.LateMemberStays | convex/projects.ts:985-987 | A purge, from its start to its end, after which a member row is still there that arrived while its session was. |
| ProjectPurge.SessionsGoLast | convex/projects.ts:969-977 | No session is deleted while a row of the four session-keyed stages refers to one of the project's sessions. |
| ProjectPurge.OthersAreSpared | convex/projects.ts:724-981 | Rows that are not the project's, nor its sessions', are still there after the whole run. |
| ProjectRegistry.ProjectTable.EnsureUniqueSlug | convex/projects.ts:109-130 | Stops within one probe more than there are projects, at the first candidate that is free. |
| ProjectRegistry.CandidatesDiffer | convex/projects.ts:114-128 | No candidate is tried twice. |
| ProjectRegistry.TakenAreFew | convex/projects.ts:117-129 | No more candidates in a row can be taken than there are projects. |
| ProjectRegistry.ProjectTable.Create | convex/projects.ts:273-367 | A blank name is refused; else a retry with the non-empty token of a live project of the same creator changes nothing and returns it; else one who is no member of the organization is refused; else one row is added, with the first slug that no project has among the base and the base with a dash and 1, 2, and so on. |
| ProjectRegistry.ProjectTable.Update | convex/projects.ts:524-571 | Renames a live project for its creator and those granted access, leaving its slug and every other row, or says why not. |
| ProjectRegistry.ProjectTable.UpdateStatus | convex/projects.ts:609-639 | Accepted exactly for the creator of a live project and those granted access; only the status of that row changes. |
| ProjectRegistry.ProjectTable.Archive | convex/projects.ts:641-660 | The same for archiving. |
| ProjectRegistry.ProjectTable.Restore | convex/projects.ts:662-681 | The same for restoring; a deleted project is refused. |
| ProjectRegistry.ProjectTable.DeleteProject | convex/projects.ts:683-719 | Marks a live project deleted once its name is confirmed, and then it is gone for good. |
| ProjectRegistry.ProjectTable.Purge | convex/projects.ts:1010-1012 | A deleted project's row goes and no other; otherwise nothing changes. |
| ProjectRegistry.NextKeepsSound | convex/projects.ts:212-719 | Every mutation keeps ids and slugs distinct and at most one live project for a token and its creator. |
| ProjectRegistry.RunIsSound | convex/projects.ts:109-719 | So they are in every state of every run. |
| ProjectRegistry.DeletedIsForever | convex/projects.ts:512-719 | No run brings a deleted project back, under its id, in any other status. |
| ProjectRegistry.SlugIsStable | convex/projects.ts:540-548 | Over any run a project keeps its slug, token and creator as long as it has a row. |
| ProjectRegistry.EmptyTokenRepeats | convex/projects.ts:283-300 | Two creations with an empty token leave the creator two live projects. |
| ProjectRegistry.OneLiveExactly | convex/projects.ts:283-300 | Over all runs a creator has at most one live project for a token if and only if the token is not empty. |
| ProjectSeats.EveryRunIsSound | convex/lib/seatLimits.ts:10-30 | Over every run with a clock that does not go back, members and open invitations never exceed five, then or at any later time; nobody has two rows; somebody can manage the project. |
| ProjectSeats.NextKeepsSound | convex/lib/seatLimits.ts:23-30 | Every mutation keeps that, at a time no earlier than the last. |
| ProjectSeats.SoundInRows | convex/lib/seatLimits.ts:10-30 | Soundness on the rows: members and unexpired pending invitations are five at most, no two rows are one device's, and one is a manager's. |
| ProjectSeats.RowsDecide | convex/lib/seatLimits.ts:10-30 | There is a seat when members and unexpired pending invitations are four at most; managing and belonging are what the rows say. |
| ProjectSeats.RevokedLinkStaysRevoked | convex/projectJoinLinks.ts:173-186 | Over any run from a new project tokens stay distinct, and a link once revoked keeps its token and is never active again. |
| ProjectSeats.RevokedTokenAdmitsNobody | convex/projectJoinLinks.ts:290-297 | Once a link is revoked, its token admits nobody in any later state of the run, whoever tries it and when. |
| ProjectSeats.SecondOpenInvitation | convex/projectDeviceEnrollments.ts:24-43 | From at most one open invitation for a device, a request leaves two if and only if it passes the guards, the first pending one has run out, a later one is open, and there is a seat. |
| ProjectSeats.ThreeRequests | convex/projectDeviceEnrollments.ts:27-43 | Three requests for one device from a new project, the later two as the first invitation runs out, leave two open. |
| ProjectSeats.AcceptanceHasASeat | convex/projectDeviceEnrollments.ts:214-226 | An open invitation keeps its seat: taking it up is never refused for want of one. |
| ProjectSeats.TwoManagers | convex/projectMembers.ts:167-178 | A manager acting on another manager means there are at least two, so the last one is never reached. |
| ProjectSeats.Project.constructor | convex/projects.ts:354-360 | A new project has its creator as its one member and manager. |
| ProjectSeats.Project.MarkDeleted | convex/projects.ts:705-709 | Deleting the project leaves members, invitations and links as they are. |
| ProjectSeats.Project.CreateEnrollment | convex/projectDeviceEnrollments.ts:11-44 | Past the guards, each stated on the rows: returns the first pending invitation exactly when it is open, else adds one that is open for a week exactly when there is a seat, else reports the project full; otherwise gives the guard that failed. |
| ProjectSeats.Project.ResolveEnrollment | convex/projectDeviceEnrollments.ts:197-230 | Succeeds exactly for an open invitation of the caller; accepting adds the member unless there already; reports one of the caller's that has run out as such; a refusal changes nothing. |
| ProjectSeats.Project.CancelEnrollment | convex/projectDeviceEnrollments.ts:232-242 | Cancels a pending invitation, for the creator, a manager or an administrator of the organization only, while the project is live. |
| ProjectSeats.Project.EnsureProjectAccess | convex/collaborationSessions.ts:131-152 | A session grant adds a viewer or developer when there is a seat and no access yet, and never a manager. |
| ProjectSeats.Project.UpdateRole | convex/projectMembers.ts:128-184 | Changes another member's role, for managers by membership only. |
| ProjectSeats.Project.RemoveMember | convex/projectMembers.ts:187-235 | Removes another member, for managers by membership only. |
| ProjectSeats.Project.CreateOrUpdateActiveLink | convex/projectJoinLinks.ts:128-192 | Afterwards exactly one link is active, with the role asked for; refused to a manager exactly when there was none and all five tokens drawn are taken. |
| ProjectSeats.Project.RotateLink | convex/projectJoinLinks.ts:194-245 | Afterwards the only active link is a new one, with the first token drawn that is free; refused to a manager exactly when all five are taken. |
| ProjectSeats.Project.RevokeLink | convex/projectJoinLinks.ts:247-279 | Afterwards no link is active. |
| ProjectSeats.Project.JoinByToken | convex/projectJoinLinks.ts:281-337 | An unknown, empty or inactive token is invalid; with an active link to a live project a member only counts as a use, and anyone else is added exactly when fewer than five seats are taken; every refusal changes nothing. |
| SessionMetrics.SessionMetricsTable.RecordActivity | convex/collaborationSessionMetrics.ts:164-293 | Credits the caller with the positive figures the call brings, or opens the row, with the durable operations so far and the session's age in place of figures it does not bring; the row goes on tallying with the log of credits. |
| SessionMetrics.SessionMetricsTable.SyncGitLeaderAndPR | convex/collaborationSessionMetrics.ts:295-347 | Marks the leader's entry and no other, changing no count; or opens the row with the session's own figures. |
| SessionMetrics.CreditIsTallied | convex/collaborationSessionMetrics.ts:190-251 | A credit keeps the row in agreement with the log: totals, one entry per contributor, the hundred latest buckets. |
| SessionMetrics.Conservation | convex/collaborationSessionMetrics.ts:164-347 | Totals less member sums, and totals less bucket sums and dropped buckets, stay at the opening figures; at most a hundred buckets, in strict order of time. |
| SessionMetrics.BucketsCountTheirWindow | convex/collaborationSessionMetrics.ts:176-207 | A bucket counts exactly what was credited in its quarter of an hour. |
| SessionMetrics.HistoryTells | convex/collaborationSessionMetrics.ts:191-207 | With a monotone clock there is one bucket for each window credited in, in order. |
| SessionMetrics.RecentIsKept | convex/collaborationSessionMetrics.ts:203-206 | Dropping the oldest as they go is keeping the hundred latest of all. |
| SessionMetrics.RosterGrows | convex/collaborationSessionMetrics.ts:209-236 | Every contributor has one entry, holding exactly the operations, time and lines credited to it. |
| SessionMetrics.AtMostOneCommitter | convex/collaborationSessionMetrics.ts:311-322 | At most one entry is marked as the current committer. |
| SessionMetrics.UpdateBuckets | convex/collaborationSessionMetrics.ts:191-207 | Adding to the last bucket, or starting one and dropping the oldest past a hundred, is keeping the hundred latest. |
| SessionMetrics.MembersGainCredit | convex/collaborationSessionMetrics.ts:209-236 | Whether the contributor is new or not, the members' sums gain exactly the credit. |
| RuntimeImage.ValidMeansAuthentic | shared/devAppContainedRuntime.ts:278-351 | An image validates if and only if its reference is some name pinned to its manifest digest, both platforms are there, and its statement vouches for that digest, source and package. |
| RuntimeImage.ErrorsMean | shared/devAppContainedRuntime.ts:278-351 | Which of the six errors is found: the first of pinning, authority, known platforms, both platforms, statement and consistency that the image lacks. |
| RuntimeImage.SignaturesMean | shared/devAppContainedRuntime.ts:295-296 | A signature is base 64 with at most two signs of padding and at most 16,384 long. |
| RuntimeImage.PinnedMeans | shared/devAppContainedRuntime.ts:242-245 | A pinned reference is a name, a mark and a well-formed digest, read from the last mark. |
| RuntimeImage.ValidImagesLaunch | shared/devAppContainedRuntime.ts:261-276 | A valid image has a build for either platform, and it is one the statement vouches for. |
| RuntimeImage.ValidForOneSource | shared/devAppContainedRuntime.ts:320-346 | No image is valid for two different sources or packages. |
| DevAppReleases.DevApp.CreateUploadReservation | convex/devApps.ts:109-137 | Adds an empty upload for those who may publish. |
| DevAppReleases.DevApp.RegisterUploadedArtifact | convex/devApps.ts:139-180 | Records a file once, even one that fails its checks, and says whether it passes. |
| DevAppReleases.DevApp.AbandonUploadReservation | convex/devApps.ts:182-192 | Removes the caller's own upload and no other. |
| DevAppReleases.DevApp.RegisterRuntimeBuild | convex/devApps.ts:316-361 | Gives an upload with a file its one build, queued. |
| DevAppReleases.DevApp.CompleteRuntimeBuild | convex/devApps.ts:364-419 | Succeeds exactly for the one upload with that build, not expired and not final, given an acceptable report; ready needs an image valid for the build's own digests. Each refusal has its condition. |
| DevAppReleases.DevApp.Publish | convex/devApps.ts:421-606 | Succeeds under exactly the conditions listed, on the upload, its file, its build and the listing, and which refusal comes first is stated; the new release has the file's kind and hash and the build's digests and image, is the next version and the active one, the upload is used up, and the ten latest releases remain. |
| DevAppReleases.ListingsMean | convex/devApps.ts:440-520 | A listing is accepted exactly when its texts are within 80, 500, 80 and 512, its path stays inside, its logo is at most 128 KiB, and a service has a permission hash; else the first of these that fails is reported. |
| DevAppReleases.DevApp.Archive | convex/devApps.ts:608-626 | Hides the publication and keeps its releases. |
| DevAppReleases.FinalIsFinal | convex/devApps.ts:380-389 | Over any run a build that is ready or failed never changes again, image and digests included. |
| DevAppReleases.RunFollows | convex/devApps.ts:316-419 | Over any run a build keeps its id and digests and its status only moves on. |
| DevAppReleases.PublishingKeepsReleases | convex/devApps.ts:538-589 | After n publications the release at the end is version n and active, every release with an image validates against its own digests, and every service has one. |
| DevAppReleases.RetainedVersions | convex/devApps.ts:581-589 | After n publications exactly versions max(1, n - 9) to n are kept. |
| DevAppReleases.UploadIsReleased | convex/devApps.ts:545-566 | A release made from an upload with a ready build carries the image and digests it was validated with. |
| Capabilities.NormalForm | shared/devAppCapabilities.ts:131-134 | The normal form lists exactly the valid capabilities declared, each once, in order. |
| Capabilities.NormalizeIsIdempotent | shared/devAppCapabilities.ts:150-158 | Normalizing a normal form changes nothing. |
| Capabilities.SameNormalForm | shared/devAppCapabilities.ts:131-158 | Requests are normalized alike exactly when they ask for the same, in any order and with any repetition. |
| Capabilities.FingerprintIdentifies | shared/devAppCapabilities.ts:166-169 | Fingerprints are equal if and only if the capability sets and the agent flags are. |
| Capabilities.KnownNames | shared/devAppCapabilities.ts:43-56 | The twelve capability names. |
| Capabilities.FingerprintText | shared/devAppCapabilities.ts:166-169 | The text of a fingerprint: the version, the names in order with commas between, and the agent flag. |
| Capabilities.JoinCancels | shared/devAppCapabilities.ts:168-168 | A list joined by commas can be taken apart in one way only. |
| DevelopmentTrust.DevAppDevelopmentTrustStore.Approve | shared/devAppDevelopmentTrust.ts:77-85 | Records the normalized grant with its expiry; the map goes on agreeing with the log. |
| DevelopmentTrust.DevAppDevelopmentTrustStore.Resolve | shared/devAppDevelopmentTrust.ts:94-137 | A request that must be approved is approved if and only if the last word on its source is an approval in force that covers it; it is reported expired exactly when the approval held has run out; what runs is the normalized request; what is reported missing is exactly what is not held. |
| DevelopmentTrust.DevAppDevelopmentTrustStore.Revoke | shared/devAppDevelopmentTrust.ts:139-141 | Drops the approval of one source. |
| DevelopmentTrust.DevAppDevelopmentTrustStore.RevokeAll | shared/devAppDevelopmentTrust.ts:144-146 | Drops every approval. |
| DevelopmentTrust.DevAppDevelopmentTrustStore.List | shared/devAppDevelopmentTrust.ts:149-155 | Returns the approvals in force and those only, dropping the others. |
| DevelopmentTrust.ApprovedUntilThePast | shared/devAppDevelopmentTrust.ts:101-111 | An approved answer carries a time already past if and only if nothing is asked for, no explicit approval is required, and an approval held has run out. |
| DevelopmentTrust.NothingAfterExpiry | shared/devAppDevelopmentTrust.ts:101-111 | A request for nothing made as an approval runs out is such a case. |
| DevelopmentTrust.LastWordIsLast | shared/devAppDevelopmentTrust.ts:77-146 | An approval is the last word exactly when some event gave it and no later event concerns the source. |
| DevelopmentTrust.InForceIsHeld | shared/devAppDevelopmentTrust.ts:94-137 | Under a clock that does not go back, an approval is in force exactly when the map has it and it has not expired. |
| DevelopmentTrust.CoverageIsInclusion | shared/devAppDevelopmentTrust.ts:129-136 | An approval covers a request exactly when everything asked for now was asked for then, agents included. |
| DevelopmentTrust.EmptyMeans | shared/devAppDevelopmentTrust.ts:101-111 | A request is empty exactly when it asks for no known capability and for no agents. |

## Left out

- Authentication, secrets, tokens and cryptography: the caller, the time and who may access, edit or manage what are inputs to each call, and a device and its identity key are one principal.
- SessionTables.Tables.InviteParticipant: an identity key is none, malformed, or that of one device; reading it is `DeviceIdentity`.
- Session mutations see project access, seats and the organization through a `World` given for each call; the seat ledger itself is the separate module `ProjectSeats`. One session at a time is modelled, so branch uniqueness across sessions is not.
- `recordRepository` and the read-only queries of sessions, projects and DevApps: they change nothing that the properties are about.
- ScheduledTasks.ComputeNextRunAt: instants are unbounded integers, so the range limit of `Date` and invalid dates are not modelled, and daylight saving only as far as an orderly zone allows it.
- `dueScheduledTasks`, `isScheduledTaskDue` and `isScheduledTaskStale`: a filter, two comparisons and a library sort over the result that is modelled.
- MessageBudget.IsWithinMessageBudget: getters, proxies and inherited properties are not modelled; big integers weigh as numbers do.
- CanonicalJson.CanonicalForm: restricted to JSON values, because `undefined` and functions print as `null`; a number is known by the token it prints as. The fixed prefix of the attestation payload is not modelled.
- DeviceIdentity.CreateDeviceIdentityKey: the key test folds case for ASCII letters only.
- ToolSchema.MatchDecides: property names found on `Object.prototype` are not modelled, objects have their own keys only; schemas are JSON values, so a `const` that is no JSON value is not covered. The path in a reported problem is modelled, its wording is not.
- InputBudget.InputBudgetError: when an input fails in several ways, which one is reported depends on the order of the traversal, and that is not stated. The wording of errors is not modelled.
- DevAppRef.RoundTrip: a version is a whole number or the latest one; fractions are not modelled.
- ProjectPurge.WholePurge: stored files are not modelled, rows are known by id and owner. Two session tables that no stage covers are outside the statement. Rows that arrive for a session during the purge may outlive it; `ProjectPurge.LateSessionRows` says exactly which.
- ProjectRegistry.ProjectTable.Create: the slug made from a name, the repository descriptors and the wizard artifacts are not modelled; the base slug is an input.
- ProjectSeats.EveryRunIsSound: one project, and the purge of its rows is not part of a run. Organization seats are not modelled, since an administrator can be added there without a seat check. Random tokens are an input; they are compared within the project's own links.
- SessionMetrics.Conservation: counts are whole numbers, and display names, roles and the pull request descriptor are not modelled. Lines added and deleted have no total, only the entry of each contributor.
- DevAppReleases.DevApp.Publish: deleting stored files, the consumer view, platform fields and publisher details are not modelled; texts come trimmed and hashes normalized.
- RuntimeImage.ValidMeansAuthentic: the two platform lists are compared as lists of platform and digest, so extra fields and the order of fields within an entry are not modelled; nor is the signature check itself.
- DevelopmentTrust.DevAppDevelopmentTrustStore.List: the order of the list returned is not modelled.
- `developmentApprovalKey`, badges, tiers and descriptions: lookups over values that are modelled.
- GitHub actions, HTTP routes, scheduling of jobs, logging and the user interface.
