# Tech-conference scheduling core, modelled in Dafny

This project models the core of a Java conference app (phase 1 and phase 2):

- The phase-1 event **Schedule**. It is a list of events kept in start-time order. It supports sorted insertion (`addEvent`), five filters that keep list order, indexed get and remove, and an iterator.
- The phase-2 **UserManager**. It is a registry of users keyed by UUID. It supports username search, ban toggling, permission lookup, login stamping and a last-login window test.
- The phase-1 **UserManager**. It is a plain UUID-keyed map with a settable logged-in user.
- The per-role **permission templates** for Admin (phase 2) and Attendee (phase 1). Each is a fixed run of `put` calls, written here as a map display in the same order.
- The phase-2 **Message** record. Six fields are final, and a status starts as unread.

Files:

- `base.dfy` (module `Base`): UUIDs, `Option`/`Result` for `null` returns and thrown exceptions, the "run of puts" fold `PutAll` used by `addUsers`, and the map search `FindKey`.
- `permissions.dfy` (module `Permissions`): the capability flags and the two templates.
- `schedule.dfy` (module `Scheduling`): the schedule and its iterator.
- `user_registry.dfy` (module `UserRegistry`): the phase-2 user manager.
- `login_users.dfy` (module `LoginUsers`): the phase-1 user manager. It also holds `NewAttendee`, the Attendee constructor, because that constructor builds a phase-1 user record, which is declared here. The template it installs lives in `Permissions`.
- `messages.dfy` (module `Messages`): the message record.

Modelling choices:

- Times of day and timestamps are integers. The code only compares them.
- An event is a record: start, end, speaker, title, attendee set and an `atCapacity` flag. The attendee test is set membership.
- For non-null arguments, these exceptions are `Err` values, so their error paths are modelled:
  - `IndexOutOfBoundsException` and `NoSuchElementException` from the schedule;
  - the `NullPointerException` from an absent user, an unset logged-in user or an absent permission flag.

  Exceptions from `null` arguments or `null` fields have no counterpart, because the model has no null values. Neither does an `UnsupportedOperationException` from a fixed-size list wrapped by `Schedule(List)`. One failure path also changes state before it throws; the model does not record that change (see `UserRegistry.SetLoggedInUser` under "## Left out").
- A mutated object becomes a function from old value to new value.

Behaviour followed as the code has it, where its comments or a natural reading suggest otherwise:

- The interval query keeps an event only if it starts at or before the window and ends inside it, or starts inside the window and ends after it. So an event spanning the whole window is dropped (`SpanningEventExcluded`). So is an event lying wholly inside the window and starting after it opens (`InnerEventExcluded`).
- `checkUserLoggedIn` is documented as inclusive, but the code is strict at both ends.
- Looking up a flag missing from a user's map yields `null`. Unboxing that `null` throws; it is not read as `false`.

## Model

| member | source | states |
|---|---|---|
| Scheduling.InsertionPoint | phase1/src/SchedulingSystem/Schedule.java:30-33 | the scan's stopping index: every earlier event starts strictly before the new one, and the event at the index (if any) does not |
| Scheduling.AddEvent | phase1/src/SchedulingSystem/Schedule.java:29-35 | inserting grows the list by one, and the multiset gains exactly the new event; earlier events start strictly before it and later ones keep their order; on equal start times the new event lands ahead of existing ones |
| Scheduling.AddEventKeepsSorted | phase1/src/SchedulingSystem/Schedule.java:13-35 | inserting into a start-time-sorted schedule keeps it sorted |
| Scheduling.AddLatestEventAppends | phase1/src/SchedulingSystem/Schedule.java:29-35 | with the bound check, an event later than all others is appended |
| Scheduling.AddEventAsWritten | phase1/src/SchedulingSystem/Schedule.java:29-35 | the unchecked scan succeeds exactly when some event does not start before the new one, and then agrees with the corrected insert; otherwise it throws IndexOutOfBounds |
| Scheduling.ScanAsWrittenFindsInsertionPoint | phase1/src/SchedulingSystem/Schedule.java:30-33 | the unchecked scan stops at the insertion point when it lies inside the list, and throws when it is the end |
| Scheduling.AddEventAsWrittenFailsOnLatest | phase1/src/SchedulingSystem/Schedule.java:31 | on an empty schedule, or for an event later than all others, the source throws where the corrected insert appends |
| Scheduling.Filter | phase1/src/SchedulingSystem/Schedule.java:48-125 | every query loop returns an order-preserving subsequence; it keeps each accepted event as often as it occurs and drops every rejected one |
| Scheduling.EventsInInterval | phase1/src/SchedulingSystem/Schedule.java:48-61 | keeps exactly the events meeting the two-branch interval test, in order, with multiplicity; sortedness is preserved |
| Scheduling.SpanningEventExcluded | phase1/src/SchedulingSystem/Schedule.java:51-57 | an event starting before and ending after the window is not returned |
| Scheduling.InnerEventExcluded | phase1/src/SchedulingSystem/Schedule.java:51-57 | an event starting after the window opens and ending inside it is not returned |
| Scheduling.IntervalExamples | phase1/src/SchedulingSystem/Schedule.java:40-42 | over 10:00–10:30, events 09:45–10:15 and 10:15–11:00 are returned and 09:00–11:00 is not |
| Scheduling.EventsBySpeaker | phase1/src/SchedulingSystem/Schedule.java:69-77 | keeps exactly the events of that speaker, in order, with multiplicity |
| Scheduling.EventsByTitle | phase1/src/SchedulingSystem/Schedule.java:85-93 | keeps exactly the events with that exact title, in order, with multiplicity |
| Scheduling.EventsByAttendee | phase1/src/SchedulingSystem/Schedule.java:101-109 | keeps exactly the events the attendee attends, in order, with multiplicity |
| Scheduling.SignupAbleEvents | phase1/src/SchedulingSystem/Schedule.java:117-125 | keeps exactly the events the attendee does not attend and that are not at capacity |
| Scheduling.AttendedAndSignupAbleSplit | phase1/src/SchedulingSystem/Schedule.java:101-125 | the attended and sign-up-able lists for one person are disjoint; an event in neither is full and not attended by them |
| Scheduling.EventAt | phase1/src/SchedulingSystem/Schedule.java:133-135 | returns element i exactly when 0 <= i < size, otherwise IndexOutOfBounds |
| Scheduling.RemoveAt | phase1/src/SchedulingSystem/Schedule.java:142-144 | deletes exactly element i and keeps the rest in order (sorted stays sorted); out of range it throws IndexOutOfBounds |
| Scheduling.AddedEventAtInsertionPoint | phase1/src/SchedulingSystem/Schedule.java:133-135 | after addEvent, retrieving at the insertion point returns the added event |
| Scheduling.RemoveUndoesAdd | phase1/src/SchedulingSystem/Schedule.java:142-144 | removing an added event at its insertion point gives back the original schedule |
| Scheduling.Next | phase1/src/SchedulingSystem/Schedule.java:187-201 | next succeeds exactly when hasNext holds, yields the element at the cursor and advances by one; past the end it throws NoSuchElement |
| Scheduling.Drain | phase1/src/SchedulingSystem/Schedule.java:168-201 | calling next while hasNext holds yields the list from the cursor on, in list order |
| Scheduling.IterationYieldsSchedule | phase1/src/SchedulingSystem/Schedule.java:166 | a fresh iterator yields the whole schedule in order |
| Scheduling.HasNextIffMoreToDrain | phase1/src/SchedulingSystem/Schedule.java:178-180 | hasNext holds exactly when calling next until it fails still yields an event, and that event is the one at the cursor |
| Scheduling.EmptyScheduleFacts | phase1/src/SchedulingSystem/Schedule.java:17-19 | a new schedule is sorted and has nothing to get, remove or iterate; adding to it gives the one-event list with the bound check and throws as written |
| UserRegistry.EmptyManagerValid | phase2/src/backend/systems/usermangement/managers/UserManager.java:22-24 | a new manager is well formed, nobody is logged in, and every UUID lookup fails |
| UserRegistry.AddUser | phase2/src/backend/systems/usermangement/managers/UserManager.java:34-43 | the id is the first generated UUID not already present; the map gains exactly that key, existing entries stay as they were, and the new user is filed under it |
| UserRegistry.ContainsIffLookupsSucceed | phase2/src/backend/systems/usermangement/managers/UserManager.java:50-52 | containsUserWithUUID holds exactly when the ban, link and ban-setting lookups by that UUID do not throw; setting a ban keeps the registered UUIDs |
| UserRegistry.GetUuids | phase2/src/backend/systems/usermangement/managers/UserManager.java:166-168 | the list holds every registered UUID exactly once and nothing else, so its length is the number of users |
| UserRegistry.ContainsUserWithUsername | phase2/src/backend/systems/usermangement/managers/UserManager.java:59-66 | true exactly when some registered user has that username |
| UserRegistry.GetUuidWithUsername | phase2/src/backend/systems/usermangement/managers/UserManager.java:99-106 | null exactly when no user has the name; otherwise the UUID of a user that has it |
| UserRegistry.CheckBanned | phase2/src/backend/systems/usermangement/managers/UserManager.java:79-83 | returns the user's stored banned flag (true exactly when banned); fails with NoSuchUser exactly for an unregistered UUID |
| UserRegistry.SetUserBan | phase2/src/backend/systems/usermangement/managers/UserManager.java:90-92 | afterwards checkBannedWithUUID returns the new flag; every other user and every other field is unchanged; fails for an unregistered UUID |
| UserRegistry.SetUserBanUndone | phase2/src/backend/systems/usermangement/managers/UserManager.java:90-92 | setting the ban and then setting it back restores the manager |
| UserRegistry.GetLoggedInUserUuid | phase2/src/backend/systems/usermangement/managers/UserManager.java:112-114 | fails when nobody is logged in; otherwise returns the logged-in user's UUID |
| UserRegistry.SetLoggedInUser | phase2/src/backend/systems/usermangement/managers/UserManager.java:120-123 | afterwards getLoggedInUserUUID returns the id and that user's last login is the given time; nothing else changes; fails for an unregistered UUID |
| UserRegistry.HasPermission | phase2/src/backend/systems/usermangement/managers/UserManager.java:158-160 | returns the stored flag; fails with NoSuchUser for an unregistered UUID and otherwise throws when the flag is absent |
| UserRegistry.LoggedInHasPermission | phase2/src/backend/systems/usermangement/managers/UserManager.java:130-132 | fails when nobody is logged in; any answer is the logged-in user's stored flag |
| UserRegistry.LoggedInPermissionIsUserPermission | phase2/src/backend/systems/usermangement/managers/UserManager.java:130-132 | asking about the logged-in user is the same lookup as asking about that UUID |
| UserRegistry.AdminMayBan | phase2/src/backend/systems/usermangement/managers/UserManager.java:158-160 | a user filed with the Admin template has the ban flag and lacks event signup, whoever else is registered |
| UserRegistry.CheckUserLoggedIn | phase2/src/backend/systems/usermangement/managers/UserManager.java:177-180 | true exactly when the last login lies strictly between the bounds (equality at either end is false) |
| UserRegistry.LoginThenWindow | phase2/src/backend/systems/usermangement/managers/UserManager.java:120-123 | after logging in at t, the window test holds exactly for windows with t strictly inside |
| UserRegistry.GetUserLinks | phase2/src/backend/systems/usermangement/managers/UserManager.java:196-198 | returns the user's links; fails for an unregistered UUID |
| UserRegistry.UserHasLinks | phase2/src/backend/systems/usermangement/managers/UserManager.java:187-189 | true exactly when the user's link list is non-empty |
| LoginUsers.AddUser | phase1/src/LoginSystem/UserManager.java:26-28 | files the user under its UUID, overwriting any earlier one; other entries are unchanged |
| LoginUsers.AddUsers | phase1/src/LoginSystem/UserManager.java:30-34 | the keys become the old keys plus the users' UUIDs; when UUIDs repeat the later user wins; keys not added keep their users |
| LoginUsers.FromList | phase1/src/LoginSystem/UserManager.java:18-24 | the list constructor equals addUsers on an empty map, with nobody logged in |
| LoginUsers.GetUserWithUuid | phase1/src/LoginSystem/UserManager.java:36-38 | the user filed under the id, or null exactly when it is absent |
| LoginUsers.AddThenGet | phase1/src/LoginSystem/UserManager.java:26-38 | after addUser the user is found under its UUID, and lookups of other UUIDs are unchanged |
| LoginUsers.GetUserWithUsername | phase1/src/LoginSystem/UserManager.java:40-47 | null exactly when no user has the name; otherwise a registered user with that name |
| LoginUsers.SetLoggedInUser | phase1/src/LoginSystem/UserManager.java:49-55 | getLoggedInUser then returns the user that was set; the registry is untouched |
| LoginUsers.LoggedInIsLastSet | phase1/src/LoginSystem/UserManager.java:49-51 | getLoggedInUser returns the user set last: adding users does not change it, and a second set overrides the first |
| LoginUsers.EmptyManagerFacts | phase1/src/LoginSystem/UserManager.java:14-16 | a new manager finds no user and has nobody logged in; after one addUser, only that user is found |
| LoginUsers.NewAttendee | phase1/src/CoreEntities/Users/Attendee.java:5-8 | a new Attendee's flags are true exactly on being messaged and signing up for events; the flags outside its six keys are absent |
| Permissions.AdminPermissions | phase2/src/backend/entities/users/Admin.java:13-23 | defined on exactly nine flags; true exactly on schedule, sign up user, view stats, ban users and see all messages |
| Permissions.AttendeePermissions | phase1/src/CoreEntities/Users/Attendee.java:10-17 | defined on exactly six flags; true exactly on being messaged and signing up for events |
| Permissions.RoleTemplatesCompared | phase2/src/backend/entities/users/Admin.java:13-23 | across all flags: the Admin template sets every flag the Attendee template sets, no flag is granted by both, and an Attendee's lookup is null exactly on the three administrative flags |
| Messages.NewMessage | phase2/src/backend/entities/Message.java:32-40 | a new message is unread, and its sender, recipient and other fields are the constructor's arguments |
| Messages.SetStatus | phase2/src/backend/entities/Message.java:46-48 | getStatus then returns the new status, and every other field is unchanged |
| Messages.LastStatusWins | phase2/src/backend/entities/Message.java:46-54 | after any run of setStatus calls, getStatus returns the last one, and the final fields are those the message was built with |
| Messages.ExtractData | phase2/src/backend/entities/Message.java:76-88 | the map has exactly the seven field keys, and reading it back recovers the message with its current status |
| Messages.GettersAgreeWithData | phase2/src/backend/entities/Message.java:54-68 | getStatus, getSender and getRecipient read the values extractData stores; no run of setStatus calls changes sender or recipient |
| Messages.ExtractDataInjective | phase2/src/backend/entities/Message.java:76-88 | two messages extract to the same map only if they are equal |

## Left out

- `Schedule.toString`: it prints each event through `Event.toString`, which is not part of this model. Its row counter is never incremented.
- The `Schedule(List)` constructor: it wraps any list, sorted or not. A schedule here is its event list, so it is the identity. That is why every query contract holds for unsorted lists too.
- Sharing of the wrapped list: `Schedule(List)` keeps the caller's list by reference, so `addEvent` and `removeEventByIndex` also change the caller's list. A schedule here is a value, so that sharing is not modelled.
- `Event`, `EventManager`, `UserFactory` and both `User` classes are not part of this model. So there is no conflict detection, rescheduling, cancellation, registration or capacity accounting. `atCapacity` is an uninterpreted flag of the event record. How users are built is left to the caller.
- UserRegistry.AddUser: the random UUID generator is a sequence of candidate UUIDs, required to contain a fresh one. The factory is a prototype user. The model does not cover a generator that never yields a fresh UUID, where the source would loop forever.
- UserRegistry.SetLoggedInUser: for an unregistered UUID, the source sets the logged-in user to `null` and then throws. The model reports the error but does not record the cleared field. The current time from `LocalDateTime.now()` is a parameter.
- `checkPasswordWithUUID`, `getUsernameWithUUID`, `getNameWithUUID`, `removeUserLink` and `setLoggedInUserLink` are not modelled. They only forward to the user class and the `Socials` type, which are not part of this model.
- One `Perm` type stands for both phases' permission enums.
- Messages.Status: only `UNREAD` is visible among the `Statuses` constants. The others are represented by position, as `Other(n)`. The model does not bound how many there are.
- Persistence (`Serializable`), the menu and subsystem classes, console I/O and message delivery are not modelled.
- The Java `null` list argument of the phase-1 list constructor (a `NullPointerException`) has no counterpart, because a Dafny sequence cannot be null.

## Findings

| source | as written | input that shows it | evidently intended | confidence | as-written member | corrected member |
|---|---|---|---|---|---|---|
| phase1/src/SchedulingSystem/Schedule.java:31 | the scan reads `events.get(i)` before checking `i` against the size | an empty schedule, or any event starting later than every scheduled one: `get(size)` throws `IndexOutOfBoundsException` | append the event at the end of the list | high; not executed | Scheduling.AddEventAsWritten | Scheduling.AddEvent |
