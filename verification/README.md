# student_bot: reminder and portal bookkeeping, in Dafny

`main.py` runs a Telegram bot for one student. It has two background loops and a few chat
commands, and they share two JSON documents:

- `last_data.json` holds `{"content": <page text>}`, the last text seen on the university portal.
- `reminders.json` holds a list of `{"datetime": <ISO time>, "message": <text>}`, kept in time order.

The **portal checker** (`check_for_updates`, wrapped by `portal_checker`) runs every ten seconds.
It fetches the portal page, compares the text with the stored content, and on a difference saves
the new text and sends one "portal updated" message. Only a connection-level error raises; the
loop catches the exception and skips that pass. The HTTP status is never checked, so a rejected
login or an error page is fetched text like any other, and differs from the stored page.

The **reminder checker** (`reminders_checker`) runs every ten seconds. It reads the clock and the
list, sends every reminder with `now >= time`, and writes the rest back, but only if something
was sent.

`/addreminder DATE H M words...` needs at least five arguments. It builds the time from the
date, hour and minute with seconds zeroed, refuses a time strictly before now, appends the
record, and stably sorts the list by time. `/delreminder N` takes a 1-based digit string and
pops that entry.

The model keeps the logic and drops the plumbing. The two documents become an in-memory
`Engine.Store`, an optional snapshot plus a sequence of `Reminder` records; missing files give
the empty store. The fetch is an `Option<string>` input. Notifications are an output sequence of
`Engine.Event`s. The clock is an `int` parameter counting microseconds on the local wall clock.
Reminder times are whole minutes. `/addreminder`'s `datetime.fromisoformat` and `int()` are the
two parsers handed in as `Commands.Parsers`. `/delreminder`'s `int()` on a digit string is
modelled concretely by `Commands.DigitsValue`.

Modules:

- `Wrappers`: `Option` and `Result`.
- `Reminders`: the record; due-time selection (`Select`); the stable sort the bot applies
  (`SortByDue`) and its stability and uniqueness.
- `Commands`: `/addreminder`, `/delreminder`, the numbered list, digit-string ordinals, and the
  message join.
- `Scheduler`: one pass of the reminder checker, the source's loop as a method, runs over many
  passes, and how a failed send behaves (see Findings).
- `Portal`: one pass of the portal checker and runs over many passes.
- `Engine`: the whole store and the four steps that change it. Every sequence of steps keeps the
  list sorted.

The model follows the code on these points:

- A reminder whose time equals the clock reading is accepted: the source tests `dt < now`.
- A one-word message is refused: the source demands at least five arguments.
- A reminder due exactly now fires.
- Nothing is locked and nothing is written atomically. The model has no concurrency at all.

## Model

| member | source | states |
|---|---|---|
| Commands.AddReminder | main.py:86-112 | fewer than five arguments is a usage error; an unreadable date, hour or minute, or an hour or minute out of range, is an invalid time; a time strictly before now is refused and a time equal to now accepted; on success the new record has the built time (a whole minute) and the joined message, and the new list is sorted, holds exactly the old records plus the new one, and keeps every key's records in their old order with the new record last |
| Reminders.AppendThenSortInserts | main.py:109-111 | on a sorted list, append-then-stable-sort is insertion of the new record right behind every record due no later |
| Commands.AddInsertsBehindEqualTimes | main.py:86-111 | when every check passes, `/addreminder` succeeds, and on the always-sorted list its new list is the old one with the record inserted behind every record due no later |
| Commands.WordsOfJoin | main.py:99 | joining the message words with blanks loses nothing: splitting the message again gives the same words |
| Commands.DueFromArgs | main.py:96-101 | the time is built exactly when the date, hour and minute all parse and the hour is in 0..23 and the minute in 0..59; the built instant is a whole minute and reads back as the parsed day, hour and minute |
| Commands.ComposeDecompose | main.py:100-101 | putting a day, an in-range hour and minute together with seconds zeroed can be undone: the instant falls on that day, hour and minute |
| Commands.Listing | main.py:115-124 | the list shows every record once, in stored order, each with an ordinal between 1 and the list's length, and the ordinals strictly increase, so no two entries share one |
| Commands.DelReminder | main.py:126-137 | usage error unless there is exactly one argument and it is a digit string; success exactly when 1 <= N <= length; on success the returned record is entry N-1, the records before it stay in place, the later ones move up one, and nothing else changes |
| Commands.DelKeepsSorted | main.py:136 | popping one entry from a sorted list leaves it sorted |
| Commands.Decimal | main.py:121-131 | the ordinal printed by the list is a digit string that `int()` reads back as the same number |
| Commands.ListedOrdinalDeletesThatEntry | main.py:121-136 | sending back the number shown next to a listed entry deletes exactly that entry |
| Reminders.SortByDue | main.py:111 | the sort's result is ordered by due time |
| Reminders.SortPermutes | main.py:111 | the sort's result is a permutation of its input |
| Reminders.SortIsStable | main.py:111 | for every time, the records with that time keep their relative order (Python's sort is stable) |
| Reminders.StableSortIsUnique | main.py:111 | two sorted lists that agree on the order within each time are equal, so any stable sort gives this result |
| Reminders.SortSortedIsIdentity | main.py:111 | sorting an already sorted list changes nothing |
| Reminders.SplitConserves | main.py:146-151 | the due-by-now part and the later part hold every record of the list exactly once |
| Reminders.DueTwice | main.py:146-151 | on a sorted list, the records due by t followed by the rest's records due by t' >= t are the records due by t', in order |
| Scheduler.Tick | main.py:143-153 | a pass splits the list into a sent part and a kept part whose sizes add up to the list's, and writes the list back exactly when it sent something |
| Scheduler.TickPartitions | main.py:143-153 | a record fires exactly when now >= its time (so one due exactly now fires), the kept records are exactly those due later, no record is lost or duplicated, the list is written exactly when something fired, and otherwise it is left as it was |
| Scheduler.CheckReminders | main.py:144-153 | the record-by-record loop produces the fired records, the kept records in their original order, and the write decision of one pass |
| Scheduler.TickKeepsOrder | main.py:146-151 | on a sorted list, reminders fire earliest first and the kept list stays sorted |
| Scheduler.TicksCompose | main.py:142-154 | two passes at t <= t' send exactly, and in the same order, what one pass at t' sends, and keep the same records; a second pass sends nothing the first already sent |
| Scheduler.Run | main.py:141-154 | with each failed send contained, the loop keeps running; it loses at most one message per pass, and only messages whose send it attempted |
| Scheduler.RunConserves | main.py:141-154 | over any sequence of passes, the records attempted and the records left make up the original list exactly once each: no reminder is attempted twice |
| Scheduler.RunIgnoresFailures | main.py:141-154 | with each failed send contained, a rejection only loses that message: the records attempted and the records left are those of the same run with a backend that accepts everything, which loses nothing |
| Scheduler.RunLosesOnlyAttempted | main.py:146-151 | counting repeats, the lost messages are among the attempted sends |
| Scheduler.RunFiresEachDueOnce | main.py:141-154 | with a clock that never goes back, a run attempts exactly the reminders due by its last pass, earliest first, and keeps exactly the rest, whatever the backend rejects |
| Scheduler.TickAsWritten | main.py:146-153 | a pass raises exactly when one of its sends is rejected, after attempting a non-empty prefix of the due records and before writing the list |
| Scheduler.RunAsWritten | main.py:141-154 | when no pass names a failing send, the loop as written behaves like the contained loop, attempting, losing and keeping the same records |
| Scheduler.RunningAgrees | main.py:141-154 | as long as the loop as written is still running, no send was rejected, and it has attempted, lost and kept exactly what the contained loop has |
| Scheduler.SinkFailureStopsChecker | main.py:141-154 | one rejected send ends the loop: its message is lost, a reminder due at a later pass is never attempted, and both stay stored |
| Scheduler.SinkFailureContained | main.py:141-154 | with each failed send contained, the same run attempts both reminders, loses only the rejected first message, delivers the second, and empties the list |
| Portal.Run | main.py:156-162 | a run of the portal loop announces at most once per pass |
| Portal.Check | main.py:58-63 | a failed fetch changes nothing; a fetched text always ends up as the snapshot, and a change is saved and announced exactly when it differs from the stored content (an absent snapshot always differs) |
| Portal.FailuresAreSkipped | main.py:156-162 | a run with failed fetches equals the run with those passes removed |
| Portal.LastFetchWins | main.py:59-62 | after a run, the snapshot is the last text fetched, or the old snapshot if no fetch succeeded |
| Portal.SilentIffUnchanged | main.py:59-63 | a run announces nothing exactly when every text it fetched equals the stored one |
| Portal.SteadyPageAnnouncedOnce | main.py:58-63 | fetching the same text n >= 1 times announces it once if it differs from the stored snapshot (always, on an empty store) and never otherwise |
| Engine.PortalStep | main.py:156-162 | a portal pass only touches the snapshot, emits at most one change event, emits it exactly when the fetched text differs from the snapshot, and leaves the store unchanged when the fetch fails |
| Engine.SchedulerStep | main.py:143-153 | a reminder pass only touches the list, keeps exactly the kept part of the pass (the records due after now, repeats included, in their order, so sorted when the list was), emits one notice per due record in firing order, and writes nothing when nothing is due |
| Engine.AddStep | main.py:86-112 | `/addreminder` only touches the list; on error the store is unchanged; on success the list gains exactly the returned record, not in the past, and stays sorted |
| Engine.DeleteStep | main.py:126-137 | `/delreminder` only touches the list; on error the store is unchanged; on success exactly the returned record is gone and the list stays sorted |
| Engine.AlwaysSorted | main.py:109-111 | any sequence of passes and commands keeps the reminder list sorted by time |
| Engine.FromFreshAlwaysSorted | main.py:38-40 | starting from the empty list read when the file is missing, the list is sorted after anything |

## Left out

- JSON reading and writing (main.py:24-42): the documents are an in-memory `Store`. A missing file is the empty store. Corrupted JSON, non-string content and I/O errors are not modelled.
- Portal login, fetch and HTML-to-text (main.py:44-53): network I/O. A pass receives the page text as `Option<string>`, with `None` for a connection error or any other exception before the comparison. `Some(text)` includes the text of error pages and of a rejected login, since the status is never checked. A request that hangs blocks the loop; that is not modelled.
- The Telegram side (main.py:55-56, 65-84, 164-188): `start`, `help`, `status`, reply texts, message prefixes, `strftime` formatting and the webhook set-up are transport and UI. An event carries only the reminder's message.
- `datetime.fromisoformat`, `int()` and `datetime.now()`: library parsing and the clock. The two parsers are parameters, and a time-zone-aware date counts as a parse failure; the hour and minute range checks of `replace` are modelled. The stored ISO strings are represented by the instants they denote; the isoformat is fixed width, so the string order is the same.
- Commands.IsDigits: only ASCII digits. Python's `isdigit` also accepts other Unicode digits, which `int()` may read or reject.
- Commands.WordsOfJoin: splits on the blank only, while the chat library splits on any whitespace.
- Concurrency (main.py:174-175): the asyncio tasks, the ten-second sleeps, and the lost update when a command and the reminder checker both read, modify and write the list. The code has no lock to verify. `Engine.ApplyAll` interleaves steps one at a time and so models only serialized executions.
- Scheduler.Run: the list is passed straight from one pass to the next; commands between passes are covered by `Engine.ApplyAll`.
- Scheduler.Run: a pass models at most one rejected send, the first, which is where the loop as written raises; with sends contained, later sends of the same pass could also be rejected, and the model treats them as delivered.
- A failed send in the portal checker: the snapshot is saved before the send, and the exception is caught, so the change is recorded and the message is lost. This is not modelled; `Portal.Check` treats the announcement as made.
- Reading a stored time back (main.py:147) is not modelled as failing.
- Environment configuration (main.py:11-22).

## Findings

| source | as written | input that shows it | evidently intended | confidence | as-written member | corrected member |
|---|---|---|---|---|---|---|
| main.py:141-154 | `reminders_checker` catches no exception, so a rejected send escapes the `while True` and ends the checker task for good, before the list is written back | two reminders due at the first and at a later pass, with the messaging backend rejecting the first send | like `portal_checker` (main.py:156-162), a failed pass must not stop the loop; here each failed send is contained, the message is lost, and the list still advances, so no reminder is sent twice | medium, not executed | Scheduler.RunAsWritten (counterexample: Scheduler.SinkFailureStopsChecker) | Scheduler.Run (proved: Scheduler.RunConserves, Scheduler.RunIgnoresFailures, Scheduler.RunFiresEachDueOnce, Scheduler.SinkFailureContained) |

The corrected loop contains each failed send, so the pass still writes back the records it kept.
The message of a failed send is lost and never sent again, so each reminder is delivered at most
once. The alternative fix, wrapping the whole pass in `try` as the portal loop does,
would leave the list unwritten, and the next pass would send the already delivered reminders
again. `Engine.SchedulerStep` is built on the same pass (`Scheduler.Tick`) as the corrected loop.
