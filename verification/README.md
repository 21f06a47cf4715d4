# Verified model of the booking write protocol

This project models the write path of the booking server in Dafny and proves what it keeps
when any number of calls run at once: no double booking, one booking for one idempotency
key, nothing left behind by a refused or failed call, serializability, and the exact
places where the code falls short of these.  Around the protocol it models what the
protocol rests on: the availability search, the calendar strings, the ledger key, the demo
data and the confirmation step of the tools.

## Layout

| modules | models |
|---|---|
| `Schema` | the tables of `models.py` as maps from their primary keys, and every unique and foreign key as a predicate; `Valid` is their conjunction |
| `Serial`, `SerialLaws`, `Store` | each write of `queries.py` as one atomic step; laws across calls; a class that runs the statements of each write on rows in place and is proved to do that step |
| `Protocol`, `Invariant` | the same writes as interleaved SQL statements, and the inductive invariant |
| `Refinement`, `Linearization`, `SafeCalls`, `ExactlyOnce`, `Graph`, `Liveness`, `Surprises` | the theorems over all schedules, and concrete schedules for what does not hold |
| `Text`, `Calendar`, `Geo` | digits and character order; dates, clock times and starts; the search box |
| `Availability`, `Occupancy`, `Schedule` | who is free, the first free day, what the writes change in it, the daily schedule |
| `Fields`, `BookingKey` | texts of separated fields and how they can be misread; the text that is hashed into the ledger key |
| `Seed`, `SeedRun` | the demo data as functions on the tables, and the loops that add it |
| `Tools` | resolve or extract, confirm, write: the write tools on top of the protocol |

## How the protocol is modelled

A call has its arguments and the identifiers for its new rows (`uuid4`, or the sequence of
the memory table) fixed when it starts; identifiers are fresh and differ between calls.
`Advance` is the next SQL statement of a call under PostgreSQL Read Committed (PostgreSQL
documentation, section 13.2.1), the isolation level that `db.py` leaves in force.  What an
open transaction has written but not committed follows from its program counter, so the
shared state is the committed tables and one counter per call.

* An INSERT of a unique key, and an UPDATE or DELETE of a row version, waits while another
  open transaction holds that key or version (`Holds`, `Wants`), and then sees what was
  committed.  A transaction that deletes or updates an appointment also holds the slot that
  the old version of the row carries.
* A schedule is a sequence of `Go(p)`, one statement of call `p`, and `Fail(p)`, an end of
  call `p` by a statement timeout, a lost connection or a deadlock victim's abort.  All
  theorems are over every schedule.
* A null or empty address is not looked up before the client INSERT, as in the code; an
  empty one can lose the race for the key and is then looked up.
* SQLAlchemy sends no UPDATE for an assignment that equals the value it loaded, so a move to
  the loaded start and a save of the loaded note commit nothing.  An UPDATE whose row is
  gone, or that runs into the slot index, is an error for the caller.  A DELETE whose row is
  gone only warns, and the call still answers `True`.
* No operation of the server changes staff or skills once they are seeded, so the protocol
  keeps them fixed.

The ledger stores the start as an instant; its printed form is determined by it and, with
years of four digits, determines it (`Calendar.ParseOfStart`).

## What does not hold, and when it does

* Not every call answers as if it had run alone at some moment between its first and its last
  statement.  `Linearization.AnswerIsSerial` says exactly which do, and
  `Linearization.Linearizable` puts all of these, readers and writers, into one serial order.
  The exceptions: a cancellation that finds its row already deleted still answers `True`
  (`Surprises.BothCancelsAnswerTrue`); a move whose row is deleted, or whose new slot is taken,
  after its check ends with a database error (`Surprises.MoveLosesItsRow`); and a booking or a
  move can be refused for a slot that was taken only once its own booking was recorded
  (`Surprises.TwinIsRefused`) or its appointment was gone (`Surprises.MoveClashesLate`).  The
  tables are always those of a serial execution.  A caller can rule the exceptions out
  beforehand (`SafeCalls`): they need another booking with the same key, another cancellation
  of the same appointment, or another call that takes the new slot of the move.
* Reschedules can deadlock, and nothing else can (`Liveness.CyclesAreMoves`).  All calls can be
  finished without failing any exactly when there is no cycle of waits
  (`Liveness.FinishesUnlessCyclic`).  No cycle is ever reached unless some appointment has two
  moves to different starts, to one of which another appointment is moved
  (`Liveness.ApartNeverDeadlock`); three moves like that and a booking do reach one
  (`Surprises.MovesDeadlock`).
* The search box contains the whole disc exactly when the cosine of the latitude is at least
  0.01 (`Geo.BoxContainsDisc`).
* Some different request has the key of a given one exactly when an optional value of it is
  missing or is the text `None`, which print alike, or when a value of it contains the separator
  in front of itself or of the next field, such as `|name=` (`BookingKey.KeyIsShared`);
  `NoneIsConfused` and `BarsAreConfused` are families of such pairs.  A bar alone does no harm.
* A second run of the seeding reports zero rows, in whatever order the staff rows come, exactly
  when, before the first run, everybody who shares the name of a demo visit with the staff
  member it is booked for was busy at its time (`Seed.SeedingIsIdempotent`); with distinct staff
  names that is always so (`SeedRun.SeedTwice`), and with two free namesakes it is not
  (`Seed.NamesakeIsBookedToo`).
* A validated date and time make a start exactly when the time has no trailing newline, and
  the start prints as date, time and zero seconds exactly when its year is printed with four
  digits (`Calendar.ValidatedStart`).

The docstring of `create_booking` promises that a replay returns the recorded result.  The
code keeps that promise also after the appointment has been cancelled or moved, when the
recorded result is out of date; `SerialLaws.ReplayAfterAnything` and
`ExactlyOnce.ReplayStability` state it as the code has it.  Likewise the docstring of
`cancel_appointment` promises `False` for an appointment that does not exist; that holds of
one call at a time (`SerialLaws.CancelledOnce`) and not of concurrent ones.

## Model

| member | source | states |
|---|---|---|
| Refinement.Serializable | src/booking_mcp/queries.py:163-317 | For every schedule of every mix of calls, the tables are those of running the committing calls one at a time in commit order, each once, and each of them answered what it answers there |
| Refinement.CommitIsSerial | src/booking_mcp/queries.py:234-317 | A COMMIT does to the tables, and answers, what the whole call would do if it ran alone at that moment |
| Refinement.QuietStatement | src/booking_mcp/queries.py:191-233 | Every other statement changes no committed row |
| Refinement.NothingToWrite | src/booking_mcp/queries.py:281-317 | Saving the note that is there, or moving to where the appointment stands, sends no UPDATE and answers success |
| Linearization.AnswerIsSerial | src/booking_mcp/queries.py:191-317 | A call that ends by its own statement answers as if it ran alone at some moment while in progress if and only if its row is there when it is deleted or updated, its new slot is free at the UPDATE, and a refusal for its slot that comes after its key was recorded or its row was gone was due at an earlier moment |
| SafeCalls.BookingIsSafe | src/booking_mcp/queries.py:163-249 | A booking whose key no other call of the run has answers as if it ran alone |
| SafeCalls.CancelIsSafe | src/booking_mcp/queries.py:252-259 | A cancellation whose appointment no other call cancels answers as if it ran alone |
| SafeCalls.MoveIsSafe | src/booking_mcp/queries.py:262-287 | A move whose appointment no other call cancels and whose new slot no other call books or moves into answers as if it ran alone |
| Linearization.Linearizable | src/booking_mcp/queries.py:163-317 | All calls that answer as if alone, committing or not, fit into one serial order, each once and at a moment while it was in progress, with the tables and all the answers of the interleaving |
| Linearization.TraceSteps | src/booking_mcp/queries.py:163-317 | Every schedule is such a run, with its states, so the two results above hold of every schedule |
| Invariant.AdvanceLocal | src/booking_mcp/queries.py:163-317 | The facts that a call relies on at each statement hold again after it |
| Invariant.AdvanceKeeps | src/booking_mcp/queries.py:163-317 | What one call commits leaves the facts of every other call standing, because the two hold no key and no row version in common |
| Invariant.AdvanceHolds | src/booking_mcp/models.py:128-134 | A statement takes exactly the key it waited for, and with a row version the slot that the row carries |
| Invariant.SlotHolderLocksRow | src/booking_mcp/models.py:128-134 | Whoever holds the slot of a committed appointment has locked that appointment |
| Invariant.AdvanceExclusive | src/booking_mcp/models.py:128-148 | No statement leads to two open transactions holding one unique key or row version |
| Invariant.AdvanceKeepsValid | src/booking_mcp/models.py:77-168 | Every commit keeps every unique key and foreign key |
| Invariant.RunInv | src/booking_mcp/queries.py:163-317 | The invariant holds in every state of every run |
| ExactlyOnce.Conservation | src/booking_mcp/queries.py:191-317 | In every reachable state each table holds the initial rows and those of the calls that answered with a new booking or a created preference, less the appointments some call reported cancelled; each new ledger row is the answer of one call; each appointment has the job and staff member it began with and the start of the last committed move |
| ExactlyOnce.RowHistory | src/booking_mcp/queries.py:210-287 | From any state on, an appointment that is still there is the row it was, or the row a booking has inserted since, but for the start of the last move of it in commit order |
| ExactlyOnce.NoDoubleBooking | src/booking_mcp/queries.py:214-282 | No reachable state has two appointments with one non-null staff member and start |
| ExactlyOnce.OneClientPerAddress | src/booking_mcp/queries.py:195-208 | In every reachable state a non-null address has at most one client |
| ExactlyOnce.NothingDangles | src/booking_mcp/queries.py:210-218 | In every reachable state every job's client and every appointment's job exists |
| ExactlyOnce.ExactlyOnceBooking | src/booking_mcp/queries.py:191-249 | All calls answered with a booking under one new key got the same booking, and exactly one of them was told `idempotent=False` |
| ExactlyOnce.BookingsAreDisjoint | src/booking_mcp/queries.py:210-236 | Different new ledger keys own different jobs and appointments |
| ExactlyOnce.BookerOwns | src/booking_mcp/queries.py:226-249 | A new booking is in the ledger under the key of its call and names the rows drawn for it, with the job's client, service and address |
| ExactlyOnce.NothingLeftBehind | src/booking_mcp/queries.py:195-249 | A call that has not answered with a new booking, running, refused, failed or answered with an older one, has left no client, job or appointment |
| ExactlyOnce.HowCallsEnd | src/booking_mcp/queries.py:203-245 | The defensive re-raises are unreachable, and an unassigned booking whose start parses ends with a booking or a database failure, never with a slot error |
| ExactlyOnce.RacesRaiseNothing | src/booking_mcp/queries.py:191-317 | A booking for a known or no staff member, a cancellation or a preference update that the schedule does not fail never ends with a database error, whatever races it |
| ExactlyOnce.RefusedForGood | src/booking_mcp/queries.py:217-223 | A booking is refused for its slot only for an appointment that no open transaction has deleted or is moving; otherwise it waits |
| ExactlyOnce.MoveFailsForGood | src/booking_mcp/queries.py:281-282 | The same for an UPDATE that runs into the slot index |
| ExactlyOnce.CreatedOnce | src/booking_mcp/queries.py:298-317 | At most one call for an address ever reports `created`, and only if the address had no preference before |
| ExactlyOnce.LastWriterWins | src/booking_mcp/queries.py:298-317 | The note stored for an address is that of the last call for it to commit |
| ExactlyOnce.LedgerStays | src/booking_mcp/queries.py:234-249 | No run ever changes or removes a ledger row |
| ExactlyOnce.ReplayStability | src/booking_mcp/queries.py:191-249 | Once a key is recorded, a call with that key never books again in any schedule, and a booking it is answered with is the recorded one, marked as a repeat |
| Liveness.WaitsGoUp | src/booking_mcp/queries.py:195-249 | Waits go up the order client email, staff slot, ledger key; only two moves can be level |
| Liveness.CyclesAreMoves | src/booking_mcp/queries.py:163-317 | Every cycle of waits consists of reschedules between locking their row and entering their new slot |
| Liveness.NoDeadlock | src/booking_mcp/queries.py:163-317 | Unless there is a cycle of waits, some call can run its next statement until all have ended |
| Liveness.FinishesUnlessCyclic | src/booking_mcp/queries.py:163-317 | All calls can be finished without failing any if and only if there is no cycle of waits |
| Liveness.FirstIsAcyclic | src/booking_mcp/queries.py:163-317 | At the start there is no cycle of waits |
| Liveness.ApartNeverDeadlock | src/booking_mcp/queries.py:262-287 | If no appointment has two moves to different starts, to one of which another appointment is moved, no reachable state has a cycle of waits, whatever other calls there are, and all calls can be finished without failing any |
| Liveness.FewMovesKeepApart | src/booking_mcp/queries.py:262-287 | Two moves in all, or any number with at most one for each appointment, are like that |
| Liveness.RunsAreShort | src/booking_mcp/queries.py:163-317 | Every schedule is bounded by the statements left to its calls |
| Liveness.CanFinish | src/booking_mcp/queries.py:163-317 | Any mix of calls can finish from every reachable state; only reschedules that are deadlocked, with no call able to run, are failed on the way, and from a state without a cycle of waits nobody is |
| Surprises.BothCancelsAnswerTrue | src/booking_mcp/queries.py:252-259 | From any tables with an appointment, two cancellations of it can both answer True; the second one answers as at no moment alone |
| Surprises.TwinIsRefused | src/booking_mcp/queries.py:217-223 | The loser of two identical staffed requests can be refused for the slot, which it would be at no moment alone: by then the booking it asks for is recorded |
| Surprises.MoveClashesLate | src/booking_mcp/queries.py:271-280 | A move can be refused for a slot that was free for as long as its appointment was there |
| Surprises.MoveLosesItsRow | src/booking_mcp/queries.py:267-286 | A move whose row is cancelled after its check ends with a database error, which no move run alone does |
| Surprises.MovesDeadlock | src/booking_mcp/queries.py:262-287 | Three moves that do not keep apart and a booking can leave two of the moves waiting for each other |
| SerialLaws.ExecKeepsValid | src/booking_mcp/queries.py:163-317 | Each write run alone keeps every constraint |
| SerialLaws.BookingAnswers | src/booking_mcp/queries.py:191-249 | A booking is a repeat exactly for a recorded key; else refused for a start that does not parse, for a slot held by another appointment of a non-null staff member, or for an unknown staff member, in that order and without a change; else new |
| SerialLaws.CancelAnswers | src/booking_mcp/queries.py:252-259 | A cancellation answers whether the appointment was there, removes it, and changes nothing else |
| SerialLaws.MoveAnswers | src/booking_mcp/queries.py:262-287 | A move finds no appointment exactly when the id is absent, is refused exactly for a start that does not parse or a slot held by another appointment of its non-null staff member, and otherwise changes the start and nothing else |
| SerialLaws.BookingChain | src/booking_mcp/queries.py:195-236 | A new booking adds exactly one ledger row, appointment and job, chained to a client with the caller's address, and a client exactly when the address is unknown; nothing else changes |
| SerialLaws.ReplayAfterAnything | src/booking_mcp/queries.py:181-193 | After any sequence of further calls the same key gives the recorded booking with `idempotent=True` and changes nothing |
| SerialLaws.CancelledOnce | src/booking_mcp/queries.py:252-259 | One call at a time, a cancelled appointment is never reported cancelled again, whatever comes between |
| SerialLaws.MoveBack | src/booking_mcp/queries.py:262-287 | Moving an appointment back succeeds and restores the tables |
| SerialLaws.BookThenCancel | src/booking_mcp/queries.py:252-259 | Cancelling a new booking restores the appointments and keeps its client, job and ledger row |
| SerialLaws.PreferenceSaved | src/booking_mcp/queries.py:298-317 | Saving writes the note, keeps the other entries of the row, all other rows and tables, reports `created` exactly when there was no row, and a new row holds the note alone |
| Store.Database.CreateBooking | src/booking_mcp/queries.py:163-249 | The statements of create_booking, with savepoint and rollback, leave the tables and the answer of the atomic booking |
| Store.Database.CancelAppointment | src/booking_mcp/queries.py:252-259 | The statements of cancel_appointment do the atomic cancellation |
| Store.Database.RescheduleAppointment | src/booking_mcp/queries.py:262-287 | The statements of reschedule_appointment do the atomic move, with its three refusals |
| Store.Database.UpsertPreference | src/booking_mcp/queries.py:298-317 | The statements of upsert_preference do the atomic save |
| Store.Database.FindClient | src/booking_mcp/queries.py:104-105 | The client with the address, if there is one |
| Store.Database.FindPreference | src/booking_mcp/queries.py:290-295 | The preference row of the address, if there is one |
| Store.Database.InsertClient | src/booking_mcp/models.py:79-82 | Accepted if and only if the address is null or new |
| Store.Database.InsertAppointment | src/booking_mcp/models.py:114-134 | Refused by the slot index if and only if a non-null staff member holds the start; refused by the foreign key if and only if otherwise the staff member is unknown |
| Availability.EligibleStaff | src/booking_mcp/queries.py:59-87 | The result is the eligible staff in name order, cut at the limit: everybody listed is active, has the skill and no appointment at the start, and with a place given is within radius/111 degrees of latitude and radius/(111 max(cosine, 0.01)) of longitude; a list below the limit lists everybody like that |
| Availability.EligibleMeans | src/booking_mcp/queries.py:72-86 | Eligible is exactly that, on the rows themselves |
| Availability.ListingMeans | src/booking_mcp/queries.py:87 | Such a result has distinct members in name order, as many as the limit allows, and skips nobody with an earlier name |
| Availability.LimitOneIsEnough | src/booking_mcp/queries.py:138-149 | No positive limit changes whether the result is empty or that its first row is a least-named person |
| Availability.FindNextAvailable | src/booking_mcp/queries.py:122-150 | The answer is a least-named active person with the skill, near enough, without an appointment at the very date and time answered; on every earlier date of the window everybody qualified has an appointment at that time; None exactly when that is so on every day; malformed slots and overflow past the last day are told apart |
| Availability.SearchFrom | src/booking_mcp/queries.py:136-150 | The loop over the offsets does that search |
| Availability.DatesAreConsecutive | src/booking_mcp/queries.py:135-137 | The dates tried are consecutive calendar dates across month, year and leap boundaries |
| Occupancy.BookingTakesSlot | src/booking_mcp/queries.py:72-80 | A new booking takes away exactly its staff member at exactly its start |
| Occupancy.CancelFreesSlot | src/booking_mcp/queries.py:252-259 | A cancellation gives back exactly the slot of the appointment |
| Occupancy.MoveShiftsSlot | src/booking_mcp/queries.py:262-287 | A move takes exactly the new slot and gives back exactly the old one |
| Occupancy.BookCancelRestores | src/booking_mcp/queries.py:252-259 | Booking and cancelling leaves everybody as free as before at every slot |
| Occupancy.AnswerCanBeBooked | src/booking_mcp/queries.py:148-149 | Booking the answer of the search succeeds unless its key is in the ledger |
| Occupancy.NobodyMeansNoPairs | src/booking_mcp/queries.py:135-150 | The search returns None if and only if no free (person, day) pair of the window is left |
| Occupancy.WindowIsBookedOut | src/booking_mcp/queries.py:122-249 | Searching and booking the answer, however often, books distinct free (person, day) pairs of the window, no more than there are, and the search returns None if and only if all of them have been booked |
| Schedule.StartInWindow | src/booking_mcp/queries.py:94-98 | A start falls in the half-open window of its own date and no other, and in none on the last representable day |
| Schedule.ListedOnce | src/booking_mcp/schemas.py:58-67 | Every appointment is on the schedule of its own date and no other, with the service of its job, unless it is on the last representable day; the first ten characters of its printed start are that date if and only if the year is printed with four digits |
| Schedule.MoveChangesDate | src/booking_mcp/queries.py:281-286 | A move takes the appointment to the schedule of its new date, if that has one, and leaves the others |
| Calendar.DatesExist | src/booking_mcp/validation.py:16-23 | Which dates exist, month by month and with the leap years spelled out |
| Calendar.MonthStarts | src/booking_mcp/queries.py:137 | The day numbers of the firsts of all months of a year, spelled out, and 1 for 0001-01-01 |
| Calendar.NextDayNumber | src/booking_mcp/queries.py:137 | The closed day number counts calendar days one by one, leap years included |
| Calendar.FromDayOfNumber | src/booking_mcp/queries.py:137 | Day numbers and dates are inverse |
| Calendar.DayNumberOrder | src/booking_mcp/queries.py:137 | Day numbers order and separate dates |
| Calendar.AddDays | src/booking_mcp/queries.py:137 | Adding days adds to the day number, and overflows exactly past 9999-12-31 |
| Calendar.ParseOfFormat | src/booking_mcp/validation.py:16-23 | A printed date reads as itself |
| Calendar.FormatOfParse | src/booking_mcp/validation.py:16-23 | A text that reads as a date is the printed form of that date |
| Calendar.DateReads | src/booking_mcp/validation.py:16-23 | A text reads as a date exactly when it is the date's year in four digits, month in two and day in two, with hyphens |
| Calendar.ValidDateMeans | src/booking_mcp/validation.py:16-23 | Exactly the texts of the dates of the years 1 to 9999 are accepted |
| Calendar.ValidTimeMeans | src/booking_mcp/validation.py:26-29 | Exactly the texts of the minutes of the day are accepted, with or without a newline behind |
| Calendar.StartIsInstant | src/booking_mcp/queries.py:214 | A slot's start is its day number's seconds plus its hours and minutes |
| Calendar.YearText | src/booking_mcp/queries.py:33 | Without padding the year is printed in decimal without leading zeros |
| Calendar.DateOrder | src/booking_mcp/validation.py:16-23 | Printed dates sort as dates, and are equal only for equal dates |
| Calendar.ValidatedStart | src/booking_mcp/validation.py:16-29 | A validated slot makes a start if and only if its time has no trailing newline, and the start prints back as the slot if and only if its year is printed with four digits |
| Calendar.NewlineTimeFails | src/booking_mcp/validation.py:13-29 | With every accepted time the same time with a newline behind it is accepted, and makes no start |
| Calendar.StartRoundTrip | src/booking_mcp/queries.py:214-232 | Reading and printing a start gives the text back if and only if its year is printed with four digits |
| Calendar.ParseOfStart | src/booking_mcp/queries.py:33 | A printed start with a four-digit year reads as itself |
| Calendar.StartsAreDistinct | src/booking_mcp/queries.py:214 | Different validated slots have different starts |
| Calendar.StartOrder | src/booking_mcp/queries.py:33 | Printed starts sort as the starts do |
| BookingKey.RawIsOrdered | src/booking_mcp/queries.py:156-160 | The hashed text does not depend on the order of the keyword arguments |
| BookingKey.KeyIsShared | src/booking_mcp/queries.py:156-192 | For a hash that does not collide with its text, some different request has the key of this one if and only if an optional value is missing or the text None, or a value contains its own separator or that of the next field |
| Fields.TextIsShared | src/booking_mcp/queries.py:159 | For any fields with plain names, another list of values has the same joined text if and only if a value contains its own separator or the next one |
| Fields.WithoutBars | src/booking_mcp/queries.py:159 | Values without bars have a text of their own |
| BookingKey.KeyIsFaithful | src/booking_mcp/queries.py:156-192 | A request no value of which can be misread shares its key exactly with the requests that print the same values, and, where None is not used as a text, with itself only |
| BookingKey.RequestKeys | src/booking_mcp/queries.py:181-190 | The requests that create_booking works on share a key exactly when all their fields agree, date, time and staff member included, the staff member's name excepted |
| BookingKey.RequestSays | src/booking_mcp/queries.py:163-215 | The request carries each of its fields, and the start of its date and time |
| BookingKey.BookTwice | src/booking_mcp/queries.py:181-249 | After a new booking the same fields give it again as a repeat and change nothing, and other fields with a free slot give a new booking with rows and a start of its own |
| BookingKey.NoneIsConfused | src/booking_mcp/queries.py:159 | No staff member and the staff member None share a key, whatever the other fields |
| BookingKey.BarsAreConfused | src/booking_mcp/queries.py:159 | A bar in a value can move a field boundary: a family of different requests with one key |
| Geo.BoxContainsDisc | src/booking_mcp/queries.py:36-40 | The box contains the disc of the radius if and only if the cosine is at least 0.01 |
| Geo.BoxIsTight | src/booking_mcp/queries.py:36-40 | No point of the box is further than the square root of two times the radius |
| Geo.BoxGrows | src/booking_mcp/queries.py:81-86 | A larger radius never drops a point |
| Seed.SeedingCompletes | src/booking_mcp/seed.py:86-163 | From any valid tables, for any sound demo lists and any order of the staff rows, seeding keeps all constraints and rows, completes the data, adds a contact with each client and a job with each appointment, and adds staff only to an empty table |
| Seed.SeededRowsSay | src/booking_mcp/seed.py:90-160 | What seeding writes: each demo staff member active with name, place and exactly the skills; each new client with name, mail, phone and address and a contact that repeats them; each new memory with its content; each new appointment for the directory's staff member at its time on 2026-06-20, with a job of its service for the first demo client at that client's address; nothing else |
| Seed.DemoIsSound | src/booking_mcp/seed.py:23-74 | The demo lists are sound: distinct staff names, a client to book for, and starts that exist |
| Seed.SeedingCompleteData | src/booking_mcp/seed.py:86-163 | Seeding changes nothing if and only if the data is complete |
| Seed.SeedingIsIdempotent | src/booking_mcp/seed.py:86-163 | A second run changes nothing, for every order of the staff rows, if and only if before the first run everybody who shares the name of a demo visit with the one in the dictionary was busy at its time |
| Seed.NamesakeIsBookedToo | src/booking_mcp/seed.py:86-163 | With two staff members of one demo name and no appointments, a second run that reads them in the other order books the visit again for the other one |
| Seed.DistinctNamesStay | src/booking_mcp/seed.py:90-107 | Seeding keeps staff names distinct, and then everybody with the name of a demo visit is busy at its time |
| SeedRun.SeedTwice | src/booking_mcp/seed.py:86-163 | With distinct staff names, a second run reports zero for all five counters and leaves the tables of the first |
| SeedRun.SeedAll | src/booking_mcp/seed.py:86-163 | The loops leave the seeded tables, and each counter is the number of rows added to its table, with one job for each appointment |
| SeedRun.StaffByName | src/booking_mcp/seed.py:90-107 | The dictionary maps each staff name to a row with that name, whether the staff were added or read |
| SeedRun.ReadStaff | src/booking_mcp/seed.py:107 | Reading the rows in any order gives such a dictionary, also when names repeat |
| SeedRun.SeedStaff | src/booking_mcp/seed.py:91-105 | The loop adds every demo staff member with their skills |
| SeedRun.SeedClients | src/booking_mcp/seed.py:109-127 | The loop adds each missing client with one contact |
| SeedRun.SeedMemories | src/booking_mcp/seed.py:129-137 | The loop adds each missing memory row |
| SeedRun.SeedVisit | src/booking_mcp/seed.py:141-160 | One pass adds a job and an appointment unless the staff member is unknown or busy |
| SeedRun.SeedVisits | src/booking_mcp/seed.py:139-160 | The loop settles every demo visit |
| Tools.ToolsRefineProtocol | src/booking_mcp/tools.py:203-426 | Every run of the tools is a run of the protocol, so its theorems hold of the tools |
| Tools.OnlyApprovedWrite | src/booking_mcp/tools.py:69-426 | A write that has begun belongs to a run whose own user accepted with True and whose named staff member is in the staff table and active; a refused run has written nothing |
| Tools.ApprovedMeans | src/booking_mcp/tools.py:69-426 | Approval in full: accepted with True; a named staff member found and active; from text, the direct path enabled and every field of the extraction valid |
| Tools.EmailShapedMeans | src/booking_mcp/validation.py:34-36 | An address is accepted exactly when it is text, an at-sign, text, a dot and text, without other at-signs or white space |
| Tools.CreateToolCalls | src/booking_mcp/tools.py:219-249 | The tool books with the fields of its request, their key and start, and the staff member's name from the staff table |
| Tools.RefusalsMean | src/booking_mcp/tools.py:69-396 | Which answer of the client, of its model or of the staff lookup stops the tool, and how |
| Tools.TablesAreApproved | src/booking_mcp/tools.py:203-426 | The tables after any tool run are those of approved writes only, run one at a time, each once |

## Left out

- Server, prompts, resources, the HTTP bridge, configuration, API keys, logging, masking and `_strip_fences`: transport wiring and presentation, outside the data layer.
- `active_staff`, `contacts_for` and `memories_for`: single filters with no interaction with the writes.
- SHA-256: the hash is a function parameter, assumed not to collide on the two texts compared.
- UUID generation and the memory sequence: identifiers are fixed when a call starts, fresh and distinct.
- Changes to staff or skills by the service that shares the database while writes run; the tool checks that a staff member is active before it asks, and nothing checks again at the write.
- A COMMIT whose outcome the client never learns: a failing call is taken to have rolled back.
- Row locks taken by foreign-key checks: the referenced clients, jobs and staff are never updated or deleted, so these locks never wait.
- Column widths, sub-second starts, the columns that no modelled operation reads (bio, embedding, status, timestamps), and JSON content other than text entries.
- Unicode digits, which the two patterns of `validation.py` also admit, and the other forms that `fromisoformat` reads when its caller has not validated the text.
- Result limits of the daily schedule and its row order, and the order of staff with equal names.
- Collations: names are ordered by character code.
- Floating-point error, spherical distance and the antimeridian in the search box: it is over the reals with the flat metric, and the cosine of the latitude is a parameter.
- Liveness.CanFinish: which of several deadlocked reschedules the database picks as its victim is left open.
- Schedule.ListedOnce: the error that the last representable day raises, which has no next midnight, is not told apart from an empty schedule.
