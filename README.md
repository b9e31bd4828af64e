# Room booking: the reservation-legality engine

This project models the core of a university room-booking backend written in PHP. The core is the
engine in the `Helper` class that decides whether a reservation is legal:

- `timeOk` validates a time window.
- `isBooked` detects a conflict with the room's reservations of the same day. It skips the
  reservation being edited.
- `getAvailableRooms` lists the rooms the caller may see that are free for a window. It builds on
  `getAllRooms`.
- `getFutureReservations` and `getFutureRoomReservations` keep the reservations that start today or later.
- `datetimeToSeperateStrings` splits a date-time string into date, hour and minute.

Two small classes are modelled beside it:

- `Group` holds a group id and five member slots, filled in order by `addUser`.
- `Reservation` has fluent setters and the `getDate` label formatter.

Layout:

- `wrappers.dfy` has `Option`, which stands for PHP's `null`.
- `php_strings.dfy` has `Split`, `Join` and `At`. These model `explode`, `preg_split` and reading
  an array index that may be missing. They come with round-trip lemmas.
- `helper.dfy` is the engine, in module `Helper`.
- `group.dfy` is the `Group` class, in module `Groups`.
- `reservation.dfy` is the `Reservation` class, in module `Reservations`.

Modelling choices:

- Times are Unix timestamps in seconds (`Stamp = int`). A string that parses is `Some(timestamp)`;
  one that does not is `None`.
- The calendar day of a timestamp is `Day(t) = (t + ZoneOffset) / 86400`, for one fixed time zone.
- The clock `time()` is the parameter `now`.
- Each database query is replaced by the rows it returns, handed in as a sequence in query order.
  Where a lemma needs to know what the query selects, it says so with `RoomDayRows`.
- `timeOk` tests `x % 300 != 0`. PHP's `%` truncates and Dafny's is Euclidean, but the two agree on
  whether the remainder is zero, so this test is the same in both.
- `Group::addUser` tests a slot with `== null`. PHP's loose comparison makes this true for an unset
  slot and also for the empty string, and `Vacant` models both cases. So a slot given the user code
  "" stays vacant, and the next call overwrites it. The fill-in-order lemmas assume non-empty user codes for this reason.
- Where the PHP reads an array index that does not exist, it gets `null`. `getDate` concatenates
  that `null` as "", and `At` gives "" in that case. `datetimeToSeperateStrings` stores the
  missing minute as `null` in its result, and `Index` gives `None` there. When the input has no
  space or 'T', the time piece is `null`, which `explode` reads as "", so the hour is "".
- `getAllRooms` and `getAvailableRooms` return arrays keyed by room code. They are modelled as
  Dafny maps, which have no order. The queries have no ORDER BY, so the source promises no order
  either.

Facts about the code that the model states:

- `isBooked` returns `true` (booked) for a window that fails `timeOk`, before reading any
  reservation (classes/Helper.class.php:237-238). `IsBooked` does the same.
- `timeOk` has no upper bound on a window's length (classes/Helper.class.php:87-89). Only the
  same-day rule limits it.
- A stored reservation checked against its own room, day and id is not booked when the table has
  no double booking, the ids are unique and its window still passes `timeOk`. `SelfExclusion`
  states this. A window that is now in the past fails `timeOk`, so `isBooked` reports it booked.
- The window 10:05-10:35 is on the 5-minute grid, since 10:05 is a multiple of 300 seconds after
  midnight (classes/Helper.class.php:88-89). `GridExample` proves it accepted and a window
  starting at 10:01 rejected.

## Model

| member | source | states |
|---|---|---|
| `Helper.TimeOk` | classes/Helper.class.php:72-90 | The window is accepted exactly when both ends parse and five rules hold: neither end is more than 5 s before now, it lasts at least 1800 s, both ends are multiples of 300, and both ends are on the same calendar day. So an unparsable end, which becomes the window {0, 0}, is never accepted. |
| `Helper.AcceptedWindowShape` | classes/Helper.class.php:87-89 | An accepted window has start before end, lies within one calendar day and starts at most 5 s before now. |
| `Helper.Collides` | classes/Helper.class.php:250-253 | The four-clause test of `isBooked`, shared with `getAvailableRooms` (lines 296-298). A window always collides with an identical one. For non-empty windows it holds exactly when the half-open intervals overlap (`from < R.to && R.from < to`). |
| `Helper.TouchingNeverCollides` | classes/Helper.class.php:296-298 | Windows that only share an endpoint never collide, in either order, so back-to-back bookings are legal. |
| `Helper.GridExample` | classes/Helper.class.php:87-89 | A 30-minute window from 10:05 is accepted; the same window from 10:01 is rejected because it is off the 300-second grid. |
| `Helper.BackToBackExample` | classes/Helper.class.php:245-256 | With room 101 booked 09:00-09:30, a request for 09:15-09:45 is booked and a back-to-back request for 09:30-10:00 is free. |
| `Helper.IsBooked` | classes/Helper.class.php:235-260 | Returns true exactly when the window fails `timeOk`, or when some fetched row whose id differs from the given id collides with the window. With no rows, the answer is true exactly for an invalid window. |
| `Helper.CollisionIsSameDay` | classes/Helper.class.php:240 | A one-day stored reservation that collides with a valid window starts on the window's day. |
| `Helper.SameDayQueryIsSound` | classes/Helper.class.php:240-256 | If every stored window is non-empty and lies within one day, then for a valid window the answer over the room's rows of the window's day equals the answer over all the room's rows. So a query that selects the rows of the day the window's start falls on loses no conflict. |
| `Helper.SelfExclusion` | classes/Helper.class.php:245-256 | Given a table with no double booking and unique ids, a stored reservation checked against its own room and day, with its own id excluded, is not booked if its window still passes `timeOk`. |
| `Helper.CheckThenInsert` | classes/Helper.class.php:422-436 | Suppose `isBooked` reports a window free for a room's rows of its day, under an id that matches no stored row. Then appending that reservation keeps every window well-formed and the table free of double bookings. |
| `Helper.CheckThenEdit` | classes/Helper.class.php:438-447 | Suppose `isBooked` reports a new window and room free for reservation k, with k's own id excluded. Then moving k there keeps the table free of double bookings. |
| `Helper.RoomIndex` | classes/Helper.class.php:321-335 | The keys of the room map are the codes of exactly the visible rooms. Each entry is keyed by its own code and is a visible room from the table. |
| `Helper.GetAllRooms` | classes/Helper.class.php:321-335 | Builds the map of visible rooms keyed by code. A user with type below 4 gets only rooms of type "KOL". A missing user, or one of type 4 or above, gets every room code in the table. |
| `Helper.Unbooked` | classes/Helper.class.php:291-301 | A code stays in the map exactly when it was there before and no row books that room in a window colliding with the requested one. Surviving entries are unchanged. |
| `Helper.GetAvailableRooms` | classes/Helper.class.php:280-304 | An invalid window gives the empty map. A valid one gives the map of `getAllRooms` with every room removed that some fetched row books in a colliding window. Keys and values of the surviving rooms are unchanged. |
| `Helper.AvailabilityExample` | classes/Helper.class.php:291-301 | With rooms 101 and 102 and room 102 booked 10:00-10:30, the same window is valid and only room 101 survives the filter. |
| `Helper.FutureIndex` | classes/Helper.class.php:818-832 | The keys are exactly the ids of rows that start today or later. Each entry is such a row and is keyed by its own id. |
| `Helper.FutureReservations` | classes/Helper.class.php:834-848 | Returns the rows starting today or later, keyed by reservation id, with a later row winning. This is the loop shared by `getFutureReservations` and `getFutureRoomReservations`. |
| `Helper.DatetimeToSeparateStrings` | classes/Helper.class.php:449-459 | Always returns three entries. The date and the hour are always strings; the minute may be `null`. |
| `Helper.DatetimeParts` | classes/Helper.class.php:452-456 | For "D h:m[:s...]" or "DTh:m[:s...]", the parts are exactly D, h and m. |
| `Helper.MinuteMissing` | classes/Helper.class.php:452-456 | For "D h" or "DTh" with no ':', the parts are D, h and a `null` minute. |
| `Helper.DateOnly` | classes/Helper.class.php:452-456 | For a bare date D, the parts are D, "" and a `null` minute. |
| `Helper.DateAndTime` | classes/Helper.class.php:452 | Splitting "D h:m..." at a space or 'T' gives exactly the date and the time. |
| `Helper.ClockParts` | classes/Helper.class.php:453 | Splitting the time at ':' gives back its fields. |
| `Groups.FirstVacant` | classes/Group.class.php:82-91 | Gives the lowest-numbered vacant slot. Every slot before it is occupied. It equals the slot count when no slot is vacant. |
| `Groups.Add` | classes/Group.class.php:80-97 | Returns true exactly when some slot was vacant. On success the user is stored in the lowest vacant slot and every other slot is unchanged. When all slots are taken, nothing changes. |
| `Groups.AddAllFillsInOrder` | classes/Group.class.php:82-96 | Start from occupied slots followed by `free` unset ones, and call `addUser` with non-empty codes. The next min(calls, free) slots then hold the new users in call order, the rest stay unset, and that many calls return true. |
| `Groups.FillsFromEmpty` | classes/Group.class.php:82-96 | From `n` unset slots, k calls of `addUser` fill the first min(k, n) slots in call order, leave the rest unset, and return true min(k, n) times. |
| `Groups.FreshGroupFillsInOrder` | classes/Group.class.php:19-22 | After k calls on a fresh group, slots 1..min(k, 5) hold the first users in order, the rest are unset, and min(k, 5) calls returned true. |
| `Groups.Group.constructor` | classes/Group.class.php:19-22 | A new group has the given id and five unset member slots. |
| `Groups.Group.SetId` | classes/Group.class.php:35-38 | Changes only the group id. |
| `Groups.Group.AddUser` | classes/Group.class.php:80-97 | The new slots and the result are those of `Add` on the old slots. The group id is unchanged. |
| `Reservations.Reservation.constructor` | classes/Reservation.class.php:84-86 | A new reservation has every field unset. |
| `Reservations.Reservation.Create` | classes/Reservation.class.php:99-102 | Returns a fresh reservation with every field unset. |
| `Reservations.Reservation.SetFrom` | classes/Reservation.class.php:149-153 | Returns the same object. `getFrom` now gives the value, and every other field is unchanged. |
| `Reservations.Reservation.SetTo` | classes/Reservation.class.php:183-187 | Returns the same object. `getTo` now gives the value, and every other field is unchanged. |
| `Reservations.Reservation.SetRoom` | classes/Reservation.class.php:217-221 | Returns the same object. `getRoom` now gives the value, and every other field is unchanged. |
| `Reservations.Reservation.SetGroup` | classes/Reservation.class.php:251-255 | Returns the same object. `getGroup` now gives the value, and every other field is unchanged. |
| `Reservations.Reservation.SetLeader` | classes/Reservation.class.php:285-289 | Returns the same object. `getLeader` now gives the value, and every other field is unchanged. |
| `Reservations.Reservation.SetPurpose` | classes/Reservation.class.php:319-323 | Returns the same object. `getPurpose` now gives the value, and every other field is unchanged. |
| `Reservations.SlotLabel` | classes/Reservation.class.php:325-339 | The label `getDate` builds from the start and end strings. Splitting the label at its first space gives back the date part of the start. |
| `Reservations.Reservation.GetDate` | classes/Reservation.class.php:325-339 | The label is `SlotLabel` over `fra` and `til` when both are set. With both unset, `null` reads as "" and the label is " :-:". |
| `Reservations.StampParts` | classes/Reservation.class.php:328-330 | Splitting "d h:m:s" at a space gives d and the time. Splitting the time at ':' gives back its parts. |
| `Reservations.SlotLabelFormat` | classes/Reservation.class.php:325-339 | For `fra` = "D1 h1:m1:s1" and `til` = "D2 h2:m2:s2", `getDate` gives "D1 h1:m1-h2:m2". The date of `til` and both seconds are dropped. |

## Left out

- Every PDO/SQL interaction: prepare, bind and execute, and the WHERE clauses of the queries. Each
  query is replaced by its result rows. Where a lemma needs to know which rows the `isBooked` query
  selects, `RoomDayRows` states it for canonical date strings.
- `SameDayQueryIsSound`, `CheckThenInsert` and `CheckThenEdit` assume `$from` is canonical: its
  date part is the day it parses to. The SQL applies `DATE()` to the raw string
  (classes/Helper.class.php:240,242), while `DateTime::createFromFormat` rolls out-of-range fields
  over. So "2024-01-01 23:60:00" parses to 2024-01-02 00:00, the query selects 2024-01-01, and a
  booking of that room on 2024-01-02 is not seen. `RoomDayRows` selects by the parsed day.
- `IsBooked` has no `$room` parameter, because the source uses it only in its SQL query.
- Parsing "Y-m-d H:i:s" with `DateTime::createFromFormat`, time zones and daylight saving. `Day`
  uses one fixed offset. Stored rows are taken as already parsed.
- `getTimeDiff`: it uses `DateInterval` over parsed dates.
- `FutureReservations`: the source compares the date part of `fra` with `date('Y-m-d')` as strings.
  The model compares day numbers instead. The two agree for dates with four-digit years.
- `IsBooked`: the source tests `$id != $reservation->getId()` with PHP's loose comparison. The model
  compares integers, so a `null` id that PHP would equate with a stored id of 0 is not modelled.
- Room and user records keep only the fields the resolver reads: room code and room type, and user
  type. The rest of `Room`, `User` and `Equipment` is plain data and `toArray` key renaming.
- The getters of `Group` and `Reservation` are plain field reads, modelled as functions without contracts.
- E-mail through PHPMailer (`sendEmailConfirmation`, `sendConfirmation`, `sendPassword` and their
  message builders): foreign I/O and HTML templating.
- `validateCredentials`, `confirmEmail`, `usernameTaken`, `emailTaken`, `roomOk`, `groupOk`,
  `leaderOk`, `getGroupName`, `getLeaderName`, `reservationIdOk`, and the create, edit, delete
  and fetch helpers for rooms, users, groups, equipment and reservations. These are results driven
  by the database or by cryptography. `makeReservation` and `editReservation` appear only as the
  table updates in `CheckThenInsert` and `CheckThenEdit`.
- The check-then-insert race: `isBooked` and `makeReservation` run without locking, so two
  concurrent requests can both see a slot free. The model is sequential. `CheckThenInsert` states
  what holds when nothing runs between the two steps.
- The HTTP and session scripts `login.php`, `logout.php`, `index.php`, `getUser.php`, `getRooms.php`
  and `base.php`.
