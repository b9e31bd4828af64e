/**
 * The reservation-legality engine of the `Helper` class: the time-window validator
 * (`timeOk`), the conflict detector (`isBooked`), the availability resolver
 * (`getAvailableRooms` over `getAllRooms`), the upcoming-reservation filter and the
 * date/time splitter.
 *
 * Times are Unix timestamps in seconds. Parsing "Y-m-d H:i:s" strings is not modelled: a
 * parsed input is `Some(timestamp)` and an unparsable one is `None`. The clock is the
 * parameter `now`. Every database query is replaced by the rows it returns, handed in as
 * a sequence.
 */
module Helper {
  import opened Wrappers
  import opened PhpStrings

  /** A point in time: seconds since the Unix epoch, as `DateTime::getTimestamp` gives it. */
  type Stamp = int
  type RoomCode = string
  type ReservationId = int

  const SecondsPerDay: int := 86400
  /** Offset of the server's time zone from UTC in seconds; one fixed zone. */
  const ZoneOffset: int := 0
  /** Tolerance, in seconds, for a window that starts or ends slightly in the past. */
  const Skew: int := 5
  /** Shortest bookable window: 30 minutes. */
  const MinDuration: int := 1800
  /** Every window edge lies on a 5-minute grid. */
  const Grid: int := 300
  /** Room type that non-privileged users may see and book. */
  const GroupRoomType: string := "KOL"
  /** Lowest user type that sees every room. */
  const PrivilegedUserType: int := 4

  /** Calendar day number of `t`: what `format('Y-m-d')` tells apart. */
  function Day(t: Stamp): int
  {
    (t + ZoneOffset) / SecondsPerDay
  }

  lemma DayMonotone(a: Stamp, b: Stamp)
    requires a <= b
    ensures Day(a) <= Day(b)
  {
  }

  datatype Window = Window(from: Stamp, to: Stamp)

  /** A stored reservation row, with its `fra`/`til` columns already parsed. */
  datatype Booking = Booking(id: ReservationId, room: RoomCode, window: Window)

  // ---------------------------------------------------------------------------------
  // timeOk

  /** Neither end lies more than `Skew` seconds before `now`. */
  predicate NotPast(w: Window, now: Stamp)
  {
    now <= w.from + Skew && now <= w.to + Skew
  }

  predicate LongEnough(w: Window)
  {
    w.to - w.from >= MinDuration
  }

  predicate OnGrid(t: Stamp)
  {
    t % Grid == 0
  }

  predicate SameDay(w: Window)
  {
    Day(w.from) == Day(w.to)
  }

  /** The five rules of a bookable window, stated one by one. */
  predicate Legal(w: Window, now: Stamp)
  {
    NotPast(w, now) && LongEnough(w) && OnGrid(w.from) && OnGrid(w.to) && SameDay(w)
  }

  /**
   * `timeOk`: an unparsable end turns the window into {0, 0}, and the negated
   * disjunction of rule violations is returned. The window is accepted exactly when both
   * ends parse and all five rules hold; in particular {0, 0} is never accepted.
   */
  function TimeOk(from: Option<Stamp>, to: Option<Stamp>, now: Stamp): (ok: bool)
    ensures ok <==> from.Some? && to.Some? && Legal(Window(from.value, to.value), now)
  {
    var (stampFrom, stampTo, diff) :=
      if from.Some? && to.Some? then (from.value, to.value, Day(from.value) != Day(to.value))
      else (0, 0, false);
    !(now > stampFrom + Skew || now > stampTo + Skew || stampFrom + MinDuration > stampTo
      || stampFrom % Grid != 0 || stampTo % Grid != 0 || diff)
  }

  /** An accepted window is non-empty and lies within one calendar day. */
  lemma AcceptedWindowShape(from: Option<Stamp>, to: Option<Stamp>, now: Stamp)
    requires TimeOk(from, to, now)
    ensures from.value < to.value && SameDay(Window(from.value, to.value))
    ensures now <= from.value + Skew
  {
  }

  // ---------------------------------------------------------------------------------
  // The overlap test

  /**
   * The four-clause test shared by `isBooked` and `getAvailableRooms`: `w` collides with
   * the booked window `r` when its start or its end lies strictly inside `r`, when it
   * equals `r`, or when it contains `r`.
   */
  function Collides(w: Window, r: Window): (c: bool)
    ensures w == r ==> c
    ensures NonEmpty(w) && NonEmpty(r) ==> (c <==> Overlap(w, r))
  {
    || (w.from > r.from && w.from < r.to)
    || (w.to > r.from && w.to < r.to)
    || (w.from == r.from && w.to == r.to)
    || (w.from <= r.from && w.to >= r.to)
  }

  predicate NonEmpty(w: Window)
  {
    w.from < w.to
  }

  /** The half-open windows [from, to) share an instant. */
  predicate Overlap(a: Window, b: Window)
  {
    a.from < b.to && b.from < a.to
  }

  /** Back-to-back windows never collide, in either order. */
  lemma TouchingNeverCollides(w: Window, r: Window)
    requires NonEmpty(w) && NonEmpty(r)
    requires w.to == r.from || w.from == r.to
    ensures !Collides(w, r) && !Collides(r, w)
  {
  }

  // ---------------------------------------------------------------------------------
  // isBooked

  /** Row `b` blocks window `w` unless it is the reservation `id` being edited. */
  predicate Clash(w: Window, b: Booking, id: ReservationId)
  {
    Collides(w, b.window) && id != b.id
  }

  /** What `isBooked` answers for the rows its query returned. */
  predicate Booked(from: Option<Stamp>, to: Option<Stamp>, id: ReservationId, now: Stamp, rows: seq<Booking>)
  {
    !TimeOk(from, to, now) || exists b :: b in rows && Clash(Window(from.value, to.value), b, id)
  }

  /**
   * `isBooked`: an invalid window is reported as booked before any row is read; otherwise
   * the rows are scanned in order and the first clashing one answers true.
   */
  method IsBooked(from: Option<Stamp>, to: Option<Stamp>, id: ReservationId, now: Stamp, rows: seq<Booking>)
    returns (booked: bool)
    ensures booked == Booked(from, to, id, now, rows)
    ensures rows == [] ==> (booked <==> !TimeOk(from, to, now))
  {
    if !TimeOk(from, to, now) {
      return true;
    }
    var w := Window(from.value, to.value);
    var i := 0;
    while i < |rows|
      invariant 0 <= i <= |rows|
      invariant forall j :: 0 <= j < i ==> !Clash(w, rows[j], id)
    {
      if Clash(w, rows[i], id) {
        return true;
      }
      i := i + 1;
    }
    return false;
  }

  /** Every stored window is non-empty and lies within one calendar day. */
  ghost predicate WellFormed(table: seq<Booking>)
  {
    forall i :: 0 <= i < |table| ==> NonEmpty(table[i].window) && SameDay(table[i].window)
  }

  /** No two distinct rows book the same room for overlapping windows. */
  ghost predicate NoDoubleBooking(table: seq<Booking>)
  {
    forall i, j :: 0 <= i < |table| && 0 <= j < |table| && i != j && table[i].room == table[j].room
      ==> !Overlap(table[i].window, table[j].window)
  }

  ghost predicate UniqueIds(table: seq<Booking>)
  {
    forall i, j :: 0 <= i < |table| && 0 <= j < |table| && i != j ==> table[i].id != table[j].id
  }

  /** `rows` are the rows of `table` for `room` whose start falls on `day`. */
  ghost predicate RoomDayRows(rows: seq<Booking>, table: seq<Booking>, room: RoomCode, day: int)
  {
    forall b :: b in rows <==> b in table && b.room == room && Day(b.window.from) == day
  }

  /** A well-formed row that collides with a non-empty one-day window starts on its day. */
  lemma CollisionIsSameDay(w: Window, b: Booking)
    requires NonEmpty(w) && SameDay(w) && NonEmpty(b.window) && SameDay(b.window)
    requires Collides(w, b.window)
    ensures Day(b.window.from) == Day(w.from)
  {
    if Day(b.window.from) < Day(w.from) {
      if w.from <= b.window.to {
        DayMonotone(w.from, b.window.to);
      }
      assert false;
    } else if Day(b.window.from) > Day(w.from) {
      if b.window.from <= w.to {
        DayMonotone(b.window.from, w.to);
      }
      assert false;
    }
  }

  /**
   * The same-day pre-filter of `isBooked`'s query loses no conflict: on a well-formed table
   * the answer over the room's rows of the window's day is the answer over all its rows.
   */
  lemma SameDayQueryIsSound(from: Option<Stamp>, to: Option<Stamp>, id: ReservationId, now: Stamp,
                            rows: seq<Booking>, table: seq<Booking>, room: RoomCode)
    requires WellFormed(table) && TimeOk(from, to, now)
    requires RoomDayRows(rows, table, room, Day(from.value))
    ensures Booked(from, to, id, now, rows)
        <==> exists b :: b in table && b.room == room && Clash(Window(from.value, to.value), b, id)
  {
    var w := Window(from.value, to.value);
    forall b | b in table && b.room == room && Clash(w, b, id)
      ensures b in rows
    {
      var i :| 0 <= i < |table| && table[i] == b;
      CollisionIsSameDay(w, b);
    }
  }

  /**
   * Editing in place: with no double booking and unique ids, a stored reservation checked
   * against its own room's rows of its day, excluding its own id, is not booked.
   */
  lemma SelfExclusion(k: nat, now: Stamp, rows: seq<Booking>, table: seq<Booking>)
    requires k < |table| && WellFormed(table) && NoDoubleBooking(table) && UniqueIds(table)
    requires TimeOk(Some(table[k].window.from), Some(table[k].window.to), now)
    requires RoomDayRows(rows, table, table[k].room, Day(table[k].window.from))
    ensures !Booked(Some(table[k].window.from), Some(table[k].window.to), table[k].id, now, rows)
  {
    var r := table[k];
    forall b | b in rows
      ensures !Clash(r.window, b, r.id)
    {
      var j :| 0 <= j < |table| && table[j] == b;
      if j != k {
      }
    }
  }

  /**
   * Check, then insert: a window that `isBooked` reports free on the room's rows of its day,
   * with an id that names no stored row, can be appended without double booking.
   */
  lemma CheckThenInsert(from: Stamp, to: Stamp, id: ReservationId, now: Stamp, room: RoomCode,
                        newId: ReservationId, rows: seq<Booking>, table: seq<Booking>)
    requires WellFormed(table) && NoDoubleBooking(table)
    requires forall b :: b in table ==> b.id != id
    requires RoomDayRows(rows, table, room, Day(from))
    requires !Booked(Some(from), Some(to), id, now, rows)
    ensures WellFormed(table + [Booking(newId, room, Window(from, to))])
    ensures NoDoubleBooking(table + [Booking(newId, room, Window(from, to))])
  {
    var w := Window(from, to);
    var t' := table + [Booking(newId, room, w)];
    SameDayQueryIsSound(Some(from), Some(to), id, now, rows, table, room);
    forall i, j | 0 <= i < |t'| && 0 <= j < |t'| && i != j && t'[i].room == t'[j].room
      ensures !Overlap(t'[i].window, t'[j].window)
    {
      if i == |table| || j == |table| {
        var o := if i == |table| then j else i;
        assert t'[o] in table;
      }
    }
  }

  /**
   * Check, then edit: moving reservation `k` to a window and room that `isBooked` reports
   * free when told to skip `k`'s own id keeps the table free of double bookings.
   */
  lemma CheckThenEdit(k: nat, from: Stamp, to: Stamp, now: Stamp, room: RoomCode,
                      rows: seq<Booking>, table: seq<Booking>)
    requires k < |table| && WellFormed(table) && NoDoubleBooking(table) && UniqueIds(table)
    requires RoomDayRows(rows, table, room, Day(from))
    requires !Booked(Some(from), Some(to), table[k].id, now, rows)
    ensures WellFormed(table[k := Booking(table[k].id, room, Window(from, to))])
    ensures NoDoubleBooking(table[k := Booking(table[k].id, room, Window(from, to))])
  {
    var w := Window(from, to);
    var t' := table[k := Booking(table[k].id, room, w)];
    SameDayQueryIsSound(Some(from), Some(to), table[k].id, now, rows, table, room);
    forall i, j | 0 <= i < |t'| && 0 <= j < |t'| && i != j && t'[i].room == t'[j].room
      ensures !Overlap(t'[i].window, t'[j].window)
    {
      if i == k || j == k {
        var o := if i == k then j else i;
        assert t'[o] == table[o] && table[o] in table;
      }
    }
  }

  // ---------------------------------------------------------------------------------
  // getAllRooms and getAvailableRooms

  /** The fields of a `rom` row that the resolver reads. */
  datatype Room = Room(code: RoomCode, typeCode: string)

  /** The one field of a user that the resolver reads. */
  datatype User = User(userType: int)

  /** The `rom` query that `getAllRooms` issues for `user` returns `room`. */
  predicate Visible(user: Option<User>, room: Room)
  {
    user.Some? && user.value.userType < PrivilegedUserType ==> room.typeCode == GroupRoomType
  }

  /** The map `getAllRooms` builds: visible rooms keyed by code, a later row winning. */
  function RoomIndex(user: Option<User>, table: seq<Room>): (rooms: map<RoomCode, Room>)
    ensures rooms.Keys == set r | r in table && Visible(user, r) :: r.code
    ensures forall c :: c in rooms ==> rooms[c].code == c && rooms[c] in table && Visible(user, rooms[c])
  {
    if table == [] then map[]
    else
      var prev := RoomIndex(user, table[..|table| - 1]);
      var r := table[|table| - 1];
      assert table == table[..|table| - 1] + [r];
      if Visible(user, r) then prev[r.code := r] else prev
  }

  /**
   * `getAllRooms`: users below type 4 get only rooms of type "KOL"; everyone else, and a
   * missing user, gets every room. `table` is the whole `rom` table in query order.
   */
  method GetAllRooms(user: Option<User>, table: seq<Room>) returns (rooms: map<RoomCode, Room>)
    ensures rooms == RoomIndex(user, table)
    ensures user.Some? && user.value.userType < PrivilegedUserType ==>
              forall c :: c in rooms ==> rooms[c].typeCode == GroupRoomType
    ensures user.None? || user.value.userType >= PrivilegedUserType ==>
              rooms.Keys == set r | r in table :: r.code
  {
    rooms := map[];
    var i := 0;
    while i < |table|
      invariant 0 <= i <= |table|
      invariant rooms == RoomIndex(user, table[..i])
    {
      assert table[..i + 1][..i] == table[..i];
      if Visible(user, table[i]) {
        rooms := rooms[table[i].code := table[i]];
      }
      i := i + 1;
    }
    assert table[..i] == table;
  }

  /** `rooms` minus every room that one of `rows` books in a window colliding with `w`. */
  function Unbooked(rooms: map<RoomCode, Room>, w: Window, rows: seq<Booking>): (free: map<RoomCode, Room>)
    ensures forall c :: c in free <==> c in rooms && !exists b :: b in rows && b.room == c && Collides(w, b.window)
    ensures forall c :: c in free ==> free[c] == rooms[c]
  {
    if rows == [] then rooms
    else
      var prev := Unbooked(rooms, w, rows[..|rows| - 1]);
      var b := rows[|rows| - 1];
      assert rows == rows[..|rows| - 1] + [b];
      if Collides(w, b.window) then prev - {b.room} else prev
  }

  /**
   * `getAvailableRooms`: an invalid window yields the empty map; otherwise the rooms of
   * `getAllRooms(user)` with every room booked in a colliding window of that day removed,
   * keys unchanged. `rows` are the reservations whose start falls on the window's day.
   */
  method GetAvailableRooms(from: Option<Stamp>, to: Option<Stamp>, now: Stamp, user: Option<User>,
                           roomTable: seq<Room>, rows: seq<Booking>)
    returns (rooms: map<RoomCode, Room>)
    ensures !TimeOk(from, to, now) ==> rooms == map[]
    ensures TimeOk(from, to, now) ==>
              rooms == Unbooked(RoomIndex(user, roomTable), Window(from.value, to.value), rows)
  {
    if !TimeOk(from, to, now) {
      return map[];
    }
    rooms := GetAllRooms(user, roomTable);
    ghost var all := rooms;
    var w := Window(from.value, to.value);
    var i := 0;
    while i < |rows|
      invariant 0 <= i <= |rows|
      invariant rooms == Unbooked(all, w, rows[..i])
    {
      assert rows[..i + 1][..i] == rows[..i];
      assert rows[..i + 1][i] == rows[i];
      if Collides(w, rows[i].window) {
        rooms := rooms - {rows[i].room};
      }
      i := i + 1;
    }
    assert rows[..i] == rows;
  }

  // ---------------------------------------------------------------------------------
  // Worked examples on 2024-01-01 (timestamp 1704067200 is 00:00 UTC that day)

  const Jan1: Stamp := 1704067200
  const Hour: int := 3600

  /**
   * Room 101 is booked 09:00-09:30. A request for 09:15-09:45 is booked; one for
   * 09:30-10:00, back to back, is free.
   */
  lemma BackToBackExample()
    ensures var held := Booking(1, "101", Window(Jan1 + 9 * Hour, Jan1 + 9 * Hour + 1800));
            && Booked(Some(Jan1 + 9 * Hour + 900), Some(Jan1 + 9 * Hour + 2700), 0, Jan1, [held])
            && !Booked(Some(Jan1 + 9 * Hour + 1800), Some(Jan1 + 10 * Hour), 0, Jan1, [held])
  {
    var held := Booking(1, "101", Window(Jan1 + 9 * Hour, Jan1 + 9 * Hour + 1800));
    assert Day(Jan1 + 9 * Hour + 900) == Day(Jan1 + 9 * Hour + 2700) == 19723;
    assert Day(Jan1 + 9 * Hour + 1800) == Day(Jan1 + 10 * Hour) == 19723;
    assert Clash(Window(Jan1 + 9 * Hour + 900, Jan1 + 9 * Hour + 2700), held, 0);
    assert held in [held];
  }

  /** Rooms 101 and 102, with 102 booked 10:00-10:30: a request for 10:00-10:30 leaves only 101. */
  lemma AvailabilityExample()
    ensures var w := Window(Jan1 + 10 * Hour, Jan1 + 10 * Hour + 1800);
            var all := map["101" := Room("101", "KOL"), "102" := Room("102", "KOL")];
            && TimeOk(Some(w.from), Some(w.to), Jan1)
            && Unbooked(all, w, [Booking(1, "102", w)]) == map["101" := Room("101", "KOL")]
  {
    var w := Window(Jan1 + 10 * Hour, Jan1 + 10 * Hour + 1800);
    assert Day(w.from) == Day(w.to) == 19723;
    assert "101" != "102" by { assert "101"[2] != "102"[2]; }
    var all := map["101" := Room("101", "KOL"), "102" := Room("102", "KOL")];
    var b := Booking(1, "102", w);
    assert [b][..0] == [];
    assert Unbooked(all, w, [b]) == all - {"102"};
  }

  /** 10:05-10:35 is a valid window: 10:05 lies on the 5-minute grid and it lasts 30 minutes. */
  lemma GridExample()
    ensures TimeOk(Some(Jan1 + 10 * Hour + 300), Some(Jan1 + 10 * Hour + 2100), Jan1)
    ensures !TimeOk(Some(Jan1 + 10 * Hour + 60), Some(Jan1 + 10 * Hour + 1860), Jan1)
  {
    assert Day(Jan1 + 10 * Hour + 300) == Day(Jan1 + 10 * Hour + 2100) == 19723;
  }

  // ---------------------------------------------------------------------------------
  // getFutureReservations / getFutureRoomReservations

  /** The date part of the row's start is today or later. */
  predicate Upcoming(b: Booking, now: Stamp)
  {
    Day(b.window.from) >= Day(now)
  }

  /** Upcoming rows keyed by reservation id, a later row winning. */
  function FutureIndex(rows: seq<Booking>, now: Stamp): (m: map<ReservationId, Booking>)
    ensures m.Keys == set b | b in rows && Upcoming(b, now) :: b.id
    ensures forall id :: id in m ==> m[id].id == id && m[id] in rows && Upcoming(m[id], now)
  {
    if rows == [] then map[]
    else
      var prev := FutureIndex(rows[..|rows| - 1], now);
      var b := rows[|rows| - 1];
      assert rows == rows[..|rows| - 1] + [b];
      if Upcoming(b, now) then prev[b.id := b] else prev
  }

  /**
   * The loop shared by `getFutureReservations` and `getFutureRoomReservations`: keep the
   * rows whose start date is today or later, keyed by id. `rows` are the group's or the
   * room's reservations.
   */
  method FutureReservations(rows: seq<Booking>, now: Stamp) returns (m: map<ReservationId, Booking>)
    ensures m == FutureIndex(rows, now)
  {
    m := map[];
    var i := 0;
    while i < |rows|
      invariant 0 <= i <= |rows|
      invariant m == FutureIndex(rows[..i], now)
    {
      assert rows[..i + 1][..i] == rows[..i];
      if Day(rows[i].window.from) >= Day(now) {
        m := m[rows[i].id := rows[i]];
      }
      i := i + 1;
    }
    assert rows[..i] == rows;
  }

  // ---------------------------------------------------------------------------------
  // datetimeToSeperateStrings

  /**
   * `datetimeToSeperateStrings`: split at a space or a 'T', then split the second piece at
   * ':' and return the date, the hour and the minute. A missing second piece is `null`,
   * which `explode` reads as "", so the hour is always a string; a missing minute is stored
   * as `null`.
   */
  function DatetimeToSeparateStrings(date: string): (parts: seq<Option<string>>)
    ensures |parts| == 3 && parts[0].Some? && parts[1].Some?
  {
    var halves := Split(date, {' ', 'T'});
    var clock := Split(At(halves, 1), {':'});
    [Some(halves[0]), Some(clock[0]), Index(clock, 1)]
  }

  /**
   * For "D<sep>h:m[:...]" with `sep` a space or 'T', the parts are D, h and m; any seconds
   * are dropped.
   */
  lemma DatetimeParts(d: string, sep: char, clock: seq<string>)
    requires sep == ' ' || sep == 'T'
    requires Free(d, {' ', 'T'}) && |clock| >= 2
    requires forall i :: 0 <= i < |clock| ==> Free(clock[i], {':', ' ', 'T'})
    ensures DatetimeToSeparateStrings(d + [sep] + Join(clock, ':')) == [Some(d), Some(clock[0]), Some(clock[1])]
  {
    DateAndTime(d, sep, clock);
    ClockParts(clock);
    PartsOf(d + [sep] + Join(clock, ':'), d, Join(clock, ':'), clock);
  }

  /** "D<sep>h" without a ':' gives the date and the hour, and a `null` minute. */
  lemma MinuteMissing(d: string, sep: char, hour: string)
    requires sep == ' ' || sep == 'T'
    requires Free(d, {' ', 'T'}) && Free(hour, {':', ' ', 'T'})
    ensures DatetimeToSeparateStrings(d + [sep] + hour) == [Some(d), Some(hour), None]
  {
    DateAndTime(d, sep, [hour]);
    ClockParts([hour]);
    PartsOf(d + [sep] + hour, d, hour, [hour]);
  }

  /** A bare date "D" gives the date, an empty hour and a `null` minute. */
  lemma DateOnly(d: string)
    requires Free(d, {' ', 'T'})
    ensures DatetimeToSeparateStrings(d) == [Some(d), Some(""), None]
  {
    SplitJoin([d], ' ', {' ', 'T'});
    assert Split("", {':'}) == [""];
  }

  /** The first split of `datetimeToSeperateStrings` separates the date from the time. */
  lemma DateAndTime(d: string, sep: char, clock: seq<string>)
    requires sep == ' ' || sep == 'T'
    requires Free(d, {' ', 'T'}) && |clock| >= 1
    requires forall i :: 0 <= i < |clock| ==> Free(clock[i], {':', ' ', 'T'})
    ensures Split(d + [sep] + Join(clock, ':'), {' ', 'T'}) == [d, Join(clock, ':')]
  {
    forall i | 0 <= i < |clock| ensures Free(clock[i], {' ', 'T'}) {
      FreeSubset(clock[i], {' ', 'T'}, {':', ' ', 'T'});
    }
    JoinFree(clock, ':', {' ', 'T'});
    SplitPair(d, Join(clock, ':'), sep, {' ', 'T'});
  }

  /** The second split of `datetimeToSeperateStrings` gives back the clock fields. */
  lemma ClockParts(clock: seq<string>)
    requires |clock| >= 1
    requires forall i :: 0 <= i < |clock| ==> Free(clock[i], {':', ' ', 'T'})
    ensures Split(Join(clock, ':'), {':'}) == clock
  {
    forall i | 0 <= i < |clock| ensures Free(clock[i], {':'}) {
      FreeSubset(clock[i], {':'}, {':', ' ', 'T'});
    }
    SplitJoin(clock, ':', {':'});
  }

  lemma PartsOf(date: string, d: string, time: string, clock: seq<string>)
    requires Split(date, {' ', 'T'}) == [d, time]
    requires Split(time, {':'}) == clock
    ensures DatetimeToSeparateStrings(date)
              == [Some(d), Some(clock[0]), if |clock| >= 2 then Some(clock[1]) else None]
  {
  }
}
