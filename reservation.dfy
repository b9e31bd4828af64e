/**
 * The `Reservation` class: seven fields that start unset, fluent setters that each write
 * one field and hand back the same object, and `getDate`, which formats the stored
 * "Y-m-d H:i:s" start and end as "Y-m-d H:i-H:i".
 */
module Reservations {
  import opened Wrappers
  import opened PhpStrings

  /** The fields of a reservation as one value; `None` is PHP's `null`. */
  datatype Record = Record(
    id: Option<int>,
    from: Option<string>,
    to: Option<string>,
    room: Option<string>,
    group: Option<string>,
    leader: Option<string>,
    purpose: Option<string>)

  const Unset: Record := Record(None, None, None, None, None, None, None)

  /** A field used as a string: `null` reads as "". */
  function Text(field: Option<string>): string
  {
    if field.Some? then field.value else ""
  }

  /**
   * What `getDate` returns for the stored start `fra` and end `til`: the date part of
   * `fra`, then hour and minute of `fra` and of `til`. The split is at a space, then at ':'.
   * Splitting the label at its first space gives back the date part of `fra`.
   */
  function SlotLabel(fra: string, til: string): (shown: string)
    ensures Split(shown, {' '})[0] == Split(fra, {' '})[0]
  {
    var start := Split(fra, {' '});
    var startClock := Split(At(start, 1), {':'});
    var end := Split(til, {' '});
    var endClock := Split(At(end, 1), {':'});
    var times := At(startClock, 0) + ":" + At(startClock, 1) + "-"
      + At(endClock, 0) + ":" + At(endClock, 1);
    var tail := " " + times;
    assert tail[0] == ' ' && tail[1..] == times;
    SplitFreePrefix(start[0], tail, {' '});
    start[0] + tail
  }

  /** Splitting "d h[:m...]" at a space, then the time at ':', recovers `d` and the clock parts. */
  lemma StampParts(d: string, clock: seq<string>)
    requires Free(d, {' '}) && |clock| >= 1
    requires forall i :: 0 <= i < |clock| ==> Free(clock[i], {':', ' '})
    ensures Split(d + " " + Join(clock, ':'), {' '}) == [d, Join(clock, ':')]
    ensures Split(Join(clock, ':'), {':'}) == clock
  {
    var time := Join(clock, ':');
    forall i | 0 <= i < |clock| ensures Free(clock[i], {' '}) && Free(clock[i], {':'}) {
      FreeSubset(clock[i], {' '}, {':', ' '});
      FreeSubset(clock[i], {':'}, {':', ' '});
    }
    JoinFree(clock, ':', {' '});
    SplitPair(d, time, ' ', {' '});
    assert d + " " + time == d + [' '] + time;
    SplitJoin(clock, ':', {':'});
  }

  /**
   * For `fra` = "D1 h1:m1:s1" and `til` = "D2 h2:m2:s2" the label is "D1 h1:m1-h2:m2": only
   * the date of `fra` is kept, and the date of `til` and both seconds are dropped.
   */
  lemma SlotLabelFormat(d1: string, c1: seq<string>, d2: string, c2: seq<string>)
    requires Free(d1, {' '}) && Free(d2, {' '}) && |c1| >= 2 && |c2| >= 2
    requires forall i :: 0 <= i < |c1| ==> Free(c1[i], {':', ' '})
    requires forall i :: 0 <= i < |c2| ==> Free(c2[i], {':', ' '})
    ensures SlotLabel(d1 + " " + Join(c1, ':'), d2 + " " + Join(c2, ':'))
              == d1 + " " + c1[0] + ":" + c1[1] + "-" + c2[0] + ":" + c2[1]
  {
    StampParts(d1, c1);
    StampParts(d2, c2);
    LabelOf(d1 + " " + Join(c1, ':'), d2 + " " + Join(c2, ':'), d1, c1, c2);
  }

  lemma LabelOf(fra: string, til: string, d1: string, c1: seq<string>, c2: seq<string>)
    requires |c1| >= 2 && |c2| >= 2
    requires Split(fra, {' '})[0] == d1 && |Split(fra, {' '})| >= 2
    requires Split(Split(fra, {' '})[1], {':'}) == c1
    requires |Split(til, {' '})| >= 2 && Split(Split(til, {' '})[1], {':'}) == c2
    ensures SlotLabel(fra, til) == d1 + " " + c1[0] + ":" + c1[1] + "-" + c2[0] + ":" + c2[1]
  {
  }

  class Reservation {
    var reservationId: Option<int>
    var fra: Option<string>
    var til: Option<string>
    var roomCode: Option<string>
    var groupCode: Option<string>
    var groupLeader: Option<string>
    var purpose: Option<string>

    /** All fields as one value. */
    function Fields(): Record
      reads this
    {
      Record(reservationId, fra, til, roomCode, groupCode, groupLeader, purpose)
    }

    /** A new reservation has every field unset. */
    constructor ()
      ensures Fields() == Unset
    {
      reservationId, fra, til, roomCode, groupCode, groupLeader, purpose
        := None, None, None, None, None, None, None;
    }

    /** `create`: a new, empty reservation for use with the fluent setters. */
    static method Create() returns (r: Reservation)
      ensures fresh(r) && r.Fields() == Unset
    {
      r := new Reservation();
    }

    function GetId(): Option<int> reads this { reservationId }
    function GetFrom(): Option<string> reads this { fra }
    function GetTo(): Option<string> reads this { til }
    function GetRoom(): Option<string> reads this { roomCode }
    function GetGroup(): Option<string> reads this { groupCode }
    function GetLeader(): Option<string> reads this { groupLeader }
    function GetPurpose(): Option<string> reads this { purpose }

    method SetFrom(from: string) returns (self: Reservation)
      modifies this
      ensures self == this && GetFrom() == Some(from)
      ensures Fields() == old(Fields()).(from := Some(from))
    {
      fra := Some(from);
      self := this;
    }

    method SetTo(to: string) returns (self: Reservation)
      modifies this
      ensures self == this && GetTo() == Some(to)
      ensures Fields() == old(Fields()).(to := Some(to))
    {
      til := Some(to);
      self := this;
    }

    method SetRoom(room: string) returns (self: Reservation)
      modifies this
      ensures self == this && GetRoom() == Some(room)
      ensures Fields() == old(Fields()).(room := Some(room))
    {
      roomCode := Some(room);
      self := this;
    }

    method SetGroup(group: string) returns (self: Reservation)
      modifies this
      ensures self == this && GetGroup() == Some(group)
      ensures Fields() == old(Fields()).(group := Some(group))
    {
      groupCode := Some(group);
      self := this;
    }

    method SetLeader(leader: string) returns (self: Reservation)
      modifies this
      ensures self == this && GetLeader() == Some(leader)
      ensures Fields() == old(Fields()).(leader := Some(leader))
    {
      groupLeader := Some(leader);
      self := this;
    }

    method SetPurpose(purpose: string) returns (self: Reservation)
      modifies this
      ensures self == this && GetPurpose() == Some(purpose)
      ensures Fields() == old(Fields()).(purpose := Some(purpose))
    {
      this.purpose := Some(purpose);
      self := this;
    }

    /**
     * `getDate`: the label built from the stored start and end, `null` reading as "". A
     * reservation with neither set gives " :-:".
     */
    function GetDate(): (shown: string)
      reads this
      ensures fra.Some? && til.Some? ==> shown == SlotLabel(fra.value, til.value)
      ensures fra.None? && til.None? ==> shown == " :-:"
    {
      SlotLabel(Text(fra), Text(til))
    }
  }
}
