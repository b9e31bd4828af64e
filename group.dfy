/**
 * The `Group` class: a group id and five member slots, `member1` to `member5`, filled in
 * that order by `addUser`.
 */
module Groups {
  import opened Wrappers

  /** A user's `bruker_kode`. */
  type UserCode = string
  /** One member field: unset (`null`) or a user code. */
  type Slot = Option<UserCode>

  const Capacity: nat := 5

  /** PHP's `$member == null`: true for an unset slot and for one holding the empty string. */
  predicate Vacant(s: Slot)
  {
    s.None? || s.value == ""
  }

  /** Index of the lowest vacant slot, or `|slots|` when none is vacant. */
  function FirstVacant(slots: seq<Slot>): (k: nat)
    ensures k <= |slots|
    ensures forall j :: 0 <= j < k ==> !Vacant(slots[j])
    ensures k < |slots| ==> Vacant(slots[k])
  {
    if slots == [] then 0
    else if Vacant(slots[0]) then 0
    else 1 + FirstVacant(slots[1..])
  }

  /**
   * The slots after `addUser(user)`, and its return value: the user goes into the
   * lowest-numbered vacant slot; with no slot vacant nothing changes and the answer is false.
   */
  function Add(slots: seq<Slot>, user: UserCode): (r: (seq<Slot>, bool))
    ensures r.1 <==> exists i :: 0 <= i < |slots| && Vacant(slots[i])
    ensures r.1 ==> exists k :: 0 <= k < |slots| && Vacant(slots[k])
                      && (forall j :: 0 <= j < k ==> !Vacant(slots[j]))
                      && r.0 == slots[k := Some(user)]
    ensures !r.1 ==> r.0 == slots
  {
    var k := FirstVacant(slots);
    if k < |slots| then (slots[k := Some(user)], true) else (slots, false)
  }

  /** The slots after `addUser` is called with each of `users` in turn, and how many calls returned true. */
  function AddAll(slots: seq<Slot>, users: seq<UserCode>): (seq<Slot>, nat)
    decreases |users|
  {
    if users == [] then (slots, 0)
    else
      var step := Add(slots, users[0]);
      var rest := AddAll(step.0, users[1..]);
      (rest.0, if step.1 then rest.1 + 1 else rest.1)
  }

  /** Slots holding `users`, in order. */
  function Occupied(users: seq<UserCode>): (slots: seq<Slot>)
    ensures |slots| == |users|
    ensures forall i :: 0 <= i < |users| ==> slots[i] == Some(users[i])
  {
    seq(|users|, i requires 0 <= i < |users| => Some(users[i]))
  }

  /** `n` unset slots. */
  function Vacancies(n: nat): (slots: seq<Slot>)
    ensures |slots| == n
    ensures forall i :: 0 <= i < n ==> slots[i] == None
  {
    seq(n, _ => None)
  }

  /** Known users in front, unset slots behind. */
  function Layout(done: seq<UserCode>, free: nat): seq<Slot>
  {
    Occupied(done) + Vacancies(free)
  }

  lemma LayoutOfNone(free: nat)
    ensures Layout([], free) == Vacancies(free)
  {
    assert Occupied([]) == [];
  }

  lemma FirstVacantOfLayout(done: seq<UserCode>, free: nat)
    requires forall i :: 0 <= i < |done| ==> done[i] != ""
    ensures FirstVacant(Layout(done, free)) == |done|
  {
    var slots := Layout(done, free);
    assert forall j :: 0 <= j < |done| ==> slots[j] == Some(done[j]);
    if free > 0 {
      assert slots[|done|] == None;
    }
  }

  lemma AddToLayout(done: seq<UserCode>, free: nat, user: UserCode)
    requires forall i :: 0 <= i < |done| ==> done[i] != ""
    requires free > 0
    ensures Add(Layout(done, free), user) == (Layout(done + [user], free - 1), true)
  {
    FirstVacantOfLayout(done, free);
    var slots := Layout(done, free);
    var next := slots[|done| := Some(user)];
    assert next == Layout(done + [user], free - 1) by {
      var want := Layout(done + [user], free - 1);
      assert |next| == |want|;
      forall i | 0 <= i < |next| ensures next[i] == want[i] {
        if i < |done| {
          assert next[i] == Some(done[i]);
        } else if i > |done| {
          assert next[i] == None;
        }
      }
    }
  }

  lemma AddToFullLayout(done: seq<UserCode>, user: UserCode)
    requires forall i :: 0 <= i < |done| ==> done[i] != ""
    ensures Add(Layout(done, 0), user) == (Layout(done, 0), false)
  {
    FirstVacantOfLayout(done, 0);
  }

  function Min(a: nat, b: nat): nat
  {
    if a < b then a else b
  }

  /** The statement of `AddAllFillsInOrder`. */
  ghost predicate FillsInOrder(done: seq<UserCode>, free: nat, users: seq<UserCode>)
  {
    var m := Min(|users|, free);
    AddAll(Layout(done, free), users) == (Layout(done + users[..m], free - m), m)
  }

  /** A call on full slots changes nothing, so the remaining calls see the same slots. */
  lemma FullStep(done: seq<UserCode>, users: seq<UserCode>)
    requires forall i :: 0 <= i < |done| ==> done[i] != ""
    requires users != [] && FillsInOrder(done, 0, users[1..])
    ensures FillsInOrder(done, 0, users)
  {
    var L := Layout(done, 0);
    AddToFullLayout(done, users[0]);
    assert AddAll(L, users) == AddAll(L, users[1..]);
    assert done + users[..0] == done;
    assert done + users[1..][..0] == done;
  }

  /** A call with a free slot fills the next one, and the remaining calls continue after it. */
  lemma FreeStep(done: seq<UserCode>, free: nat, users: seq<UserCode>)
    requires forall i :: 0 <= i < |done| ==> done[i] != ""
    requires users != [] && free > 0 && FillsInOrder(done + [users[0]], free - 1, users[1..])
    ensures FillsInOrder(done, free, users)
  {
    var u, tail := users[0], users[1..];
    var m := Min(|users|, free);
    AddToLayout(done, free, u);
    var rest := AddAll(Layout(done + [u], free - 1), tail);
    assert AddAll(Layout(done, free), users) == (rest.0, rest.1 + 1);
    assert Min(|tail|, free - 1) == m - 1;
    assert users[..m] == [u] + tail[..m - 1];
    assert (done + [u]) + tail[..m - 1] == done + users[..m];
  }

  lemma {:induction false} AddAllFillsInOrder(done: seq<UserCode>, free: nat, users: seq<UserCode>)
    requires forall i :: 0 <= i < |done| ==> done[i] != ""
    requires forall i :: 0 <= i < |users| ==> users[i] != ""
    ensures FillsInOrder(done, free, users)
    decreases |users|
  {
    if users == [] {
      assert done + users[..0] == done;
    } else if free == 0 {
      AddAllFillsInOrder(done, 0, users[1..]);
      FullStep(done, users);
    } else {
      var done' := done + [users[0]];
      assert forall i :: 0 <= i < |done'| ==> done'[i] != "";
      AddAllFillsInOrder(done', free - 1, users[1..]);
      FreeStep(done, free, users);
    }
  }

  /** `AddAllFillsInOrder` starting from `free` unset slots and no known users. */
  lemma FillsFromEmpty(free: nat, users: seq<UserCode>)
    requires forall i :: 0 <= i < |users| ==> users[i] != ""
    ensures var m := Min(|users|, free);
            AddAll(Vacancies(free), users) == (Occupied(users[..m]) + Vacancies(free - m), m)
  {
    var none: seq<UserCode> := [];
    var m := Min(|users|, free);
    AddAllFillsInOrder(none, free, users);
    assert FillsInOrder(none, free, users);
    assert none + users[..m] == users[..m];
    LayoutOfNone(free);
  }

  /**
   * After `addUser` is called with `users` on a fresh group, exactly the first
   * min(|users|, 5) slots hold the first users in call order, the rest are unset, and that
   * many calls returned true.
   */
  lemma FreshGroupFillsInOrder(users: seq<UserCode>)
    requires forall i :: 0 <= i < |users| ==> users[i] != ""
    ensures var m := Min(|users|, Capacity);
            AddAll(Vacancies(Capacity), users) == (Occupied(users[..m]) + Vacancies(Capacity - m), m)
  {
    FillsFromEmpty(Capacity, users);
  }

  /** On five slots the lowest vacant index is found by testing them in order. */
  lemma FirstVacantOfFive(slots: seq<Slot>)
    requires |slots| == 5
    ensures FirstVacant(slots)
              == if Vacant(slots[0]) then 0 else if Vacant(slots[1]) then 1 else if Vacant(slots[2]) then 2
                 else if Vacant(slots[3]) then 3 else if Vacant(slots[4]) then 4 else 5
  {
    assert slots[1..][1..] == slots[2..];
    assert slots[2..][1..] == slots[3..];
    assert slots[3..][1..] == slots[4..];
    assert slots[4..][1..] == [];
  }

  class Group {
    var groupId: int
    var member1: Slot
    var member2: Slot
    var member3: Slot
    var member4: Slot
    var member5: Slot

    /** The five member fields in order. */
    function Slots(): seq<Slot>
      reads this
    {
      [member1, member2, member3, member4, member5]
    }

    /** A new group has the given id and five unset member slots. */
    constructor (id: int)
      ensures groupId == id && Slots() == Vacancies(Capacity)
    {
      groupId := id;
      member1, member2, member3, member4, member5 := None, None, None, None, None;
    }

    function GetId(): int
      reads this
    {
      groupId
    }

    /** Overwrites the id; the members stay. */
    method SetId(id: int)
      modifies this
      ensures groupId == id && Slots() == old(Slots())
    {
      groupId := id;
    }

    function GetUser1(): Slot reads this { member1 }
    function GetUser2(): Slot reads this { member2 }
    function GetUser3(): Slot reads this { member3 }
    function GetUser4(): Slot reads this { member4 }
    function GetUser5(): Slot reads this { member5 }

    /** Puts `user` into the first vacant member field; false when all five are taken. */
    method AddUser(user: UserCode) returns (ok: bool)
      modifies this
      ensures (Slots(), ok) == Add(old(Slots()), user)
      ensures groupId == old(groupId)
    {
      ghost var before := Slots();
      FirstVacantOfFive(before);
      if Vacant(member1) {
        member1 := Some(user);
      } else if Vacant(member2) {
        member2 := Some(user);
      } else if Vacant(member3) {
        member3 := Some(user);
      } else if Vacant(member4) {
        member4 := Some(user);
      } else if Vacant(member5) {
        member5 := Some(user);
      } else {
        return false;
      }
      assert Slots() == before[FirstVacant(before) := Some(user)];
      return true;
    }
  }
}
