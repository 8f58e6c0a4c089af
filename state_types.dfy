/**
 * The ESP32's state records: the ring of the 50 most recent shots, the
 * table of ten schedules with their day masks and times, the maintenance
 * counters, and the names of the machine's states and modes.
 */
module StateTypes {
  import opened Wrappers

  // ---------------------------------------------------------------------------
  // Shot history
  // ---------------------------------------------------------------------------

  const MAX_SHOT_HISTORY: nat := 50

  /** `ShotRecord` without its floating-point fields (weights, flow, pressure, temperature). */
  datatype ShotRecord = ShotRecord(timestamp: nat, durationMs: nat, preinfusionMs: nat, rating: nat)

  const NO_SHOT := ShotRecord(0, 0, 0, 0)

  /** Where the shot `i` places back from the newest lies: `(head - 1 - i + 50) % 50`. */
  function Pos(head: nat, i: nat): (r: nat)
    requires head < MAX_SHOT_HISTORY && i < MAX_SHOT_HISTORY
    ensures r < MAX_SHOT_HISTORY && r == (head - 1 - i + MAX_SHOT_HISTORY) % MAX_SHOT_HISTORY
  {
    if head + MAX_SHOT_HISTORY - 1 - i >= MAX_SHOT_HISTORY then head - 1 - i else head + MAX_SHOT_HISTORY - 1 - i
  }

  /** After a write at `head`, the newest shot is there and every older one moved one place back. */
  lemma PosAfterWrite(head: nat, i: nat)
    requires head < MAX_SHOT_HISTORY && i < MAX_SHOT_HISTORY - 1
    ensures Pos((head + 1) % MAX_SHOT_HISTORY, 0) == head
    ensures Pos((head + 1) % MAX_SHOT_HISTORY, i + 1) == Pos(head, i)
    ensures Pos(head, i) != head
  {
  }

  /** The first `n` elements of `s`, or all of a shorter `s`. */
  function Take<T>(s: seq<T>, n: nat): (r: seq<T>)
    ensures |r| == if |s| <= n then |s| else n
    ensures forall k :: 0 <= k < |r| ==> r[k] == s[k]
  {
    if |s| <= n then s else s[..n]
  }

  class ShotHistory {
    const shots: array<ShotRecord>
    /** The next write position. */
    var head: nat
    var count: nat
    /** The held shots, newest first. */
    ghost var recent: seq<ShotRecord>

    ghost predicate Valid()
      reads this, shots
    {
      shots.Length == MAX_SHOT_HISTORY && head < MAX_SHOT_HISTORY && count <= MAX_SHOT_HISTORY
      && |recent| == count
      && forall i :: 0 <= i < count ==> shots[Pos(head, i)] == recent[i]
    }

    constructor()
      ensures Valid() && recent == []
    {
      shots := new ShotRecord[MAX_SHOT_HISTORY](_ => NO_SHOT);
      head, count := 0, 0;
      recent := [];
    }

    /** `addShot`: the shot becomes the newest; once 50 are held, the oldest is overwritten. */
    method AddShot(shot: ShotRecord)
      requires Valid()
      modifies this, shots
      ensures Valid() && recent == Take([shot] + old(recent), MAX_SHOT_HISTORY)
    {
      ghost var h := head;
      shots[head] := shot;
      head := (head + 1) % MAX_SHOT_HISTORY;
      if count < MAX_SHOT_HISTORY {
        count := count + 1;
      }
      recent := Take([shot] + recent, MAX_SHOT_HISTORY);
      forall i | 0 <= i < count
        ensures shots[Pos(head, i)] == recent[i]
      {
        if i == 0 {
          PosAfterWrite(h, 0);
        } else {
          PosAfterWrite(h, i - 1);
        }
      }
    }

    /** `getShot`: index 0 is the newest shot; past the held ones there is none. */
    function GetShot(index: nat): (r: Option<ShotRecord>)
      requires Valid()
      reads this, shots
      ensures r.None? <==> index >= count
      ensures r.Some? ==> r.value == recent[index]
    {
      if index >= count then None else Some(shots[Pos(head, index)])
    }

    /** The walk of `toJson` over the held shots, newest first. */
    method Shots() returns (list: seq<ShotRecord>)
      requires Valid()
      ensures list == recent
    {
      list := [];
      var i := 0;
      while i < count
        invariant 0 <= i <= count && list == recent[..i]
      {
        var shot := GetShot(i);
        list := list + [shot.value];
        i := i + 1;
      }
    }

    /** `clear`: nothing is held. */
    method Clear()
      requires Valid()
      modifies this
      ensures Valid() && recent == [] && head == 0
    {
      head, count := 0, 0;
      recent := [];
    }
  }

  /** After `n` additions the ring holds the newest min(n, 50) shots, newest first. */
  function Added(shots: seq<ShotRecord>): (r: seq<ShotRecord>)
    ensures |r| == if |shots| <= MAX_SHOT_HISTORY then |shots| else MAX_SHOT_HISTORY
  {
    if |shots| == 0 then [] else Take([shots[|shots| - 1]] + Added(shots[..|shots| - 1]), MAX_SHOT_HISTORY)
  }

  /** Shot `i` back from the newest is the `i`-th last one added. */
  lemma {:induction false} AddedNewestFirst(shots: seq<ShotRecord>, i: nat)
    requires i < |Added(shots)|
    ensures Added(shots)[i] == shots[|shots| - 1 - i]
  {
    if i > 0 {
      AddedNewestFirst(shots[..|shots| - 1], i - 1);
    }
  }

  // ---------------------------------------------------------------------------
  // Schedules
  // ---------------------------------------------------------------------------

  const MAX_SCHEDULES: nat := 10
  const EVERY_DAY: bv8 := 0x7F
  const WEEKDAYS: bv8 := 0x3E
  const WEEKENDS: bv8 := 0x41
  const ACTION_TURN_ON: nat := 0
  const ACTION_TURN_OFF: nat := 1

  /** `ScheduleEntry`; id 0 marks an unused slot. */
  datatype ScheduleEntry = ScheduleEntry(
    id: nat, enabled: bool, days: bv8, hour: nat, minute: nat, action: nat, strategy: nat, name: string)

  /** A default-constructed entry: unused, every day at 7:00, turn on, sequential. */
  const UNUSED := ScheduleEntry(0, false, EVERY_DAY, 7, 0, ACTION_TURN_ON, 1, "")

  /** `isValidForDay`: bit `day` of the mask (0 is Sunday); the 8-bit mask has no bit 8 or above. */
  predicate IsValidForDay(e: ScheduleEntry, day: nat) {
    day < 8 && e.days & ((1 as bv8) << day) != 0
  }

  /** `matchesTime`. */
  predicate MatchesTime(e: ScheduleEntry, h: nat, m: nat) {
    e.hour == h && e.minute == m
  }

  /** The day masks: every day is every day 0-6, weekdays are 1-5, the weekend is 0 and 6. */
  lemma DayMasks(e: ScheduleEntry, day: nat)
    requires day < 7
    ensures e.days == EVERY_DAY ==> IsValidForDay(e, day)
    ensures e.days == WEEKDAYS ==> (IsValidForDay(e, day) <==> 1 <= day <= 5)
    ensures e.days == WEEKENDS ==> (IsValidForDay(e, day) <==> day == 0 || day == 6)
  {
    var b: bv8 := 1 << day;
    if day == 0 { assert b == 1; }
    else if day == 1 { assert b == 2; }
    else if day == 2 { assert b == 4; }
    else if day == 3 { assert b == 8; }
    else if day == 4 { assert b == 16; }
    else if day == 5 { assert b == 32; }
    else { assert b == 64; }
  }

  /** A schedule on the union of two masks runs on a day iff one of them does. */
  lemma MaskUnion(e: ScheduleEntry, a: bv8, b: bv8, day: nat)
    requires e.days == a | b && day < 8
    ensures IsValidForDay(e, day) <==> IsValidForDay(e.(days := a), day) || IsValidForDay(e.(days := b), day)
  {
  }

  /** A schedule fires at exactly one time of day. */
  lemma {:induction false} MatchesOneTime(e: ScheduleEntry, h: nat, m: nat, h': nat, m': nat)
    requires MatchesTime(e, h, m)
    ensures MatchesTime(e, h', m') <==> h' == h && m' == m
  {
  }

  predicate Used(e: ScheduleEntry) { e.id != 0 }

  /** The number of slots in use. */
  function CountUsed(slots: seq<ScheduleEntry>): (r: nat)
    ensures r <= |slots|
  {
    if |slots| == 0 then 0
    else CountUsed(slots[..|slots| - 1]) + if Used(slots[|slots| - 1]) then 1 else 0
  }

  /** The largest id stored, 0 for an empty table. */
  function MaxId(slots: seq<ScheduleEntry>): (r: nat)
    ensures forall k :: 0 <= k < |slots| ==> slots[k].id <= r
    ensures r == 0 || exists k :: 0 <= k < |slots| && slots[k].id == r
  {
    if |slots| == 0 then 0
    else
      var m := MaxId(slots[..|slots| - 1]);
      if slots[|slots| - 1].id > m then slots[|slots| - 1].id else m
  }

  /** The first slot holding `id`, if any (for id 0, the first unused slot). */
  function FirstWithId(slots: seq<ScheduleEntry>, id: nat): (r: Option<nat>)
    ensures r.Some? ==> (r.value < |slots| && slots[r.value].id == id
      && forall k :: 0 <= k < r.value ==> slots[k].id != id)
    ensures r.None? ==> forall k :: 0 <= k < |slots| ==> slots[k].id != id
  {
    if |slots| == 0 then None
    else if slots[0].id == id then Some(0)
    else
      match FirstWithId(slots[1..], id)
      case None => None
      case Some(k) => Some(k + 1)
  }

  /** No id is stored in two slots. */
  ghost predicate UniqueIds(slots: seq<ScheduleEntry>) {
    forall i, j :: 0 <= i < j < |slots| && Used(slots[i]) ==> slots[i].id != slots[j].id
  }

  /** The id `addSchedule` gives an entry stored in slot `i`: one more than the largest id then stored. */
  function NextId(slots: seq<ScheduleEntry>, i: nat, entry: ScheduleEntry): (r: nat)
    requires i < |slots|
    ensures r > entry.id && forall k :: 0 <= k < |slots| && k != i ==> slots[k].id < r
  {
    var t := slots[i := entry];
    assert forall k :: 0 <= k < |slots| && k != i ==> t[k] == slots[k];
    assert t[i] == entry;
    MaxId(t) + 1
  }

  /**
   * The table and the id after `addSchedule`: the first unused slot takes
   * the entry under its new id, unless there is no unused slot or the id
   * would not fit in 8 bits; then the table is unchanged and the id is 0.
   */
  function ScheduleAdded(slots: seq<ScheduleEntry>, entry: ScheduleEntry): (r: (seq<ScheduleEntry>, nat))
  {
    match FirstWithId(slots, 0)
    case None => (slots, 0)
    case Some(i) =>
      var next := NextId(slots, i, entry);
      if next < 256 then (slots[i := entry.(id := next)], next) else (slots, 0)
  }

  /** With `i` the first unused slot, the id is one more than the largest stored once the entry is in. */
  lemma ScheduleAddedAt(slots: seq<ScheduleEntry>, i: nat, entry: ScheduleEntry)
    requires FirstWithId(slots, 0) == Some(i) && entry.id < 256
    requires forall k :: 0 <= k < |slots| ==> slots[k].id < 256
    ensures NextId(slots, i, entry) == (MaxId(slots[i := entry]) + 1) && MaxId(slots[i := entry]) < 256
    ensures ScheduleAdded(slots, entry) == if NextId(slots, i, entry) < 256
      then (slots[i := entry.(id := NextId(slots, i, entry))], NextId(slots, i, entry)) else (slots, 0)
  {
    var t := slots[i := entry];
    assert forall k :: 0 <= k < |t| ==> t[k].id < 256;
  }

  /**
   * Adding keeps the table's invariants: ids stay unique, and the new id is
   * greater than every other id stored, so it names exactly one schedule;
   * one more slot is used exactly when the id is not 0.
   */
  lemma AddScheduleKeepsTable(slots: seq<ScheduleEntry>, entry: ScheduleEntry)
    requires UniqueIds(slots)
    ensures var (t, id) := ScheduleAdded(slots, entry);
      |t| == |slots| && UniqueIds(t)
      && CountUsed(t) == CountUsed(slots) + (if id == 0 then 0 else 1)
      && (id != 0 ==> exists i :: 0 <= i < |t| && t[i].id == id && !Used(slots[i]))
      && (id != 0 ==> forall k :: 0 <= k < |slots| ==> slots[k].id < id)
  {
    match FirstWithId(slots, 0)
    case None =>
    case Some(i) =>
      var next := NextId(slots, i, entry);
      if next < 256 {
        AddKeepsCount(slots, i, entry.(id := next));
        AddKeepsUnique(slots, i, entry, next);
      }
  }

  /** Every id fits in the 8-bit `id` field. */
  ghost predicate IdsFit(slots: seq<ScheduleEntry>) {
    forall k :: 0 <= k < |slots| ==> slots[k].id < 256
  }

  /** The table's invariant: `count` counts the used slots, ids are unique and fit in 8 bits. */
  ghost predicate TableValid(slots: seq<ScheduleEntry>, count: nat) {
    count == CountUsed(slots) && UniqueIds(slots) && IdsFit(slots)
  }

  /** Adding keeps the table's invariant, with one more schedule counted exactly when an id is returned. */
  lemma AddedTableValid(slots: seq<ScheduleEntry>, count: nat, entry: ScheduleEntry, t: seq<ScheduleEntry>, id: nat)
    requires TableValid(slots, count)
    requires t == ScheduleAdded(slots, entry).0 && id == ScheduleAdded(slots, entry).1
    ensures TableValid(t, count + if id == 0 then 0 else 1)
  {
    AddScheduleKeepsTable(slots, entry);
  }

  class ScheduleSettings {
    const schedules: array<ScheduleEntry>
    /** The number of schedules in use. */
    var count: nat

    ghost predicate Valid()
      reads this`count, schedules
    {
      schedules.Length == MAX_SCHEDULES && TableValid(schedules[..], count)
    }

    constructor()
      ensures Valid() && count == 0
    {
      schedules := new ScheduleEntry[MAX_SCHEDULES](_ => UNUSED);
      count := 0;
      new;
      assert CountUsed(schedules[..]) == 0 by {
        NoneUsed(schedules[..]);
      }
    }

    /** `findById`: the first slot holding `id`. */
    method FindById(id: nat) returns (r: Option<nat>)
      requires Valid()
      ensures r == FirstWithId(schedules[..], id)
    {
      var i := 0;
      while i < MAX_SCHEDULES
        invariant 0 <= i <= MAX_SCHEDULES
        invariant forall k :: 0 <= k < i ==> schedules[k].id != id
      {
        if schedules[i].id == id {
          FirstWithIdIs(schedules[..], id, i);
          return Some(i);
        }
        i := i + 1;
      }
      return None;
    }

    /** `getNextId`: one more than the largest id, in 8 bits. */
    method GetNextId() returns (next: nat)
      requires schedules.Length == MAX_SCHEDULES && forall k :: 0 <= k < MAX_SCHEDULES ==> schedules[k].id < 256
      ensures MaxId(schedules[..]) < 256
      ensures next == if MaxId(schedules[..]) < 255 then MaxId(schedules[..]) + 1 else 0
    {
      var maxId := 0;
      for i := 0 to MAX_SCHEDULES
        invariant maxId == MaxId(schedules[..i])
      {
        assert schedules[..i + 1][..i] == schedules[..i];
        if schedules[i].id > maxId {
          maxId := schedules[i].id;
        }
      }
      assert schedules[..MAX_SCHEDULES] == schedules[..];
      next := (maxId + 1) % 256;  // uint8_t
    }

    /**
     * `addSchedule`: the entry goes into the first unused slot with an id one
     * more than the largest then stored, and the id is returned; with no
     * unused slot, or when that id would not fit in 8 bits, nothing changes
     * and 0 is returned.
     */
    method AddSchedule(entry: ScheduleEntry) returns (id: nat)
      requires Valid() && entry.id < 256
      modifies this`count, schedules
      ensures Valid()
      ensures schedules[..] == ScheduleAdded(old(schedules[..]), entry).0
      ensures id == ScheduleAdded(old(schedules[..]), entry).1
      ensures count == old(count) + if id == 0 then 0 else 1
    {
      ghost var before := schedules[..];
      var slot := FindById(0);
      if slot.None? {
        return 0;
      }
      AddScheduleSteps(before, slot.value, entry);
      id := StoreWithNextId(slot.value, entry);
      StoredIsAdded(before, slot.value, entry, schedules[..], id);
      AddedTableValid(before, count, entry, schedules[..], id);
      if id != 0 {
        count := count + 1;
      }
    }

    /**
     * The body of `addSchedule` once the free slot `i` is found: the entry is
     * stored there, then given the next id; an id that wrapped to 0 puts the
     * slot back as it was.
     */
    method StoreWithNextId(i: nat, entry: ScheduleEntry) returns (next: nat)
      requires schedules.Length == MAX_SCHEDULES && i < MAX_SCHEDULES
      requires IdsFit(schedules[..][i := entry])
      modifies schedules
      ensures var m := MaxId(old(schedules[..])[i := entry]);
        next == (if m < 255 then m + 1 else 0)
        && schedules[..] == if m < 255 then old(schedules[..])[i := entry.(id := m + 1)] else old(schedules[..])
    {
      ghost var before := schedules[..];
      var saved := schedules[i];
      Put(i, entry);
      next := GetNextId();
      if next == 0 {
        Put(i, saved);
        Overwrite(before, i, entry, saved);
      } else {
        Put(i, entry.(id := next));
        Overwrite(before, i, entry, entry.(id := next));
      }
    }

    /** One slot's assignment, seen on the whole table. */
    method Put(i: nat, e: ScheduleEntry)
      requires i < schedules.Length
      modifies schedules
      ensures schedules[..] == old(schedules[..])[i := e]
    {
      schedules[i] := e;
    }

    /**
     * `removeSchedule`: the first slot holding `id` is reset to an unused
     * entry; false when no slot holds it. Id 0 names no schedule and is refused.
     */
    method RemoveSchedule(id: nat) returns (removed: bool)
      requires Valid()
      modifies this, schedules
      ensures Valid()
      ensures removed <==> id != 0 && FirstWithId(old(schedules[..]), id).Some?
      ensures removed ==> (schedules[..] == old(schedules[..])[FirstWithId(old(schedules[..]), id).value := UNUSED]
        && count == old(count) - 1)
      ensures !removed ==> schedules[..] == old(schedules[..]) && count == old(count)
    {
      if id == 0 {
        return false;
      }
      var slot := FindById(id);
      if slot.None? {
        return false;
      }
      var i := slot.value;
      ghost var before := schedules[..];
      schedules[i] := UNUSED;
      RemoveCounts(before, i);
      count := count - 1;
      return true;
    }
  }

  /** The facts `addSchedule` needs about its intermediate tables. */
  lemma AddScheduleSteps(slots: seq<ScheduleEntry>, i: nat, entry: ScheduleEntry)
    requires FirstWithId(slots, 0) == Some(i) && entry.id < 256
    requires forall k :: 0 <= k < |slots| ==> slots[k].id < 256
    ensures IdsFit(slots[i := entry])
    ensures var m := MaxId(slots[i := entry]);
      m < 255 ==> ScheduleAdded(slots, entry).0 == slots[i := entry.(id := m + 1)] && ScheduleAdded(slots, entry).1 == m + 1
    ensures MaxId(slots[i := entry]) >= 255 ==> ScheduleAdded(slots, entry) == (slots, 0)
  {
    ScheduleAddedAt(slots, i, entry);
  }

  /** What StoreWithNextId leaves at the first unused slot is what ScheduleAdded says. */
  lemma StoredIsAdded(slots: seq<ScheduleEntry>, i: nat, entry: ScheduleEntry, t: seq<ScheduleEntry>, next: nat)
    requires FirstWithId(slots, 0) == Some(i) && entry.id < 256
    requires forall k :: 0 <= k < |slots| ==> slots[k].id < 256
    requires var m := MaxId(slots[i := entry]);
      next == (if m < 255 then m + 1 else 0)
      && t == if m < 255 then slots[i := entry.(id := m + 1)] else slots
    ensures t == ScheduleAdded(slots, entry).0 && next == ScheduleAdded(slots, entry).1
  {
    AddScheduleSteps(slots, i, entry);
  }

  /** Two writes to one slot leave the second. */
  lemma Overwrite(slots: seq<ScheduleEntry>, i: nat, a: ScheduleEntry, b: ScheduleEntry)
    requires i < |slots|
    ensures slots[i := a][i := b] == slots[i := b]
    ensures slots[i := slots[i]] == slots
  {
  }

  lemma {:induction false} NoneUsed(slots: seq<ScheduleEntry>)
    requires forall k :: 0 <= k < |slots| ==> !Used(slots[k])
    ensures CountUsed(slots) == 0
  {
    if |slots| > 0 {
      NoneUsed(slots[..|slots| - 1]);
    }
  }

  lemma FirstWithIdIs(slots: seq<ScheduleEntry>, id: nat, i: nat)
    requires i < |slots| && slots[i].id == id && forall k :: 0 <= k < i ==> slots[k].id != id
    ensures FirstWithId(slots, id) == Some(i)
  {
    var r := FirstWithId(slots, id);
    assert r.Some?;
  }

  /** Using an unused slot counts one more schedule. */
  lemma {:induction false} AddKeepsCount(slots: seq<ScheduleEntry>, i: nat, e: ScheduleEntry)
    requires i < |slots| && !Used(slots[i]) && Used(e)
    ensures CountUsed(slots[i := e]) == CountUsed(slots) + 1
  {
    var t := slots[i := e];
    if i == |slots| - 1 {
      assert t[..|t| - 1] == slots[..|slots| - 1];
    } else {
      assert t[..|t| - 1] == slots[..|slots| - 1][i := e];
      AddKeepsCount(slots[..|slots| - 1], i, e);
    }
  }

  /** Clearing a used slot counts one fewer. */
  lemma {:induction false} RemoveCounts(slots: seq<ScheduleEntry>, i: nat)
    requires i < |slots| && Used(slots[i])
    ensures CountUsed(slots[i := UNUSED]) == CountUsed(slots) - 1
  {
    var t := slots[i := UNUSED];
    if i == |slots| - 1 {
      assert t[..|t| - 1] == slots[..|slots| - 1];
    } else {
      assert t[..|t| - 1] == slots[..|slots| - 1][i := UNUSED];
      RemoveCounts(slots[..|slots| - 1], i);
    }
  }

  /** A new id greater than every other stored one is unique. */
  lemma AddKeepsUnique(slots: seq<ScheduleEntry>, i: nat, entry: ScheduleEntry, next: nat)
    requires i < |slots| && UniqueIds(slots) && next == NextId(slots, i, entry)
    ensures UniqueIds(slots[i := entry.(id := next)])
  {
  }

  // ---------------------------------------------------------------------------
  // The schedule table as written
  // ---------------------------------------------------------------------------

  /**
   * `addSchedule` as written, on the slots and the 8-bit `count`: the id is
   * `getNextId()`, which wraps to 0 once an id of 255 is stored; the entry
   * is then stored as unused, `count` still goes up, and 0 is returned.
   */
  function AddScheduleAsWritten(slots: seq<ScheduleEntry>, count: nat, entry: ScheduleEntry): (r: (seq<ScheduleEntry>, nat, nat))
    ensures ScheduleAdded(slots, entry).1 != 0 ==> (r.0, r.2) == ScheduleAdded(slots, entry)
    ensures FirstWithId(slots, 0).Some? ==> r.1 == (count + 1) % 256
    ensures FirstWithId(slots, 0).None? ==> r == (slots, count, 0)
  {
    match FirstWithId(slots, 0)
    case None => (slots, count, 0)
    case Some(i) =>
      var next := NextId(slots, i, entry) % 256;
      (slots[i := entry.(id := next)], (count + 1) % 256, next)
  }

  /** `removeSchedule` as written: id 0 finds the first unused slot, and `count` goes down anyway. */
  function RemoveScheduleAsWritten(slots: seq<ScheduleEntry>, count: nat, id: nat): (r: (seq<ScheduleEntry>, nat, bool))
    ensures r.2 <==> FirstWithId(slots, id).Some?
    ensures r.2 ==> r.0 == slots[FirstWithId(slots, id).value := UNUSED]
    ensures r.2 ==> (0 < count < 256 ==> r.1 == count - 1) && (count == 0 ==> r.1 == 255)
    ensures !r.2 ==> r.0 == slots && r.1 == count
  {
    match FirstWithId(slots, id)
    case None => (slots, count, false)
    case Some(i) => (slots[i := UNUSED], (count + 255) % 256, true)
  }

  /**
   * Once a schedule with id 255 is stored, adding another reports failure
   * (0) yet counts a schedule that is stored as unused.
   */
  lemma AddScheduleWraps()
    ensures var slots := [UNUSED.(id := 255)] + seq(MAX_SCHEDULES - 1, _ => UNUSED);
      var r := AddScheduleAsWritten(slots, 1, UNUSED);
      r.2 == 0 && r.1 == 2 && CountUsed(r.0) == 1
  {
    var slots := [UNUSED.(id := 255)] + seq(MAX_SCHEDULES - 1, _ => UNUSED);
    FirstWithIdIs(slots, 0, 1);
    var t := slots[1 := UNUSED.(id := 255)];
    assert MaxId(t) == 255 by {
      assert t[0].id == 255;
      forall k | 0 <= k < |t|
        ensures t[k].id <= 255
      {
        if k >= 2 {
          assert t[k] == slots[k] == UNUSED;
        }
      }
    }
    var stored := slots[1 := UNUSED];
    assert stored == slots;
    CountOne(slots);
  }

  lemma CountOne(slots: seq<ScheduleEntry>)
    requires |slots| == MAX_SCHEDULES && Used(slots[0]) && forall k :: 1 <= k < |slots| ==> !Used(slots[k])
    ensures CountUsed(slots) == 1
  {
    CountOneFrom(slots, |slots|);
    assert slots[..|slots|] == slots;
  }

  lemma {:induction false} CountOneFrom(slots: seq<ScheduleEntry>, n: nat)
    requires 1 <= n <= |slots| && Used(slots[0]) && forall k :: 1 <= k < |slots| ==> !Used(slots[k])
    ensures CountUsed(slots[..n]) == 1
  {
    var p := slots[..n];
    if n > 1 {
      assert p[..|p| - 1] == slots[..n - 1];
      CountOneFrom(slots, n - 1);
    } else {
      assert p[..|p| - 1] == [];
    }
  }

  /**
   * Removing id 0 from an empty table reports success and wraps the 8-bit
   * count from 0 to 255.
   */
  lemma RemoveZeroMiscounts()
    ensures var slots := seq(MAX_SCHEDULES, _ => UNUSED);
      RemoveScheduleAsWritten(slots, 0, 0) == (slots, 255, true)
  {
    var slots := seq(MAX_SCHEDULES, _ => UNUSED);
    FirstWithIdIs(slots, 0, 0);
    assert slots[0 := UNUSED] == slots;
  }

  // ---------------------------------------------------------------------------
  // Statistics: maintenance counters and the daily reset
  // ---------------------------------------------------------------------------

  /** `Statistics`, without the floating-point energy totals. */
  class Statistics {
    var totalShots: nat
    var totalSteamCycles: nat
    var totalOnTimeMinutes: nat
    var shotsToday: nat
    var onTimeToday: nat
    var shotsSinceDescale: nat
    var shotsSinceGroupClean: nat
    var shotsSinceBackflush: nat
    var lastDescaleTimestamp: nat
    var lastGroupCleanTimestamp: nat
    var lastBackflushTimestamp: nat
    var sessionStartTimestamp: nat
    var sessionShots: nat

    constructor()
      ensures totalShots == 0 && shotsToday == 0 && shotsSinceDescale == 0
      ensures shotsSinceGroupClean == 0 && shotsSinceBackflush == 0 && sessionShots == 0
      ensures totalSteamCycles == 0 && totalOnTimeMinutes == 0 && onTimeToday == 0
      ensures lastDescaleTimestamp == 0 && lastGroupCleanTimestamp == 0 && lastBackflushTimestamp == 0
      ensures sessionStartTimestamp == 0
    {
      totalShots, totalSteamCycles, totalOnTimeMinutes := 0, 0, 0;
      shotsToday, onTimeToday := 0, 0;
      shotsSinceDescale, shotsSinceGroupClean, shotsSinceBackflush := 0, 0, 0;
      lastDescaleTimestamp, lastGroupCleanTimestamp, lastBackflushTimestamp := 0, 0, 0;
      sessionStartTimestamp, sessionShots := 0, 0;
    }

    /** `resetDaily`: today's counters go to 0; nothing else changes. */
    method ResetDaily()
      modifies this`shotsToday, this`onTimeToday
      ensures shotsToday == 0 && onTimeToday == 0
    {
      shotsToday, onTimeToday := 0, 0;
    }

    /**
     * `recordMaintenance`: "descale" restarts the descale counter;
     * "backflush" restarts the backflush and the group-clean counters (a
     * backflush cleans the group too); any other kind changes nothing.
     * `now` is the wall-clock time the source reads.
     */
    method RecordMaintenance(kind: string, now: nat)
      modifies this`shotsSinceDescale, this`lastDescaleTimestamp, this`shotsSinceBackflush,
        this`lastBackflushTimestamp, this`shotsSinceGroupClean, this`lastGroupCleanTimestamp
      ensures kind == "descale" ==> (shotsSinceDescale == 0 && lastDescaleTimestamp == now
        && shotsSinceBackflush == old(shotsSinceBackflush) && shotsSinceGroupClean == old(shotsSinceGroupClean)
        && lastBackflushTimestamp == old(lastBackflushTimestamp) && lastGroupCleanTimestamp == old(lastGroupCleanTimestamp))
      ensures kind == "backflush" ==> (shotsSinceBackflush == 0 && lastBackflushTimestamp == now
        && shotsSinceGroupClean == 0 && lastGroupCleanTimestamp == now
        && shotsSinceDescale == old(shotsSinceDescale) && lastDescaleTimestamp == old(lastDescaleTimestamp))
      ensures kind != "descale" && kind != "backflush" ==>
        shotsSinceDescale == old(shotsSinceDescale) && lastDescaleTimestamp == old(lastDescaleTimestamp)
        && shotsSinceBackflush == old(shotsSinceBackflush) && lastBackflushTimestamp == old(lastBackflushTimestamp)
        && shotsSinceGroupClean == old(shotsSinceGroupClean) && lastGroupCleanTimestamp == old(lastGroupCleanTimestamp)
    {
      if kind == "descale" {
        shotsSinceDescale := 0;
        lastDescaleTimestamp := now;
      } else if kind == "backflush" {
        shotsSinceBackflush := 0;
        lastBackflushTimestamp := now;
        shotsSinceGroupClean := 0;
        lastGroupCleanTimestamp := now;
      }
    }
  }

  // ---------------------------------------------------------------------------
  // Machine states and modes as strings
  // ---------------------------------------------------------------------------

  datatype MachineState = Init | Idle | Heating | Ready | Brewing | Steaming | Cooldown | Eco | Fault
  datatype MachineMode = Standby | On | EcoMode

  /** `machineStateToString`. */
  function MachineStateToString(s: MachineState): string {
    match s
    case Init => "init"
    case Idle => "idle"
    case Heating => "heating"
    case Ready => "ready"
    case Brewing => "brewing"
    case Steaming => "steaming"
    case Cooldown => "cooldown"
    case Eco => "eco"
    case Fault => "fault"
  }

  /** `stringToMachineState`: a name it does not know reads as INIT. */
  function StringToMachineState(str: string): MachineState {
    if str == "init" then Init
    else if str == "idle" then Idle
    else if str == "heating" then Heating
    else if str == "ready" then Ready
    else if str == "brewing" then Brewing
    else if str == "steaming" then Steaming
    else if str == "cooldown" then Cooldown
    else if str == "eco" then Eco
    else if str == "fault" then Fault
    else Init
  }

  /** `machineModeToString`. */
  function MachineModeToString(m: MachineMode): string {
    match m
    case Standby => "standby"
    case On => "on"
    case EcoMode => "eco"
  }

  /** `stringToMachineMode`: a name it does not know reads as STANDBY. */
  function StringToMachineMode(str: string): MachineMode {
    if str == "standby" then Standby
    else if str == "on" then On
    else if str == "eco" then EcoMode
    else Standby
  }

  const STATE_NAMES: set<string> := {"init", "idle", "heating", "ready", "brewing", "steaming", "cooldown", "eco", "fault"}
  const MODE_NAMES: set<string> := {"standby", "on", "eco"}

  /** Every state reads back from its name, so the names are distinct. */
  lemma MachineStateRoundTrip(s: MachineState)
    ensures StringToMachineState(MachineStateToString(s)) == s
    ensures MachineStateToString(s) in STATE_NAMES
  {
  }

  /** A known name reads as the state whose name it is; any other name reads as INIT. */
  lemma MachineStateFromString(str: string)
    ensures str in STATE_NAMES ==> MachineStateToString(StringToMachineState(str)) == str
    ensures str !in STATE_NAMES ==> StringToMachineState(str) == Init
  {
  }

  /** Every mode reads back from its name. */
  lemma MachineModeRoundTrip(m: MachineMode)
    ensures StringToMachineMode(MachineModeToString(m)) == m
    ensures MachineModeToString(m) in MODE_NAMES
  {
  }

  /** A known name reads as its mode; any other name reads as STANDBY. */
  lemma MachineModeFromString(str: string)
    ensures str in MODE_NAMES ==> MachineModeToString(StringToMachineMode(str)) == str
    ensures str !in MODE_NAMES ==> StringToMachineMode(str) == Standby
  {
  }
}
