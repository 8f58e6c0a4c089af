/**
 * The ESP32's `NotificationManager`: reminders and alerts raised by the
 * firmware, deduplicated by a per-type cooldown, routed to the WebSocket,
 * MQTT and cloud-push channels, and kept in a table of at most five active
 * notifications, one per type.
 *
 * The message text (formatted with `snprintf`) and the preference storage
 * in NVS are not part of this model.
 */
module NotificationManager {
  import opened Wrappers

  const NOTIF_MAX_ACTIVE: nat := 5
  /** The length of `_lastNotified`, indexed by type. */
  const LAST_NOTIFIED_SLOTS: nat := 12
  const U32_LIMIT: nat := 0x1_0000_0000

  datatype NotificationType =
    MachineReady | WaterEmpty | DescaleDue | ServiceDue | BackflushDue | MachineError | PicoOffline

  /** The type's value as an index into `_lastNotified` (declaration order). */
  function Index(t: NotificationType): (r: nat)
    ensures r < 7
  {
    match t
    case MachineReady => 0
    case WaterEmpty => 1
    case DescaleDue => 2
    case ServiceDue => 3
    case BackflushDue => 4
    case MachineError => 5
    case PicoOffline => 6
  }

  /** Machine errors and an offline control board are alerts; the rest are reminders. */
  predicate IsAlertType(t: NotificationType) {
    t == MachineError || t == PicoOffline
  }

  /** `Notification` without its message text. */
  datatype Notification = Notification(kind: NotificationType, timestamp: nat, isAlert: bool, acknowledged: bool)

  /** `NotificationPreferences`. */
  datatype Preferences = Preferences(
    pushEnabled: bool, machineReadyPush: bool, waterEmptyPush: bool, maintenancePush: bool,
    descaleDays: nat, serviceShots: nat, backflushDays: nat)

  const DEFAULT_PREFERENCES := Preferences(true, true, true, true, 30, 500, 7)

  // ---------------------------------------------------------------------------
  // Cooldowns and routing
  // ---------------------------------------------------------------------------

  /** `getCooldown`, in milliseconds. */
  function Cooldown(t: NotificationType): (r: nat)
    ensures t == PicoOffline ==> r == 30000
    ensures (t == MachineReady || t == MachineError) ==> r == 60000
    ensures t == WaterEmpty ==> r == 300000
    ensures (t == DescaleDue || t == ServiceDue || t == BackflushDue) ==> r == 86400000
  {
    match t
    case MachineReady => 60000
    case WaterEmpty => 300000
    case DescaleDue => 86400000
    case ServiceDue => 86400000
    case BackflushDue => 86400000
    case MachineError => 60000
    case PicoOffline => 30000
  }

  /** Alerts never wait longer than reminders before they may repeat. */
  lemma AlertsRepeatSooner(alert: NotificationType, reminder: NotificationType)
    requires IsAlertType(alert) && !IsAlertType(reminder)
    ensures Cooldown(alert) <= Cooldown(reminder)
  {
  }

  /** The channels `send` delivers a notification to. */
  datatype Channels = Channels(webSocket: bool, mqtt: bool, cloud: bool)

  /** Whether the preferences ask for a push of this type (alerts always). */
  function WantsPush(prefs: Preferences, t: NotificationType): bool {
    match t
    case MachineReady => prefs.machineReadyPush
    case WaterEmpty => prefs.waterEmptyPush
    case DescaleDue => prefs.maintenancePush
    case ServiceDue => prefs.maintenancePush
    case BackflushDue => prefs.maintenancePush
    case MachineError => true
    case PicoOffline => true
  }

  /**
   * `send`: nothing while disabled; otherwise every registered WebSocket
   * and MQTT callback, and the cloud when one is registered, push is enabled
   * and the type's preference (always, for an alert) asks for it.
   */
  function Route(t: NotificationType, enabled: bool, hasWebSocket: bool, hasMqtt: bool, hasCloud: bool,
                 prefs: Preferences): (r: Channels)
    ensures !enabled ==> r == Channels(false, false, false)
    ensures enabled ==> r.webSocket == hasWebSocket && r.mqtt == hasMqtt
    ensures r.cloud <==> enabled && hasCloud && prefs.pushEnabled && WantsPush(prefs, t)
  {
    if !enabled then Channels(false, false, false)
    else Channels(hasWebSocket, hasMqtt, hasCloud && prefs.pushEnabled && WantsPush(prefs, t))
  }

  /** An alert reaches the cloud whenever notifications are on, a cloud channel exists and push is enabled. */
  lemma AlertsAlwaysPush(t: NotificationType, hasWebSocket: bool, hasMqtt: bool, prefs: Preferences)
    requires IsAlertType(t) && prefs.pushEnabled
    ensures Route(t, true, hasWebSocket, hasMqtt, true, prefs).cloud
  {
  }

  /** A reminder reaches the cloud exactly when its own preference asks for it. */
  lemma RemindersFollowPreference(t: NotificationType, hasWebSocket: bool, hasMqtt: bool, prefs: Preferences)
    requires !IsAlertType(t) && prefs.pushEnabled
    ensures Route(t, true, hasWebSocket, hasMqtt, true, prefs).cloud <==>
      (t == MachineReady && prefs.machineReadyPush) || (t == WaterEmpty && prefs.waterEmptyPush)
      || ((t == DescaleDue || t == ServiceDue || t == BackflushDue) && prefs.maintenancePush)
  {
  }

  // ---------------------------------------------------------------------------
  // The active table, as values
  // ---------------------------------------------------------------------------

  /** No type occurs twice. */
  predicate UniqueTypes(s: seq<Notification>) {
    forall i, j :: 0 <= i < j < |s| ==> s[i].kind != s[j].kind
  }

  /** The first entry of type `t`. */
  function FindType(s: seq<Notification>, t: NotificationType): (r: Option<nat>)
    ensures r.Some? ==> r.value < |s| && s[r.value].kind == t && forall j :: 0 <= j < r.value ==> s[j].kind != t
    ensures r.None? ==> forall j :: 0 <= j < |s| ==> s[j].kind != t
  {
    if |s| == 0 then None
    else if s[0].kind == t then Some(0)
    else match FindType(s[1..], t)
      case None => None
      case Some(k) => Some(k + 1)
  }

  /** The first entry that is not an alert. */
  function FirstReminder(s: seq<Notification>): (r: Option<nat>)
    ensures r.Some? ==> r.value < |s| && !s[r.value].isAlert && forall j :: 0 <= j < r.value ==> s[j].isAlert
    ensures r.None? ==> forall j :: 0 <= j < |s| ==> s[j].isAlert
  {
    if |s| == 0 then None
    else if !s[0].isAlert then Some(0)
    else match FirstReminder(s[1..])
      case None => None
      case Some(k) => Some(k + 1)
  }

  /**
   * `addActive` on the table's entries: an entry of the same type is
   * replaced in place; otherwise the notification is appended while there
   * is room; on a full table it replaces the oldest reminder, and when every
   * entry is an alert it is dropped.
   */
  function AddedActive(s: seq<Notification>, n: Notification): seq<Notification> {
    match FindType(s, n.kind)
    case Some(i) => s[i := n]
    case None =>
      if |s| < NOTIF_MAX_ACTIVE then s + [n]
      else match FirstReminder(s)
        case Some(i) => s[i := n]
        case None => s
  }

  /** `removeActive` on the entries: the first entry of the type goes, the rest keep their order. */
  function RemovedActive(s: seq<Notification>, t: NotificationType): seq<Notification> {
    match FindType(s, t)
    case Some(i) => s[..i] + s[i + 1..]
    case None => s
  }

  /** `clearReminders` on the entries: the alerts, in their order. */
  function Alerts(s: seq<Notification>): (r: seq<Notification>)
    ensures |r| <= |s|
    ensures forall k :: 0 <= k < |r| ==> r[k].isAlert && r[k] in s
  {
    if |s| == 0 then []
    else
      var init := Alerts(s[..|s| - 1]);
      if s[|s| - 1].isAlert then init + [s[|s| - 1]] else init
  }

  /**
   * Adding keeps at most one entry per type and at most five entries. The
   * notification is in the table afterwards unless the table was full of
   * alerts of other types; then the table is unchanged. Entries of other
   * types stay in place, except the reminder a full table gives up.
   */
  lemma AddActiveKeepsTable(s: seq<Notification>, n: Notification)
    requires UniqueTypes(s) && |s| <= NOTIF_MAX_ACTIVE
    ensures var r := AddedActive(s, n);
      UniqueTypes(r) && |r| <= NOTIF_MAX_ACTIVE
      && (n in r <==> FindType(s, n.kind).Some? || |s| < NOTIF_MAX_ACTIVE || FirstReminder(s).Some?)
      && (n !in r ==> r == s)
      && (FindType(s, n.kind).Some? || |s| < NOTIF_MAX_ACTIVE ==>
            forall k :: 0 <= k < |s| && s[k].kind != n.kind ==> s[k] in r)
  {
    var r := AddedActive(s, n);
    match FindType(s, n.kind)
    case Some(i) =>
      assert r[i] == n;
      forall k | 0 <= k < |s| && s[k].kind != n.kind
        ensures s[k] in r
      {
        assert r[k] == s[k];
      }
    case None =>
      if |s| < NOTIF_MAX_ACTIVE {
        assert r[|s|] == n;
        forall k | 0 <= k < |s|
          ensures s[k] in r
        {
          assert r[k] == s[k];
        }
      } else if FirstReminder(s).Some? {
        assert r[FirstReminder(s).value] == n;
      } else {
        assert forall k :: 0 <= k < |s| ==> s[k].kind != n.kind;
      }
  }

  /** Removing leaves no entry of the type, drops exactly one entry when there was one, and keeps the others' order. */
  lemma RemoveActiveKeepsTable(s: seq<Notification>, t: NotificationType)
    requires UniqueTypes(s)
    ensures var r := RemovedActive(s, t);
      UniqueTypes(r) && FindType(r, t).None?
      && |r| == (if FindType(s, t).Some? then |s| - 1 else |s|)
      && forall k :: 0 <= k < |s| && s[k].kind != t ==> s[k] in r
  {
    match FindType(s, t)
    case None =>
    case Some(i) =>
      var r := s[..i] + s[i + 1..];
      forall k | 0 <= k < |r|
        ensures r[k] == if k < i then s[k] else s[k + 1]
      {
      }
      forall k | 0 <= k < |s| && s[k].kind != t
        ensures s[k] in r
      {
        if k < i {
          assert r[k] == s[k];
        } else {
          assert k > i;
          assert r[k - 1] == s[k];
        }
      }
  }

  /** Clearing the reminders keeps every alert, and nothing but alerts. */
  lemma {:induction false} ClearKeepsAlerts(s: seq<Notification>)
    ensures forall k :: 0 <= k < |s| && s[k].isAlert ==> s[k] in Alerts(s)
  {
    if |s| > 0 {
      var init := s[..|s| - 1];
      ClearKeepsAlerts(init);
      forall k | 0 <= k < |s| && s[k].isAlert
        ensures s[k] in Alerts(s)
      {
        if k < |s| - 1 {
          assert s[k] == init[k];
        }
      }
    }
  }

  /** Clearing the reminders twice is clearing them once. */
  lemma {:induction false} ClearIdempotent(s: seq<Notification>)
    ensures Alerts(Alerts(s)) == Alerts(s)
  {
    if |s| > 0 {
      var init := s[..|s| - 1];
      ClearIdempotent(init);
      var a := Alerts(init);
      if s[|s| - 1].isAlert {
        var r := a + [s[|s| - 1]];
        assert r[..|r| - 1] == a;
      }
    }
  }

  /** Some entry is an alert not yet acknowledged. */
  predicate HasUnacknowledgedAlert(s: seq<Notification>) {
    exists k :: 0 <= k < |s| && s[k].isAlert && !s[k].acknowledged
  }

  /** Once reminders are cleared, an unacknowledged alert remains exactly when there was one. */
  lemma ClearKeepsAlertStatus(s: seq<Notification>)
    ensures HasUnacknowledgedAlert(Alerts(s)) <==> HasUnacknowledgedAlert(s)
  {
    ClearKeepsAlerts(s);
    if HasUnacknowledgedAlert(Alerts(s)) {
      var k :| 0 <= k < |Alerts(s)| && Alerts(s)[k].isAlert && !Alerts(s)[k].acknowledged;
      var j :| 0 <= j < |s| && s[j] == Alerts(s)[k];
    }
    if HasUnacknowledgedAlert(s) {
      var k :| 0 <= k < |s| && s[k].isAlert && !s[k].acknowledged;
      var j :| 0 <= j < |Alerts(s)| && Alerts(s)[j] == s[k];
    }
  }

  /** The cooldown test of `isDuplicate`: within `cooldown` ms of the last one, with the `uint32_t` subtraction wrapping. */
  predicate WithinCooldown(now: nat, last: nat, cooldown: nat) {
    (now - last) % U32_LIMIT < cooldown
  }

  /**
   * `_lastNotified` starts at 0, so within the first cooldown after boot a
   * first notification of a type counts as a repeat and is suppressed: the
   * first "machine ready" at 30 s of uptime is not sent.
   */
  lemma FirstNotificationAfterBootSuppressed()
    ensures WithinCooldown(30000, 0, Cooldown(MachineReady))
  {
  }

  // ---------------------------------------------------------------------------
  // The manager
  // ---------------------------------------------------------------------------

  class Manager {
    /** `_active`; the first `activeCount` cells are the table. */
    const active: array<Notification>
    var activeCount: nat
    /** `_lastNotified`: when each type was last raised, in `millis()`. */
    const lastNotified: array<nat>
    var prefs: Preferences
    var enabled: bool
    const hasWebSocket: bool
    const hasMqtt: bool
    const hasCloud: bool

    ghost predicate Valid()
      reads this, active
    {
      active.Length == NOTIF_MAX_ACTIVE && lastNotified.Length == LAST_NOTIFIED_SLOTS
      && activeCount <= NOTIF_MAX_ACTIVE && UniqueTypes(active[..activeCount])
    }

    /** The table's entries, oldest first. */
    ghost function Entries(): seq<Notification>
      reads this, active
      requires activeCount <= active.Length
    {
      active[..activeCount]
    }

    /** The constructor: an empty table, no type ever raised, the default preferences. */
    constructor(hasWebSocket: bool, hasMqtt: bool, hasCloud: bool)
      ensures Valid() && Entries() == [] && prefs == DEFAULT_PREFERENCES && enabled
      ensures forall k :: 0 <= k < LAST_NOTIFIED_SLOTS ==> lastNotified[k] == 0
      ensures fresh(active) && fresh(lastNotified)
    {
      active := new Notification[NOTIF_MAX_ACTIVE](_ => Notification(MachineReady, 0, false, false));
      lastNotified := new nat[LAST_NOTIFIED_SLOTS](_ => 0);
      activeCount := 0;
      prefs := DEFAULT_PREFERENCES;
      enabled := true;
      this.hasWebSocket, this.hasMqtt, this.hasCloud := hasWebSocket, hasMqtt, hasCloud;
    }

    /**
     * `isDuplicate`: true within the type's cooldown of its last
     * notification; otherwise `now` is recorded for the type. `now` is
     * `millis()`.
     */
    method IsDuplicate(t: NotificationType, cooldown: nat, now: nat) returns (dup: bool)
      requires Valid()
      modifies lastNotified
      ensures dup <==> WithinCooldown(now, old(lastNotified[Index(t)]), cooldown)
      ensures dup ==> lastNotified[..] == old(lastNotified[..])
      ensures !dup ==> lastNotified[..] == old(lastNotified[..])[Index(t) := now]
    {
      var idx := Index(t);
      if (now - lastNotified[idx]) % U32_LIMIT < cooldown {
        return true;
      }
      lastNotified[idx] := now;
      return false;
    }

    /**
     * `addActive`: replaces the entry of the same type, else appends while
     * there is room, else replaces the oldest reminder; a table full of
     * alerts drops the notification.
     */
    method AddActive(n: Notification)
      requires Valid()
      modifies this`activeCount, active
      ensures Valid() && Entries() == AddedActive(old(Entries()), n)
    {
      ghost var s := active[..activeCount];
      AddActiveKeepsTable(s, n);
      var i := 0;
      while i < activeCount
        invariant 0 <= i <= activeCount
        invariant forall j :: 0 <= j < i ==> active[j].kind != n.kind
      {
        if active[i].kind == n.kind {
          FindTypeIs(s, n.kind, i);
          active[i] := n;
          assert active[..activeCount] == s[i := n];
          return;
        }
        i := i + 1;
      }
      assert FindType(s, n.kind).None?;
      if activeCount < NOTIF_MAX_ACTIVE {
        active[activeCount] := n;
        activeCount := activeCount + 1;
        assert active[..activeCount] == s + [n];
        return;
      }
      i := 0;
      while i < activeCount
        invariant 0 <= i <= activeCount
        invariant forall j :: 0 <= j < i ==> active[j].isAlert
      {
        if !active[i].isAlert {
          FirstReminderIs(s, i);
          active[i] := n;
          assert active[..activeCount] == s[i := n];
          return;
        }
        i := i + 1;
      }
    }

    /** `removeActive`: the entry of the type is taken out and the later ones shift down one place. */
    method RemoveActive(t: NotificationType)
      requires Valid()
      modifies this`activeCount, active
      ensures Valid() && Entries() == RemovedActive(old(Entries()), t)
    {
      ghost var s := active[..activeCount];
      RemoveActiveKeepsTable(s, t);
      var i := 0;
      while i < activeCount
        invariant 0 <= i <= activeCount
        invariant forall j :: 0 <= j < i ==> active[j].kind != t
      {
        if active[i].kind == t {
          FindTypeIs(s, t, i);
          ShiftDown(i);
          activeCount := activeCount - 1;
          assert Entries() == RemovedActive(s, t);
          return;
        }
        i := i + 1;
      }
      assert RemovedActive(s, t) == s;
    }

    /** The shifting loop of `removeActive`: the cells after `i` move down one place over it. */
    method ShiftDown(i: nat)
      requires i < activeCount <= active.Length
      modifies active
      ensures active[..activeCount - 1] == old(active[..activeCount])[..i] + old(active[..activeCount])[i + 1..]
    {
      ghost var s := active[..activeCount];
      var j := i;
      while j < activeCount - 1
        invariant i <= j <= activeCount - 1
        invariant forall k :: 0 <= k < i ==> active[k] == s[k]
        invariant forall k :: i <= k < j ==> active[k] == s[k + 1]
        invariant forall k :: j <= k < activeCount ==> active[k] == s[k]
      {
        active[j] := active[j + 1];
        j := j + 1;
      }
      assert active[..activeCount - 1] == s[..i] + s[i + 1..];
    }

    /** `clearReminders`: the alerts move down over the reminders, keeping their order. */
    method ClearReminders()
      requires Valid()
      modifies this`activeCount, active
      ensures Valid() && Entries() == Alerts(old(Entries()))
    {
      ghost var s := active[..activeCount];
      AlertsUnique(s);
      activeCount := KeepAlerts();
    }

    /** The compaction loop of `clearReminders`: the alerts among the first `activeCount` cells move to the front. */
    method KeepAlerts() returns (writeIdx: nat)
      requires activeCount <= active.Length
      modifies active
      ensures writeIdx <= activeCount && active[..writeIdx] == Alerts(old(active[..activeCount]))
    {
      ghost var s := active[..activeCount];
      writeIdx := 0;
      var i := 0;
      assert s[..0] == [];
      while i < activeCount
        invariant 0 <= writeIdx <= i <= activeCount
        invariant active[..writeIdx] == Alerts(s[..i])
        invariant forall k :: i <= k < activeCount ==> active[k] == s[k]
      {
        writeIdx := KeepOne(s, i, writeIdx);
        i := i + 1;
      }
      assert s[..activeCount] == s;
    }

    /** One step of the compaction: cell `i` is copied down to `writeIdx` when it holds an alert. */
    method KeepOne(ghost s: seq<Notification>, i: nat, writeIdx: nat) returns (w: nat)
      requires writeIdx <= i < activeCount <= active.Length && |s| == activeCount
      requires active[..writeIdx] == Alerts(s[..i])
      requires forall k :: i <= k < activeCount ==> active[k] == s[k]
      modifies active
      ensures w <= i + 1 && active[..w] == Alerts(s[..i + 1])
      ensures forall k :: i + 1 <= k < activeCount ==> active[k] == s[k]
    {
      AlertsSnoc(s, i);
      w := writeIdx;
      if active[i].isAlert {
        ghost var kept := active[..writeIdx];
        active[writeIdx] := active[i];
        assert active[..writeIdx + 1] == kept + [s[i]];
        w := writeIdx + 1;
      }
    }

    /** The alerts of one more entry: those before it, then the entry when it is an alert. */
    static lemma AlertsSnoc(s: seq<Notification>, i: nat)
      requires i < |s|
      ensures Alerts(s[..i + 1]) == if s[i].isAlert then Alerts(s[..i]) + [s[i]] else Alerts(s[..i])
    {
      assert s[..i + 1][..i] == s[..i];
    }

    /** `acknowledge`: the entry of the type is marked acknowledged; nothing else changes. */
    method Acknowledge(t: NotificationType)
      requires Valid()
      modifies active
      ensures Valid()
      ensures FindType(old(Entries()), t).Some? ==>
        Entries() == old(Entries())[FindType(old(Entries()), t).value := old(Entries())[FindType(old(Entries()), t).value].(acknowledged := true)]
      ensures FindType(old(Entries()), t).None? ==> Entries() == old(Entries())
    {
      ghost var s := active[..activeCount];
      var i := 0;
      while i < activeCount
        invariant 0 <= i <= activeCount
        invariant forall j :: 0 <= j < i ==> active[j].kind != t
      {
        if active[i].kind == t {
          FindTypeIs(s, t, i);
          active[i] := active[i].(acknowledged := true);
          assert active[..activeCount] == s[i := s[i].(acknowledged := true)];
          return;
        }
        i := i + 1;
      }
    }

    /** `hasActiveAlerts`. */
    method HasActiveAlerts() returns (r: bool)
      requires Valid()
      ensures r <==> HasUnacknowledgedAlert(Entries())
    {
      var i := 0;
      while i < activeCount
        invariant 0 <= i <= activeCount
        invariant forall j :: 0 <= j < i ==> !(active[j].isAlert && !active[j].acknowledged)
      {
        if active[i].isAlert && !active[i].acknowledged {
          assert Entries()[i] == active[i];
          return true;
        }
        i := i + 1;
      }
      return false;
    }

    /** `get`: the entry of the type, if active. */
    method Get(t: NotificationType) returns (r: Option<Notification>)
      requires Valid()
      ensures r.Some? <==> FindType(Entries(), t).Some?
      ensures r.Some? ==> r.value == Entries()[FindType(Entries(), t).value] && r.value.kind == t
    {
      var i := 0;
      while i < activeCount
        invariant 0 <= i <= activeCount
        invariant forall j :: 0 <= j < i ==> active[j].kind != t
      {
        if active[i].kind == t {
          FindTypeIs(Entries(), t, i);
          return Some(active[i]);
        }
        i := i + 1;
      }
      return None;
    }

    /**
     * `machineReady`, `waterEmpty`, `descaleDue`, `serviceDue`,
     * `backflushDue`, `machineError` and `picoOffline`: unless it repeats
     * within its cooldown, a notification of the type is stamped with the
     * wall-clock `timestamp`, sent, and added to the active table. `now` is
     * `millis()`. `sent` says which channels received it (none when
     * suppressed).
     */
    method Raise(t: NotificationType, now: nat, timestamp: nat) returns (sent: Channels)
      requires Valid()
      modifies this`activeCount, active, lastNotified
      ensures Valid()
      ensures WithinCooldown(now, old(lastNotified[Index(t)]), Cooldown(t)) ==>
        (sent == Channels(false, false, false) && Entries() == old(Entries())
         && lastNotified[..] == old(lastNotified[..]))
      ensures !WithinCooldown(now, old(lastNotified[Index(t)]), Cooldown(t)) ==>
        (sent == Route(t, enabled, hasWebSocket, hasMqtt, hasCloud, prefs)
         && Entries() == AddedActive(old(Entries()), Notification(t, timestamp, IsAlertType(t), false))
         && lastNotified[..] == old(lastNotified[..])[Index(t) := now])
    {
      var dup := IsDuplicate(t, Cooldown(t), now);
      if dup {
        return Channels(false, false, false);
      }
      var n := Notification(t, timestamp, IsAlertType(t), false);
      sent := Route(t, enabled, hasWebSocket, hasMqtt, hasCloud, prefs);
      AddActive(n);
    }

    /** `clearCondition`: the entry of the type goes, and the type may be raised again from a clean cooldown. */
    method ClearCondition(t: NotificationType)
      requires Valid()
      modifies this`activeCount, active, lastNotified
      ensures Valid() && Entries() == RemovedActive(old(Entries()), t)
      ensures lastNotified[..] == old(lastNotified[..])[Index(t) := 0]
    {
      RemoveActive(t);
      lastNotified[Index(t)] := 0;
    }
  }

  lemma FindTypeIs(s: seq<Notification>, t: NotificationType, i: nat)
    requires i < |s| && s[i].kind == t && forall j :: 0 <= j < i ==> s[j].kind != t
    ensures FindType(s, t) == Some(i)
  {
    var r := FindType(s, t);
    assert r.Some?;
  }

  lemma FirstReminderIs(s: seq<Notification>, i: nat)
    requires i < |s| && !s[i].isAlert && forall j :: 0 <= j < i ==> s[j].isAlert
    ensures FirstReminder(s) == Some(i)
  {
    var r := FirstReminder(s);
    assert r.Some?;
  }

  /** The alerts of a table with one entry per type have one entry per type. */
  lemma {:induction false} AlertsUnique(s: seq<Notification>)
    requires UniqueTypes(s)
    ensures UniqueTypes(Alerts(s))
  {
    if |s| > 0 {
      var init := s[..|s| - 1];
      AlertsUnique(init);
      if s[|s| - 1].isAlert {
        var a := Alerts(init);
        forall k | 0 <= k < |a|
          ensures a[k].kind != s[|s| - 1].kind
        {
          var j :| 0 <= j < |init| && init[j] == a[k];
          assert s[j] == init[j];
        }
      }
    }
  }
}
