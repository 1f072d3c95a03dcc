/** The Android side: the native module that keeps the monitoring flag and the schedule text in
    the "AppSettings" shared preferences (AppBlockerModule.kt), and the accessibility service that
    opens the blocking overlay (AppMonitorService.kt). */
module AppBlocker {
  import opened Options

  /** A value in the preferences file: each key is written with one type only. */
  datatype Pref = BoolPref(b: bool) | StringPref(s: string)

  const MonitoringKey: string := "IsMonitoringEnabled"
  const ScheduleKey: string := "jsonSchedule"
  /** What `getSchedule` answers while no schedule has been stored. */
  const DefaultSchedule: string := "[]"

  /** The monitoring flag holds a boolean and the schedule a string, so reading either with its
      typed getter cannot fail. */
  predicate WellTyped(entries: map<string, Pref>) {
    && (MonitoringKey in entries ==> entries[MonitoringKey].BoolPref?)
    && (ScheduleKey in entries ==> entries[ScheduleKey].StringPref?)
  }

  /** `getBoolean("IsMonitoringEnabled", false)`. */
  function MonitoringFlag(entries: map<string, Pref>): bool
    requires WellTyped(entries)
  {
    if MonitoringKey in entries then entries[MonitoringKey].b else false
  }

  /** `getString("jsonSchedule", "[]")`. */
  function StoredSchedule(entries: map<string, Pref>): string
    requires WellTyped(entries)
  {
    if ScheduleKey in entries then entries[ScheduleKey].s else DefaultSchedule
  }

  /** Writing the schedule never changes the monitoring flag, and writing the flag never changes
      the schedule: the two live under different keys. */
  lemma KeysAreIndependent(entries: map<string, Pref>, enabled: bool, json: string)
    requires WellTyped(entries)
    ensures WellTyped(entries[ScheduleKey := StringPref(json)])
    ensures MonitoringFlag(entries[ScheduleKey := StringPref(json)]) == MonitoringFlag(entries)
    ensures WellTyped(entries[MonitoringKey := BoolPref(enabled)])
    ensures StoredSchedule(entries[MonitoringKey := BoolPref(enabled)]) == StoredSchedule(entries)
  {
    assert MonitoringKey != ScheduleKey;
  }

  /** The "AppSettings" preferences file that the module and the service both open. */
  class Preferences {
    var entries: map<string, Pref>

    constructor ()
      ensures entries == map[]
    {
      entries := map[];
    }
  }

  /** AppBlockerModule.kt: the React Native bridge over the preferences file. */
  class AppBlockerModule {
    const prefs: Preferences

    constructor (prefs: Preferences)
      ensures this.prefs == prefs
    {
      this.prefs := prefs;
    }

    /** `toggleMonitoring`: stores the negation of the current flag (unset reads as false) and
        resolves with the new value; the schedule is left alone. */
    method ToggleMonitoring() returns (enabled: bool)
      requires WellTyped(prefs.entries)
      modifies prefs
      ensures enabled == !old(MonitoringFlag(prefs.entries))
      ensures prefs.entries == old(prefs.entries)[MonitoringKey := BoolPref(enabled)]
      ensures WellTyped(prefs.entries) && MonitoringFlag(prefs.entries) == enabled
      ensures StoredSchedule(prefs.entries) == old(StoredSchedule(prefs.entries))
    {
      var current := MonitoringFlag(prefs.entries);
      prefs.entries := prefs.entries[MonitoringKey := BoolPref(!current)];
      enabled := !current;
    }

    /** `isMonitoringEnabled`: the stored flag, false when it was never written; nothing changes. */
    method IsMonitoringEnabled() returns (enabled: bool)
      requires WellTyped(prefs.entries)
      ensures enabled <==> MonitoringKey in prefs.entries && prefs.entries[MonitoringKey] == BoolPref(true)
    {
      enabled := MonitoringFlag(prefs.entries);
    }

    /** `updateSchedule`: stores the schedule text verbatim; the flag is left alone. */
    method UpdateSchedule(json: string)
      requires WellTyped(prefs.entries)
      modifies prefs
      ensures prefs.entries == old(prefs.entries)[ScheduleKey := StringPref(json)]
      ensures WellTyped(prefs.entries) && StoredSchedule(prefs.entries) == json
      ensures MonitoringFlag(prefs.entries) == old(MonitoringFlag(prefs.entries))
    {
      prefs.entries := prefs.entries[ScheduleKey := StringPref(json)];
    }

    /** `getSchedule`: the stored text, `"[]"` when none was stored; nothing changes. */
    method GetSchedule() returns (json: string)
      requires WellTyped(prefs.entries)
      ensures ScheduleKey in prefs.entries ==> StringPref(json) == prefs.entries[ScheduleKey]
      ensures ScheduleKey !in prefs.entries ==> json == "[]"
    {
      json := StoredSchedule(prefs.entries);
    }
  }

  /** Two toggles in a row restore the flag and report it negated in between. */
  method ToggleTwice(m: AppBlockerModule) returns (first: bool, second: bool)
    requires WellTyped(m.prefs.entries)
    modifies m.prefs
    ensures first == !old(MonitoringFlag(m.prefs.entries)) && second == !first
    ensures WellTyped(m.prefs.entries) && MonitoringFlag(m.prefs.entries) == old(MonitoringFlag(m.prefs.entries))
  {
    first := m.ToggleMonitoring();
    second := m.ToggleMonitoring();
  }

  /** Reading the schedule right after writing it gives back the text written. */
  method UpdateThenGet(m: AppBlockerModule, json: string) returns (got: string)
    requires WellTyped(m.prefs.entries)
    modifies m.prefs
    ensures got == json
  {
    m.UpdateSchedule(json);
    got := m.GetSchedule();
  }

  /** The parts of an `AccessibilityEvent` the service reads. */
  datatype AccessibilityEvent = AccessibilityEvent(eventType: int, packageName: Option<string>)

  /** `AccessibilityEvent.TYPE_WINDOW_STATE_CHANGED`. */
  const TypeWindowStateChanged: int := 0x20
  /** The one package the service blocks. */
  const BlockedPackage: string := "com.instagram.android"

  /** Kotlin's `CharSequence.contains`: `sub` occurs somewhere in `s`. */
  function Contains(s: string, sub: string): bool
    decreases |s|
  {
    if |sub| > |s| then false
    else s[..|sub|] == sub || Contains(s[1..], sub)
  }

  /** `sub` occurs in `s` starting at position `i`. */
  predicate OccursAt(s: string, sub: string, i: int) {
    0 <= i && i + |sub| <= |s| && s[i..i + |sub|] == sub
  }

  /** `Contains` finds an occurrence at any position, not only at the start. */
  lemma {:induction false} ContainsIff(s: string, sub: string)
    ensures Contains(s, sub) <==> exists i :: OccursAt(s, sub, i)
    decreases |s|
  {
    if |sub| <= |s| && s[..|sub|] != sub {
      ContainsIff(s[1..], sub);
      if exists i :: OccursAt(s, sub, i) {
        var i :| OccursAt(s, sub, i);
        assert s[1..][i - 1..i - 1 + |sub|] == s[i..i + |sub|];
        assert OccursAt(s[1..], sub, i - 1);
      }
      if Contains(s[1..], sub) {
        var j :| OccursAt(s[1..], sub, j);
        assert s[j + 1..j + 1 + |sub|] == s[1..][j..j + |sub|];
        assert OccursAt(s, sub, j + 1);
      }
    } else if |sub| <= |s| {
      assert OccursAt(s, sub, 0);
    }
  }

  /** The overlay decision of `onAccessibilityEvent`: a window-state change, monitoring on, a
      package name containing the blocked package, and overlay permission. */
  predicate LaunchesOverlay(event: Option<AccessibilityEvent>, monitoringEnabled: bool, canDrawOverlays: bool) {
    && event.Some?
    && event.value.eventType == TypeWindowStateChanged
    && monitoringEnabled
    && event.value.packageName.Some?
    && Contains(event.value.packageName.value, BlockedPackage)
    && canDrawOverlays
  }

  /** The overlay opens exactly when all four conditions hold; the package test is an occurrence
      of the blocked package anywhere in the name. */
  lemma LaunchesOverlayIff(event: Option<AccessibilityEvent>, monitoringEnabled: bool, canDrawOverlays: bool)
    ensures LaunchesOverlay(event, monitoringEnabled, canDrawOverlays) <==>
      && event.Some? && event.value.eventType == TypeWindowStateChanged
      && monitoringEnabled && canDrawOverlays
      && event.value.packageName.Some?
      && exists i :: OccursAt(event.value.packageName.value, BlockedPackage, i)
  {
    if event.Some? && event.value.packageName.Some? {
      ContainsIff(event.value.packageName.value, BlockedPackage);
    }
  }

  /** Any package name with the blocked package inside it is blocked, not only the exact name. */
  lemma EmbeddedPackageIsBlocked(prefix: string, suffix: string)
    ensures LaunchesOverlay(Some(AccessibilityEvent(TypeWindowStateChanged, Some(prefix + BlockedPackage + suffix))),
                            true, true)
  {
    var name := prefix + BlockedPackage + suffix;
    assert name[|prefix|..|prefix| + |BlockedPackage|] == BlockedPackage;
    assert OccursAt(name, BlockedPackage, |prefix|);
    ContainsIff(name, BlockedPackage);
  }

  /** AppMonitorService.kt: the accessibility service; `overlayLaunches` counts the overlay
      activities it has started. */
  class AppMonitorService {
    var prefs: Preferences?
    var overlayLaunches: nat

    constructor ()
      ensures prefs == null && overlayLaunches == 0
    {
      prefs := null;
      overlayLaunches := 0;
    }

    /** `onServiceConnected`: opens the preferences file. */
    method OnServiceConnected(p: Preferences)
      modifies this
      ensures prefs == p && overlayLaunches == old(overlayLaunches)
    {
      prefs := p;
    }

    /** `onAccessibilityEvent`: starts one overlay activity when the decision says so, nothing
        otherwise; only the monitoring flag is read from the preferences, never the schedule. */
    method OnAccessibilityEvent(event: Option<AccessibilityEvent>, canDrawOverlays: bool)
      requires prefs != null && WellTyped(prefs.entries)
      modifies this`overlayLaunches
      ensures overlayLaunches == old(overlayLaunches) +
        (if LaunchesOverlay(event, MonitoringFlag(prefs.entries), canDrawOverlays) then 1 else 0)
    {
      if event.Some? && event.value.eventType == TypeWindowStateChanged {
        if MonitoringFlag(prefs.entries) {
          if event.value.packageName.Some? {
            if Contains(event.value.packageName.value, BlockedPackage) {
              if canDrawOverlays {
                overlayLaunches := overlayLaunches + 1;
              }
            }
          }
        }
      }
    }
  }
}
