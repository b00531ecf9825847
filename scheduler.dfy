/** The scan scheduler (`startScanning`, `stopScanning` and the `change` and
    `visibilitychange` listeners): one module-level `timer` holding the handle
    of the running `setInterval`, or nothing. The host's running intervals are
    modelled as the set `live` of their handles, and handles are issued in
    increasing order. */
module Scheduling {
  import opened Util

  /** A running `setInterval`: its handle and its period. */
  datatype Interval = Interval(handle: nat, periodMs: int)

  class Scheduler {
    /** The script's `timer` variable. */
    var timer: Option<Interval>
    /** The handles of the intervals the host is running. */
    var live: set<nat>
    /** The handle the host will issue next. */
    var nextHandle: nat
    /** Whether the enable box `#tp-enableExfil` is checked. */
    var enableChecked: bool

    /** No interval runs unless `timer` holds it, and `timer` holds a running
        one: so at most one interval ever runs. */
    ghost predicate Valid()
      reads this
    {
      && (timer.None? ==> live == {})
      && (timer.Some? ==> live == {timer.value.handle})
      && (forall h :: h in live ==> h < nextHandle)
    }

    /** The mount: the box starts as `DEFAULT_ENABLE`, and scanning starts
        right away when it is checked. */
    constructor(defaultEnable: bool, intervalMs: int)
      ensures Valid()
      ensures enableChecked == defaultEnable
      ensures defaultEnable ==> timer == Some(Interval(0, intervalMs)) && live == {0}
      ensures !defaultEnable ==> timer == None && live == {}
    {
      timer := None;
      live := {};
      nextHandle := 0;
      enableChecked := defaultEnable;
      new;
      if defaultEnable {
        StartScanning(intervalMs);
      }
    }

    /** `stopScanning()`: clear the running interval, if any. */
    method StopScanning()
      requires Valid()
      modifies this
      ensures Valid()
      ensures timer == None && live == {}
      ensures nextHandle == old(nextHandle) && enableChecked == old(enableChecked)
      ensures old(timer) == None ==> unchanged(this)
    {
      if timer.Some? {
        live := live - {timer.value.handle};
        timer := None;
      }
    }

    /** `startScanning(ms)`: stop first, then start a fresh interval. */
    method StartScanning(intervalMs: int)
      requires Valid()
      modifies this
      ensures Valid()
      ensures timer == Some(Interval(old(nextHandle), intervalMs))
      ensures live == {old(nextHandle)}
      ensures nextHandle == old(nextHandle) + 1 && enableChecked == old(enableChecked)
    {
      StopScanning();
      var h := nextHandle;
      nextHandle := nextHandle + 1;
      live := live + {h};
      timer := Some(Interval(h, intervalMs));
    }

    /** The interval callback of handle `h`: whether this tick runs
        `exfiltrateOnce()`. The box is read at tick time. */
    method Tick(h: nat) returns (scan: bool)
      requires Valid()
      ensures scan <==> h in live && enableChecked
      ensures scan ==> timer.Some? && h == timer.value.handle
    {
      scan := h in live && enableChecked;
    }

    /** The `change` listener for the enable box, which now reads `checked`:
        checking it starts scanning at the selected interval, unchecking it
        stops scanning. */
    method OnEnableChange(checked: bool, selectedMs: int)
      requires Valid()
      modifies this
      ensures Valid()
      ensures enableChecked == checked
      ensures checked ==> timer == Some(Interval(old(nextHandle), selectedMs)) && live == {old(nextHandle)}
      ensures checked ==> nextHandle == old(nextHandle) + 1
      ensures !checked ==> timer == None && live == {} && nextHandle == old(nextHandle)
    {
      enableChecked := checked;
      if checked {
        StartScanning(selectedMs);
      } else {
        StopScanning();
      }
    }

    /** The `change` listener for the interval selector: a new interval takes
        effect only while the box is checked. */
    method OnIntervalChange(selectedMs: int)
      requires Valid()
      modifies this
      ensures Valid()
      ensures enableChecked == old(enableChecked)
      ensures enableChecked ==> timer == Some(Interval(old(nextHandle), selectedMs)) && live == {old(nextHandle)}
      ensures enableChecked ==> nextHandle == old(nextHandle) + 1
      ensures !enableChecked ==> unchanged(this)
    {
      if enableChecked {
        StartScanning(selectedMs);
      }
    }

    /** The `visibilitychange` listener: hiding the page stops scanning, and
        showing it again starts nothing. */
    method OnVisibilityChange(hidden: bool)
      requires Valid()
      modifies this
      ensures Valid()
      ensures enableChecked == old(enableChecked)
      ensures hidden ==> timer == None && live == {} && nextHandle == old(nextHandle)
      ensures !hidden ==> unchanged(this)
    {
      if hidden {
        StopScanning();
      }
    }
  }

  /** At most one interval runs at any time. */
  lemma AtMostOneInterval(s: Scheduler)
    requires s.Valid()
    ensures |s.live| <= 1
    ensures forall h :: h in s.live ==> s.timer == Some(Interval(h, s.timer.value.periodMs))
  {
  }
}
