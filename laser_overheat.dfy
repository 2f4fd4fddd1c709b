/** The class `SpaceShipLaserOverheat` of
    Spaceman/spaceship/SpaceShipLaserOverheat.swift: its fields are updated
    in place; the run loop's timer becomes the field `coolOffTimer` and the
    method `Elapse`, which lets one cool-off step of time pass. Each method
    is proved to move `Snapshot()` as the matching function of `Heat` does. */
module Overheat {
  import opened Heat
  import opened Ints

  class LaserOverheat {
    var heatLimit: int
    var heat: int
    var infiniteShoot: bool
    var coolOffTimer: CoolTimer
    var isFirstCoolOffCallback: bool
    /** Whether the `startsToCoolOff` block is set. */
    var hasStartsToCoolOff: bool
    /** The arguments `startsToCoolOff` was called with, in steps. */
    var coolOffNotices: seq<int>

    function Snapshot(): Overheat
      reads this
    {
      Overheat(heat, heatLimit, infiniteShoot, isFirstCoolOffCallback, coolOffTimer,
               hasStartsToCoolOff, coolOffNotices)
    }

    constructor ()
      ensures Snapshot() == Initial()
      ensures Valid(Snapshot())
    {
      heatLimit := DefaultHeatLimit;
      heat := 0;
      infiniteShoot := false;
      coolOffTimer := Idle;
      isFirstCoolOffCallback := false;
      hasStartsToCoolOff := false;
      coolOffNotices := [];
    }

    /** `startsToCoolOff = { … }` */
    method SetStartsToCoolOff()
      modifies this
      ensures Snapshot() == old(Snapshot()).(observer := true)
    {
      hasStartsToCoolOff := true;
    }

    function CanShoot(): (can: bool)
      reads this
      ensures can == Heat.CanShoot(Snapshot())
      ensures !infiniteShoot && heat >= heatLimit ==> !can
    {
      heat < heatLimit || infiniteShoot
    }

    method DidShot()
      modifies this
      ensures Snapshot() == Heat.DidShot(old(Snapshot()))
      ensures old(Valid(Snapshot())) ==> Valid(Snapshot())
    {
      if infiniteShoot {
        return;
      }
      heat := Min(heat + 1, heatLimit);
      isFirstCoolOffCallback := true;
      coolOffTimer := OneShot(FirstDelay);
    }

    /** The timer callback; the timer that fired has already been consumed
        or rescheduled by `Elapse`. */
    method CoolOffCallback()
      modifies this
      ensures Snapshot() == Heat.CoolOffCallback(old(Snapshot()))
    {
      var replaced := false;
      if isFirstCoolOffCallback {
        isFirstCoolOffCallback := false;
        if hasStartsToCoolOff {
          coolOffNotices := coolOffNotices + [heat];
        }
        coolOffTimer := Repeating(Period);
        replaced := true;
      }
      heat := Max(heat - 1, 0);
      // invalidating the timer that fired stops the current timer only if
      // the callback did not just replace it
      if heat == 0 && !replaced {
        coolOffTimer := Idle;
      }
    }

    /** One cool-off step of time passes. */
    method Elapse()
      modifies this
      ensures Snapshot() == Heat.Elapse(old(Snapshot()))
      ensures old(Valid(Snapshot())) ==> Valid(Snapshot())
      ensures heat <= old(heat) || old(heat) < 0
    {
      match coolOffTimer
      case Idle =>
      case OneShot(w) =>
        if w > 1 {
          coolOffTimer := OneShot(w - 1);
        } else {
          coolOffTimer := Idle;
          CoolOffCallback();
        }
      case Repeating(w) =>
        if w > 1 {
          coolOffTimer := Repeating(w - 1);
        } else {
          coolOffTimer := Repeating(Period);
          CoolOffCallback();
        }
    }

    method CoolOff()
      modifies this
      ensures Snapshot() == Heat.CoolOff(old(Snapshot()))
      ensures heat == 0 && coolOffTimer == Idle
    {
      heat := 0;
      coolOffTimer := Idle;
    }

    /** `infiniteShoot = on` with its `didSet` observer. */
    method SetInfiniteShoot(on: bool)
      modifies this
      ensures Snapshot() == Heat.SetInfiniteShoot(old(Snapshot()), on)
      ensures old(Valid(Snapshot())) ==> Valid(Snapshot())
    {
      infiniteShoot := on;
      if infiniteShoot {
        CoolOff();
      }
    }

    method Upgrade(heatLimitIncrease: int)
      modifies this
      ensures Snapshot() == Heat.Upgrade(old(Snapshot()), heatLimitIncrease)
      ensures heatLimitIncrease >= 0 && old(Valid(Snapshot())) ==> Valid(Snapshot())
    {
      heatLimit := heatLimit + heatLimitIncrease;
    }
  }
}
