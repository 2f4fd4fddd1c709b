/** The laser overheat of Spaceman/spaceship/SpaceShipLaserOverheat.swift
    as values: a heat counter bounded by `heatLimit` and a two-phase cool-off
    timer. Time is counted in whole cool-off steps of 0.5 seconds: the first
    tick after a shot comes 2 steps later, then one tick per step. */
module Heat {
  import opened Ints

  const DefaultHeatLimit := 20
  /** The one-shot first phase waits two steps. */
  const FirstDelay := 2
  /** The repeating phase ticks every step. */
  const Period := 1

  /** `coolOffTimer`: none, the one-shot of the first phase, or the
      repeating timer; `wait` is the number of steps until it fires. */
  datatype CoolTimer = Idle | OneShot(wait: nat) | Repeating(wait: nat)

  /** `observer` says whether `startsToCoolOff` is set; `notices` holds the
      arguments it was called with, in steps (multiply by 0.5 for seconds). */
  datatype Overheat = Overheat(
    heat: int,
    heatLimit: int,
    infiniteShoot: bool,
    firstCallback: bool,
    timer: CoolTimer,
    observer: bool,
    notices: seq<int>)

  function Initial(): Overheat {
    Overheat(0, DefaultHeatLimit, false, false, Idle, false, [])
  }

  predicate Valid(o: Overheat) {
    0 <= o.heat <= o.heatLimit
  }

  predicate CanShoot(o: Overheat) {
    o.heat < o.heatLimit || o.infiniteShoot
  }

  /** A shot heats the laser by one, up to the limit, and (re)arms the
      one-shot first phase of the cool-off. */
  function DidShot(o: Overheat): Overheat {
    if o.infiniteShoot then o
    else o.(heat := Min(o.heat + 1, o.heatLimit), firstCallback := true, timer := OneShot(FirstDelay))
  }

  /** The timer callback, once the timer that fired has been consumed (a
      one-shot) or rescheduled (the repeating one). The first callback after
      a shot reports the remaining cool-off time and installs the repeating
      timer; every callback cools by one; at 0 the callback invalidates the
      timer that fired, which is the current one unless it was just
      replaced. */
  function CoolOffCallback(o: Overheat): Overheat {
    var t :=
      if o.firstCallback then
        o.(firstCallback := false,
           notices := if o.observer then o.notices + [o.heat] else o.notices,
           timer := Repeating(Period))
      else o;
    var t := t.(heat := Max(t.heat - 1, 0));
    if t.heat == 0 && !o.firstCallback then t.(timer := Idle) else t
  }

  /** One step of time. */
  function Elapse(o: Overheat): Overheat {
    match o.timer
    case Idle => o
    case OneShot(w) =>
      if w > 1 then o.(timer := OneShot(w - 1)) else CoolOffCallback(o.(timer := Idle))
    case Repeating(w) =>
      if w > 1 then o.(timer := Repeating(w - 1)) else CoolOffCallback(o.(timer := Repeating(Period)))
  }

  function Elapsed(o: Overheat, n: nat): Overheat
    decreases n
  {
    if n == 0 then o else Elapsed(Elapse(o), n - 1)
  }

  function Shots(o: Overheat, n: nat): Overheat {
    if n == 0 then o else DidShot(Shots(o, n - 1))
  }

  function CoolOff(o: Overheat): Overheat {
    o.(heat := 0, timer := Idle)
  }

  /** Setting `infiniteShoot`, with its `didSet` observer. */
  function SetInfiniteShoot(o: Overheat, on: bool): Overheat {
    var t := o.(infiniteShoot := on);
    if on then CoolOff(t) else t
  }

  function Upgrade(o: Overheat, i: int): Overheat {
    o.(heatLimit := o.heatLimit + i)
  }

  // ======================================================================
  // Lemmas

  /** The bounds on heat are kept by every operation, by `Upgrade` when it
      does not lower the limit. */
  lemma OperationsKeepValid(o: Overheat, on: bool, i: int)
    requires Valid(o)
    ensures Valid(DidShot(o))
    ensures Valid(Elapse(o))
    ensures Valid(CoolOff(o))
    ensures Valid(SetInfiniteShoot(o, on))
    ensures i >= 0 ==> Valid(Upgrade(o, i))
  {
  }

  /** A shot: nothing at all with infinite shooting; otherwise one more
      unit of heat, up to the limit, and a fresh first phase of two steps. */
  lemma ShotEffect(o: Overheat)
    requires Valid(o)
    ensures var r := DidShot(o);
      && (o.infiniteShoot ==> r == o)
      && (!o.infiniteShoot ==>
            && r.heat == (if o.heat < o.heatLimit then o.heat + 1 else o.heatLimit)
            && r.heat >= o.heat
            && r.timer == OneShot(FirstDelay) && r.firstCallback
            && r.heatLimit == o.heatLimit && r.notices == o.notices)
  {
  }

  /** Time alone never heats the laser, and cools it by at most one per step. */
  lemma ElapseCools(o: Overheat)
    requires o.heat >= 0
    ensures o.heat - 1 <= Elapse(o).heat <= o.heat
    ensures Elapse(o).heat >= 0
    ensures Elapse(o).heatLimit == o.heatLimit && Elapse(o).infiniteShoot == o.infiniteShoot
  {
  }

  /** `n` shots with no time between them add `n` to the heat, up to the
      limit. */
  lemma {:induction false} ShotsSaturate(o: Overheat, n: nat)
    requires Valid(o) && !o.infiniteShoot
    ensures Valid(Shots(o, n))
    ensures Shots(o, n).heat == Min(o.heat + n, o.heatLimit)
    ensures Shots(o, n).heatLimit == o.heatLimit && !Shots(o, n).infiniteShoot
  {
    if n > 0 {
      ShotsSaturate(o, n - 1);
    }
  }

  /** From a cold laser, `heatLimit` shots in a row block the next one. */
  lemma LimitShotsBlock(o: Overheat)
    requires Valid(o) && !o.infiniteShoot && o.heat == 0
    ensures !CanShoot(Shots(o, o.heatLimit))
  {
    ShotsSaturate(o, o.heatLimit);
  }

  /** The repeating phase: one unit of heat per step until 0, then the timer
      stops; nothing is reported. */
  lemma {:induction false} RepeatingPhase(o: Overheat, k: nat)
    requires o.timer == Repeating(Period) && !o.firstCallback && o.heat >= 0
    ensures var r := Elapsed(o, k);
      && r.heat == Max(o.heat - k, 0)
      && r.timer == (if k >= Max(o.heat, 1) then Idle else Repeating(Period))
      && !r.firstCallback
      && r.notices == o.notices && r.heatLimit == o.heatLimit
    decreases k
  {
    if k > 0 {
      var o' := Elapse(o);
      if o.heat <= 1 {
        assert o'.timer == Idle && o'.heat == 0;
        IdleStays(o', k - 1);
      } else {
        RepeatingPhase(o', k - 1);
      }
    }
  }

  lemma {:induction false} IdleStays(o: Overheat, k: nat)
    requires o.timer == Idle
    ensures Elapsed(o, k) == o
  {
    if k > 0 {
      IdleStays(o, k - 1);
    }
  }

  /** After a shot: nothing happens during the first step; at the second
      step the remaining cool-off time is reported once and the first unit
      of heat goes; after 2 + k steps, k + 1 units have gone (down to 0). */
  lemma CooldownAfterShot(o: Overheat, k: nat)
    requires o.timer == OneShot(FirstDelay) && o.firstCallback && o.heat >= 0
    ensures Elapsed(o, 1).heat == o.heat
    ensures var r := Elapsed(o, FirstDelay + k);
      && r.heat == Max(o.heat - (k + 1), 0)
      && r.notices == o.notices + (if o.observer then [o.heat] else [])
      && r.heatLimit == o.heatLimit
  {
    var o2 := Elapse(Elapse(o));
    assert Elapsed(o, FirstDelay + k) == Elapsed(o2, k);
    assert o2.timer == Repeating(Period) && !o2.firstCallback && o2.heat == Max(o.heat - 1, 0);
    RepeatingPhase(o2, k);
  }

  /** Cooling off leaves a cold laser with no pending tick; turning infinite
      shooting on cools off, turning it off changes nothing else. */
  lemma CoolOffResets(o: Overheat)
    ensures CoolOff(o).heat == 0 && CoolOff(o).timer == Idle
    ensures CoolOff(o).heatLimit > 0 ==> CanShoot(CoolOff(o))
    ensures forall k: nat :: Elapsed(CoolOff(o), k) == CoolOff(o)
    ensures SetInfiniteShoot(o, true) == CoolOff(o).(infiniteShoot := true)
    ensures SetInfiniteShoot(o, false) == o.(infiniteShoot := false)
  {
    forall k: nat ensures Elapsed(CoolOff(o), k) == CoolOff(o) {
      IdleStays(CoolOff(o), k);
    }
  }

  /** With infinite shooting every shot is allowed and the laser stays cold. */
  lemma {:induction false} InfiniteStaysCold(o: Overheat, n: nat)
    ensures var r := Shots(SetInfiniteShoot(o, true), n);
      && r.heat == 0 && CanShoot(r) && r.timer == Idle
  {
    if n > 0 {
      InfiniteStaysCold(o, n - 1);
    }
  }

  /** An upgrade moves the limit and nothing else. */
  lemma UpgradeOnlyLimit(o: Overheat, i: int)
    ensures Upgrade(o, i).heatLimit == o.heatLimit + i
    ensures Upgrade(o, i).(heatLimit := o.heatLimit) == o
  {
  }
}
