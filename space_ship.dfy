/** The parts of Spaceman/spaceship/SpaceShip.swift with rules in them:
    the overheat gate of `fireBullet` and the three-way flame speed of
    `accelerate`. The ship's position (`position` of the sprite) is kept
    here too, for the touch handling of the scene. */
module Ship {
  import Heat
  import Overheat

  const FastFlame := 300
  const NormalFlame := 100
  const SlowFlame := 20

  /** The particle speed of the engine flame for a vertical acceleration. */
  function FlameSpeed(accelerate: real): (speed: int)
    ensures speed == FastFlame <==> accelerate > 4.0
    ensures speed == SlowFlame <==> accelerate < -4.0
    ensures speed == NormalFlame <==> -4.0 <= accelerate <= 4.0
  {
    if accelerate > 4.0 then FastFlame
    else if accelerate < -4.0 then SlowFlame
    else NormalFlame
  }

  class SpaceShip {
    const overheat: Overheat.LaserOverheat
    /** The sprite's size after scaling. */
    const width: real
    const height: real
    var x: real
    var y: real
    /** `fireEmitter.particleSpeed` */
    var particleSpeed: int

    constructor (width: real, height: real, particleSpeed: int)
      ensures fresh(overheat) && overheat.Snapshot() == Heat.Initial()
      ensures this.width == width && this.height == height
      ensures x == 0.0 && y == 0.0 && this.particleSpeed == particleSpeed
    {
      overheat := new Overheat.LaserOverheat();
      this.width := width;
      this.height := height;
      x, y := 0.0, 0.0;
      this.particleSpeed := particleSpeed;
    }

    /** Fires when the laser is not overheated; the bullet's node and its
        animation are not part of this model. */
    method FireBullet() returns (fired: bool)
      modifies overheat
      ensures fired == Heat.CanShoot(old(overheat.Snapshot()))
      ensures overheat.Snapshot() ==
        if fired then Heat.DidShot(old(overheat.Snapshot())) else old(overheat.Snapshot())
      ensures old(overheat.infiniteShoot) ==> fired && overheat.Snapshot() == old(overheat.Snapshot())
      ensures Heat.Valid(old(overheat.Snapshot())) ==> Heat.Valid(overheat.Snapshot())
    {
      if !overheat.CanShoot() {
        return false;
      }
      overheat.DidShot();
      return true;
    }

    method Accelerate(accelerate: real)
      modifies this
      ensures particleSpeed == FlameSpeed(accelerate)
      ensures x == old(x) && y == old(y)
    {
      if accelerate > 4.0 {
        particleSpeed := FastFlame;
      } else if accelerate < -4.0 {
        particleSpeed := SlowFlame;
      } else {
        particleSpeed := NormalFlame;
      }
    }
  }
}
