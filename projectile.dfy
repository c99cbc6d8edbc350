/** js/entities/Projectile.js: a homing shot that flies towards its target
    enemy and, once within 5 units, deals the tower's damage (and the water
    tower's slow) exactly once. */
module Projectiles {
  import opened Geometry
  import opened Config
  import opened Enemies

  /** The arguments `hitTarget` passes to `takeDamage`. */
  datatype HitParams = HitParams(damage: real, slowEffect: real, slowDuration: real, currentTime: real)

  /** `slowEffect = config.slowEffect || 0`, and a 2000 ms slow only when it
      is positive. */
  function HitParamsOf(config: TowerConfig, currentTime: real): (h: HitParams)
    ensures h.damage == config.damage && h.currentTime == currentTime
    ensures config.slowEffect.None? ==> h.slowEffect == 0.0 && h.slowDuration == 0.0
    ensures h.slowDuration == 2000.0 <==> h.slowEffect > 0.0
    ensures h.slowDuration == 0.0 <==> !(h.slowEffect > 0.0)
  {
    var slow := if config.slowEffect.Some? then config.slowEffect.value else 0.0;
    HitParams(config.damage, slow, if slow > 0.0 then 2000.0 else 0.0, currentTime)
  }

  /** A configured slow is passed on unchanged: the hit carries exactly the
      tower's `slowEffect`, and lasts 2000 ms exactly when that is positive. */
  lemma HitCarriesSlow(config: TowerConfig, currentTime: real)
    requires config.slowEffect.Some?
    ensures var h := HitParamsOf(config, currentTime);
      && h.slowEffect == config.slowEffect.value
      && (h.slowDuration == 2000.0 <==> config.slowEffect.value > 0.0)
  {
  }

  /** Among the configured towers only the water tower's hits slow, by half
      for two seconds; every hit deals the tower's configured damage. */
  lemma OnlyWaterSlows(t: TowerType, currentTime: real)
    ensures var h := HitParamsOf(TowerTypes(t), currentTime);
      && h.damage == TowerTypes(t).damage > 0.0
      && (h.slowEffect > 0.0 <==> t == Water)
      && (t == Water ==> h.slowEffect == 0.5 && h.slowDuration == 2000.0)
  {
  }

  /** The state a projectile can be in. `target` is the enemy it chases, or
      null. */
  datatype ProjectileState = ProjectileState(
    pos: Point,
    target: Enemy?,
    config: TowerConfig,
    shouldRemove: bool,
    currentTime: real,
    speed: real)

  function Launched(pos: Point, target: Enemy?, config: TowerConfig): (p: ProjectileState)
    ensures !p.shouldRemove && p.speed == config.projectileSpeed
    ensures p.pos == pos && p.target == target && p.config == config
  {
    ProjectileState(pos, target, config, false, 0.0, config.projectileSpeed)
  }

  /** What one `update` does: the projectile's next state, and the hit it
      delivers to its target, if any. */
  datatype Outcome = Outcome(next: ProjectileState, hit: Option<HitParams>)

  /** One frame of `update(time, delta)`; `target` is the state of the enemy
      the projectile chases at that moment (None for a null target). */
  function ProjectileStep(p: ProjectileState, target: Option<EnemyState>, time: real, delta: real, hypot: Hypot): Outcome
  {
    if p.shouldRemove then Outcome(p, None)
    else
      var p1 := p.(currentTime := time);
      if target.None? || target.value.isDead then Outcome(p1.(shouldRemove := true), None)
      else
        var distance := Dist(hypot, p1.pos, target.value.pos);
        if distance < 5.0 then
          Outcome(p1.(shouldRemove := true), Some(HitParamsOf(p1.config, time)))
        else
          var moveDistance := MoveDistance(p1.speed, delta);
          Outcome(p1.(pos := StepToward(p1.pos, target.value.pos, distance, moveDistance)), None)
  }

  /** What the hit does to the target enemy. */
  function Struck(e: EnemyState, hit: Option<HitParams>): EnemyState
  {
    match hit
    case None => e
    case Some(h) => TakeDamageSpec(e, h.damage, h.slowEffect, h.slowDuration, h.currentTime)
  }

  class Projectile {
    var x: real
    var y: real
    const target: Enemy?
    const config: TowerConfig
    var shouldRemove: bool
    var currentTime: real
    var speed: real

    function State(): ProjectileState
      reads this
    {
      ProjectileState(Point(x, y), target, config, shouldRemove, currentTime, speed)
    }

    /** The target's state, or None for a null target. */
    function TargetState(): Option<EnemyState>
      reads this, target
    {
      if target == null then None else Some(target.State())
    }

    constructor(x: real, y: real, target: Enemy?, config: TowerConfig)
      ensures State() == Launched(Point(x, y), target, config)
    {
      this.x := x;
      this.y := y;
      this.target := target;
      this.config := config;
      this.shouldRemove := false;
      this.currentTime := 0.0;
      this.speed := config.projectileSpeed;
    }

    method Update(time: real, delta: real, hypot: Hypot)
      modifies this, target
      ensures var o := ProjectileStep(old(State()), old(TargetState()), time, delta, hypot);
        && State() == o.next
        && (target != null ==> target.State() == Struck(old(target.State()), o.hit))
    {
      if shouldRemove {
        return;
      }
      currentTime := time;
      if target == null || target.isDead {
        shouldRemove := true;
        return;
      }
      var distance := Dist(hypot, Point(x, y), target.State().pos);
      if distance < 5.0 {
        HitTarget();
        return;
      }
      var moveDistance := MoveDistance(speed, delta);
      var stepped := StepToward(Point(x, y), target.State().pos, distance, moveDistance);
      x := stepped.x;
      y := stepped.y;
    }

    method HitTarget()
      requires target != null
      modifies this, target
      ensures State() == old(State()).(shouldRemove := true)
      ensures target.State() == Struck(old(target.State()), Some(HitParamsOf(config, old(currentTime))))
    {
      var h := HitParamsOf(config, currentTime);
      target.TakeDamage(h.damage, h.slowEffect, h.slowDuration, h.currentTime);
      shouldRemove := true;
    }
  }

  // ---------------------------------------------------------------------
  // Properties

  /** A projectile already marked for removal does nothing. */
  lemma RemovedIsInert(p: ProjectileState, target: Option<EnemyState>, time: real, delta: real, hypot: Hypot)
    requires p.shouldRemove
    ensures ProjectileStep(p, target, time, delta, hypot) == Outcome(p, None)
  {
  }

  /** A projectile whose target is null or dead is discarded without
      touching anyone. */
  lemma LostTargetDiscarded(p: ProjectileState, target: Option<EnemyState>, time: real, delta: real, hypot: Hypot)
    requires target.None? || target.value.isDead
    ensures ProjectileStep(p, target, time, delta, hypot).next.shouldRemove
    ensures ProjectileStep(p, target, time, delta, hypot).hit.None?
  {
  }

  /** Every hit carries the tower's damage and the frame's time, and the
      projectile that delivers it is marked for removal in the same frame. */
  lemma HitRemoves(p: ProjectileState, target: Option<EnemyState>, time: real, delta: real, hypot: Hypot)
    requires ProjectileStep(p, target, time, delta, hypot).hit.Some?
    ensures var o := ProjectileStep(p, target, time, delta, hypot);
      && o.next.shouldRemove && !p.shouldRemove
      && o.hit.value == HitParamsOf(p.config, time)
      && target.Some? && !target.value.isDead
      && Dist(hypot, p.pos, target.value.pos) < 5.0
  {
  }

  /** Conversely, a live projectile within 5 units of its live target hits
      it in this frame, with the tower's hit parameters, and is marked for
      removal. */
  lemma HitWhenClose(p: ProjectileState, target: Option<EnemyState>, time: real, delta: real, hypot: Hypot)
    requires !p.shouldRemove && target.Some? && !target.value.isDead
    requires Dist(hypot, p.pos, target.value.pos) < 5.0
    ensures var o := ProjectileStep(p, target, time, delta, hypot);
      && o.hit == Some(HitParamsOf(p.config, time))
      && o.next.shouldRemove
  {
  }

  /** Farther away, the projectile hits nobody, stays in play and keeps its
      target and configuration; it only moves and records the time. */
  lemma MissWhenFar(p: ProjectileState, target: Option<EnemyState>, time: real, delta: real, hypot: Hypot)
    requires !p.shouldRemove && target.Some? && !target.value.isDead
    requires !(Dist(hypot, p.pos, target.value.pos) < 5.0)
    ensures var o := ProjectileStep(p, target, time, delta, hypot);
      && o.hit.None? && !o.next.shouldRemove
      && o.next == p.(pos := o.next.pos, currentTime := time)
  {
  }

  /** The move of a projectile that misses: it covers exactly
      `speed * delta / 1000` (the squared length of its displacement is that
      distance squared), along the line to the target's position, towards it
      whenever speed and delta are non-negative. */
  lemma HomesOnTarget(p: ProjectileState, target: Option<EnemyState>, time: real, delta: real, hypot: Hypot)
    requires IsHypot(hypot)
    requires !p.shouldRemove && target.Some? && !target.value.isDead
    requires !(Dist(hypot, p.pos, target.value.pos) < 5.0)
    ensures var o := ProjectileStep(p, target, time, delta, hypot);
      var goal := target.value.pos;
      var move := MoveDistance(p.speed, delta);
      var distance := Dist(hypot, p.pos, goal);
      && DistSq(p.pos, o.next.pos) == move * move
      && o.next.pos.x - p.pos.x == (move / distance) * (goal.x - p.pos.x)
      && o.next.pos.y - p.pos.y == (move / distance) * (goal.y - p.pos.y)
      && (!(move < 0.0) ==> !(move / distance < 0.0))
  {
    StepTowardMoves(hypot, p.pos, target.value.pos, MoveDistance(p.speed, delta));
  }

  /** The inputs of one frame: the target's state at that moment, the time
      and the elapsed milliseconds. */
  datatype Tick = Tick(target: Option<EnemyState>, time: real, delta: real)

  /** The state after a sequence of frames, and how many of them delivered a
      hit. */
  function Fly(p: ProjectileState, ticks: seq<Tick>, hypot: Hypot): (ProjectileState, nat)
    decreases |ticks|
  {
    if |ticks| == 0 then (p, 0)
    else
      var o := ProjectileStep(p, ticks[0].target, ticks[0].time, ticks[0].delta, hypot);
      var rest := Fly(o.next, ticks[1..], hypot);
      (rest.0, rest.1 + (if o.hit.Some? then 1 else 0))
  }

  /** A projectile hits at most once over its whole life, never once it is
      marked for removal, and once marked it stays marked. */
  lemma {:induction false} HitsAtMostOnce(p: ProjectileState, ticks: seq<Tick>, hypot: Hypot)
    ensures Fly(p, ticks, hypot).1 <= 1
    ensures p.shouldRemove ==> Fly(p, ticks, hypot).1 == 0 && Fly(p, ticks, hypot).0 == p
    ensures Fly(p, ticks, hypot).1 == 1 ==> Fly(p, ticks, hypot).0.shouldRemove
    decreases |ticks|
  {
    if |ticks| > 0 {
      var o := ProjectileStep(p, ticks[0].target, ticks[0].time, ticks[0].delta, hypot);
      HitsAtMostOnce(o.next, ticks[1..], hypot);
      if o.hit.Some? {
        assert o.next.shouldRemove;
      }
    }
  }
}
