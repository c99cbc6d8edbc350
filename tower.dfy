/** js/entities/Tower.js: a tower on a grid cell that keeps a target while it
    is alive and in range, otherwise picks the in-range enemy furthest along
    the path, and fires at most once per `fireRate` milliseconds. */
module Towers {
  import opened Geometry
  import opened Config
  import opened Enemies
  import opened Projectiles

  /** `isInRange`: the distance from the tower to the enemy is at most the
      range (the bound itself is in range). */
  predicate InRange(hypot: Hypot, pos: Point, range: real, e: EnemyState)
  {
    Dist(hypot, pos, e.pos) <= range
  }

  /** The range test read on squared distances, without a square root. */
  lemma InRangeSquared(hypot: Hypot, pos: Point, range: real, e: EnemyState)
    requires IsHypot(hypot) && !(range < 0.0)
    ensures InRange(hypot, pos, range, e) <==> DistSq(pos, e.pos) <= range * range
  {
    var dx := e.pos.x - pos.x;
    var dy := e.pos.y - pos.y;
    HypotCompare(hypot, dx, dy, range);
    assert DistSq(pos, e.pos) == dx * dx + dy * dy;
  }

  /** The index `findTarget` settles on after scanning the first n enemies:
      scanning left to right from a best progress of -1, an in-range enemy
      replaces the current choice only when its progress is strictly
      greater. */
  function TargetIndex(hypot: Hypot, pos: Point, range: real, es: seq<EnemyState>, n: nat): (r: Option<nat>)
    requires n <= |es|
    ensures r.Some? ==> r.value < n
    decreases n
  {
    if n == 0 then None
    else
      var prev := TargetIndex(hypot, pos, range, es, n - 1);
      if InRange(hypot, pos, range, es[n - 1]) && es[n - 1].pathProgress > BestProgress(es, prev)
      then Some(n - 1)
      else prev
  }

  /** The `maxProgress` accumulator for a choice: -1 before any choice. */
  function BestProgress(es: seq<EnemyState>, choice: Option<nat>): real
  {
    if choice.Some? && choice.value < |es| then es[choice.value].pathProgress else -1.0
  }

  /** What `findTarget` returns after scanning the first n enemies: an enemy
      that is in range and ahead of -1, at least as far along as every
      scanned in-range enemy and strictly further than any in-range enemy
      before it in the list; or nothing when no scanned in-range enemy is
      ahead of -1. */
  lemma {:induction false} TargetIndexIsFirstMax(hypot: Hypot, pos: Point, range: real, es: seq<EnemyState>, n: nat)
    requires n <= |es|
    ensures var r := TargetIndex(hypot, pos, range, es, n);
      r.None? ==> forall j :: 0 <= j < n && InRange(hypot, pos, range, es[j]) ==> es[j].pathProgress <= -1.0
    ensures var r := TargetIndex(hypot, pos, range, es, n);
      r.Some? ==>
        && InRange(hypot, pos, range, es[r.value])
        && es[r.value].pathProgress > -1.0
        && (forall j :: 0 <= j < n && InRange(hypot, pos, range, es[j]) ==> es[j].pathProgress <= es[r.value].pathProgress)
        && (forall j :: 0 <= j < r.value && InRange(hypot, pos, range, es[j]) ==> es[j].pathProgress < es[r.value].pathProgress)
    decreases n
  {
    if n > 0 {
      TargetIndexIsFirstMax(hypot, pos, range, es, n - 1);
    }
  }

  /** How `update` settles the target: keep the current one, take the enemy
      at an index of the scanned list, or have none. */
  datatype Choice = Keep | Pick(index: nat) | NoTarget

  /** The current target is kept unless it is null, dead or out of range. */
  predicate Keeps(hypot: Hypot, pos: Point, range: real, current: Option<EnemyState>)
  {
    current.Some? && !current.value.isDead && InRange(hypot, pos, range, current.value)
  }

  function Retarget(hypot: Hypot, pos: Point, range: real, current: Option<EnemyState>, es: seq<EnemyState>): Choice
  {
    if Keeps(hypot, pos, range, current) then Keep
    else
      match TargetIndex(hypot, pos, range, es, |es|)
      case None => NoTarget
      case Some(i) => Pick(i)
  }

  /** After `update`, the target is kept only while alive and in range, and a
      newly picked one is in range (it may be dead: the scan does not look at
      `isDead`) and is the first enemy furthest along among those in range. */
  lemma RetargetSound(hypot: Hypot, pos: Point, range: real, current: Option<EnemyState>, es: seq<EnemyState>)
    ensures var c := Retarget(hypot, pos, range, current, es);
      && (c == Keep <==> current.Some? && !current.value.isDead && InRange(hypot, pos, range, current.value))
      && (c.Pick? ==>
            && c.index < |es| && InRange(hypot, pos, range, es[c.index])
            && forall j :: 0 <= j < |es| && InRange(hypot, pos, range, es[j]) ==> es[j].pathProgress <= es[c.index].pathProgress)
      && (c == NoTarget ==> forall j :: 0 <= j < |es| && InRange(hypot, pos, range, es[j]) ==> es[j].pathProgress <= -1.0)
  {
    TargetIndexIsFirstMax(hypot, pos, range, es, |es|);
  }

  /** The snapshot of a tower's mutable fields. */
  datatype TowerState = TowerState(lastFireTime: real, target: Enemy?)

  /** The target object a choice designates. */
  function Chosen(c: Choice, current: Enemy?, enemies: seq<Enemy>): Enemy?
  {
    match c
    case Keep => current
    case NoTarget => null
    case Pick(i) => if i < |enemies| then enemies[i] else null
  }

  /** The fire gate: a target, and strictly more than `fireRate` ms since the
      last shot. */
  predicate Fires(lastFireTime: real, target: Enemy?, time: real, fireRate: real)
  {
    target != null && time - lastFireTime > fireRate
  }

  /** One `update`: retarget, then fire when the gate is open. */
  function TowerStep(t: TowerState, current: Option<EnemyState>, enemies: seq<Enemy>, es: seq<EnemyState>,
                     time: real, hypot: Hypot, pos: Point, config: TowerConfig): TowerState
  {
    var target := Chosen(Retarget(hypot, pos, config.range, current, es), t.target, enemies);
    TowerState(if Fires(t.lastFireTime, target, time, config.fireRate) then time else t.lastFireTime, target)
  }

  /** The projectiles one tower turn launches, given the tower's state before
      and after the turn: a single shot from `pos` at the target it ends the
      turn with when the fire gate is open, none otherwise. */
  function Shot(before: TowerState, after: TowerState, time: real, pos: Point, config: TowerConfig): (s: seq<ProjectileState>)
    ensures |s| <= 1
    ensures forall p :: p in s ==> p == Launched(pos, after.target, config) && after.target != null
  {
    if Fires(before.lastFireTime, after.target, time, config.fireRate) then [Launched(pos, after.target, config)] else []
  }

  /** A turn records its shot: a turn that launches stamps the shot time,
      and a turn that does not keeps the previous shot time. */
  lemma ShotStamped(t: TowerState, current: Option<EnemyState>, enemies: seq<Enemy>, es: seq<EnemyState>,
                    time: real, hypot: Hypot, pos: Point, config: TowerConfig)
    ensures var t1 := TowerStep(t, current, enemies, es, time, hypot, pos, config);
      && (|Shot(t, t1, time, pos, config)| == 1 ==> t1.lastFireTime == time)
      && (|Shot(t, t1, time, pos, config)| == 0 ==> t1.lastFireTime == t.lastFireTime)
  {
  }

  /** Two consecutive shots of a tower are strictly more than `fireRate`
      apart, and a frame exactly `fireRate` after a shot does not fire. */
  lemma ShotsSpaced(t: TowerState, c1: Option<EnemyState>, enemies1: seq<Enemy>, es1: seq<EnemyState>, time1: real,
                    c2: Option<EnemyState>, enemies2: seq<Enemy>, es2: seq<EnemyState>, time2: real,
                    hypot: Hypot, pos: Point, config: TowerConfig)
    requires var t1 := TowerStep(t, c1, enemies1, es1, time1, hypot, pos, config);
      Fires(t.lastFireTime, t1.target, time1, config.fireRate)
    ensures var t1 := TowerStep(t, c1, enemies1, es1, time1, hypot, pos, config);
      var t2 := TowerStep(t1, c2, enemies2, es2, time2, hypot, pos, config);
      && t1.lastFireTime == time1
      && (Fires(t1.lastFireTime, t2.target, time2, config.fireRate) ==> time2 - time1 > config.fireRate)
      && (time2 == time1 + config.fireRate ==> t2.lastFireTime == time1)
  {
  }

  /** What one tower turn sees: the current target's snapshot, the scene's
      enemies with their snapshots, and the frame's time. */
  datatype TowerFrame = TowerFrame(current: Option<EnemyState>, enemies: seq<Enemy>, es: seq<EnemyState>, time: real)

  function StepIn(t: TowerState, f: TowerFrame, hypot: Hypot, pos: Point, config: TowerConfig): TowerState
  {
    TowerStep(t, f.current, f.enemies, f.es, f.time, hypot, pos, config)
  }

  /** The tower's state after a sequence of turns. */
  function TowerRun(t: TowerState, frames: seq<TowerFrame>, hypot: Hypot, pos: Point, config: TowerConfig): TowerState
    decreases |frames|
  {
    if |frames| == 0 then t
    else TowerRun(StepIn(t, frames[0], hypot, pos, config), frames[1..], hypot, pos, config)
  }

  /** No turn of the sequence launches a projectile. */
  predicate SilentRun(t: TowerState, frames: seq<TowerFrame>, hypot: Hypot, pos: Point, config: TowerConfig)
    decreases |frames|
  {
    |frames| == 0 ||
      (var t1 := StepIn(t, frames[0], hypot, pos, config);
       |Shot(t, t1, frames[0].time, pos, config)| == 0 && SilentRun(t1, frames[1..], hypot, pos, config))
  }

  /** Turns that do not fire keep the time of the last shot. */
  lemma {:induction false} SilentRunKeepsStamp(t: TowerState, frames: seq<TowerFrame>, hypot: Hypot, pos: Point, config: TowerConfig)
    requires SilentRun(t, frames, hypot, pos, config)
    ensures TowerRun(t, frames, hypot, pos, config).lastFireTime == t.lastFireTime
    decreases |frames|
  {
    if |frames| > 0 {
      var t1 := StepIn(t, frames[0], hypot, pos, config);
      ShotStamped(t, frames[0].current, frames[0].enemies, frames[0].es, frames[0].time, hypot, pos, config);
      SilentRunKeepsStamp(t1, frames[1..], hypot, pos, config);
    }
  }

  /** After a shot at `first.time`, however many silent turns follow, the
      next turn that fires is strictly more than `fireRate` later. */
  lemma NextShotSpaced(t: TowerState, first: TowerFrame, silent: seq<TowerFrame>, next: TowerFrame,
                       hypot: Hypot, pos: Point, config: TowerConfig)
    requires |Shot(t, StepIn(t, first, hypot, pos, config), first.time, pos, config)| == 1
    requires SilentRun(StepIn(t, first, hypot, pos, config), silent, hypot, pos, config)
    ensures var before := TowerRun(StepIn(t, first, hypot, pos, config), silent, hypot, pos, config);
      && before.lastFireTime == first.time
      && (|Shot(before, StepIn(before, next, hypot, pos, config), next.time, pos, config)| == 1 ==>
            next.time - first.time > config.fireRate)
  {
    var t1 := StepIn(t, first, hypot, pos, config);
    ShotStamped(t, first.current, first.enemies, first.es, first.time, hypot, pos, config);
    SilentRunKeepsStamp(t1, silent, hypot, pos, config);
  }

  class Tower {
    const gridX: int
    const gridY: int
    const kind: TowerType
    const config: TowerConfig
    const x: real
    const y: real
    var lastFireTime: real
    var target: Enemy?

    function State(): TowerState
      reads this
    {
      TowerState(lastFireTime, target)
    }

    function Pos(): Point
    {
      Point(x, y)
    }

    /** The tower carries its type's configuration and stands at the centre
        of its cell, as the constructor set them. */
    predicate Placed()
    {
      config == TowerTypes(kind) && Pos() == CellCentrePoint(gridX, gridY)
    }

    function TargetState(): Option<EnemyState>
      reads this, target
    {
      if target == null then None else Some(target.State())
    }

    /** `new Tower(scene, gridX, gridY, type)`: at the centre of its cell, never
        fired, no target. */
    constructor(gridX: int, gridY: int, kind: TowerType)
      ensures this.gridX == gridX && this.gridY == gridY && this.kind == kind
      ensures config == TowerTypes(kind) && Pos() == CellCentrePoint(gridX, gridY)
      ensures Placed()
      ensures State() == TowerState(0.0, null)
    {
      this.gridX := gridX;
      this.gridY := gridY;
      this.kind := kind;
      this.config := TowerTypes(kind);
      this.x := CellCentre(gridX);
      this.y := CellCentre(gridY);
      this.lastFireTime := 0.0;
      this.target := null;
    }

    /** `findTarget(enemies)`. */
    method FindTarget(enemies: seq<Enemy>, hypot: Hypot) returns (closest: Enemy?)
      ensures closest == Chosen(Retarget(hypot, Pos(), config.range, None, Snapshots(enemies)), null, enemies)
    {
      ghost var es := Snapshots(enemies);
      ghost var index: Option<nat> := None;
      closest := null;
      var maxProgress := -1.0;
      var i := 0;
      while i < |enemies|
        invariant 0 <= i <= |enemies|
        invariant index == TargetIndex(hypot, Pos(), config.range, es, i)
        invariant maxProgress == BestProgress(es, index)
        invariant closest == (if index.Some? then enemies[index.value] else null)
      {
        var enemy := enemies[i];
        if InRange(hypot, Pos(), config.range, enemy.State()) && enemy.pathProgress > maxProgress {
          maxProgress := enemy.pathProgress;
          closest := enemy;
          index := Some(i);
        }
        i := i + 1;
      }
    }

    /** `update(time, delta, enemies)`: retarget, then fire when the gate is
        open; a shot is appended to `projectiles`. */
    method Update(time: real, enemies: seq<Enemy>, projectiles: seq<Projectile>, hypot: Hypot)
      returns (after: seq<Projectile>)
      modifies this
      ensures State() == TowerStep(old(State()), old(TargetState()), enemies, Snapshots(enemies), time, hypot, Pos(), config)
      ensures Fires(old(lastFireTime), target, time, config.fireRate) ==>
        && |after| == |projectiles| + 1 && after[..|projectiles|] == projectiles
        && fresh(after[|projectiles|]) && after[|projectiles|].State() == Launched(Pos(), target, config)
      ensures !Fires(old(lastFireTime), target, time, config.fireRate) ==> after == projectiles
    {
      if target == null || target.isDead || !InRange(hypot, Pos(), config.range, target.State()) {
        target := FindTarget(enemies, hypot);
      }
      after := projectiles;
      if target != null {
        if time - lastFireTime > config.fireRate {
          after := Fire(projectiles);
          lastFireTime := time;
        }
      }
    }

    /** `fire()`: with a target, one new projectile at the tower carrying the
        target and the tower's configuration; with none, nothing. */
    method Fire(projectiles: seq<Projectile>) returns (after: seq<Projectile>)
      ensures target == null ==> after == projectiles
      ensures target != null ==>
        && |after| == |projectiles| + 1 && after[..|projectiles|] == projectiles
        && fresh(after[|projectiles|]) && after[|projectiles|].State() == Launched(Pos(), target, config)
    {
      if target == null {
        return projectiles;
      }
      var projectile := new Projectile(x, y, target, config);
      after := projectiles + [projectile];
    }
  }
}
