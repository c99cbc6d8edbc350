/** js/entities/Enemy.js: an enemy walking the waypoint path, taking damage
    and being slowed. The enemy is a class whose methods update its fields in
    place; `EnemyState` is a snapshot of those fields, and the functions
    `EnemyStep` and `TakeDamageSpec` say what one call does to a snapshot. */
module Enemies {
  import opened Geometry
  import opened Config

  datatype EnemyState = EnemyState(
    maxHealth: real,
    health: real,
    baseSpeed: real,
    speed: real,
    reward: int,
    pathIndex: nat,
    pathProgress: real,
    isDead: bool,
    reachedEnd: bool,
    slowEffect: real,
    slowEndTime: real,
    pos: Point)

  /** The state the constructor establishes: full health, unslowed, at the
      start of the path. */
  function Spawned(health: real, speed: real, reward: int, start: Point): (e: EnemyState)
    ensures e.health == e.maxHealth == health
    ensures e.speed == e.baseSpeed == speed && e.slowEffect == 1.0 && e.slowEndTime == 0.0
    ensures e.reward == reward
    ensures e.pathIndex == 0 && e.pathProgress == 0.0 && e.pos == start
    ensures !e.isDead && !e.reachedEnd
  {
    EnemyState(health, health, speed, speed, reward, 0, 0.0, false, false, 1.0, 0.0, start)
  }

  /** Damage is subtracted without clamping; a positive slow factor replaces
      the current one (it does not compound) and restarts its timer; health at
      or below zero marks the enemy dead. */
  function TakeDamageSpec(e: EnemyState, damage: real, slow: real, slowDuration: real, currentTime: real): EnemyState
  {
    var hurt := e.(health := e.health - damage);
    var slowed :=
      if slow > 0.0 then
        hurt.(slowEffect := slow, speed := e.baseSpeed * slow, slowEndTime := currentTime + slowDuration)
      else hurt;
    if slowed.health <= 0.0 then slowed.(isDead := true) else slowed
  }

  /** One frame of `update(time, delta)` on a snapshot, with `path` the scene's
      `pathCoords` and `hypot` the Euclidean norm. */
  function EnemyStep(e: EnemyState, time: real, delta: real, path: seq<Point>, hypot: Hypot): EnemyState
    requires WalkablePath(path, hypot)
  {
    if e.isDead || e.reachedEnd then e
    else
      var e1 := if time > e.slowEndTime then e.(slowEffect := 1.0, speed := e.baseSpeed) else e;
      if e1.pathIndex + 1 >= |path| then e1.(reachedEnd := true)
      else
        var target := path[e1.pathIndex + 1];
        var distance := Dist(hypot, e1.pos, target);
        if distance < 2.0 then
          var next := e1.pathIndex + 1;
          e1.(pathIndex := next, pathProgress := next as real, reachedEnd := next >= |path| - 1)
        else
          var moveDistance := MoveDistance(e1.speed, delta);
          e1.(pos := StepToward(e1.pos, target, distance, moveDistance),
              pathProgress := e1.pathIndex as real + (1.0 - distance / Dist(hypot, path[e1.pathIndex], target)))
  }

  class Enemy {
    var maxHealth: real
    var health: real
    var baseSpeed: real
    var speed: real
    var reward: int
    var pathIndex: nat
    var pathProgress: real
    var isDead: bool
    var reachedEnd: bool
    var slowEffect: real
    var slowEndTime: real
    var x: real
    var y: real

    function State(): EnemyState
      reads this
    {
      EnemyState(maxHealth, health, baseSpeed, speed, reward, pathIndex, pathProgress,
                 isDead, reachedEnd, slowEffect, slowEndTime, Point(x, y))
    }

    /** `new Enemy(scene, health, speed, reward)`, placed at `pathCoords[0]`. */
    constructor(health: real, speed: real, reward: int, path: seq<Point>)
      requires |path| > 0
      ensures State() == Spawned(health, speed, reward, path[0])
    {
      this.maxHealth := health;
      this.health := health;
      this.baseSpeed := speed;
      this.speed := speed;
      this.reward := reward;
      this.pathIndex := 0;
      this.pathProgress := 0.0;
      this.isDead := false;
      this.reachedEnd := false;
      this.slowEffect := 1.0;
      this.slowEndTime := 0.0;
      this.x := path[0].x;
      this.y := path[0].y;
    }

    method Update(time: real, delta: real, path: seq<Point>, hypot: Hypot)
      requires WalkablePath(path, hypot)
      modifies this
      ensures State() == EnemyStep(old(State()), time, delta, path, hypot)
    {
      if isDead || reachedEnd {
        return;
      }
      if time > slowEndTime {
        slowEffect := 1.0;
        speed := baseSpeed;
      }
      if pathIndex + 1 >= |path| {
        reachedEnd := true;
        return;
      }
      var target := path[pathIndex + 1];
      var distance := Dist(hypot, Point(x, y), target);
      if distance < 2.0 {
        pathIndex := pathIndex + 1;
        pathProgress := pathIndex as real;
        if pathIndex >= |path| - 1 {
          reachedEnd := true;
          return;
        }
      } else {
        var moveDistance := MoveDistance(speed, delta);
        var stepped := StepToward(Point(x, y), target, distance, moveDistance);
        x := stepped.x;
        y := stepped.y;
        pathProgress := pathIndex as real + (1.0 - distance / Dist(hypot, path[pathIndex], target));
      }
    }

    method TakeDamage(damage: real, slow: real, slowDuration: real, currentTime: real)
      modifies this
      ensures State() == TakeDamageSpec(old(State()), damage, slow, slowDuration, currentTime)
    {
      health := health - damage;
      if slow > 0.0 {
        slowEffect := slow;
        speed := baseSpeed * slow;
        slowEndTime := currentTime + slowDuration;
      }
      if health <= 0.0 {
        Die();
      }
    }

    method Die()
      modifies this
      ensures State() == old(State()).(isDead := true)
    {
      isDead := true;
    }
  }

  /** The states of a list of enemies, in order. */
  function Snapshots(es: seq<Enemy>): (ss: seq<EnemyState>)
    reads es
    ensures |ss| == |es|
    ensures forall i :: 0 <= i < |es| ==> ss[i] == es[i].State()
  {
    seq(|es|, i requires 0 <= i < |es| reads es => es[i].State())
  }

  // ---------------------------------------------------------------------
  // Damage

  /** `n` hits of `damage` with no slow. */
  function Hits(e: EnemyState, damage: real, n: nat): EnemyState
  {
    if n == 0 then e else TakeDamageSpec(Hits(e, damage, n - 1), damage, 0.0, 0.0, 0.0)
  }

  /** Health is never clamped: after n hits of d it is exactly initial − n·d,
      whatever its sign; and the enemy is dead once that reaches zero. */
  lemma {:induction false} HitsSubtract(e: EnemyState, damage: real, n: nat)
    ensures Hits(e, damage, n).health == e.health - (n as real) * damage
    ensures n > 0 && Hits(e, damage, n).health <= 0.0 ==> Hits(e, damage, n).isDead
    ensures e.isDead ==> Hits(e, damage, n).isDead
    ensures Hits(e, damage, n).speed == e.speed && Hits(e, damage, n).pos == e.pos
  {
    if n > 0 {
      HitsSubtract(e, damage, n - 1);
      var k := (n - 1) as real;
      assert k * damage + damage == (n as real) * damage;
    }
  }

  /** Death is permanent: no hit brings an enemy back. */
  lemma DamageKeepsDead(e: EnemyState, damage: real, slow: real, slowDuration: real, currentTime: real)
    requires e.isDead
    ensures TakeDamageSpec(e, damage, slow, slowDuration, currentTime).isDead
  {
  }

  /** A hit kills exactly when the health it leaves is at most zero (or the
      enemy was already dead). */
  lemma DamageKills(e: EnemyState, damage: real, slow: real, slowDuration: real, currentTime: real)
    ensures TakeDamageSpec(e, damage, slow, slowDuration, currentTime).isDead
      <==> e.isDead || e.health - damage <= 0.0
  {
  }

  /** Slows do not stack: after two slowed hits the slow fields are those the
      second hit alone would set, and the speed is the base speed times the
      second factor only. */
  lemma SlowOverwrites(e: EnemyState, d1: real, s1: real, dur1: real, t1: real,
                       d2: real, s2: real, dur2: real, t2: real)
    requires s2 > 0.0
    ensures var twice := TakeDamageSpec(TakeDamageSpec(e, d1, s1, dur1, t1), d2, s2, dur2, t2);
      var once := TakeDamageSpec(e, d2, s2, dur2, t2);
      && twice.slowEffect == once.slowEffect == s2
      && twice.speed == once.speed == e.baseSpeed * s2
      && twice.slowEndTime == once.slowEndTime == t2 + dur2
  {
  }

  /** A hit without a positive slow factor leaves the slow state and speed
      untouched. */
  lemma NoSlowKeepsSpeed(e: EnemyState, damage: real, slow: real, slowDuration: real, currentTime: real)
    requires !(slow > 0.0)
    ensures var after := TakeDamageSpec(e, damage, slow, slowDuration, currentTime);
      after.slowEffect == e.slowEffect && after.speed == e.speed && after.slowEndTime == e.slowEndTime
  {
  }

  // ---------------------------------------------------------------------
  // Movement

  /** A dead or escaped enemy is frozen. */
  lemma UpdateFrozen(e: EnemyState, time: real, delta: real, path: seq<Point>, hypot: Hypot)
    requires WalkablePath(path, hypot)
    requires e.isDead || e.reachedEnd
    ensures EnemyStep(e, time, delta, path, hypot) == e
  {
  }

  /** Once the slow has run out (`time > slowEndTime`) a moving enemy is back
      at factor 1 and base speed. */
  lemma SlowExpires(e: EnemyState, time: real, delta: real, path: seq<Point>, hypot: Hypot)
    requires WalkablePath(path, hypot)
    requires !e.isDead && !e.reachedEnd && time > e.slowEndTime
    ensures EnemyStep(e, time, delta, path, hypot).slowEffect == 1.0
    ensures EnemyStep(e, time, delta, path, hypot).speed == e.baseSpeed
  {
  }

  /** Within 2 units of the next waypoint the enemy advances by exactly one
      waypoint and its progress becomes that index; it escapes once it is on
      the last one. */
  lemma WaypointAdvance(e: EnemyState, time: real, delta: real, path: seq<Point>, hypot: Hypot)
    requires WalkablePath(path, hypot)
    requires !e.isDead && !e.reachedEnd && e.pathIndex + 1 < |path|
    requires Dist(hypot, e.pos, path[e.pathIndex + 1]) < 2.0
    ensures var after := EnemyStep(e, time, delta, path, hypot);
      && after.pathIndex == e.pathIndex + 1
      && after.pathProgress == after.pathIndex as real
      && (after.reachedEnd <==> after.pathIndex == |path| - 1)
  {
  }

  /** Farther away, the enemy stays on its segment, keeps its index and
      measures its progress as the index plus the covered fraction of the
      segment. */
  lemma SegmentProgress(e: EnemyState, time: real, delta: real, path: seq<Point>, hypot: Hypot)
    requires WalkablePath(path, hypot)
    requires !e.isDead && !e.reachedEnd && e.pathIndex + 1 < |path|
    requires !(Dist(hypot, e.pos, path[e.pathIndex + 1]) < 2.0)
    ensures var after := EnemyStep(e, time, delta, path, hypot);
      && after.pathIndex == e.pathIndex && !after.reachedEnd
      && after.pathProgress - e.pathIndex as real
         == 1.0 - Dist(hypot, e.pos, path[e.pathIndex + 1]) / Dist(hypot, path[e.pathIndex], path[e.pathIndex + 1])
  {
  }

  /** The move itself: an enemy that is not yet at its next waypoint covers
      exactly `speed * delta / 1000` at the speed left after any slow has
      expired (the squared length of its displacement is that distance
      squared), along the line to the waypoint, towards it whenever speed and
      delta are non-negative. */
  lemma EnemyMoves(e: EnemyState, time: real, delta: real, path: seq<Point>, hypot: Hypot)
    requires IsHypot(hypot) && WalkablePath(path, hypot)
    requires !e.isDead && !e.reachedEnd && e.pathIndex + 1 < |path|
    requires !(Dist(hypot, e.pos, path[e.pathIndex + 1]) < 2.0)
    ensures var after := EnemyStep(e, time, delta, path, hypot);
      var goal := path[e.pathIndex + 1];
      var move := MoveDistance(if time > e.slowEndTime then e.baseSpeed else e.speed, delta);
      var distance := Dist(hypot, e.pos, goal);
      && DistSq(e.pos, after.pos) == move * move
      && after.pos.x - e.pos.x == (move / distance) * (goal.x - e.pos.x)
      && after.pos.y - e.pos.y == (move / distance) * (goal.y - e.pos.y)
      && (!(move < 0.0) ==> !(move / distance < 0.0))
  {
    var goal := path[e.pathIndex + 1];
    var move := MoveDistance(if time > e.slowEndTime then e.baseSpeed else e.speed, delta);
    assert EnemyStep(e, time, delta, path, hypot).pos == StepToward(e.pos, goal, Dist(hypot, e.pos, goal), move);
    StepTowardMoves(hypot, e.pos, goal, move);
  }

  /** The path index never exceeds the last waypoint, and on a path of two or
      more waypoints an enemy still walking has a next waypoint to head for. */
  ghost predicate OnPath(e: EnemyState, path: seq<Point>)
  {
    && e.pathIndex < |path|
    && (!e.reachedEnd && |path| >= 2 ==> e.pathIndex + 1 < |path|)
  }

  /** A sequence of frames, each a (time, delta) pair. */
  datatype Frame = Frame(time: real, delta: real)

  function Run(e: EnemyState, frames: seq<Frame>, path: seq<Point>, hypot: Hypot): EnemyState
    requires WalkablePath(path, hypot)
    decreases |frames|
  {
    if |frames| == 0 then e
    else Run(EnemyStep(e, frames[0].time, frames[0].delta, path, hypot), frames[1..], path, hypot)
  }

  /** Over any run the path index never goes backwards, never passes the last
      waypoint, and an enemy that escaped or died stays so. */
  lemma {:induction false} RunStaysOnPath(e: EnemyState, frames: seq<Frame>, path: seq<Point>, hypot: Hypot)
    requires WalkablePath(path, hypot)
    requires OnPath(e, path)
    ensures var last := Run(e, frames, path, hypot);
      && OnPath(last, path)
      && e.pathIndex <= last.pathIndex
      && (e.reachedEnd ==> last.reachedEnd)
      && (e.isDead ==> last.isDead)
    decreases |frames|
  {
    if |frames| > 0 {
      var next := EnemyStep(e, frames[0].time, frames[0].delta, path, hypot);
      assert OnPath(next, path);
      RunStaysOnPath(next, frames[1..], path, hypot);
    }
  }

  /** A dead or escaped enemy is untouched by any number of frames. */
  lemma {:induction false} RunFrozen(e: EnemyState, frames: seq<Frame>, path: seq<Point>, hypot: Hypot)
    requires WalkablePath(path, hypot)
    requires e.isDead || e.reachedEnd
    ensures Run(e, frames, path, hypot) == e
    decreases |frames|
  {
    if |frames| > 0 {
      RunFrozen(e, frames[1..], path, hypot);
    }
  }
}
