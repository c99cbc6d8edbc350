/** js/scenes/GameScene.js: the game state (gold, lives, wave counter, towers,
    enemies, projectiles), tower placement, wave scheduling and the per-frame
    update that advances every entity and reclaims the finished ones.

    Phaser's `time.delayedCall` is modelled as a list of scheduled records
    (delay in milliseconds, action); the overlays `showVictory` and `gameOver`
    are modelled as flags. */
module Game {
  import opened Geometry
  import opened Config
  import opened Enemies
  import opened Projectiles
  import opened Towers

  /** No object occurs twice in the list. */
  predicate Distinct<T(==)>(s: seq<T>)
  {
    forall i, j :: 0 <= i < j < |s| ==> s[i] != s[j]
  }

  // ---------------------------------------------------------------------
  // Scheduling and the ledger

  datatype Action = StartWaveAction | SpawnEnemyAction(wave: WaveConfig)

  /** A callback registered with `time.delayedCall(delay, ...)`. */
  datatype Scheduled = Scheduled(delay: nat, action: Action)

  /** The spawns `startWave` registers for one wave: `count` of them, the
      i-th after i·1000 ms. */
  function SpawnSchedule(wave: WaveConfig): seq<Scheduled>
  {
    seq(wave.count, i requires 0 <= i < wave.count => Scheduled(i * 1000, SpawnEnemyAction(wave)))
  }

  /** The scalar part of the scene state. */
  datatype Ledger = Ledger(
    gold: int,
    lives: int,
    currentWave: nat,
    pending: seq<Scheduled>,
    victoryShown: bool,
    gameOverShown: bool)

  /** `startWave()`: past the last wave only the victory overlay; otherwise the
      next wave's spawns are scheduled and the counter advances. */
  function StartWaveSpec(l: Ledger): Ledger
  {
    if l.currentWave >= |Waves()| then l.(victoryShown := true)
    else l.(currentWave := l.currentWave + 1, pending := l.pending + SpawnSchedule(Waves()[l.currentWave]))
  }

  lemma StartWavePastLast(l: Ledger)
    requires l.currentWave >= |Waves()|
    ensures var n := StartWaveSpec(l);
      && n.victoryShown && n.currentWave == l.currentWave && n.pending == l.pending
      && n.gold == l.gold && n.lives == l.lives && n.gameOverShown == l.gameOverShown
  {
  }

  /** Before the last wave, `startWave` advances the counter by one and
      appends exactly `count` spawns of that wave, at 0, 1000, ..., with the
      wave's health, speed and reward, leaving everything else alone. */
  lemma StartWaveSchedules(l: Ledger)
    requires l.currentWave < |Waves()|
    ensures var n := StartWaveSpec(l);
      var wave := Waves()[l.currentWave];
      && n.currentWave == l.currentWave + 1
      && |n.pending| == |l.pending| + wave.count
      && n.pending[..|l.pending|] == l.pending
      && (forall i :: 0 <= i < wave.count ==>
            && n.pending[|l.pending| + i].delay == i * 1000
            && n.pending[|l.pending| + i].action == SpawnEnemyAction(wave))
      && n.gold == l.gold && n.lives == l.lives && n.victoryShown == l.victoryShown
  {
  }

  /** Starting from wave 0, five calls schedule 5 + 8 + 10 + 12 + 15 = 50
      spawns and the sixth shows the victory overlay. */
  lemma AllWavesSpawnFifty(l: Ledger)
    requires l.currentWave == 0 && l.pending == [] && !l.victoryShown
    ensures var l5 := StartWaveSpec(StartWaveSpec(StartWaveSpec(StartWaveSpec(StartWaveSpec(l)))));
      && l5.currentWave == 5 && |l5.pending| == 50 && !l5.victoryShown
      && StartWaveSpec(l5).victoryShown && StartWaveSpec(l5).pending == l5.pending
  {
    var l1 := StartWaveSpec(l);
    var l2 := StartWaveSpec(l1);
    var l3 := StartWaveSpec(l2);
    var l4 := StartWaveSpec(l3);
    var l5 := StartWaveSpec(l4);
    assert |l1.pending| == 5;
    assert |l2.pending| == 13;
    assert |l3.pending| == 23;
    assert |l4.pending| == 35;
    assert |l5.pending| == 50;
  }

  /** The end-of-frame check: with no enemies left and a wave between the
      first and the last, another `startWave` is scheduled 3000 ms later. */
  function WaveCheckSpec(l: Ledger, enemyCount: nat): Ledger
  {
    if enemyCount == 0 && l.currentWave > 0 && l.currentWave < |Waves()|
    then l.(pending := l.pending + [Scheduled(3000, StartWaveAction)])
    else l
  }

  /** The check does not wait for the wave it scheduled: every frame with an
      empty enemy list schedules one more `startWave`, so two such frames in
      a row schedule two. */
  lemma WaveCheckRepeats(l: Ledger)
    requires 0 < l.currentWave < |Waves()|
    ensures var twice := WaveCheckSpec(WaveCheckSpec(l, 0), 0);
      && |twice.pending| == |l.pending| + 2
      && twice.pending[|l.pending|] == twice.pending[|l.pending| + 1] == Scheduled(3000, StartWaveAction)
      && twice.currentWave == l.currentWave
  {
  }

  /** The gold left after an attempt to buy a tower costing `cost`. */
  function GoldAfterPlace(gold: int, cost: int): int
  {
    if gold >= cost then gold - cost else gold
  }

  /** Placement charges exactly the cost when affordable and nothing
      otherwise, so it never drives gold below zero. */
  lemma PlacementNeverOverdraws(gold: int, cost: int)
    requires cost > 0
    ensures GoldAfterPlace(gold, cost) == gold - cost <==> gold >= cost
    ensures GoldAfterPlace(gold, cost) == gold <==> gold < cost
    ensures gold >= 0 ==> GoldAfterPlace(gold, cost) >= 0
  {
  }

  // ---------------------------------------------------------------------
  // Placement

  /** No path segment comes closer than half a tile to the point. */
  ghost predicate OffPath(hypot: Hypot, path: seq<Point>, c: Point)
    requires IsHypot(hypot)
  {
    forall i :: 0 <= i < |path| - 1 ==>
      !(DistanceToLineSegment(hypot, c, path[i], path[i + 1]) < CorridorHalfWidth())
  }

  /** Some tower already stands on the cell. */
  predicate Occupied(towers: seq<Tower>, gridX: int, gridY: int)
  {
    exists k :: 0 <= k < |towers| && towers[k].gridX == gridX && towers[k].gridY == gridY
  }

  /** The corridor test read on squared distances: the measured point of
      every segment is at least 32 units away, i.e. its squared distance is at
      least 1024. */
  lemma {:induction false} OffPathSquared(hypot: Hypot, path: seq<Point>, c: Point)
    requires IsHypot(hypot)
    ensures OffPath(hypot, path, c) <==>
      forall i :: 0 <= i < |path| - 1 ==> SegmentDistSq(c, path[i], path[i + 1]) >= 1024.0
  {
    forall i | 0 <= i < |path| - 1
      ensures !(DistanceToLineSegment(hypot, c, path[i], path[i + 1]) < 32.0)
              <==> SegmentDistSq(c, path[i], path[i + 1]) >= 1024.0
    {
      DistanceToLineSegmentSquare(hypot, c, path[i], path[i + 1]);
      var d := DistanceToLineSegment(hypot, c, path[i], path[i + 1]);
      var bound := 32.0;
      SquareMonotone(d, bound);
    }
  }

  // ---------------------------------------------------------------------
  // Reclaiming enemies

  /** Every enemy state after one frame. */
  function StepAll(ss: seq<EnemyState>, time: real, delta: real, path: seq<Point>, hypot: Hypot): (r: seq<EnemyState>)
    requires WalkablePath(path, hypot)
    ensures |r| == |ss|
    ensures forall i {:trigger EnemyStep(ss[i], time, delta, path, hypot)} :: 0 <= i < |ss| ==> r[i] == EnemyStep(ss[i], time, delta, path, hypot)
  {
    if |ss| == 0 then [] else [EnemyStep(ss[0], time, delta, path, hypot)] + StepAll(ss[1..], time, delta, path, hypot)
  }

  /** The enemies from index i on that stay in the list: neither dead nor
      escaped, in their original order. */
  function SurvivorsFrom(es: seq<Enemy>, ss: seq<EnemyState>, i: nat): seq<Enemy>
    requires |es| == |ss| && i <= |es|
    decreases |es| - i
  {
    if i == |es| then []
    else (if !ss[i].isDead && !ss[i].reachedEnd then [es[i]] else []) + SurvivorsFrom(es, ss, i + 1)
  }

  /** The gold the dead enemies from index i on pay out. */
  function BountyFrom(ss: seq<EnemyState>, i: nat): int
    requires i <= |ss|
    decreases |ss| - i
  {
    if i == |ss| then 0 else (if ss[i].isDead then ss[i].reward else 0) + BountyFrom(ss, i + 1)
  }

  /** How many enemies from index i on escaped alive. */
  function EscapesFrom(ss: seq<EnemyState>, i: nat): nat
    requires i <= |ss|
    decreases |ss| - i
  {
    if i == |ss| then 0 else (if !ss[i].isDead && ss[i].reachedEnd then 1 else 0) + EscapesFrom(ss, i + 1)
  }

  /** How many enemies from index i on died. */
  function DeathsFrom(ss: seq<EnemyState>, i: nat): nat
    requires i <= |ss|
    decreases |ss| - i
  {
    if i == |ss| then 0 else (if ss[i].isDead then 1 else 0) + DeathsFrom(ss, i + 1)
  }

  function Survivors(es: seq<Enemy>, ss: seq<EnemyState>): seq<Enemy>
    requires |es| == |ss|
  {
    SurvivorsFrom(es, ss, 0)
  }

  function Bounty(ss: seq<EnemyState>): int
  {
    BountyFrom(ss, 0)
  }

  function Escapes(ss: seq<EnemyState>): nat
  {
    EscapesFrom(ss, 0)
  }

  /** Each enemy has exactly one outcome: it survives, it dies (paying its
      reward) or it escapes (costing a life); with non-negative rewards the
      payout is non-negative. */
  lemma {:induction false} OutcomesPartition(es: seq<Enemy>, ss: seq<EnemyState>, i: nat)
    requires |es| == |ss| && i <= |es|
    ensures |SurvivorsFrom(es, ss, i)| + DeathsFrom(ss, i) + EscapesFrom(ss, i) == |ss| - i
    ensures (forall k :: i <= k < |ss| ==> ss[k].reward >= 0) ==> BountyFrom(ss, i) >= 0
    decreases |es| - i
  {
    if i < |es| {
      OutcomesPartition(es, ss, i + 1);
    }
  }

  /** The survivors are drawn from the list and include every enemy that is
      neither dead nor escaped. */
  lemma {:induction false} SurvivorsSublist(es: seq<Enemy>, ss: seq<EnemyState>, i: nat)
    requires |es| == |ss| && i <= |es|
    ensures forall e :: e in SurvivorsFrom(es, ss, i) ==> e in es[i..]
    ensures forall k :: i <= k < |es| && !ss[k].isDead && !ss[k].reachedEnd ==> es[k] in SurvivorsFrom(es, ss, i)
    decreases |es| - i
  {
    if i < |es| {
      SurvivorsSublist(es, ss, i + 1);
      assert es[i..] == [es[i]] + es[i + 1..];
    }
  }

  /** When the list has no repeats, neither do the survivors, and no dead or
      escaped enemy is among them. */
  lemma {:induction false} SurvivorsDistinct(es: seq<Enemy>, ss: seq<EnemyState>, i: nat)
    requires |es| == |ss| && i <= |es| && Distinct(es)
    ensures Distinct(SurvivorsFrom(es, ss, i))
    ensures forall k :: i <= k < |es| && (ss[k].isDead || ss[k].reachedEnd) ==> es[k] !in SurvivorsFrom(es, ss, i)
    decreases |es| - i
  {
    if i < |es| {
      var rest := SurvivorsFrom(es, ss, i + 1);
      SurvivorsDistinct(es, ss, i + 1);
      SurvivorsSublist(es, ss, i + 1);
      assert es[i] !in es[i + 1..];
      assert es[i] !in rest;
      if !ss[i].isDead && !ss[i].reachedEnd {
        assert SurvivorsFrom(es, ss, i) == [es[i]] + rest;
        DistinctCons(es[i], rest);
      } else {
        assert SurvivorsFrom(es, ss, i) == rest;
      }
      forall k | i < k < |es| && (ss[k].isDead || ss[k].reachedEnd)
        ensures es[k] !in SurvivorsFrom(es, ss, i)
      {
        assert es[k] != es[i];
      }
    }
  }

  /** Putting an element that is not in a repeat-free list in front of it. */
  lemma DistinctCons<T>(x: T, rest: seq<T>)
    requires Distinct(rest) && x !in rest
    ensures Distinct([x] + rest)
  {
  }

  /** Removing the element at index i of a list that starts with `prefix[..i + 1]`. */
  lemma SpliceAt<T>(list: seq<T>, prefix: seq<T>, rest: seq<T>, i: nat)
    requires i < |prefix| && list == prefix[..i + 1] + rest
    ensures list[i] == prefix[i]
    ensures list[..i] + list[i + 1..] == prefix[..i] + rest
  {
    assert list[..i] == prefix[..i];
    assert list[i + 1..] == rest;
  }

  /** Keeping the element at index i of a list that starts with `prefix[..i + 1]`. */
  lemma KeepAt<T>(prefix: seq<T>, rest: seq<T>, i: nat)
    requires i < |prefix|
    ensures prefix[..i + 1] + rest == prefix[..i] + ([prefix[i]] + rest)
  {
    assert prefix[..i + 1] == prefix[..i] + [prefix[i]];
  }

  // ---------------------------------------------------------------------
  // Reclaiming projectiles

  /** What the projectile loop works on: the projectiles' states in list
      order, and the states of the enemies they chase. Enemies are keyed by
      identity, since several projectiles may chase the same one. */
  datatype Volley = Volley(shots: seq<ProjectileState>, world: map<Enemy, EnemyState>)

  /** The state a projectile sees of its target; None for a null target. */
  function TargetOf(p: ProjectileState, world: map<Enemy, EnemyState>): Option<EnemyState>
  {
    if p.target != null && p.target in world then Some(world[p.target]) else None
  }

  /** One iteration of the loop, on index i: the projectile's `update`, and
      the damage and slow its hit (if any) deals to its target. */
  function ResolveAt(v: Volley, i: nat, time: real, delta: real, hypot: Hypot): (r: Volley)
    requires i < |v.shots|
    ensures |r.shots| == |v.shots| && r.world.Keys == v.world.Keys
  {
    var p := v.shots[i];
    var o := ProjectileStep(p, TargetOf(p, v.world), time, delta, hypot);
    Volley(v.shots[i := o.next],
           if p.target != null && p.target in v.world then v.world[p.target := Struck(v.world[p.target], o.hit)]
           else v.world)
  }

  /** The loop after it has processed indices |shots| - 1 down to i. */
  function ResolveFrom(v: Volley, i: nat, time: real, delta: real, hypot: Hypot): (r: Volley)
    requires i <= |v.shots|
    ensures |r.shots| == |v.shots| && r.world.Keys == v.world.Keys
    decreases |v.shots| - i
  {
    if i == |v.shots| then v else ResolveAt(ResolveFrom(v, i + 1, time, delta, hypot), i, time, delta, hypot)
  }

  /** A projectile marked for removal before the loop comes out of it
      unchanged; one with a null target ends marked; indices the loop has not
      reached are untouched; every projectile keeps its target. */
  lemma {:induction false} ResolveShots(v: Volley, i: nat, time: real, delta: real, hypot: Hypot)
    requires i <= |v.shots|
    ensures var r := ResolveFrom(v, i, time, delta, hypot);
      && (forall k :: 0 <= k < i ==> r.shots[k] == v.shots[k])
      && (forall k :: 0 <= k < |v.shots| ==> r.shots[k].target == v.shots[k].target)
      && (forall k :: i <= k < |v.shots| && v.shots[k].shouldRemove ==> r.shots[k] == v.shots[k])
      && (forall k :: i <= k < |v.shots| && v.shots[k].target == null ==> r.shots[k].shouldRemove)
    decreases |v.shots| - i
  {
    if i < |v.shots| {
      ResolveShots(v, i + 1, time, delta, hypot);
    }
  }

  /** Once an enemy is dead it takes no further hit: whether it was dead when
      the loop started or was killed by a later index, every projectile the
      loop processes afterwards that chases it is discarded, so its state
      stays as it was at the moment it died. */
  lemma {:induction false} ResolveSparesDead(v: Volley, i: nat, j: nat, time: real, delta: real, hypot: Hypot)
    requires i <= j <= |v.shots|
    ensures var rj := ResolveFrom(v, j, time, delta, hypot);
      forall e :: e in v.world && rj.world[e].isDead ==> ResolveFrom(v, i, time, delta, hypot).world[e] == rj.world[e]
    decreases j - i
  {
    if i < j {
      ResolveSparesDead(v, i + 1, j, time, delta, hypot);
    }
  }

  /** An enemy that no projectile from index i on chases is untouched. */
  lemma {:induction false} ResolveSparesUntargeted(v: Volley, i: nat, time: real, delta: real, hypot: Hypot)
    requires i <= |v.shots|
    ensures forall e :: e in v.world && (forall k :: i <= k < |v.shots| ==> v.shots[k].target != e) ==>
      ResolveFrom(v, i, time, delta, hypot).world[e] == v.world[e]
    decreases |v.shots| - i
  {
    if i < |v.shots| {
      ResolveSparesUntargeted(v, i + 1, time, delta, hypot);
      ResolveShots(v, i + 1, time, delta, hypot);
      var r := ResolveFrom(v, i + 1, time, delta, hypot);
      assert r.shots[i] == v.shots[i];
      forall e | e in v.world && (forall k :: i <= k < |v.shots| ==> v.shots[k].target != e)
        ensures ResolveFrom(v, i, time, delta, hypot).world[e] == v.world[e]
      {
        assert v.shots[i].target != e;
        assert r.world[e] == v.world[e];
      }
    }
  }

  /** The projectiles from index i on whose state is not marked for removal,
      in order. */
  function KeptFrom(ps: seq<Projectile>, ss: seq<ProjectileState>, i: nat): seq<Projectile>
    requires |ps| == |ss| && i <= |ps|
    decreases |ps| - i
  {
    if i == |ps| then []
    else (if !ss[i].shouldRemove then [ps[i]] else []) + KeptFrom(ps, ss, i + 1)
  }

  /** The kept list depends only on the removal marks from index i on. */
  lemma {:induction false} KeptFromAgree(ps: seq<Projectile>, s1: seq<ProjectileState>, s2: seq<ProjectileState>, i: nat)
    requires |ps| == |s1| == |s2| && i <= |ps|
    requires forall k :: i <= k < |ps| ==> s1[k].shouldRemove == s2[k].shouldRemove
    ensures KeptFrom(ps, s1, i) == KeptFrom(ps, s2, i)
    decreases |ps| - i
  {
    if i < |ps| {
      KeptFromAgree(ps, s1, s2, i + 1);
    }
  }

  /** The projectiles kept are drawn from the list and include every one not
      marked for removal. */
  lemma {:induction false} KeptSublist(ps: seq<Projectile>, ss: seq<ProjectileState>, i: nat)
    requires |ps| == |ss| && i <= |ps|
    ensures forall p :: p in KeptFrom(ps, ss, i) ==> p in ps[i..]
    ensures forall k :: i <= k < |ps| && !ss[k].shouldRemove ==> ps[k] in KeptFrom(ps, ss, i)
    decreases |ps| - i
  {
    if i < |ps| {
      KeptSublist(ps, ss, i + 1);
      assert ps[i..] == [ps[i]] + ps[i + 1..];
    }
  }

  /** When the list has no repeats, neither does the kept list, and no
      projectile marked for removal is in it. */
  lemma {:induction false} KeptDistinct(ps: seq<Projectile>, ss: seq<ProjectileState>, i: nat)
    requires |ps| == |ss| && i <= |ps| && Distinct(ps)
    ensures Distinct(KeptFrom(ps, ss, i))
    ensures forall k :: i <= k < |ps| && ss[k].shouldRemove ==> ps[k] !in KeptFrom(ps, ss, i)
    decreases |ps| - i
  {
    if i < |ps| {
      var rest := KeptFrom(ps, ss, i + 1);
      KeptDistinct(ps, ss, i + 1);
      KeptSublist(ps, ss, i + 1);
      assert ps[i] !in ps[i + 1..];
      assert ps[i] !in rest;
      if !ss[i].shouldRemove {
        assert KeptFrom(ps, ss, i) == [ps[i]] + rest;
        DistinctCons(ps[i], rest);
      } else {
        assert KeptFrom(ps, ss, i) == rest;
      }
      forall k | i < k < |ps| && ss[k].shouldRemove
        ensures ps[k] !in KeptFrom(ps, ss, i)
      {
        assert ps[k] != ps[i];
      }
    }
  }

  /** The enemies the projectiles chase. */
  function Targets(ps: seq<Projectile>): (ts: set<Enemy>)
    ensures forall k :: 0 <= k < |ps| && ps[k].target != null ==> ps[k].target in ts
  {
    set k | 0 <= k < |ps| && ps[k].target != null :: ps[k].target
  }

  function Shots(ps: seq<Projectile>): (ss: seq<ProjectileState>)
    reads ps
    ensures |ss| == |ps| && forall k :: 0 <= k < |ps| ==> ss[k] == ps[k].State()
  {
    seq(|ps|, k requires 0 <= k < |ps| reads ps => ps[k].State())
  }

  function TowerStates(ts: seq<Tower>): (ss: seq<TowerState>)
    reads ts
    ensures |ss| == |ts| && forall k :: 0 <= k < |ts| ==> ss[k] == ts[k].State()
  {
    seq(|ts|, k requires 0 <= k < |ts| reads ts => ts[k].State())
  }

  /** The shots of the first n towers, in tower order, from their states
      before and after the tower phase: every one is a live projectile with a
      target, and no tower launches more than one. */
  function TowerShots(ts: seq<Tower>, before: seq<TowerState>, after: seq<TowerState>, n: nat, time: real)
    : (s: seq<ProjectileState>)
    requires n <= |ts| && |before| == |ts| && |after| == |ts|
    ensures |s| <= n
    ensures forall p :: p in s ==> !p.shouldRemove && p.target != null
  {
    if n == 0 then []
    else TowerShots(ts, before, after, n - 1, time) + Shot(before[n - 1], after[n - 1], time, ts[n - 1].Pos(), ts[n - 1].config)
  }

  /** One turn of the tower loop on the shot list: appending tower i's shot
      to the shots of towers 0..i-1 gives the shots of towers 0..i, with
      tower i's new state recorded. */
  lemma TurnShots(ts: seq<Tower>, olds: seq<TowerState>, news: seq<TowerState>, base: seq<ProjectileState>,
                  prev: seq<ProjectileState>, next: seq<ProjectileState>, i: nat, time: real, s: TowerState)
    requires i < |ts| && |olds| == |ts| && |news| == |ts|
    requires prev == base + TowerShots(ts, olds, news, i, time)
    requires next == prev + Shot(olds[i], s, time, ts[i].Pos(), ts[i].config)
    ensures next == base + TowerShots(ts, olds, news[i := s], i + 1, time)
  {
    TowerShotsAgree(ts, olds, news, news[i := s], i, time);
  }

  /** The shots of the first n towers depend only on those towers' states. */
  lemma {:induction false} TowerShotsAgree(ts: seq<Tower>, before: seq<TowerState>, a1: seq<TowerState>,
                                           a2: seq<TowerState>, n: nat, time: real)
    requires n <= |ts| && |before| == |ts| && |a1| == |ts| && |a2| == |ts|
    requires forall k :: 0 <= k < n ==> a1[k] == a2[k]
    ensures TowerShots(ts, before, a1, n, time) == TowerShots(ts, before, a2, n, time)
  {
    if n > 0 {
      TowerShotsAgree(ts, before, a1, a2, n - 1, time);
    }
  }

  function World(ts: set<Enemy>): (w: map<Enemy, EnemyState>)
    reads ts
    ensures w.Keys == ts && forall e :: e in ts ==> w[e] == e.State()
  {
    map e | e in ts :: e.State()
  }

  /** One iteration of the projectile loop, on the heap: the projectiles and
      the chased enemies end in the states ResolveAt gives them. */
  method ResolveOne(ps: seq<Projectile>, ghost v: Volley, i: nat, time: real, delta: real, hypot: Hypot)
    requires Distinct(ps) && |v.shots| == |ps| && i < |ps|
    requires forall k :: 0 <= k < |ps| ==> ps[k].State() == v.shots[k]
    requires ps[i].target != null ==> ps[i].target in v.world
    requires forall e :: e in v.world ==> e.State() == v.world[e]
    modifies ps[i], ps[i].target
    ensures forall k :: 0 <= k < |ps| ==> ps[k].State() == ResolveAt(v, i, time, delta, hypot).shots[k]
    ensures forall e :: e in v.world ==> e.State() == ResolveAt(v, i, time, delta, hypot).world[e]
  {
    ps[i].Update(time, delta, hypot);
  }

  /** The loop of the projectile phase. Walking the list backwards, each
      projectile takes its step, possibly hitting its target, and is spliced
      out once marked for removal. */
  method SweepProjectiles(ps: seq<Projectile>, ghost v0: Volley, time: real, delta: real, hypot: Hypot)
    returns (kept: seq<Projectile>)
    requires Distinct(ps) && |v0.shots| == |ps|
    requires forall k :: 0 <= k < |ps| ==> ps[k].State() == v0.shots[k]
    requires forall k :: 0 <= k < |ps| && ps[k].target != null ==> ps[k].target in v0.world
    requires forall e :: e in v0.world ==> e.State() == v0.world[e]
    modifies ps, v0.world.Keys
    ensures var v := ResolveFrom(v0, 0, time, delta, hypot);
      && (forall k :: 0 <= k < |ps| ==> ps[k].State() == v.shots[k])
      && (forall e :: e in v0.world ==> e.State() == v.world[e])
      && kept == KeptFrom(ps, v.shots, 0)
  {
    ghost var ts := v0.world.Keys;
    ghost var cur := v0;
    kept := ps;
    var i := |ps|;
    assert ps[..i] == ps;
    while i > 0
      invariant 0 <= i <= |ps|
      invariant cur == ResolveFrom(v0, i, time, delta, hypot)
      invariant |cur.shots| == |ps| && cur.world.Keys == ts
      invariant kept == ps[..i] + KeptFrom(ps, cur.shots, i)
      invariant forall k :: 0 <= k < |ps| ==> ps[k].State() == cur.shots[k]
      invariant forall e :: e in ts ==> e.State() == cur.world[e]
    {
      i := i - 1;
      ghost var next := ResolveAt(cur, i, time, delta, hypot);
      KeptFromAgree(ps, cur.shots, next.shots, i + 1);
      SpliceAt(kept, ps, KeptFrom(ps, next.shots, i + 1), i);
      ResolveOne(ps, cur, i, time, delta, hypot);
      if ps[i].shouldRemove {
        kept := kept[..i] + kept[i + 1..];
      } else {
        KeepAt(ps, KeptFrom(ps, next.shots, i + 1), i);
      }
      cur := next;
    }
    assert ps[..0] == [];
  }

  /** One tower's turn in the tower phase: only that tower changes, every
      enemy is left as it was, and the shot it may fire is a new object, so
      the projectile list stays free of repeats. The ghost parameters carry
      the loop's account of the shots so far: `olds` and `news` are the
      towers' states before and after their turns, and `base` the shots that
      were in flight before the phase. */
  method StepTower(ts: seq<Tower>, i: nat, time: real, enemies: seq<Enemy>, projectiles: seq<Projectile>, hypot: Hypot,
                   ghost olds: seq<TowerState>, ghost news: seq<TowerState>, ghost base: seq<ProjectileState>)
    returns (after: seq<Projectile>)
    requires Distinct(ts) && i < |ts| && Distinct(projectiles)
    requires |olds| == |ts| && |news| == |ts| && olds[i] == ts[i].State()
    requires Shots(projectiles) == base + TowerShots(ts, olds, news, i, time)
    modifies ts[i]
    ensures ts[i].State() == TowerStep(old(ts[i].State()), old(ts[i].TargetState()), enemies, Snapshots(enemies),
                                       time, hypot, ts[i].Pos(), ts[i].config)
    ensures forall k :: 0 <= k < |ts| && k != i ==>
      ts[k].State() == old(ts[k].State()) && ts[k].TargetState() == old(ts[k].TargetState())
    ensures Snapshots(enemies) == old(Snapshots(enemies))
    ensures |projectiles| <= |after| && after[..|projectiles|] == projectiles
    ensures Shots(after) == old(Shots(projectiles)) + Shot(old(ts[i].State()), ts[i].State(), time, ts[i].Pos(), ts[i].config)
    ensures Shots(after) == base + TowerShots(ts, olds, news[i := ts[i].State()], i + 1, time)
    ensures forall k :: |projectiles| <= k < |after| ==> fresh(after[k])
    ensures Distinct(after)
  {
    ghost var prev := Shots(projectiles);
    after := ts[i].Update(time, enemies, projectiles, hypot);
    TurnShots(ts, olds, news, base, prev, Shots(after), i, time, ts[i].State());
  }

  /** The loop of the tower phase: each tower in turn updates against the
      enemy list and may append one shot. Towers touch only their own
      fields, so every tower sees the enemies as they were, and the shots
      are appended in tower order. */
  method SweepTowers(ts: seq<Tower>, enemies: seq<Enemy>, projectiles: seq<Projectile>, time: real, hypot: Hypot)
    returns (after: seq<Projectile>)
    requires Distinct(ts) && Distinct(projectiles)
    modifies ts
    ensures forall k :: 0 <= k < |ts| ==>
      ts[k].State() == TowerStep(old(ts[k].State()), old(ts[k].TargetState()),
                                 enemies, old(Snapshots(enemies)), time, hypot, ts[k].Pos(), ts[k].config)
    ensures |projectiles| <= |after| && after[..|projectiles|] == projectiles
    ensures Shots(after) == old(Shots(projectiles)) + TowerShots(ts, old(TowerStates(ts)), TowerStates(ts), |ts|, time)
    ensures forall k :: |projectiles| <= k < |after| ==> fresh(after[k])
    ensures Distinct(after)
  {
    ghost var es := Snapshots(enemies);
    ghost var olds := TowerStates(ts);
    ghost var news := olds;
    ghost var base := Shots(projectiles);
    after := projectiles;
    var i := 0;
    while i < |ts|
      invariant 0 <= i <= |ts|
      invariant forall k :: 0 <= k < i ==>
        ts[k].State() == TowerStep(old(ts[k].State()), old(ts[k].TargetState()),
                                   enemies, es, time, hypot, ts[k].Pos(), ts[k].config)
      invariant forall k :: i <= k < |ts| ==> ts[k].State() == old(ts[k].State())
      invariant forall k :: i <= k < |ts| ==> ts[k].TargetState() == old(ts[k].TargetState())
      invariant Snapshots(enemies) == es
      invariant |projectiles| <= |after| && after[..|projectiles|] == projectiles
      invariant |news| == |ts| && forall k :: 0 <= k < i ==> news[k] == ts[k].State()
      invariant Shots(after) == base + TowerShots(ts, olds, news, i, time)
      invariant forall k :: |projectiles| <= k < |after| ==> fresh(after[k])
      invariant Distinct(after)
    {
      after := StepTower(ts, i, time, enemies, after, hypot, olds, news, base);
      news := news[i := ts[i].State()];
      i := i + 1;
    }
    TowerShotsAgree(ts, olds, news, TowerStates(ts), |ts|, time);
  }

  /** The loop of the enemy phase. Walking the list backwards, each enemy
      takes its step and is then spliced out if it died (paying its reward)
      or escaped (costing a life, and raising the game-over flag once no
      lives remain). */
  method SweepEnemies(es: seq<Enemy>, ghost before: seq<EnemyState>, gold: int, lives: int, gameOver: bool,
                      time: real, delta: real, path: seq<Point>, hypot: Hypot)
    returns (list: seq<Enemy>, g: int, l: int, over: bool)
    requires Distinct(es) && WalkablePath(path, hypot)
    requires |before| == |es| && forall k :: 0 <= k < |es| ==> es[k].State() == before[k]
    modifies es
    ensures var after := StepAll(before, time, delta, path, hypot);
      && (forall k :: 0 <= k < |es| ==> es[k].State() == after[k])
      && list == Survivors(es, after)
      && g == gold + Bounty(after)
      && l == lives - Escapes(after)
      && over == (gameOver || (Escapes(after) > 0 && l <= 0))
  {
    ghost var after := StepAll(before, time, delta, path, hypot);
    list, g, l, over := es, gold, lives, gameOver;
    var i := |es|;
    assert es[..i] == es;
    while i > 0
      invariant 0 <= i <= |es|
      invariant list == es[..i] + SurvivorsFrom(es, after, i)
      invariant forall k :: 0 <= k < i ==> es[k].State() == before[k]
      invariant forall k :: i <= k < |es| ==> es[k].State() == after[k]
      invariant g == gold + BountyFrom(after, i)
      invariant l == lives - EscapesFrom(after, i)
      invariant over == (gameOver || (EscapesFrom(after, i) > 0 && l <= 0))
    {
      i := i - 1;
      SpliceAt(list, es, SurvivorsFrom(es, after, i + 1), i);
      var enemy := list[i];
      enemy.Update(time, delta, path, hypot);
      if enemy.isDead {
        g := g + enemy.reward;
        list := list[..i] + list[i + 1..];
      } else if enemy.reachedEnd {
        l := l - 1;
        list := list[..i] + list[i + 1..];
        if l <= 0 {
          over := true;
        }
      } else {
        KeepAt(es, SurvivorsFrom(es, after, i + 1), i);
      }
    }
    assert es[..0] == [];
  }

  // ---------------------------------------------------------------------
  // The scene

  class GameScene {
    var gold: int
    var lives: int
    var currentWave: nat
    var towers: seq<Tower>
    var enemies: seq<Enemy>
    var projectiles: seq<Projectile>
    const pathCoords: seq<Point>
    var pending: seq<Scheduled>
    var victoryShown: bool
    var gameOverShown: bool

    /** The scene's invariant: a walkable path (fixed at creation to the
        configured one), entity lists without repeats, and every tower with
        its type's configuration at the centre of its cell. */
    ghost predicate Valid()
      reads this
    {
      && ValidPath(pathCoords)
      && Distinct(towers) && Distinct(enemies) && Distinct(projectiles)
      && (forall t :: t in towers ==> t.Placed())
    }

    function Status(): Ledger
      reads this
    {
      Ledger(gold, lives, currentWave, pending, victoryShown, gameOverShown)
    }

    /** `create()`: starting gold and lives, no entities, the path mapped to
        cell centres, and the first wave due in 2000 ms. */
    constructor()
      ensures Valid() && pathCoords == PathCoords()
      ensures Status() == Ledger(StartingGold, StartingLives, 0, [Scheduled(2000, StartWaveAction)], false, false)
      ensures towers == [] && enemies == [] && projectiles == []
    {
      gold := StartingGold;
      lives := StartingLives;
      currentWave := 0;
      towers := [];
      enemies := [];
      projectiles := [];
      pathCoords := PathCoords();
      PathCoordsValid();
      pending := [Scheduled(2000, StartWaveAction)];
      victoryShown := false;
      gameOverShown := false;
    }

    /** `canPlaceTower(gridX, gridY)`: the cell centre must keep half a tile
        from every path segment, and the cell must be free. */
    method CanPlaceTower(gridX: int, gridY: int, hypot: Hypot) returns (ok: bool)
      requires IsHypot(hypot)
      ensures ok <==> OffPath(hypot, pathCoords, CellCentrePoint(gridX, gridY)) && !Occupied(towers, gridX, gridY)
    {
      var c := CellCentrePoint(gridX, gridY);
      var i := 0;
      while i < |pathCoords| - 1
        invariant 0 <= i <= if |pathCoords| == 0 then 0 else |pathCoords| - 1
        invariant forall k :: 0 <= k < i ==>
          !(DistanceToLineSegment(hypot, c, pathCoords[k], pathCoords[k + 1]) < CorridorHalfWidth())
      {
        var dist := DistanceToLineSegment(hypot, c, pathCoords[i], pathCoords[i + 1]);
        if dist < CorridorHalfWidth() {
          return false;
        }
        i := i + 1;
      }
      var k := 0;
      while k < |towers|
        invariant 0 <= k <= |towers|
        invariant forall j :: 0 <= j < k ==> !(towers[j].gridX == gridX && towers[j].gridY == gridY)
      {
        if towers[k].gridX == gridX && towers[k].gridY == gridY {
          return false;
        }
        k := k + 1;
      }
      return true;
    }

    /** `placeTower(gridX, gridY, type)`: when the gold covers the cost, pay
        it and add one tower at the cell; otherwise change nothing. The cell
        itself is not checked here (the click handler calls `canPlaceTower`
        first). */
    method PlaceTower(gridX: int, gridY: int, kind: TowerType)
      requires Valid()
      modifies this
      ensures Valid()
      ensures gold == GoldAfterPlace(old(gold), TowerTypes(kind).cost)
      ensures old(gold) >= TowerTypes(kind).cost ==>
        && |towers| == |old(towers)| + 1 && towers[..|old(towers)|] == old(towers)
        && fresh(towers[|old(towers)|])
        && towers[|old(towers)|].gridX == gridX && towers[|old(towers)|].gridY == gridY
        && towers[|old(towers)|].kind == kind
        && towers[|old(towers)|].config == TowerTypes(kind)
        && towers[|old(towers)|].Pos() == CellCentrePoint(gridX, gridY)
        && towers[|old(towers)|].State() == TowerState(0.0, null)
      ensures old(gold) < TowerTypes(kind).cost ==> towers == old(towers)
      ensures lives == old(lives) && currentWave == old(currentWave) && pending == old(pending)
      ensures victoryShown == old(victoryShown) && gameOverShown == old(gameOverShown)
      ensures enemies == old(enemies) && projectiles == old(projectiles)
    {
      var config := TowerTypes(kind);
      if gold >= config.cost {
        gold := gold - config.cost;
        var tower := new Tower(gridX, gridY, kind);
        towers := towers + [tower];
      }
    }

    /** `startWave()`. */
    method StartWave()
      requires Valid()
      modifies this
      ensures Valid()
      ensures Status() == StartWaveSpec(old(Status()))
      ensures towers == old(towers) && enemies == old(enemies) && projectiles == old(projectiles)
    {
      if currentWave >= |Waves()| {
        victoryShown := true;
        return;
      }
      var wave := Waves()[currentWave];
      currentWave := currentWave + 1;
      var i := 0;
      while i < wave.count
        invariant 0 <= i <= wave.count
        invariant pending == old(pending) + SpawnSchedule(wave)[..i]
        invariant Status() == old(Status()).(currentWave := old(currentWave) + 1, pending := pending)
        invariant towers == old(towers) && enemies == old(enemies) && projectiles == old(projectiles)
      {
        pending := pending + [Scheduled(i * 1000, SpawnEnemyAction(wave))];
        i := i + 1;
        assert SpawnSchedule(wave)[..i] == SpawnSchedule(wave)[..i - 1] + [Scheduled((i - 1) * 1000, SpawnEnemyAction(wave))];
      }
      assert SpawnSchedule(wave)[..wave.count] == SpawnSchedule(wave);
    }

    /** The body of a spawn callback: a new enemy with the wave's stats at
        the start of the path joins the end of the list. */
    method SpawnEnemy(wave: WaveConfig)
      requires Valid()
      modifies this
      ensures Valid()
      ensures |enemies| == |old(enemies)| + 1 && enemies[..|old(enemies)|] == old(enemies)
      ensures fresh(enemies[|old(enemies)|])
      ensures enemies[|old(enemies)|].State() == Spawned(wave.health, wave.speed, wave.reward, pathCoords[0])
      ensures Status() == old(Status()) && towers == old(towers) && projectiles == old(projectiles)
    {
      var enemy := new Enemy(wave.health, wave.speed, wave.reward, pathCoords);
      enemies := enemies + [enemy];
    }

    /** The tower phase of `update`: every tower, in order, retargets and
        perhaps fires; shots are appended to the projectile list. */
    method UpdateTowers(time: real, hypot: Hypot)
      requires Valid()
      modifies this, towers
      ensures Valid()
      ensures Status() == old(Status()) && towers == old(towers) && enemies == old(enemies)
      ensures forall k :: 0 <= k < |towers| ==>
        towers[k].State() == TowerStep(old(towers[k].State()), old(towers[k].TargetState()),
                                       enemies, old(Snapshots(enemies)), time, hypot, towers[k].Pos(), towers[k].config)
      ensures |old(projectiles)| <= |projectiles| && projectiles[..|old(projectiles)|] == old(projectiles)
      ensures Shots(projectiles) == old(Shots(projectiles)) + TowerShots(towers, old(TowerStates(towers)), TowerStates(towers), |towers|, time)
      ensures forall k :: |old(projectiles)| <= k < |projectiles| ==> fresh(projectiles[k])
    {
      ghost var shots := Shots(projectiles);
      ghost var olds := TowerStates(towers);
      var after := SweepTowers(towers, enemies, projectiles, time, hypot);
      assert Shots(after) == shots + TowerShots(towers, olds, TowerStates(towers), |towers|, time);
      projectiles := after;
    }

    /** The enemy phase of `update`: every enemy takes its step; a dead one
        pays its reward and leaves, an escaped one costs one life and leaves,
        and the game-over overlay is raised when an escape leaves no lives. */
    method UpdateEnemies(time: real, delta: real, hypot: Hypot)
      requires Valid() && IsHypot(hypot)
      modifies this, enemies
      ensures Valid()
      ensures WalkablePath(pathCoords, hypot)
      ensures var after := StepAll(old(Snapshots(enemies)), time, delta, pathCoords, hypot);
        && (forall k :: 0 <= k < |old(enemies)| ==> old(enemies)[k].State() == after[k])
        && enemies == Survivors(old(enemies), after)
        && gold == old(gold) + Bounty(after)
        && lives == old(lives) - Escapes(after)
        && gameOverShown == (old(gameOverShown) || (Escapes(after) > 0 && lives <= 0))
      ensures currentWave == old(currentWave) && pending == old(pending) && victoryShown == old(victoryShown)
      ensures towers == old(towers) && projectiles == old(projectiles)
    {
      ValidPathWalkable(pathCoords, hypot);
      ghost var before := Snapshots(enemies);
      ghost var after := StepAll(before, time, delta, pathCoords, hypot);
      var es := enemies;
      var list, g, l, over := SweepEnemies(es, before, gold, lives, gameOverShown, time, delta, pathCoords, hypot);
      SurvivorsDistinct(es, after, 0);
      enemies, gold, lives, gameOverShown := list, g, l, over;
    }

    /** The projectile phase of `update`: every projectile takes its step
        (hitting its target at most once), and those marked for removal leave
        the list. */
    method UpdateProjectiles(time: real, delta: real, hypot: Hypot)
      requires Valid()
      modifies this, projectiles, Targets(projectiles)
      ensures Valid()
      ensures var v := ResolveFrom(Volley(old(Shots(projectiles)), old(World(Targets(projectiles)))), 0, time, delta, hypot);
        && (forall k :: 0 <= k < |old(projectiles)| ==> old(projectiles)[k].State() == v.shots[k])
        && (forall e :: e in Targets(old(projectiles)) ==> e.State() == v.world[e])
        && projectiles == KeptFrom(old(projectiles), v.shots, 0)
      ensures Status() == old(Status()) && towers == old(towers) && enemies == old(enemies)
    {
      var ps := projectiles;
      ghost var v0 := Volley(Shots(ps), World(Targets(ps)));
      ghost var v := ResolveFrom(v0, 0, time, delta, hypot);
      var kept := SweepProjectiles(ps, v0, time, delta, hypot);
      KeptDistinct(ps, v.shots, 0);
      projectiles := kept;
    }

    /** The end of `update`: schedule the next wave whenever the enemy list
        is empty between the first and the last wave. */
    method CheckWaveComplete()
      modifies this
      ensures Status() == WaveCheckSpec(old(Status()), |enemies|)
      ensures towers == old(towers) && enemies == old(enemies) && projectiles == old(projectiles)
    {
      if |enemies| == 0 && currentWave > 0 && currentWave < |Waves()| {
        pending := pending + [Scheduled(3000, StartWaveAction)];
      }
    }
  }
}
