/** The constant table `gameConfig` of js/config.js: grid dimensions, the four
    tower types, the five enemy waves, the path waypoints and the starting
    economy. Presentation-only entries (colours) are not part of it. */
module Config {
  import opened Geometry

  datatype Option<T> = None | Some(value: T)

  const TileSize: int := 64
  const GridWidth: int := 12
  const GridHeight: int := 10
  const StartingGold: int := 250
  const StartingLives: int := 20

  /** Half a tile: the corridor around the path in which no tower may stand. */
  function CorridorHalfWidth(): (w: real)
    ensures w == TileSize as real / 2.0 && w == 32.0
  {
    TileSize as real * 0.5
  }

  /** The world coordinate of the centre of grid column (or row) g: half a
      tile from either edge of the cell. */
  function CellCentre(g: int): (c: real)
    ensures c - (g * TileSize) as real == 32.0
    ensures ((g + 1) * TileSize) as real - c == 32.0
  {
    (g * TileSize) as real + TileSize as real / 2.0
  }

  function CellCentrePoint(gx: int, gy: int): Point
  {
    Point(CellCentre(gx), CellCentre(gy))
  }

  datatype TowerType = Fire | Water | Earth | Air

  /** The gameplay fields of one `towerTypes` entry; `slowEffect` is present
      on the water tower only. */
  datatype TowerConfig = TowerConfig(
    name: string,
    damage: real,
    range: real,
    fireRate: real,
    cost: int,
    projectileSpeed: real,
    slowEffect: Option<real>)

  function TowerTypes(t: TowerType): (c: TowerConfig)
    ensures c.damage > 0.0 && c.range > 0.0 && c.fireRate > 0.0
    ensures c.cost > 0 && c.projectileSpeed > 0.0
    ensures c.slowEffect.Some? <==> t == Water
    ensures c.slowEffect.Some? ==> 0.0 < c.slowEffect.value < 1.0
    ensures c.cost >= 90
  {
    match t
    case Fire => TowerConfig("Fire Tower", 25.0, 150.0, 1000.0, 100, 300.0, None)
    case Water => TowerConfig("Water Tower", 15.0, 180.0, 800.0, 120, 350.0, Some(0.5))
    case Earth => TowerConfig("Earth Tower", 40.0, 120.0, 1500.0, 150, 250.0, None)
    case Air => TowerConfig("Air Tower", 10.0, 200.0, 600.0, 90, 400.0, None)
  }

  /** One entry of `waves`: how many enemies, and the stats each one gets. */
  datatype WaveConfig = WaveConfig(count: nat, health: real, speed: real, reward: int)

  function Waves(): (w: seq<WaveConfig>)
    ensures |w| == 5
    ensures forall i :: 0 <= i < |w| ==>
      w[i].count > 0 && w[i].health > 0.0 && w[i].speed > 0.0 && w[i].reward > 0
  {
    [ WaveConfig(5, 100.0, 50.0, 10),
      WaveConfig(8, 120.0, 55.0, 12),
      WaveConfig(10, 150.0, 60.0, 15),
      WaveConfig(12, 180.0, 65.0, 18),
      WaveConfig(15, 220.0, 70.0, 20) ]
  }

  datatype Cell = Cell(x: int, y: int)

  /** Consecutive cells share a row or a column and are not the same cell. */
  predicate AxisAligned(cells: seq<Cell>)
  {
    forall i :: 0 <= i < |cells| - 1 ==>
      (cells[i].x == cells[i + 1].x || cells[i].y == cells[i + 1].y) && cells[i] != cells[i + 1]
  }

  function PathWaypoints(): (cells: seq<Cell>)
    ensures |cells| == 8
    ensures AxisAligned(cells)
  {
    [Cell(0, 5), Cell(3, 5), Cell(3, 2), Cell(6, 2), Cell(6, 7), Cell(9, 7), Cell(9, 4), Cell(12, 4)]
  }

  /** `pathCoords`: every waypoint mapped to the centre of its cell. */
  function PathCoords(): (path: seq<Point>)
    ensures |path| == |PathWaypoints()|
    ensures forall i :: 0 <= i < |path| ==>
      path[i] == CellCentrePoint(PathWaypoints()[i].x, PathWaypoints()[i].y)
  {
    var cells := PathWaypoints();
    seq(|cells|, i requires 0 <= i < |cells| => CellCentrePoint(cells[i].x, cells[i].y))
  }

  /** A walkable path: at least one point, and consecutive points distinct so
      that each segment has positive length. */
  predicate ValidPath(path: seq<Point>)
  {
    && |path| > 0
    && forall i :: 0 <= i < |path| - 1 ==> Apart(path[i], path[i + 1])
  }

  /** What the enemy's progress computation needs of a path: a start point,
      and a positive length for every segment, since it divides by it. */
  predicate WalkablePath(path: seq<Point>, hypot: Hypot)
  {
    && |path| > 0
    && forall i :: 0 <= i < |path| - 1 ==> Dist(hypot, path[i], path[i + 1]) > 0.0
  }

  /** Under a true norm every valid path is walkable. */
  lemma ValidPathWalkable(path: seq<Point>, hypot: Hypot)
    requires IsHypot(hypot) && ValidPath(path)
    ensures WalkablePath(path, hypot)
  {
    forall i | 0 <= i < |path| - 1
      ensures Dist(hypot, path[i], path[i + 1]) > 0.0
    {
      DistPositive(hypot, path[i], path[i + 1]);
    }
  }

  lemma CellCentreInjective(a: int, b: int)
    requires a != b
    ensures CellCentre(a) < CellCentre(b) || CellCentre(a) > CellCentre(b)
  {
    if a < b {
      assert a * TileSize < b * TileSize;
    } else {
      assert a * TileSize > b * TileSize;
    }
  }

  /** The configured path is walkable, and each of its segments is horizontal
      or vertical. */
  lemma PathCoordsValid()
    ensures ValidPath(PathCoords())
    ensures forall i :: 0 <= i < |PathCoords()| - 1 ==>
      PathCoords()[i].x == PathCoords()[i + 1].x || PathCoords()[i].y == PathCoords()[i + 1].y
  {
    var cells := PathWaypoints();
    var path := PathCoords();
    forall i | 0 <= i < |path| - 1
      ensures Apart(path[i], path[i + 1])
    {
      if cells[i].x != cells[i + 1].x {
        CellCentreInjective(cells[i].x, cells[i + 1].x);
      } else {
        CellCentreInjective(cells[i].y, cells[i + 1].y);
      }
    }
  }

  /** The cheapest tower can be bought with the starting gold. */
  lemma CheapestTowerAffordable()
    ensures forall t :: TowerTypes(Air).cost <= TowerTypes(t).cost
    ensures TowerTypes(Air).cost <= StartingGold
  {
    forall t ensures TowerTypes(Air).cost <= TowerTypes(t).cost {
      var _ := TowerTypes(t);
    }
  }
}
