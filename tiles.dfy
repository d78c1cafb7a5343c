/**
 * The foreground tile layer of a level: what a cell holds, which tile
 * indices collide, how world points map to cells, and how a layer is built
 * from the authored level data.
 */
module Tiles {
  import opened Wrappers

  /** Width and height of one tile in world units; the layer sits at 0,0. */
  const TileSize: int := 16
  /** The index Phaser gives to a cell that holds no tile. */
  const EmptyIndex: int := -1
  /** The exit tile. */
  const GoalIndex: int := 140
  /** The tile that marks where the hero starts. */
  const SpawnIndex: int := 152

  /** A cell of the layer: empty, or a tile with its index and its collision flag. */
  datatype Cell = Empty | Tile(index: int, collides: bool)

  // ---------------------------------------------------------------------
  // Collision rules
  // ---------------------------------------------------------------------

  /** One collision-setting call on the layer. */
  datatype CollisionRule =
    | Between(start: int, stop: int, collides: bool)
    | Single(index: int, collides: bool)

  predicate Covers(rule: CollisionRule, index: int)
  {
    match rule
    case Between(start, stop, _) => start <= index <= stop
    case Single(i, _) => i == index
  }

  /** The calls `create` makes on the foreground layer, in order. */
  const LayerRules: seq<CollisionRule> := [
    Between(0, 200, true),
    Single(92, false),
    Single(94, false),
    Single(GoalIndex, false),
    Single(SpawnIndex, false)
  ]

  /**
   * Whether `index` collides once `rules` have been applied in order to a
   * layer whose collision for `index` was `current`: every call that covers
   * the index overrides what the earlier ones said.
   */
  function CollidesAfter(rules: seq<CollisionRule>, index: int, current: bool): bool
  {
    if rules == [] then current
    else CollidesAfter(rules[1..], index, if Covers(rules[0], index) then rules[0].collides else current)
  }

  /** The collision rule of the layer, in closed form: a range with four exceptions. */
  predicate Collidable(index: int)
  {
    0 <= index <= 200 && index != 92 && index != 94 && index != GoalIndex && index != SpawnIndex
  }

  /** Applying the layer's calls to a fresh layer gives exactly the range-with-exceptions rule. */
  lemma {:induction false} LayerRulesAreRangeWithExceptions(index: int)
    ensures CollidesAfter(LayerRules, index, false) == Collidable(index)
  {
    var r0 := LayerRules[1..];
    assert r0 == [Single(92, false), Single(94, false), Single(GoalIndex, false), Single(SpawnIndex, false)];
    var r1 := r0[1..];
    assert r1 == [Single(94, false), Single(GoalIndex, false), Single(SpawnIndex, false)];
    var r2 := r1[1..];
    assert r2 == [Single(GoalIndex, false), Single(SpawnIndex, false)];
    var r3 := r2[1..];
    assert r3 == [Single(SpawnIndex, false)];
    assert r3[1..] == [];
    var c0 := 0 <= index <= 200;
    var c1 := if index == 92 then false else c0;
    var c2 := if index == 94 then false else c1;
    var c3 := if index == GoalIndex then false else c2;
    var c4 := if index == SpawnIndex then false else c3;
    calc {
      CollidesAfter(LayerRules, index, false);
      CollidesAfter(r0, index, c0);
      CollidesAfter(r1, index, c1);
      CollidesAfter(r2, index, c2);
      CollidesAfter(r3, index, c3);
      CollidesAfter([], index, c4);
    }
  }

  /** The cell a tile index of the authored data becomes, with its collision flag cached. */
  function FromIndex(index: int): (c: Cell)
    ensures c.Empty? <==> index == EmptyIndex
    ensures c.Tile? ==> c.index == index && c.collides == CollidesAfter(LayerRules, index, false)
  {
    LayerRulesAreRangeWithExceptions(index);
    if index == EmptyIndex then Empty else Tile(index, Collidable(index))
  }

  // ---------------------------------------------------------------------
  // Coordinates
  // ---------------------------------------------------------------------

  /** The world coordinate of the top or left edge of cell `t`. */
  function TileToWorld(t: int): int
  {
    t * TileSize
  }

  /** The cell that contains world coordinate `w` (floor division). */
  function WorldToTile(w: int): (t: int)
    ensures TileToWorld(t) <= w < TileToWorld(t) + TileSize
  {
    w / TileSize
  }

  /** Every point inside a cell, its origin included, maps back to that cell. */
  lemma CellInteriorMapsBack(t: int, offset: int)
    requires 0 <= offset < TileSize
    ensures WorldToTile(TileToWorld(t) + offset) == t
  {
  }

  // ---------------------------------------------------------------------
  // Level data
  // ---------------------------------------------------------------------

  /** The foreground layer of a level as authored: rows of tile indices, `EmptyIndex` for no tile. */
  datatype LevelData = LevelData(width: nat, rows: seq<seq<int>>)

  /** Every row has the layer's width. */
  ghost predicate WellFormed(d: LevelData)
  {
    forall y :: 0 <= y < |d.rows| ==> |d.rows[y]| == d.width
  }

  /** The first position of `v` in `s`. */
  function FirstIndex(s: seq<int>, v: int): (r: Option<nat>)
    ensures r.Some? ==> r.value < |s| && s[r.value] == v
    ensures r.Some? ==> forall j :: 0 <= j < r.value ==> s[j] != v
    ensures r.None? <==> v !in s
  {
    if s == [] then None
    else if s[0] == v then Some(0)
    else match FirstIndex(s[1..], v)
      case None => None
      case Some(k) => Some(k + 1)
  }

  /**
   * The first cell, scanning row by row from the top and each row from the
   * left, whose tile index is `v`, as a (column, row) pair.
   */
  function FindByIndex(rows: seq<seq<int>>, v: int): (r: Option<(nat, nat)>)
    ensures r.Some? ==>
      var (x, y) := r.value;
      y < |rows| && x < |rows[y]| && rows[y][x] == v
      && (forall i :: 0 <= i < x ==> rows[y][i] != v)
      && forall j :: 0 <= j < y ==> v !in rows[j]
    ensures r.None? <==> forall j :: 0 <= j < |rows| ==> v !in rows[j]
  {
    if rows == [] then None
    else match FirstIndex(rows[0], v)
      case Some(x) => Some((x, 0))
      case None =>
        match FindByIndex(rows[1..], v)
        case None => None
        case Some((x, y)) => Some((x, y + 1))
  }

  /** A level whose layer can be built and that has a spawn marker. */
  ghost predicate Loadable(d: LevelData)
  {
    WellFormed(d) && FindByIndex(d.rows, SpawnIndex).Some?
  }

  /** `layer` holds exactly the authored cells of `d`, indexed [column, row]. */
  ghost predicate LayerOf(layer: array2<Cell>, d: LevelData)
    requires WellFormed(d)
    reads layer
  {
    layer.Length0 == d.width && layer.Length1 == |d.rows|
    && forall x, y :: 0 <= x < layer.Length0 && 0 <= y < layer.Length1 ==> layer[x, y] == FromIndex(d.rows[y][x])
  }

  /** Builds the dynamic foreground layer of a level from its data. */
  method LoadLayer(d: LevelData) returns (layer: array2<Cell>)
    requires WellFormed(d)
    ensures fresh(layer) && LayerOf(layer, d)
  {
    layer := new Cell[d.width, |d.rows|]((x: int, y: int) requires 0 <= x < d.width && 0 <= y < |d.rows| => FromIndex(d.rows[y][x]));
  }
}
