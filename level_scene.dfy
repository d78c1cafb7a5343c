/**
 * The per-level gameplay scene: the foreground layer it edits in place, the
 * hero, the ctrl budget with its copy/paste state, and the one-shot exit of
 * the last level. `create` (the constructor and `Create`) sets a level up,
 * the key handlers spend ctrls, and `Update` is one tick of the game loop.
 */
module Scene {
  import opened Wrappers
  import opened Tiles
  import opened Goal
  import Edit
  import Hero

  /** The pointer in world coordinates, and whether its button is held this tick. */
  datatype Pointer = Pointer(x: int, y: int, isDown: bool)

  /** There is a tilemap with a spawn marker for each level, first to last. */
  ghost predicate LevelsLoadable(maps: seq<LevelData>)
  {
    |maps| == LastLevel - FirstLevel + 1 && forall i :: 0 <= i < |maps| ==> Loadable(maps[i])
  }

  /** The tilemap `'level' + lvl`. */
  function DataOf(maps: seq<LevelData>, lvl: int): (d: LevelData)
    requires FirstLevel <= lvl <= LastLevel && LevelsLoadable(maps)
    ensures Loadable(d)
  {
    maps[lvl - FirstLevel]
  }

  class LevelScene {
    /** The levels' tilemaps, as loaded into the cache before any level starts. */
    const levels: seq<LevelData>
    var level: int
    /** The dynamic foreground layer, indexed [column, row]. */
    var fg: array2<Cell>
    var hero: Hero.Sprite
    var ctrls: int
    /** The index of the tile last pressed on; `None` while still `undefined`. */
    var selected: Option<int>
    /** The copy buffer; `None` while still `undefined`. */
    var copied: Option<int>
    var pasting: bool
    /** Whether the last level's exit has been put in place (`undefined`, hence false, at first). */
    var endadded: bool

    /** The edit protocol's part of the scene. */
    function EditView(): Edit.EditState
      reads this
    {
      Edit.EditState(ctrls, selected, copied, pasting)
    }

    ghost predicate Valid()
      reads this
    {
      FirstLevel <= level <= LastLevel && Edit.Inv(EditView()) && LevelsLoadable(levels)
    }

    predicate InBounds(x: int, y: int)
      reads this
    {
      0 <= x < fg.Length0 && 0 <= y < fg.Length1
    }

    /** The layer's `getTileAt`: the cell inside the layer, and no tile outside it. */
    function CellAt(x: int, y: int): (c: Cell)
      reads this, fg
      ensures InBounds(x, y) ==> c == fg[x, y]
      ensures !InBounds(x, y) ==> c == Empty
    {
      if InBounds(x, y) then fg[x, y] else Empty
    }

    /** The cell under a world point. */
    function CellUnder(wx: int, wy: int): Cell
      reads this, fg
    {
      CellAt(WorldToTile(wx), WorldToTile(wy))
    }

    /** "Out of Control!": the budget is spent. */
    predicate OutOfCtrls()
      reads this
    {
      ctrls == 0
    }

    /** The state `create` leaves behind for level `lvl`, loaded from that level's data. */
    ghost predicate Loaded(lvl: int)
      requires FirstLevel <= lvl <= LastLevel && LevelsLoadable(levels)
      reads this, fg
    {
      var d := DataOf(levels, lvl);
      var (sx, sy) := FindByIndex(d.rows, SpawnIndex).value;
      level == lvl && ctrls == lvl + 2 && !pasting
      && LayerOf(fg, d)
      && hero == Hero.Spawned(sx, sy)
    }

    /**
     * Starts the scene on its first level, with the cached tilemaps of all
     * levels; the fields `create` never sets are still `undefined`.
     */
    constructor (startLevel: int, maps: seq<LevelData>)
      requires FirstLevel <= startLevel <= LastLevel && LevelsLoadable(maps)
      ensures levels == maps
      ensures Valid() && fresh(fg) && Loaded(startLevel)
      ensures selected.None? && copied.None? && !endadded
    {
      levels := maps;
      level := startLevel;
      var d := DataOf(maps, startLevel);
      var layer := LoadLayer(d);
      fg := layer;
      var (sx, sy) := FindByIndex(d.rows, SpawnIndex).value;
      hero := Hero.Spawned(sx, sy);
      pasting := false;
      ctrls := startLevel + 2;
      selected, copied, endadded := None, None, false;
    }

    /**
     * `create` run again by a restart of level `newLevel`: a new layer from
     * that level's tilemap, a new hero, a full budget and no armed paste; the
     * selection, the copy buffer and the exit flag belong to the scene object
     * and carry over.
     */
    method Create(newLevel: int)
      requires Valid()
      requires FirstLevel <= newLevel <= LastLevel
      modifies this
      ensures Valid() && fresh(fg) && Loaded(newLevel)
      ensures selected == old(selected) && copied == old(copied) && endadded == old(endadded)
    {
      level := newLevel;
      var d := DataOf(levels, newLevel);
      fg := LoadLayer(d);
      var (sx, sy) := FindByIndex(d.rows, SpawnIndex).value;
      hero := Hero.Spawned(sx, sy);
      pasting := false;
      ctrls := newLevel + 2;
    }

    /**
     * F: queue a restart of the current level. Like every scene restart it
     * takes effect after the current step, when the caller runs `Create`
     * with the returned level; until then nothing changes.
     */
    method OnKeyDownF() returns (outcome: Outcome)
      requires Valid()
      ensures outcome == Restart(level)
    {
      outcome := Restart(level);
    }

    /** C: with Ctrl held and a ctrl left, copy the selection and spend one ctrl. */
    method OnKeyDownC(ctrlHeld: bool)
      requires Valid()
      modifies this`copied, this`ctrls
      ensures Valid()
      ensures EditView() == Edit.Copy(old(EditView()), ctrlHeld)
    {
      if ctrlHeld && ctrls != 0 {
        copied := selected;
        ctrls := ctrls - 1;
      }
    }

    /** V: with Ctrl held, a ctrl left and something copied, arm a paste and spend one ctrl. */
    method OnKeyDownV(ctrlHeld: bool)
      requires Valid()
      modifies this`pasting, this`ctrls
      ensures Valid()
      ensures EditView() == Edit.ArmPaste(old(EditView()), ctrlHeld)
    {
      if ctrlHeld && ctrls != 0 && Edit.Truthy(copied) {
        pasting := true;
        ctrls := ctrls - 1;
      }
    }

    /** Whether the pointer press of this tick would write the copied tile into a cell. */
    predicate CommitsUnder(p: Pointer)
      reads this, fg
    {
      Edit.Commits(EditView(), CellUnder(p.x, p.y), p.isDown)
    }

    /** A committing press is inside the layer (outside it the layer returns no tile to mark solid). */
    predicate CommitInBounds(p: Pointer)
      reads this, fg
    {
      CommitsUnder(p) ==> InBounds(WorldToTile(p.x), WorldToTile(p.y))
    }

    /**
     * The pointer part of a tick: a press on a tile selects its index; a press
     * on an empty cell while a paste is armed writes the copied index there as
     * a solid tile and disarms the paste. No other cell changes.
     */
    method PointerPress(p: Pointer)
      requires Valid() && CommitInBounds(p)
      modifies this`selected, this`pasting, fg
      ensures Valid()
      ensures EditView() == Edit.PressEffect(old(EditView()), old(CellUnder(p.x, p.y)), p.isDown)
      ensures forall x, y :: 0 <= x < fg.Length0 && 0 <= y < fg.Length1 ==>
        fg[x, y] == if (x, y) == (WorldToTile(p.x), WorldToTile(p.y)) && old(CommitsUnder(p))
                    then Tile(copied.value, true) else old(fg[x, y])
    {
      var tx, ty := WorldToTile(p.x), WorldToTile(p.y);
      var tile := CellAt(tx, ty);
      if tile.Tile? {
        if p.isDown {
          selected := Some(tile.index);
        }
      } else if pasting && p.isDown {
        fg[tx, ty] := Tile(copied.value, true);
        pasting := false;
      }
    }

    /** The last level's puzzle cells hold 104, 105, 106. */
    predicate EndPatternHolds()
      reads this, fg
    {
      EndPattern(CellAt(PatternLeft, PatternRow), CellAt(PatternMid, PatternRow), CellAt(PatternRight, PatternRow))
    }

    /**
     * The last level's trigger: the first tick that sees the puzzle solved puts
     * the exit tile above it, with the layer's collision rule for it, and
     * records that it did; after that it never writes again.
     */
    method EndTrigger()
      modifies this`endadded, fg
      ensures endadded == (old(endadded) || (level == LastLevel && EndPatternHolds()))
      ensures forall x, y :: 0 <= x < fg.Length0 && 0 <= y < fg.Length1 ==>
        fg[x, y] == if (x, y) == (ExitX, ExitY) && endadded && !old(endadded)
                    then FromIndex(GoalIndex) else old(fg[x, y])
    {
      if level == LastLevel && !endadded {
        if EndPatternHolds() {
          fg[ExitX, ExitY] := FromIndex(GoalIndex);
          endadded := true;
        }
      }
    }

    /**
     * One tick. Without a body nothing happens. Otherwise, in this order: the
     * hero's intent and animation, the exit check on the cell under the hero,
     * the pointer press, and the last level's trigger. The outcome is the
     * level change the tick queues; the rest of the tick still runs.
     */
    method Update(keys: Hero.Keys, p: Pointer) returns (outcome: Outcome)
      requires Valid()
      requires hero.body.Some? ==> CommitInBounds(p)
      modifies this`hero, this`selected, this`pasting, this`endadded, fg
      ensures Valid()
      ensures old(hero.body).None? ==>
        outcome == Continue && unchanged(this) && unchanged(fg)
      ensures old(hero.body).Some? ==>
        && hero == Hero.Steer(old(hero), keys)
        && outcome == GoalOutcome(level, old(CellUnder(hero.x, hero.y)))
        && EditView() == Edit.PressEffect(old(EditView()), old(CellUnder(p.x, p.y)), p.isDown)
        && endadded == (old(endadded) || (level == LastLevel && EndPatternHolds()))
      ensures old(hero.body).Some? ==>
        forall x, y :: 0 <= x < fg.Length0 && 0 <= y < fg.Length1 ==>
          fg[x, y] == if (x, y) == (ExitX, ExitY) && endadded && !old(endadded) then FromIndex(GoalIndex)
                      else if (x, y) == (WorldToTile(p.x), WorldToTile(p.y)) && old(CommitsUnder(p))
                      then Tile(copied.value, true)
                      else old(fg[x, y])
    {
      if hero.body.None? {
        return Continue;
      }
      hero := Hero.Steer(hero, keys);
      outcome := GoalOutcome(level, CellUnder(hero.x, hero.y));
      PointerPress(p);
      EndTrigger();
    }
  }
}
