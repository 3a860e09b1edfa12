/**
 * The saved snapshot and its two transforms (src/persistance.ts). The payload
 * is the record itself: writing it to `localStorage` through `JSON.stringify`
 * and reading it back through `JSON.parse` are not modelled. A missing or
 * unparseable save is the input `None`; a field that is absent (or `null`)
 * in the parsed object is `None` in its field.
 */
module Persistence {
  import opened Wrappers
  import opened OrderedMap
  import opened State
  import opened Grid

  datatype SavedCell = SavedCell(id: CellId, token: Option<Token>)

  datatype SavedState = SavedState(
    playerLL: Option<LatLng>,
    score: Option<int>,
    held: Option<Token>,
    overrides: Option<seq<SavedCell>>,
    craftCellId: Option<CellId>,
    scoreCellId: Option<CellId>,
    bestScore: Option<int>,
    status: Option<GameStatus>,
    headingDeg: Option<real>)

  /** The override values in insertion order, flattened to `{id, token}`. */
  function SaveCells(t: Table<string, Cell>): (cs: seq<SavedCell>)
    ensures |cs| == |t|
    ensures forall i :: 0 <= i < |t| ==> cs[i] == SavedCell(t[i].value.id, t[i].value.token)
  {
    if |t| == 0 then [] else SaveCells(t[..|t| - 1]) + [SavedCell(t[|t| - 1].value.id, t[|t| - 1].value.token)]
  }

  /** The payload `saveState` writes. Every field of the state is present;
      `headingDeg` only when it is defined. */
  function SaveState(s: GameState): (p: SavedState)
    ensures p.overrides.Some? && |p.overrides.value| == |s.overrides|
    ensures forall i :: 0 <= i < |s.overrides| ==>
      p.overrides.value[i].id == s.overrides[i].value.id && p.overrides.value[i].token == s.overrides[i].value.token
    ensures p.headingDeg == s.headingDeg
  {
    SavedState(
      Some(s.playerLL), Some(s.score), s.held, Some(SaveCells(s.overrides)),
      Some(s.craftCellId), Some(s.scoreCellId), Some(s.bestScore), Some(s.status), s.headingDeg)
  }

  /** The override map rebuilt from the saved list: each saved cell is `set`
      under its own key, in order. */
  function RebuildOverrides(cs: seq<SavedCell>): (t: Table<string, Cell>)
    ensures WellKeyed(t) && DistinctKeys(t)
  {
    if |cs| == 0 then []
    else
      var c := cs[|cs| - 1];
      var prefix := RebuildOverrides(cs[..|cs| - 1]);
      SetKeepsWellKeyed(prefix, c.id, Cell(c.id, c.token));
      Set(prefix, CellKey(c.id), Cell(c.id, c.token))
  }

  /** The last saved cell with id `id`, as a cell. */
  function LastSaved(cs: seq<SavedCell>, id: CellId): Option<Cell> {
    if |cs| == 0 then None
    else if cs[|cs| - 1].id == id then Some(Cell(id, cs[|cs| - 1].token))
    else LastSaved(cs[..|cs| - 1], id)
  }

  /** On load the override for `id` is the LAST saved cell with that id. */
  lemma {:induction false} RebuildLastWins(cs: seq<SavedCell>, id: CellId)
    ensures Get(RebuildOverrides(cs), CellKey(id)) == LastSaved(cs, id)
  {
    if |cs| > 0 {
      CellKeyInjective(cs[|cs| - 1].id, id);
      RebuildLastWins(cs[..|cs| - 1], id);
    }
  }

  /** Inserts an empty override for `id` unless one is already there. */
  function EnsureOverride(t: Table<string, Cell>, id: CellId): (r: Table<string, Cell>)
    requires WellKeyed(t) && DistinctKeys(t)
    ensures WellKeyed(r) && DistinctKeys(r)
    ensures Has(r, CellKey(id))
    ensures forall k :: Has(t, k) ==> Get(r, k) == Get(t, k)
    ensures forall k :: k != CellKey(id) ==> Get(r, k) == Get(t, k)
    ensures !Has(t, CellKey(id)) ==> Get(r, CellKey(id)) == Some(Cell(id, None))
  {
    if Has(t, CellKey(id)) then t
    else
      SetKeepsWellKeyed(t, id, Cell(id, None));
      Set(t, CellKey(id), Cell(id, None))
  }

  /** `loadState`: `None` when there is no usable save (no save, or a payload
      without `overrides` or `playerLL`, on which the source throws inside its
      `try` and returns `undefined`). Every state it returns is `Valid`. */
  function LoadState(raw: Option<SavedState>): (r: Option<GameState>)
    ensures r.Some? <==> raw.Some? && raw.value.overrides.Some? && raw.value.playerLL.Some?
    ensures r.Some? ==> Valid(r.value)
  {
    match raw
    case None => None
    case Some(data) =>
      if data.overrides.None? || data.playerLL.None? then None
      else
        var rebuilt := RebuildOverrides(data.overrides.value);
        var playerLL := data.playerLL.value;
        var playerCell := LatLngToCellId(playerLL);
        var craftCellId := data.craftCellId.GetOr(Offset(playerCell, 1, 0));
        var scoreCellId := data.scoreCellId.GetOr(Offset(playerCell, 0, 1));
        var withCraft := EnsureOverride(rebuilt, craftCellId);
        var overrides := EnsureOverride(withCraft, scoreCellId);
        var score := data.score.GetOr(0);
        Some(GameState(
          playerLL, score, data.bestScore.GetOr(score), data.status.GetOr(Playing),
          data.headingDeg, data.held, overrides, craftCellId, scoreCellId))
  }

  /** Missing fields take their defaults; present ones are copied. */
  lemma LoadDefaults(data: SavedState)
    requires data.overrides.Some? && data.playerLL.Some?
    ensures var s := LoadState(Some(data)).value;
      var p := LatLngToCellId(data.playerLL.value);
      && s.playerLL == data.playerLL.value
      && (data.score.None? ==> s.score == 0)
      && (data.score.Some? ==> s.score == data.score.value)
      && (data.bestScore.None? ==> s.bestScore == s.score)
      && (data.bestScore.Some? ==> s.bestScore == data.bestScore.value)
      && (data.status.None? ==> s.status == Playing)
      && (data.status.Some? ==> s.status == data.status.value)
      && (data.craftCellId.None? ==> s.craftCellId == Offset(p, 1, 0))
      && (data.craftCellId.Some? ==> s.craftCellId == data.craftCellId.value)
      && (data.scoreCellId.None? ==> s.scoreCellId == Offset(p, 0, 1))
      && (data.scoreCellId.Some? ==> s.scoreCellId == data.scoreCellId.value)
      && s.headingDeg == data.headingDeg
      && s.held == data.held
  {
  }

  /** The loaded override of each cell: the last saved one for that id; if
      none was saved, an empty cell for the two special ids and nothing
      otherwise. Saved entries for the special cells are never overwritten. */
  lemma LoadedOverrides(data: SavedState, id: CellId)
    requires data.overrides.Some? && data.playerLL.Some?
    ensures var s := LoadState(Some(data)).value;
      var saved := LastSaved(data.overrides.value, id);
      Get(s.overrides, CellKey(id)) ==
        if saved.Some? then saved
        else if id == s.craftCellId || id == s.scoreCellId then Some(Cell(id, None))
        else None
  {
    var s := LoadState(Some(data)).value;
    RebuildLastWins(data.overrides.value, id);
    CellKeyInjective(id, s.craftCellId);
    CellKeyInjective(id, s.scoreCellId);
  }

  lemma SetLastEntry(t: Table<string, Cell>)
    requires DistinctKeys(t) && |t| > 0
    ensures Set(t[..|t| - 1], t[|t| - 1].key, t[|t| - 1].value) == t
  {
    var n := |t| - 1;
    GetMissing(t[..n], t[n].key);
    assert t[..n] + [Entry(t[n].key, t[n].value)] == t;
  }

  lemma {:induction false} RebuildSaved(t: Table<string, Cell>)
    requires WellKeyed(t) && DistinctKeys(t)
    ensures RebuildOverrides(SaveCells(t)) == t
  {
    if |t| > 0 {
      var n := |t| - 1;
      var cs := SaveCells(t);
      var prefix := t[..n];
      assert cs[..n] == SaveCells(prefix);
      assert WellKeyed(prefix) && DistinctKeys(prefix);
      RebuildSaved(prefix);
      assert CellKey(cs[n].id) == t[n].key && Cell(cs[n].id, cs[n].token) == t[n].value;
      SetLastEntry(t);
    }
  }

  /** Saving then loading a valid state gives the same state back. */
  lemma LoadSaveRoundTrip(s: GameState)
    requires Valid(s)
    ensures LoadState(Some(SaveState(s))) == Some(s)
  {
    RebuildSaved(s.overrides);
  }

  /** A loaded state saved and loaded again does not change. */
  lemma LoadSaveLoadStable(raw: Option<SavedState>)
    requires LoadState(raw).Some?
    ensures LoadState(Some(SaveState(LoadState(raw).value))) == LoadState(raw)
  {
    LoadSaveRoundTrip(LoadState(raw).value);
  }

  /** The player's cell at the starting location. */
  lemma OriginCell()
    ensures LatLngToCellId(CLASSROOM_ORIGIN) == CellId(-610315, 184948)
  {
    FloorUnique(CLASSROOM_ORIGIN.lng / CELL_SIZE_DEG, -610315);
    FloorUnique(CLASSROOM_ORIGIN.lat / CELL_SIZE_DEG, 184948);
  }

  /** A fresh game: the player at the fixed origin, the craft cell east of the
      player's cell and the score cell north of it, both present as empty
      overrides and nothing else overridden. */
  function CreateInitialState(): (s: GameState)
    ensures s.playerLL == CLASSROOM_ORIGIN
    ensures s.craftCellId == Offset(LatLngToCellId(CLASSROOM_ORIGIN), 1, 0)
    ensures s.scoreCellId == Offset(LatLngToCellId(CLASSROOM_ORIGIN), 0, 1)
    ensures s.craftCellId != s.scoreCellId
    ensures s.overrides == [
      Entry(CellKey(s.craftCellId), Cell(s.craftCellId, None)),
      Entry(CellKey(s.scoreCellId), Cell(s.scoreCellId, None))]
    ensures s.score == 0 && s.bestScore == 0 && s.status == Playing
    ensures s.held.None? && s.headingDeg.None?
    ensures Valid(s)
  {
    var playerLL := CLASSROOM_ORIGIN;
    var playerCell := LatLngToCellId(playerLL);
    var craftCellId := Offset(playerCell, 1, 0);
    var scoreCellId := Offset(playerCell, 0, 1);
    CellKeyInjective(craftCellId, scoreCellId);
    var craftEntry := Entry(CellKey(craftCellId), Cell(craftCellId, None));
    var scoreEntry := Entry(CellKey(scoreCellId), Cell(scoreCellId, None));
    var withCraft := Set([], craftEntry.key, craftEntry.value);
    assert withCraft == [craftEntry];
    assert !Has(withCraft, scoreEntry.key);
    var overrides := Set(withCraft, scoreEntry.key, scoreEntry.value);
    assert overrides == [craftEntry, scoreEntry];
    assert WellKeyed(overrides);
    GameState(playerLL, 0, 0, Playing, None, None, overrides, craftCellId, scoreCellId)
  }

  /** The state the session starts from: the saved one, else a fresh one. */
  function StartState(raw: Option<SavedState>): (s: GameState)
    ensures Valid(s)
    ensures LoadState(raw).None? ==> s == CreateInitialState()
    ensures LoadState(raw).Some? ==> s == LoadState(raw).value
  {
    match LoadState(raw)
    case Some(loaded) => loaded
    case None => CreateInitialState()
  }
}
