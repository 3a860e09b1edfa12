/**
 * The player's actions on the state (src/main.ts): clicking a cell, moving by
 * one cell with the keyboard, and resetting. Each action is a function from
 * the state before to the state after. Saving, HUD updates and redrawing after
 * an action are side effects left out here.
 */
module Interaction {
  import opened Wrappers
  import opened OrderedMap
  import opened State
  import opened Grid
  import opened Rng
  import opened World
  import opened Persistence

  /** How far (Manhattan distance in cells) the player can reach. */
  const INTERACTION_RANGE := 2

  /** The fields the score engine owns. */
  datatype Scoreboard = Scoreboard(score: int, bestScore: int, status: GameStatus)

  /** `applyScoreDelta`, which is not part of this model: it is taken as a
      rule that updates the scoreboard by a delta and touches nothing else. */
  type ScoreRule = (Scoreboard, int) -> Scoreboard

  function Board(s: GameState): Scoreboard {
    Scoreboard(s.score, s.bestScore, s.status)
  }

  /** Value of the held token, 0 when nothing is held. */
  function HeldValue(s: GameState): int {
    TokenValue(s.held)
  }

  /** Value of a cell's token, 0 when the cell is empty. */
  function CellValue(c: Cell): int {
    TokenValue(c.token)
  }

  predicate InRange(s: GameState, id: CellId) {
    Manhattan(LatLngToCellId(s.playerLL), id) <= INTERACTION_RANGE
  }

  /** Component-wise comparison of two ids; it agrees with comparing their keys. */
  function SameCell(a: CellId, b: CellId): (same: bool)
    ensures same <==> CellKey(a) == CellKey(b)
  {
    CellKeyInjective(a, b);
    a.x == b.x && a.y == b.y
  }

  /** Stores `Cell(id, token)` under `CellKey(id)`; nothing else changes. */
  function WriteOverride(s: GameState, id: CellId, token: Option<Token>): (r: GameState)
    ensures r == s.(overrides := r.overrides)
    ensures Get(r.overrides, CellKey(id)) == Some(Cell(id, token))
    ensures forall k :: k != CellKey(id) ==> Get(r.overrides, k) == Get(s.overrides, k)
    ensures Valid(s) ==> Valid(r)
  {
    SetKeepsWellKeyed(s.overrides, id, Cell(id, token));
    s.(overrides := Set(s.overrides, CellKey(id), Cell(id, token)))
  }

  /** Records cell `id` as emptied. */
  function SetOverrideEmpty(s: GameState, id: CellId): (r: GameState)
    ensures r == s.(overrides := r.overrides)
    ensures Get(r.overrides, CellKey(id)) == Some(Cell(id, None))
    ensures forall k :: k != CellKey(id) ==> Get(r.overrides, k) == Get(s.overrides, k)
    ensures Valid(s) ==> Valid(r)
  {
    WriteOverride(s, id, None)
  }

  /** Records cell `id` as holding a token of `value`. */
  function SetOverrideToken(s: GameState, id: CellId, value: int): (r: GameState)
    ensures r == s.(overrides := r.overrides)
    ensures Get(r.overrides, CellKey(id)) == Some(Cell(id, Some(Token(value))))
    ensures forall k :: k != CellKey(id) ==> Get(r.overrides, k) == Get(s.overrides, k)
    ensures Valid(s) ==> Valid(r)
  {
    WriteOverride(s, id, Some(Token(value)))
  }

  /** `handleCellClick`. Ignored after winning and out of range. The score
      cell cashes in the held token; the craft cell picks up, drops or
      combines; any other cell only picks up or drops. */
  function HandleCellClick(s: GameState, noise: Noise, applyScoreDelta: ScoreRule, id: CellId): (r: GameState)
    ensures s.status == Won || !InRange(s, id) ==> r == s
    ensures r.playerLL == s.playerLL && r.headingDeg == s.headingDeg
    ensures r.craftCellId == s.craftCellId && r.scoreCellId == s.scoreCellId
    ensures forall k :: k != CellKey(id) ==> Get(r.overrides, k) == Get(s.overrides, k)
    ensures id != s.scoreCellId ==> Board(r) == Board(s)
    ensures id != s.scoreCellId ==>
      HeldValue(r) + CellValue(GetCell(r, noise, id)) == HeldValue(s) + CellValue(GetCell(s, noise, id))
    ensures Valid(s) ==> Valid(r)
  {
    if s.status == Won then s
    else if Manhattan(LatLngToCellId(s.playerLL), id) > INTERACTION_RANGE then s
    else if SameCell(id, s.scoreCellId) then
      match s.held
      case Some(held) =>
        var board := applyScoreDelta(Board(s), held.value);
        var cashed := s.(score := board.score, bestScore := board.bestScore, status := board.status, held := None);
        SetOverrideEmpty(cashed, id)
      case None => s
    else
      var cellToken := GetCell(s, noise, id).token;
      var held := s.held;
      if SameCell(id, s.craftCellId) then
        if held.None? && cellToken.Some? then
          SetOverrideEmpty(s.(held := cellToken), id)
        else if held.Some? && cellToken.None? then
          SetOverrideToken(s, id, held.value.value).(held := None)
        else if held.Some? && cellToken.Some? then
          SetOverrideToken(s, id, held.value.value + cellToken.value.value).(held := None)
        else
          s
      else
        if held.None? && cellToken.Some? then
          SetOverrideEmpty(s.(held := cellToken), id)
        else if held.Some? && cellToken.None? then
          SetOverrideToken(s, id, held.value.value).(held := None)
        else
          s
  }

  /** Cashing in: the held token goes to the score engine and the score cell
      is left empty; with nothing held the click does nothing. */
  lemma ScoreCellClick(s: GameState, noise: Noise, applyScoreDelta: ScoreRule, id: CellId)
    requires s.status == Playing && InRange(s, id) && id == s.scoreCellId
    ensures var r := HandleCellClick(s, noise, applyScoreDelta, id);
      && (s.held.None? ==> r == s)
      && (s.held.Some? ==>
            && r.held.None?
            && Board(r) == applyScoreDelta(Board(s), s.held.value.value)
            && GetCell(r, noise, id) == Cell(id, None))
  {
  }

  /** The four cases of the craft cell. */
  lemma CraftCellClick(s: GameState, noise: Noise, applyScoreDelta: ScoreRule, id: CellId)
    requires s.status == Playing && InRange(s, id)
    requires id == s.craftCellId && id != s.scoreCellId
    ensures var r := HandleCellClick(s, noise, applyScoreDelta, id);
      var before := GetCell(s, noise, id).token;
      var after := GetCell(r, noise, id);
      && (s.held.None? && before.Some? ==> r.held == before && after == Cell(id, None))
      && (s.held.Some? && before.None? ==> r.held.None? && after == Cell(id, s.held))
      && (s.held.Some? && before.Some? ==>
            r.held.None? && after == Cell(id, Some(Token(s.held.value.value + before.value.value))))
      && (s.held.None? && before.None? ==> r == s)
  {
  }

  /** An ordinary cell only trades its token with the player's hand: pickup
      into an empty hand, drop onto an empty cell, and nothing otherwise. */
  lemma OrdinaryCellClick(s: GameState, noise: Noise, applyScoreDelta: ScoreRule, id: CellId)
    requires s.status == Playing && InRange(s, id)
    requires id != s.craftCellId && id != s.scoreCellId
    ensures var r := HandleCellClick(s, noise, applyScoreDelta, id);
      var before := GetCell(s, noise, id).token;
      var after := GetCell(r, noise, id);
      && (s.held.None? && before.Some? ==> r.held == before && after == Cell(id, None))
      && (s.held.Some? && before.None? ==> r.held.None? && after == Cell(id, s.held))
      && (s.held.Some? == before.Some? ==> r == s)
  {
  }

  /** Combining a held `a` into a craft cell holding `b` leaves `a + b` there. */
  lemma CombineOnCraftCell(s: GameState, noise: Noise, applyScoreDelta: ScoreRule, a: int, b: int)
    requires s.status == Playing && InRange(s, s.craftCellId) && s.craftCellId != s.scoreCellId
    requires s.held == Some(Token(a)) && GetCell(s, noise, s.craftCellId).token == Some(Token(b))
    ensures var r := HandleCellClick(s, noise, applyScoreDelta, s.craftCellId);
      r.held.None? && GetCell(r, noise, s.craftCellId) == Cell(s.craftCellId, Some(Token(a + b)))
  {
  }

  /** Combining on the craft cell gives the same cell whichever of the two
      tokens was the one held. */
  lemma CombineCommutes(s: GameState, noise: Noise, applyScoreDelta: ScoreRule, a: int, b: int)
    requires s.status == Playing && InRange(s, s.craftCellId) && s.craftCellId != s.scoreCellId
    ensures var id := s.craftCellId;
      var s1 := SetOverrideToken(s, id, b).(held := Some(Token(a)));
      var s2 := SetOverrideToken(s, id, a).(held := Some(Token(b)));
      var r1 := HandleCellClick(s1, noise, applyScoreDelta, id);
      var r2 := HandleCellClick(s2, noise, applyScoreDelta, id);
      && r1.held == r2.held == None
      && GetCell(r1, noise, id) == GetCell(r2, noise, id) == Cell(id, Some(Token(a + b)))
  {
    var id := s.craftCellId;
    var s1 := SetOverrideToken(s, id, b).(held := Some(Token(a)));
    var s2 := SetOverrideToken(s, id, a).(held := Some(Token(b)));
    CombineOnCraftCell(s1, noise, applyScoreDelta, a, b);
    CombineOnCraftCell(s2, noise, applyScoreDelta, b, a);
  }

  /** Picking a token up and clicking the same cell again puts it back. */
  lemma PickUpThenDrop(s: GameState, noise: Noise, applyScoreDelta: ScoreRule, id: CellId)
    requires s.status == Playing && InRange(s, id) && id != s.scoreCellId
    requires s.held.None? && GetCell(s, noise, id).token.Some?
    ensures var r := HandleCellClick(HandleCellClick(s, noise, applyScoreDelta, id), noise, applyScoreDelta, id);
      r.held.None? && GetCell(r, noise, id).token == GetCell(s, noise, id).token
  {
    var r1 := HandleCellClick(s, noise, applyScoreDelta, id);
    assert r1.held == GetCell(s, noise, id).token;
    assert GetCell(r1, noise, id).token.None?;
  }

  /** Every token in play, held or stored in an override, is positive. */
  ghost predicate TokensPositive(s: GameState) {
    && (s.held.Some? ==> s.held.value.value > 0)
    && forall k :: Has(s.overrides, k) && Get(s.overrides, k).value.token.Some? ==>
         Get(s.overrides, k).value.token.value.value > 0
  }

  /** Clicks only move, merge or cash in tokens, so positivity is kept. */
  lemma ClickKeepsTokensPositive(s: GameState, noise: Noise, applyScoreDelta: ScoreRule, id: CellId)
    requires TokensPositive(s)
    ensures TokensPositive(HandleCellClick(s, noise, applyScoreDelta, id))
  {
    var c := GetCell(s, noise, id);
    if Has(s.overrides, CellKey(id)) {
      assert c == Get(s.overrides, CellKey(id)).value;
    }
    assert c.token.Some? ==> c.token.value.value > 0;
  }

  /** Keys that move the player north (latitude up), south, west and east. */
  const UP_KEYS: set<string> := {"ArrowUp", "w", "W"}
  const DOWN_KEYS: set<string> := {"ArrowDown", "s", "S"}
  const LEFT_KEYS: set<string> := {"ArrowLeft", "a", "A"}
  const RIGHT_KEYS: set<string> := {"ArrowRight", "d", "D"}

  /** The keyboard: arrows and WASD give one unit step `(dx, dy)`; any other
      key is ignored. */
  function KeyStep(key: string): (step: Option<(int, int)>)
    ensures step.Some? ==> Abs(step.value.0) + Abs(step.value.1) == 1
    ensures step.None? <==> key !in UP_KEYS + DOWN_KEYS + LEFT_KEYS + RIGHT_KEYS
    ensures key in UP_KEYS ==> step == Some((0, 1))
    ensures key in DOWN_KEYS ==> step == Some((0, -1))
    ensures key in LEFT_KEYS ==> step == Some((-1, 0))
    ensures key in RIGHT_KEYS ==> step == Some((1, 0))
  {
    if key in {"ArrowUp", "w", "W"} then Some((0, 1))
    else if key in {"ArrowDown", "s", "S"} then Some((0, -1))
    else if key in {"ArrowLeft", "a", "A"} then Some((-1, 0))
    else if key in {"ArrowRight", "d", "D"} then Some((1, 0))
    else None
  }

  /** Moves the player one cell in the key's direction (allowed after winning too). */
  function MoveByKey(s: GameState, key: string): (r: GameState)
    ensures KeyStep(key).None? ==> r == s
    ensures r == s.(playerLL := r.playerLL)
    ensures KeyStep(key).Some? ==>
      var step := KeyStep(key).value;
      && LatLngToCellId(r.playerLL) == Offset(LatLngToCellId(s.playerLL), step.0, step.1)
      && AbsReal(r.playerLL.lat - s.playerLL.lat) + AbsReal(r.playerLL.lng - s.playerLL.lng) == CELL_SIZE_DEG
    ensures key in UP_KEYS ==>
      && r.playerLL == LatLng(s.playerLL.lat + CELL_SIZE_DEG, s.playerLL.lng)
      && LatLngToCellId(r.playerLL) == Offset(LatLngToCellId(s.playerLL), 0, 1)
    ensures key in DOWN_KEYS ==>
      && r.playerLL == LatLng(s.playerLL.lat - CELL_SIZE_DEG, s.playerLL.lng)
      && LatLngToCellId(r.playerLL) == Offset(LatLngToCellId(s.playerLL), 0, -1)
    ensures key in LEFT_KEYS ==>
      && r.playerLL == LatLng(s.playerLL.lat, s.playerLL.lng - CELL_SIZE_DEG)
      && LatLngToCellId(r.playerLL) == Offset(LatLngToCellId(s.playerLL), -1, 0)
    ensures key in RIGHT_KEYS ==>
      && r.playerLL == LatLng(s.playerLL.lat, s.playerLL.lng + CELL_SIZE_DEG)
      && LatLngToCellId(r.playerLL) == Offset(LatLngToCellId(s.playerLL), 1, 0)
  {
    match KeyStep(key)
    case None => s
    case Some((dx, dy)) =>
      var moved := LatLng(s.playerLL.lat + dy as real * CELL_SIZE_DEG, s.playerLL.lng + dx as real * CELL_SIZE_DEG);
      var from := LatLngToCellId(s.playerLL);
      FloorUnique(moved.lng / CELL_SIZE_DEG, from.x + dx);
      FloorUnique(moved.lat / CELL_SIZE_DEG, from.y + dy);
      s.(playerLL := moved)
  }

  /** The reset button: every field taken from a fresh state except the heading. */
  function Reset(s: GameState): (r: GameState)
    ensures r == CreateInitialState().(headingDeg := s.headingDeg)
    ensures Valid(r)
  {
    var initial := CreateInitialState();
    s.(playerLL := initial.playerLL, score := initial.score, bestScore := initial.bestScore,
       status := initial.status, held := initial.held, overrides := initial.overrides,
       craftCellId := initial.craftCellId, scoreCellId := initial.scoreCellId)
  }
}
