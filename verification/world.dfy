/**
 * The pure parts of the map view (src/world.ts): which content a cell shows,
 * which cells are drawn, and the label drawn on each.
 */
module World {
  import opened Wrappers
  import opened Decimal
  import opened OrderedMap
  import opened State
  import opened Grid
  import opened Rng

  /** Cells farther than this from the player, on either axis, are not drawn. */
  const MAX_RENDER_DIST := 20

  /** The override stored for the cell if there is one, even an empty one;
      otherwise the procedural content. */
  function GetCell(s: GameState, noise: Noise, id: CellId): (c: Cell)
    ensures WellKeyed(s.overrides) ==> c.id == id
  {
    match Get(s.overrides, CellKey(id))
    case Some(over) =>
      WellKeyedGet(s.overrides, id);
      over
    case None => BaseCell(noise, id)
  }

  /** An override, whatever its token, hides the procedural content. */
  lemma OverrideShadowsBase(s: GameState, noise: Noise, id: CellId)
    requires Has(s.overrides, CellKey(id))
    ensures GetCell(s, noise, id) == Get(s.overrides, CellKey(id)).value
    ensures BaseCell(noise, id).token.Some? && Get(s.overrides, CellKey(id)).value.token.None? ==>
      GetCell(s, noise, id).token.None?
  {
  }

  lemma NoOverrideShowsBase(s: GameState, noise: Noise, id: CellId)
    requires !Has(s.overrides, CellKey(id))
    ensures GetCell(s, noise, id) == BaseCell(noise, id)
  {
  }

  /** After writing an override at `id`, that override is what `id` shows,
      whatever the generator would produce, and no other cell changes. */
  lemma OverridePrecedence(s: GameState, noise: Noise, id: CellId, c: Cell, other: CellId)
    requires other != id
    ensures var s' := s.(overrides := Set(s.overrides, CellKey(id), c));
      GetCell(s', noise, id) == c && GetCell(s', noise, other) == GetCell(s, noise, other)
  {
    CellKeyInjective(id, other);
  }

  predicate WithinRenderDistance(id: CellId, player: CellId) {
    Abs(id.x - player.x) <= MAX_RENDER_DIST && Abs(id.y - player.y) <= MAX_RENDER_DIST
  }

  /** The cells of `ids` that are drawn, in their original order. */
  function RenderedIds(ids: seq<CellId>, player: CellId): (r: seq<CellId>)
    ensures forall c :: c in r <==> c in ids && WithinRenderDistance(c, player)
    ensures |r| <= |ids|
  {
    if |ids| == 0 then []
    else
      var last := ids[|ids| - 1];
      assert forall c :: c in ids <==> c in ids[..|ids| - 1] || c == last;
      RenderedIds(ids[..|ids| - 1], player) + (if WithinRenderDistance(last, player) then [last] else [])
  }

  /** The tooltip drawn on a cell: its token's value, else "C" on the craft
      cell, else a star on the score cell, else nothing. */
  function CellLabel(cell: Cell, isCraft: bool, isScore: bool): (text: Option<string>)
    ensures text.None? <==> cell.token.None? && !isCraft && !isScore
    ensures cell.token.Some? ==> text.Some? && ParseInt(text.value) == Some(cell.token.value.value)
    ensures cell.token.None? && isCraft ==> text == Some("C")
    ensures cell.token.None? && !isCraft && isScore ==> text == Some("\U{2605}")
  {
    match cell.token
    case Some(t) => ParseIntToString(t.value); Some(IntToString(t.value))
    case None =>
      if isCraft then Some("C")
      else if isScore then Some("\U{2605}")
      else None
  }

  /** The label drawn on cell `id` in state `s`: the value of the token the
      cell shows, else "C" on the craft cell, else a star on the score cell. */
  function LabelOf(s: GameState, noise: Noise, id: CellId): (text: Option<string>)
    ensures var shown := GetCell(s, noise, id).token;
      && (shown.Some? ==> text.Some? && ParseInt(text.value) == Some(shown.value.value))
      && (shown.None? && id == s.craftCellId ==> text == Some("C"))
      && (shown.None? && id != s.craftCellId && id == s.scoreCellId ==> text == Some("\U{2605}"))
      && (shown.None? && id != s.craftCellId && id != s.scoreCellId ==> text.None?)
  {
    CellLabel(GetCell(s, noise, id), id == s.craftCellId, id == s.scoreCellId)
  }
}
