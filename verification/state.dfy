/**
 * The game's value types and the string key under which an overridden cell
 * is stored (src/state.ts). The declared `GameState` type of the source omits
 * `bestScore`, `status` and `headingDeg`, which the rest of the code reads and
 * writes; they are fields here.
 */
module State {
  import opened Wrappers
  import opened Decimal
  import opened OrderedMap

  datatype LatLng = LatLng(lat: real, lng: real)

  datatype CellId = CellId(x: int, y: int)

  datatype Token = Token(value: int)

  /** The content of one cell: `token == None` is an empty cell. */
  datatype Cell = Cell(id: CellId, token: Option<Token>)

  /** The source's `"playing" | "won"`. */
  datatype GameStatus = Playing | Won

  datatype GameState = GameState(
    playerLL: LatLng,
    score: int,
    bestScore: int,
    status: GameStatus,
    headingDeg: Option<real>,
    held: Option<Token>,
    overrides: Table<string, Cell>,
    craftCellId: CellId,
    scoreCellId: CellId)

  /** The fixed starting location of a fresh game. */
  const CLASSROOM_ORIGIN: LatLng := LatLng(36.989743, -122.062819)

  /** `${x},${y}`: the key of a cell in the override map. */
  function CellKey(id: CellId): string {
    IntToString(id.x) + "," + IntToString(id.y)
  }

  /** Position of the first `c` in `s`, or `|s|` when there is none. */
  function FirstIndexOf(s: string, c: char): (i: nat)
    ensures i <= |s|
    ensures i < |s| ==> s[i] == c
    ensures forall j :: 0 <= j < i ==> s[j] != c
  {
    if |s| == 0 then 0
    else if s[0] == c then 0
    else 1 + FirstIndexOf(s[1..], c)
  }

  function Count(s: string, c: char): nat {
    if |s| == 0 then 0 else Count(s[..|s| - 1], c) + (if s[|s| - 1] == c then 1 else 0)
  }

  /** Splits a key at its first comma and parses both halves. */
  function DecodeKey(key: string): Option<CellId> {
    var i := FirstIndexOf(key, ',');
    if i == |key| then None
    else
      match (ParseInt(key[..i]), ParseInt(key[i + 1..]))
      case (Some(x), Some(y)) => Some(CellId(x, y))
      case _ => None
  }

  /** The key is reversible: splitting at the comma and parsing recovers the id. */
  lemma DecodeCellKey(id: CellId)
    ensures DecodeKey(CellKey(id)) == Some(id)
  {
    var a, b := IntToString(id.x), IntToString(id.y);
    var key := CellKey(id);
    assert key[|a|] == ',';
    var i := FirstIndexOf(key, ',');
    assert i == |a| by {
      forall j | 0 <= j < |a| ensures key[j] != ',' {
        assert key[j] == a[j];
      }
    }
    assert key[..i] == a;
    assert key[i + 1..] == b;
    ParseIntToString(id.x);
    ParseIntToString(id.y);
  }

  /** Keying the override map by string is sound: equal keys mean equal ids. */
  lemma CellKeyInjective(a: CellId, b: CellId)
    ensures CellKey(a) == CellKey(b) <==> a == b
  {
    DecodeCellKey(a);
    DecodeCellKey(b);
  }

  lemma {:induction false} CountAppend(s: string, t: string, c: char)
    ensures Count(s + t, c) == Count(s, c) + Count(t, c)
    decreases |t|
  {
    if |t| == 0 {
      assert s + t == s;
    } else {
      assert (s + t)[..|s + t| - 1] == s + t[..|t| - 1];
      CountAppend(s, t[..|t| - 1], c);
    }
  }

  lemma {:induction false} CountAbsent(s: string, c: char)
    requires c !in s
    ensures Count(s, c) == 0
    decreases |s|
  {
    if |s| > 0 {
      assert c !in s[..|s| - 1];
      CountAbsent(s[..|s| - 1], c);
    }
  }

  /** A key holds exactly one comma, so the split in `DecodeKey` is unambiguous. */
  lemma CellKeyHasOneComma(id: CellId)
    ensures Count(CellKey(id), ',') == 1
  {
    var a, b := IntToString(id.x), IntToString(id.y);
    CountAppend(a + ",", b, ',');
    CountAppend(a, ",", ',');
    CountAbsent(a, ',');
    CountAbsent(b, ',');
    assert Count(",", ',') == Count([], ',') + 1;
  }

  /** Every override is stored under the key of its own cell id. */
  predicate WellKeyed(t: Table<string, Cell>) {
    forall i :: 0 <= i < |t| ==> t[i].key == CellKey(t[i].value.id)
  }

  /** The shape every reachable state has: a well-keyed override table, no
      key twice, and both special cells present as overrides. */
  ghost predicate Valid(s: GameState) {
    && WellKeyed(s.overrides)
    && DistinctKeys(s.overrides)
    && Has(s.overrides, CellKey(s.craftCellId))
    && Has(s.overrides, CellKey(s.scoreCellId))
  }

  /** In a well-keyed table the override found under `CellKey(id)` is the cell `id`. */
  lemma WellKeyedGet(t: Table<string, Cell>, id: CellId)
    ensures WellKeyed(t) && Has(t, CellKey(id)) ==> Get(t, CellKey(id)).value.id == id
  {
    if WellKeyed(t) && Has(t, CellKey(id)) {
      var i := GetWitness(t, CellKey(id));
      CellKeyInjective(t[i].value.id, id);
    }
  }

  lemma SetKeepsWellKeyed(t: Table<string, Cell>, id: CellId, c: Cell)
    ensures WellKeyed(t) && c.id == id ==> WellKeyed(Set(t, CellKey(id), c))
  {
    var r := Set(t, CellKey(id), c);
    if !(WellKeyed(t) && c.id == id) {
    } else if !Has(t, CellKey(id)) {
      assert r == t + [Entry(CellKey(id), c)];
    } else {
      forall i | 0 <= i < |r| ensures r[i].key == CellKey(r[i].value.id) {
        assert r[i] == Replace(t, CellKey(id), c)[i];
      }
    }
  }
}
