/** board_game_rl/classes/policy.py: the value table `Table` and the greedy
    choice of `TabularPolicy`, a first-found argmax over tabulated values. */
module Policy {
  import opened Wrappers
  import opened Players
  import opened Grid
  import opened BoardClasses

  /** The hashable Python values used as table keys: integers, strings and
      tuples of keys. */
  datatype PyKey = Int(i: int) | Str(s: string) | Tuple(items: seq<PyKey>)

  /** `len(key)`: defined for strings and tuples; an integer has no length. */
  function Len(k: PyKey): (r: Result<nat>)
    ensures r.Ok? <==> !k.Int?
    ensures k.Str? ==> r == Ok(|k.s|)
    ensures k.Tuple? ==> r == Ok(|k.items|)
  {
    match k
    case Int(_) => Err(TypeError("object of type 'int' has no len()"))
    case Str(s) => Ok(|s|)
    case Tuple(items) => Ok(|items|)
  }

  /** A Python dictionary: its keys in insertion order and the value of each. */
  datatype PyDict = PyDict(keys: seq<PyKey>, entries: map<PyKey, real>)
  {
    ghost predicate Valid()
    {
      (forall k :: k in entries <==> k in keys) &&
      (forall i, j :: 0 <= i < j < |keys| ==> keys[i] != keys[j])
    }
  }

  /** What a table classifies itself as. */
  datatype Kind = VTable | QTable

  const NotATableError: Error := ValueError("The table is neither a V-table nor a Q-table.")

  /** `mapping.keys()[0]` as written: in Python 3 the keys view cannot be
      indexed, so this raises `TypeError` whatever the dictionary holds. */
  function KeysViewAt(d: PyDict, i: int): (r: Result<PyKey>)
    ensures r.Err? && r.error.TypeError?
  {
    Err(TypeError("'dict_keys' object is not subscriptable"))
  }

  /** The classification in `Table.__init__` as written. */
  function ClassifyAsWritten(d: PyDict): (r: Result<Kind>)
    requires d.Valid()
    ensures r.Err? && r.error.TypeError?
  {
    match KeysViewAt(d, 0)
    case Err(e) => Err(e)
    case Ok(first) =>
      match Len(first)
      case Err(e) => Err(e)
      case Ok(n) => if n == 1 then Ok(VTable) else if n == 2 then Ok(QTable) else Err(NotATableError)
  }

  /** As written, even a dictionary whose first key is a 2-tuple, which the
      intended classification accepts as a Q-table, is refused with `TypeError`. */
  lemma ClassifyAsWrittenRejectsQTable()
    ensures var d := PyDict([Tuple([Int(0), Int(1)])], map[Tuple([Int(0), Int(1)]) := 1.0]);
      && d.Valid()
      && Classify(d) == Ok(QTable)
      && ClassifyAsWritten(d).Err? && ClassifyAsWritten(d).error.TypeError?
  {
  }

  /** The evidently intended classification, by the first key in insertion
      order: V-table for length 1, Q-table for length 2, `ValueError` for any
      other length; an empty dictionary has no first key (`IndexError`) and a
      key without a length raises `TypeError`. */
  function Classify(d: PyDict): (r: Result<Kind>)
    requires d.Valid()
    ensures r == Ok(VTable) <==> |d.keys| > 0 && Len(d.keys[0]) == Ok(1)
    ensures r == Ok(QTable) <==> |d.keys| > 0 && Len(d.keys[0]) == Ok(2)
    ensures r.Err? <==> |d.keys| == 0 || Len(d.keys[0]).Err? || Len(d.keys[0]).value !in {1, 2}
    ensures r.Err? && |d.keys| > 0 && Len(d.keys[0]).Ok? ==> r.error == NotATableError
  {
    if |d.keys| == 0 then Err(IndexError)
    else
      match Len(d.keys[0])
      case Err(e) => Err(e)
      case Ok(n) => if n == 1 then Ok(VTable) else if n == 2 then Ok(QTable) else Err(NotATableError)
  }

  /** The key `Table.__call__` looks up: the state alone, or the pair
      `(state, action)`. */
  function LookupKey(state: PyKey, action: Option<PyKey>): PyKey
  {
    if action.None? then state else Tuple([state, action.value])
  }

  class Table {
    const mapping: PyDict
    /** Set for a V-table; the source never sets the other flag. */
    const v: bool
    /** Set for a Q-table. */
    const q: bool

    constructor (mapping: PyDict, kind: Kind)
      requires mapping.Valid()
      ensures this.mapping == mapping
      ensures v == (kind == VTable) && q == (kind == QTable)
    {
      this.mapping := mapping;
      v := kind == VTable;
      q := kind == QTable;
    }

    /** `__call__(state, action=None)`: `mapping[state]` without an action,
        `mapping[state, action]` with one; a missing key raises `KeyError`. */
    function Call(state: PyKey, action: Option<PyKey>): (r: Result<real>)
      ensures r.Ok? <==> LookupKey(state, action) in mapping.entries
      ensures r.Ok? ==> r.value == mapping.entries[LookupKey(state, action)]
      ensures r.Err? ==> r.error == KeyError
    {
      var key := LookupKey(state, action);
      if key in mapping.entries then Ok(mapping.entries[key]) else Err(KeyError)
    }
  }

  /** `Table(value_dictionary)` with the corrected classification: the new table
      holds the dictionary and the flag of its kind, or construction fails with
      the classification's error. */
  method NewTable(d: PyDict) returns (r: Result<Table>)
    requires d.Valid()
    ensures r.Ok? <==> Classify(d).Ok?
    ensures r.Ok? ==> fresh(r.value) && r.value.mapping == d
    ensures r.Ok? ==> r.value.v == (Classify(d).value == VTable) && r.value.q == (Classify(d).value == QTable)
    ensures r.Err? ==> r.error == Classify(d).error
  {
    match Classify(d)
    case Err(e) => return Err(e);
    case Ok(kind) =>
      var t := new Table(d, kind);
      return Ok(t);
  }

  // ---------------------------------------------------------------------------
  // `max(values)` and `values.index(...)`.

  /** `max(values)`: an element no other element exceeds. */
  function Max(values: seq<real>): (m: real)
    requires |values| > 0
    ensures m in values
    ensures forall i :: 0 <= i < |values| ==> values[i] <= m
  {
    if |values| == 1 then values[0]
    else
      var rest := Max(values[1..]);
      if values[0] >= rest then values[0] else rest
  }

  /** `values.index(x)`: the first position holding `x`. */
  function IndexOf(values: seq<real>, x: real): (k: nat)
    requires x in values
    ensures k < |values| && values[k] == x
    ensures forall j :: 0 <= j < k ==> values[j] != x
  {
    if values[0] == x then 0 else 1 + IndexOf(values[1..], x)
  }

  /** The table entry of a move, as the policy's list comprehension looks it up. */
  function MoveKey(m: Move): PyKey
  {
    Tuple([Int(m.0), Int(m.1)])
  }

  class TabularPolicy {
    const table: Table
    const qValues: bool

    constructor (table: Table, qValues: bool)
      ensures this.table == table && this.qValues == qValues
    {
      this.table := table;
      this.qValues := qValues;
    }

    /** The table's value for playing `m` on `board`: `table(board, move)` with
        Q-values, `table(board)` without. */
    function Score(board: PyKey, m: Move): Result<real>
    {
      table.Call(board, if qValues then Some(MoveKey(m)) else None)
    }

    /** The list `values` of `greedy`, or the `KeyError` of a missing entry. */
    function Values(board: PyKey, moves: seq<Move>): (r: Result<seq<real>>)
      ensures r.Ok? <==> forall i :: 0 <= i < |moves| ==> Score(board, moves[i]).Ok?
      ensures r.Ok? ==> |r.value| == |moves|
      ensures r.Ok? ==> forall i :: 0 <= i < |moves| ==> r.value[i] == Score(board, moves[i]).value
      ensures r.Err? ==> r.error == KeyError
    {
      if moves == [] then Ok([])
      else
        match Score(board, moves[0])
        case Err(e) => Err(e)
        case Ok(x) =>
          match Values(board, moves[1..])
          case Err(e) => Err(e)
          case Ok(xs) => Ok([x] + xs)
    }

    /** The choice `greedy` makes among the moves `moves` (a non-empty list:
        `max` of an empty list raises), with `board` the table key of the board:
        a move of the list whose value no other move exceeds, the first one with
        that value; a missing table entry raises `KeyError`. */
    function GreedyAmong(board: PyKey, moves: seq<Move>): (r: Result<Move>)
      requires |moves| > 0
      ensures r.Ok? <==> forall i :: 0 <= i < |moves| ==> Score(board, moves[i]).Ok?
      ensures r.Err? ==> r.error == KeyError
      ensures r.Ok? ==>
        exists k :: && 0 <= k < |moves| && r.value == moves[k]
                    && (forall j :: 0 <= j < |moves| ==> Score(board, moves[j]).value <= Score(board, moves[k]).value)
                    && (forall j :: 0 <= j < k ==> Score(board, moves[j]).value < Score(board, moves[k]).value)
    {
      match Values(board, moves)
      case Err(e) => Err(e)
      case Ok(values) =>
        var k := IndexOf(values, Max(values));
        assert forall j :: 0 <= j < k ==> values[j] < values[k];
        Ok(moves[k])
    }

    /** `greedy(board)`: the greedy choice among the valid moves of the game
        board `gb`, whose table key is `key`. It is an empty cell of the board. */
    function Greedy(gb: GameBoard, key: PyKey): (r: Result<Move>)
      reads gb, gb.board
      requires gb.Valid() && |gb.ValidMoves(None)| > 0
      ensures r.Ok? ==> InRange(r.value) && gb.board[r.value.0, r.value.1] == Value(Nobody)
      ensures r == GreedyAmong(key, gb.ValidMoves(None))
    {
      GreedyAmong(key, gb.ValidMoves(None))
    }
  }

  /** Without Q-values every move gets the same value `table(board)`, so `greedy`
      picks the first valid move (or raises `KeyError` when the board has no entry). */
  lemma {:induction false} GreedyWithoutQValues(p: TabularPolicy, board: PyKey, moves: seq<Move>)
    requires !p.qValues && |moves| > 0
    ensures board in p.table.mapping.entries ==> p.GreedyAmong(board, moves) == Ok(moves[0])
    ensures board !in p.table.mapping.entries ==> p.GreedyAmong(board, moves) == Err(KeyError)
  {
    if board in p.table.mapping.entries {
      var r := p.GreedyAmong(board, moves);
      var k :| 0 <= k < |moves| && r.value == moves[k] &&
        (forall j :: 0 <= j < k ==> p.Score(board, moves[j]).value < p.Score(board, moves[k]).value);
      if k > 0 {
        assert p.Score(board, moves[0]).value == p.Score(board, moves[k]).value;
      }
    } else {
      assert !p.Score(board, moves[0]).Ok?;
    }
  }
}
