/**
 The option-chain DataFrame and the row normaliser of
 `save_option_chain_data` (main.py:39-70), which stamps the identifying
 columns and reshapes every row to the fixed 33-column order the store expects.
 */
module Frames {
  import opened Maybe

  /**
   A cell. `Moment(at)` is a clock reading rendered with
   `'%Y-%m-%d %H:%M:%S'`; `at` is kept truncated to the second, which is all
   that rendering shows.
   */
  datatype Value = Null | Num(x: real) | Text(s: string) | Moment(at: nat)

  type Row = map<string, Value>

  /** A DataFrame: its column labels in order and its rows, each row keyed by column label. */
  datatype Frame = Frame(columns: seq<string>, rows: seq<Row>)

  function ColumnSet(cs: seq<string>): set<string>
  {
    set c | c in cs
  }

  predicate Distinct(cs: seq<string>)
  {
    forall i, j :: 0 <= i < j < |cs| ==> cs[i] != cs[j]
  }

  /** Column labels are distinct and every row has exactly the frame's columns. */
  predicate WellFormed(f: Frame)
  {
    Distinct(f.columns) && forall k :: 0 <= k < |f.rows| ==> f.rows[k].Keys == ColumnSet(f.columns)
  }

  /** The column order of main.py:52-62, which the store's INSERT repeats. */
  const COLUMN_ORDER: seq<string> := [
    "Symbol", "expiry_date", "fetch_time", "Spot Price", "ATM Strike",
    "CE OI", "CE Chg in OI", "CE Volume", "CE IV", "CE LTP",
    "CE Bid Qty", "CE Bid", "CE Ask", "CE Ask Qty",
    "CE Delta", "CE Theta", "CE Gamma", "CE Vega",
    "Strike Price",
    "PE Bid Qty", "PE Bid", "PE Ask", "PE Ask Qty",
    "PE LTP", "PE IV", "PE Volume", "PE Chg in OI", "PE OI",
    "PE Delta", "PE Theta", "PE Gamma", "PE Vega",
    "timestamp"
  ]

  /** The normalised order has 33 distinct columns. */
  lemma ColumnOrderShape()
    ensures |COLUMN_ORDER| == 33 && Distinct(COLUMN_ORDER)
  {
  }

  /**
   `df[name] = v` with a scalar: every cell of column `name` becomes `v`, all
   other cells stay, and a column that did not exist is appended last.
   */
  function SetColumn(f: Frame, name: string, v: Value): (g: Frame)
    requires WellFormed(f)
    ensures WellFormed(g) && |g.rows| == |f.rows|
    ensures name in f.columns ==> g.columns == f.columns
    ensures name !in f.columns ==> g.columns == f.columns + [name]
    ensures forall k :: 0 <= k < |g.rows| ==> g.rows[k] == f.rows[k][name := v]
  {
    var cols := if name in f.columns then f.columns else f.columns + [name];
    assert ColumnSet(cols) == ColumnSet(f.columns) + {name};
    Frame(cols, seq(|f.rows|, k requires 0 <= k < |f.rows| => f.rows[k][name := v]))
  }

  /**
   `df.insert(loc, name, v)`: a new column at position `loc`. pandas raises
   (here: `None`) when the column already exists or `loc` is past the end.
   */
  function InsertColumn(f: Frame, loc: nat, name: string, v: Value): (g: Option<Frame>)
    requires WellFormed(f)
    ensures g.None? <==> name in f.columns || loc > |f.columns|
    ensures g.Some? ==> WellFormed(g.value) && |g.value.rows| == |f.rows|
    ensures g.Some? ==> g.value.columns == f.columns[..loc] + [name] + f.columns[loc..]
    ensures g.Some? ==> forall k :: 0 <= k < |f.rows| ==> g.value.rows[k] == f.rows[k][name := v]
  {
    if name in f.columns || loc > |f.columns| then None
    else
      var cols := f.columns[..loc] + [name] + f.columns[loc..];
      assert f.columns == f.columns[..loc] + f.columns[loc..];
      assert ColumnSet(cols) == ColumnSet(f.columns) + {name};
      assert Distinct(cols) by {
        forall i, j | 0 <= i < j < |cols| ensures cols[i] != cols[j] {
          if i < loc && j > loc {
            assert cols[j] == f.columns[j - 1];
          } else if i > loc {
            assert cols[i] == f.columns[i - 1] && cols[j] == f.columns[j - 1];
          }
        }
      }
      Some(Frame(cols, seq(|f.rows|, k requires 0 <= k < |f.rows| => f.rows[k][name := v])))
  }

  /**
   main.py:65-67: every listed column the frame lacks is added, filled with
   `None`; cells already present are untouched.
   */
  function AddMissing(f: Frame, cs: seq<string>): (g: Frame)
    requires WellFormed(f)
    ensures WellFormed(g) && |g.rows| == |f.rows|
    ensures ColumnSet(g.columns) == ColumnSet(f.columns) + ColumnSet(cs)
    ensures forall k, c :: 0 <= k < |g.rows| && c in g.rows[k] ==>
      g.rows[k][c] == if c in f.rows[k] then f.rows[k][c] else Null
    decreases |cs|
  {
    if cs == [] then f
    else
      var f' := if cs[0] in f.columns then f else SetColumn(f, cs[0], Null);
      assert ColumnSet(cs) == {cs[0]} + ColumnSet(cs[1..]);
      AddMissing(f', cs[1..])
  }

  /** `df[cs]`: the listed columns only, in the listed order. */
  function Select(f: Frame, cs: seq<string>): (g: Frame)
    requires WellFormed(f) && Distinct(cs) && ColumnSet(cs) <= ColumnSet(f.columns)
    ensures WellFormed(g) && g.columns == cs && |g.rows| == |f.rows|
    ensures forall k, c :: 0 <= k < |g.rows| && c in g.rows[k] ==> g.rows[k][c] == f.rows[k][c]
  {
    Frame(cs, seq(|f.rows|, k requires 0 <= k < |f.rows| => map c | c in cs && c in f.rows[k] :: f.rows[k][c]))
  }

  /** The normalised content of column `c` for a raw row `r`. */
  function NormalCell(r: Row, c: string, symbol: string, expiry: Value, fetchTime: Value, stamp: Value): Value
  {
    if c == "Symbol" then Text(symbol)
    else if c == "expiry_date" then expiry
    else if c == "fetch_time" then fetchTime
    else if c == "timestamp" then stamp
    else if c in r then r[c]
    else Null
  }

  /** A row in normalised shape: exactly the columns `cs`, each holding its NormalCell content. */
  function NormalRow(r: Row, cs: seq<string>, symbol: string, expiry: Value, fetchTime: Value, stamp: Value): Row
  {
    map c | c in cs :: NormalCell(r, c, symbol, expiry, fetchTime, stamp)
  }

  /**
   main.py:43-70: stamp `Symbol`, `expiry_date`, `fetch_time` and
   `timestamp`, add the missing columns as `None`, and keep exactly
   COLUMN_ORDER. The result has the 33 columns in order whatever the input's
   columns were; every other present cell keeps its value and extra columns are
   dropped.
   */
  function Normalize(f: Frame, symbol: string, expiry: Value, fetchTime: Value, stamp: Value): (g: Frame)
    requires WellFormed(f)
    ensures WellFormed(g) && g.columns == COLUMN_ORDER && |g.rows| == |f.rows|
    ensures forall k :: 0 <= k < |g.rows| ==> g.rows[k] == NormalRow(f.rows[k], COLUMN_ORDER, symbol, expiry, fetchTime, stamp)
  {
    ColumnOrderShape();
    NormalizeTo(f, COLUMN_ORDER, symbol, expiry, fetchTime, stamp)
  }

  /** Normalisation to any distinct column list `cs`. */
  function NormalizeTo(f: Frame, cs: seq<string>, symbol: string, expiry: Value, fetchTime: Value, stamp: Value): (g: Frame)
    requires WellFormed(f) && Distinct(cs)
    ensures WellFormed(g) && g.columns == cs && |g.rows| == |f.rows|
    ensures forall k :: 0 <= k < |g.rows| ==> g.rows[k] == NormalRow(f.rows[k], cs, symbol, expiry, fetchTime, stamp)
  {
    var g := Reshape(Stamp(f, symbol, expiry, fetchTime, stamp), cs);
    forall k | 0 <= k < |g.rows|
      ensures g.rows[k] == NormalRow(f.rows[k], cs, symbol, expiry, fetchTime, stamp)
    {
      assert g.rows[k].Keys == ColumnSet(cs);
      forall c | c in cs
        ensures g.rows[k][c] == NormalCell(f.rows[k], c, symbol, expiry, fetchTime, stamp)
      {
        StampCell(f.rows[k], symbol, expiry, fetchTime, stamp, c);
      }
    }
    g
  }

  /** main.py:65-70 for any distinct column list: add what is missing as `None`, then keep exactly `cs`. */
  function Reshape(f: Frame, cs: seq<string>): (g: Frame)
    requires WellFormed(f) && Distinct(cs)
    ensures WellFormed(g) && g.columns == cs && |g.rows| == |f.rows|
    ensures forall k, c :: 0 <= k < |g.rows| && c in cs ==>
      c in g.rows[k] && g.rows[k][c] == if c in f.rows[k] then f.rows[k][c] else Null
  {
    var filled := AddMissing(f, cs);
    var g := Select(filled, cs);
    forall k, c | 0 <= k < |g.rows| && c in cs
      ensures c in g.rows[k] && g.rows[k][c] == if c in f.rows[k] then f.rows[k][c] else Null
    {
      assert c in ColumnSet(cs);
    }
    g
  }

  /** main.py:43-49 on one row: the four identifying cells set, every other cell kept. */
  function StampRow(r: Row, symbol: string, expiry: Value, fetchTime: Value, stamp: Value): Row
  {
    r["Symbol" := Text(symbol)]["expiry_date" := expiry]["fetch_time" := fetchTime]["timestamp" := stamp]
  }

  /** main.py:43-49: the four identifying columns set on every row. */
  function Stamp(f: Frame, symbol: string, expiry: Value, fetchTime: Value, stamp: Value): (g: Frame)
    requires WellFormed(f)
    ensures WellFormed(g) && |g.rows| == |f.rows|
    ensures forall k :: 0 <= k < |g.rows| ==> g.rows[k] == StampRow(f.rows[k], symbol, expiry, fetchTime, stamp)
    ensures forall k :: 0 <= k < |g.rows| ==>
      && "Symbol" in g.rows[k] && g.rows[k]["Symbol"] == Text(symbol)
      && "expiry_date" in g.rows[k] && g.rows[k]["expiry_date"] == expiry
      && "fetch_time" in g.rows[k] && g.rows[k]["fetch_time"] == fetchTime
      && "timestamp" in g.rows[k] && g.rows[k]["timestamp"] == stamp
    ensures forall k, c :: 0 <= k < |g.rows| && c in f.rows[k] ==>
      c in g.rows[k] && (c in ["Symbol", "expiry_date", "fetch_time", "timestamp"] || g.rows[k][c] == f.rows[k][c])
  {
    var f1 := SetColumn(f, "Symbol", Text(symbol));
    var f2 := SetColumn(f1, "expiry_date", expiry);
    var f3 := SetColumn(f2, "fetch_time", fetchTime);
    SetColumn(f3, "timestamp", stamp)
  }

  /** After stamping, a cell that exists holds its normalised content, and a missing one is none of the stamped columns. */
  lemma StampCell(r: Row, symbol: string, expiry: Value, fetchTime: Value, stamp: Value, c: string)
    ensures var g := StampRow(r, symbol, expiry, fetchTime, stamp);
      && (c in g ==> g[c] == NormalCell(r, c, symbol, expiry, fetchTime, stamp))
      && (c !in g ==> NormalCell(r, c, symbol, expiry, fetchTime, stamp) == Null)
  {
  }

  /** Normalising an already normalised frame with the same arguments changes nothing. */
  lemma NormalizeIdempotent(f: Frame, symbol: string, expiry: Value, fetchTime: Value, stamp: Value)
    requires WellFormed(f)
    ensures var g := Normalize(f, symbol, expiry, fetchTime, stamp);
      Normalize(g, symbol, expiry, fetchTime, stamp) == g
  {
    ColumnOrderShape();
    NormalizeToIdempotent(f, COLUMN_ORDER, symbol, expiry, fetchTime, stamp);
  }

  lemma NormalizeToIdempotent(f: Frame, cs: seq<string>, symbol: string, expiry: Value, fetchTime: Value, stamp: Value)
    requires WellFormed(f) && Distinct(cs)
    ensures var g := NormalizeTo(f, cs, symbol, expiry, fetchTime, stamp);
      NormalizeTo(g, cs, symbol, expiry, fetchTime, stamp) == g
  {
    var g := NormalizeTo(f, cs, symbol, expiry, fetchTime, stamp);
    var h := NormalizeTo(g, cs, symbol, expiry, fetchTime, stamp);
    forall k | 0 <= k < |g.rows|
      ensures h.rows[k] == g.rows[k]
    {
      NormalRowIdempotent(f.rows[k], cs, symbol, expiry, fetchTime, stamp);
    }
    assert h.rows == g.rows;
  }

  /** A normalised row is its own normal form. */
  lemma NormalRowIdempotent(r: Row, cs: seq<string>, symbol: string, expiry: Value, fetchTime: Value, stamp: Value)
    ensures var n := NormalRow(r, cs, symbol, expiry, fetchTime, stamp);
      NormalRow(n, cs, symbol, expiry, fetchTime, stamp) == n
  {
    var n := NormalRow(r, cs, symbol, expiry, fetchTime, stamp);
    forall c | c in cs
      ensures NormalCell(n, c, symbol, expiry, fetchTime, stamp) == n[c]
    {
      NormalCellStable(r, n, c, symbol, expiry, fetchTime, stamp);
    }
  }

  /** A cell that already holds its normalised content is left as it is. */
  lemma NormalCellStable(r: Row, r': Row, c: string, symbol: string, expiry: Value, fetchTime: Value, stamp: Value)
    requires c in r' && r'[c] == NormalCell(r, c, symbol, expiry, fetchTime, stamp)
    ensures NormalCell(r', c, symbol, expiry, fetchTime, stamp) == r'[c]
  {
  }
}
