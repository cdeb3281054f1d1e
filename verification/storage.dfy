/**
 Storage routing and the insert of database.py: one table per underlying and
 expiry label, inside the underlying's schema, and a bulk insert whose column
 list repeats the normaliser's order. The database itself is an input: what it
 answers to CREATE TABLE and to INSERT.
 */
module Storage {
  import opened Maybe
  import opened Text
  import opened Frames

  /** database.py:72: every space, then every hyphen, of the expiry label becomes an underscore. */
  function SanitizeLabel(expiry: string): (r: string)
    ensures |r| == |expiry|
    ensures forall i :: 0 <= i < |r| ==> r[i] != ' ' && r[i] != '-'
    ensures forall i :: 0 <= i < |r| ==>
      r[i] == (if expiry[i] == ' ' || expiry[i] == '-' then '_' else expiry[i])
  {
    ReplaceChar(ReplaceChar(expiry, ' ', '_'), '-', '_')
  }

  /** Sanitising a sanitised label changes nothing. */
  lemma SanitizeIdempotent(expiry: string)
    ensures SanitizeLabel(SanitizeLabel(expiry)) == SanitizeLabel(expiry)
  {
    var r := SanitizeLabel(expiry);
    var rr := SanitizeLabel(r);
    assert forall i :: 0 <= i < |rr| ==> rr[i] == r[i];
  }

  /** The sanitised labels are exactly the labels without spaces and hyphens. */
  lemma SanitizeFixedPoints(expiry: string)
    ensures SanitizeLabel(expiry) == expiry <==> forall i :: 0 <= i < |expiry| ==> expiry[i] != ' ' && expiry[i] != '-'
  {
    if forall i :: 0 <= i < |expiry| ==> expiry[i] != ' ' && expiry[i] != '-' {
      assert forall i :: 0 <= i < |expiry| ==> SanitizeLabel(expiry)[i] == expiry[i];
    }
  }

  /** A character the sanitiser maps to `_`, or `_` itself. */
  predicate IsSeparator(c: char)
  {
    c == ' ' || c == '-' || c == '_'
  }

  /** Two labels of one length that agree everywhere except where both hold a separator. */
  predicate SameUpToSeparators(a: string, b: string)
  {
    |a| == |b| && forall i :: 0 <= i < |a| ==> a[i] == b[i] || (IsSeparator(a[i]) && IsSeparator(b[i]))
  }

  /** database.py:72: the table of an underlying and expiry label. */
  function TableName(symbol: string, expiry: string): (t: string)
    ensures |t| == |symbol| + 1 + |expiry|
    ensures t[..|symbol|] == symbol && t[|symbol|] == '_'
    ensures forall i :: |symbol| < i < |t| ==> t[i] != ' ' && t[i] != '-'
  {
    symbol + "_" + SanitizeLabel(expiry)
  }

  /** The schema prefix `option_chain_<symbol>.` of every table of an underlying (database.py:58, database.py:76). */
  function SchemaPrefix(symbol: string): string
  {
    "option_chain_" + symbol + "."
  }

  predicate InSchema(table: string, symbol: string)
  {
    var p := SchemaPrefix(symbol);
    |p| <= |table| && table[..|p|] == p
  }

  /** database.py:76: the schema-qualified table the CREATE statement of `create_symbol_table` names. */
  function QualifiedTable(symbol: string, expiry: string): (q: string)
    ensures InSchema(q, symbol)
    ensures |q| == |SchemaPrefix(symbol)| + |symbol| + 1 + |expiry|
  {
    var p := SchemaPrefix(symbol);
    var q := p + TableName(symbol, expiry);
    assert q[..|p|] == p;
    q
  }

  /** database.py:138: the table the INSERT statement names, from the name `create_symbol_table` returned. */
  function InsertTarget(symbol: string, tableName: string): string
  {
    SchemaPrefix(symbol) + tableName
  }

  /**
   `create_symbol_table` returns the `table_name` its CREATE used
   (database.py:120), and the INSERT qualifies that name with the same schema
   (database.py:129, database.py:138): the rows go to the table just created.
   */
  lemma CreateAndInsertAgree(symbol: string, expiry: string)
    ensures InsertTarget(symbol, TableName(symbol, expiry)) == QualifiedTable(symbol, expiry)
  {
  }

  /** Within one underlying, two labels share a table exactly when they sanitise alike. */
  lemma SameTableIffSameSanitized(symbol: string, e1: string, e2: string)
    ensures QualifiedTable(symbol, e1) == QualifiedTable(symbol, e2) <==> SanitizeLabel(e1) == SanitizeLabel(e2)
  {
    var n := |SchemaPrefix(symbol)| + |symbol| + 1;
    assert QualifiedTable(symbol, e1)[n..] == SanitizeLabel(e1);
    assert QualifiedTable(symbol, e2)[n..] == SanitizeLabel(e2);
  }

  /**
   Labels that differ only where both hold a space, a hyphen or an
   underscore share a table, and no other labels do: "14 NOV", "14-NOV" and
   "14_NOV" all land in `<symbol>_14_NOV`.
   */
  lemma DistinctLabelsShareTable(symbol: string, e1: string, e2: string)
    ensures QualifiedTable(symbol, e1) == QualifiedTable(symbol, e2) <==> SameUpToSeparators(e1, e2)
  {
    SameTableIffSameSanitized(symbol, e1, e2);
    var s1, s2 := SanitizeLabel(e1), SanitizeLabel(e2);
    if s1 == s2 {
      forall i | 0 <= i < |e1|
        ensures e1[i] == e2[i] || (IsSeparator(e1[i]) && IsSeparator(e2[i]))
      {
        assert s1[i] == s2[i];
      }
    }
    if SameUpToSeparators(e1, e2) {
      forall i | 0 <= i < |s1|
        ensures s1[i] == s2[i]
      {
      }
      assert s1 == s2;
    }
  }

  /** The data columns of the CREATE TABLE statement (database.py:78-110), without `id` and `created_at`. */
  const TABLE_COLUMNS: seq<string> := [
    "Symbol", "expiry_date", "fetch_time", "Spot Price", "ATM Strike",
    "CE OI", "CE Chg in OI", "CE Volume", "CE IV", "CE LTP",
    "CE Bid Qty", "CE Bid", "CE Ask", "CE Ask Qty",
    "CE Delta", "CE Theta", "CE Gamma", "CE Vega",
    "Strike Price",
    "PE Bid Qty", "PE Bid", "PE Ask", "PE Ask Qty",
    "PE LTP", "PE IV", "PE Volume", "PE Chg in OI", "PE OI",
    "PE Delta", "PE Theta", "PE Gamma", "PE Vega",
    "timestamp"
  ]

  /** The column list of the INSERT statement (database.py:139-147). */
  const INSERT_COLUMNS: seq<string> := [
    "Symbol", "expiry_date", "fetch_time", "Spot Price", "ATM Strike",
    "CE OI", "CE Chg in OI", "CE Volume", "CE IV", "CE LTP",
    "CE Bid Qty", "CE Bid", "CE Ask", "CE Ask Qty",
    "CE Delta", "CE Theta", "CE Gamma", "CE Vega",
    "Strike Price",
    "PE Bid Qty", "PE Bid", "PE Ask", "PE Ask Qty",
    "PE LTP", "PE IV", "PE Volume", "PE Chg in OI", "PE OI",
    "PE Delta", "PE Theta", "PE Gamma", "PE Vega",
    "timestamp"
  ]

  /** The `%(name)s` parameter keys of the VALUES clause (database.py:149-157), in order. */
  const INSERT_PARAMS: seq<string> := [
    "Symbol", "expiry_date", "fetch_time", "Spot Price", "ATM Strike",
    "CE OI", "CE Chg in OI", "CE Volume", "CE IV", "CE LTP",
    "CE Bid Qty", "CE Bid", "CE Ask", "CE Ask Qty",
    "CE Delta", "CE Theta", "CE Gamma", "CE Vega",
    "Strike Price",
    "PE Bid Qty", "PE Bid", "PE Ask", "PE Ask Qty",
    "PE LTP", "PE IV", "PE Volume", "PE Chg in OI", "PE OI",
    "PE Delta", "PE Theta", "PE Gamma", "PE Vega",
    "timestamp"
  ]

  /**
   The table's columns, the INSERT's columns and its parameter keys are the
   normaliser's 33 columns in the normaliser's order, so each value lands in
   the column of the same name.
   */
  lemma ColumnListsAgree()
    ensures TABLE_COLUMNS == COLUMN_ORDER
    ensures INSERT_COLUMNS == COLUMN_ORDER
    ensures INSERT_PARAMS == COLUMN_ORDER
  {
  }

  /** What the database answers: table creation fails, the insert fails, or both succeed. */
  datatype DatabaseReply = CreateFails | InsertFails | Accepts

  /** Why `insert_option_chain_data` raised. */
  datatype StoreError =
    | NoExpiryLabel          // `None.replace` in create_symbol_table
    | CreateFailed
    | MissingParameter(name: string)   // a `%(name)s` key absent from a record
    | InsertFailed

  /** The rows written to `table`, each as the values of the parameter keys in order. */
  datatype Written = Written(table: string, records: seq<seq<Value>>)

  datatype StoreResult = Stored(written: Written, count: nat) | StoreFailed(error: StoreError)

  /** The first parameter key the frame lacks, if any. */
  function MissingKey(f: Frame, params: seq<string>): (r: Option<string>)
    ensures r.None? <==> forall j :: 0 <= j < |params| ==> params[j] in f.columns
    ensures r.Some? ==> r.value in params && r.value !in f.columns
  {
    if params == [] then None
    else if params[0] !in f.columns then Some(params[0])
    else MissingKey(f, params[1..])
  }

  /** `df.to_dict('records')` read through the parameter keys: one value list per row. */
  function Bind(f: Frame, params: seq<string>): (records: seq<seq<Value>>)
    requires WellFormed(f)
    requires forall j :: 0 <= j < |params| ==> params[j] in f.columns
    ensures |records| == |f.rows|
    ensures forall k :: 0 <= k < |records| ==> |records[k]| == |params|
    ensures forall k, j :: 0 <= k < |records| && 0 <= j < |params| ==>
      params[j] in f.rows[k] && records[k][j] == f.rows[k][params[j]]
  {
    seq(|f.rows|, k requires 0 <= k < |f.rows| =>
      assert f.rows[k].Keys == ColumnSet(f.columns);
      seq(|params|, j requires 0 <= j < |params| => f.rows[k][params[j]]))
  }

  /**
   `insert_option_chain_data` (database.py:126-172) with any parameter list:
   create the table, bind every row, insert, and report the number of rows
   given. Every failure is re-raised; a missing key raises only when there is
   a row to bind.
   */
  function InsertWith(symbol: string, expiry: Option<string>, f: Frame, params: seq<string>, db: DatabaseReply): (r: StoreResult)
    requires WellFormed(f)
    ensures r.Stored? <==>
      && expiry.Some? && db.Accepts?
      && (|f.rows| == 0 || forall j :: 0 <= j < |params| ==> params[j] in f.columns)
    ensures r.Stored? ==> r.count == |f.rows| && r.written.table == QualifiedTable(symbol, expiry.value)
    ensures r.Stored? ==> |r.written.records| == |f.rows|
    ensures r.Stored? ==> forall k, j :: 0 <= k < |f.rows| && 0 <= j < |params| ==>
      params[j] in f.rows[k] && |r.written.records[k]| == |params| && r.written.records[k][j] == f.rows[k][params[j]]
    ensures r == StoreFailed(NoExpiryLabel) <==> expiry.None?
  {
    if expiry.None? then StoreFailed(NoExpiryLabel)
    else if db.CreateFails? then StoreFailed(CreateFailed)
    else if |f.rows| == 0 then
      if db.InsertFails? then StoreFailed(InsertFailed)
      else Stored(Written(InsertTarget(symbol, TableName(symbol, expiry.value)), []), 0)
    else
      match MissingKey(f, params)
      case Some(name) => StoreFailed(MissingParameter(name))
      case None =>
        if db.InsertFails? then StoreFailed(InsertFailed)
        else Stored(Written(InsertTarget(symbol, TableName(symbol, expiry.value)), Bind(f, params)), |f.rows|)
  }

  /** `insert_option_chain_data` with the INSERT statement's own parameter keys. */
  function InsertOptionChainData(symbol: string, expiry: Option<string>, f: Frame, db: DatabaseReply): (r: StoreResult)
    requires WellFormed(f)
    ensures r.Stored? ==> r.count == |f.rows|
  {
    InsertWith(symbol, expiry, f, INSERT_PARAMS, db)
  }

  /**
   A frame in normalised shape is always bound completely: its insert fails
   only for a missing label or a database failure, and otherwise writes one
   record of 33 values per row into the label's table.
   */
  lemma StoreNormalized(symbol: string, expiry: Option<string>, f: Frame, db: DatabaseReply)
    requires WellFormed(f) && f.columns == COLUMN_ORDER
    ensures var r := InsertOptionChainData(symbol, expiry, f, db);
      && (r.Stored? <==> expiry.Some? && db.Accepts?)
      && (r.Stored? ==> r.written.table == QualifiedTable(symbol, expiry.value) && r.count == |f.rows|)
      && (r.Stored? ==> |r.written.records| == |f.rows|)
      && (r.Stored? ==> forall k :: 0 <= k < |f.rows| ==> |r.written.records[k]| == |COLUMN_ORDER|)
  {
    ColumnListsAgree();
    StoreWithOwnColumns(symbol, expiry, f, COLUMN_ORDER, db);
  }

  /** Value `j` of stored record `k` is the cell of row `k` in column `COLUMN_ORDER[j]`. */
  lemma StoredRecordCell(symbol: string, expiry: Option<string>, f: Frame, db: DatabaseReply, k: nat, j: nat)
    requires WellFormed(f) && f.columns == COLUMN_ORDER && k < |f.rows| && j < |COLUMN_ORDER|
    ensures var r := InsertOptionChainData(symbol, expiry, f, db);
      r.Stored? ==>
        && |r.written.records| == |f.rows| && |r.written.records[k]| == |COLUMN_ORDER|
        && r.written.records[k][j] == f.rows[k][COLUMN_ORDER[j]]
  {
    ColumnListsAgree();
    StoreWithOwnColumns(symbol, expiry, f, COLUMN_ORDER, db);
  }

  lemma StoreWithOwnColumns(symbol: string, expiry: Option<string>, f: Frame, cs: seq<string>, db: DatabaseReply)
    requires WellFormed(f) && f.columns == cs
    ensures var r := InsertWith(symbol, expiry, f, cs, db);
      && (r.Stored? <==> expiry.Some? && db.Accepts?)
      && (r.Stored? ==> |r.written.records| == |f.rows|)
      && (r.Stored? ==> forall k :: 0 <= k < |f.rows| ==> |r.written.records[k]| == |cs|)
      && (r.Stored? ==> forall k, j :: 0 <= k < |f.rows| && 0 <= j < |cs| ==>
            r.written.records[k][j] == f.rows[k][cs[j]])
  {
  }
}
