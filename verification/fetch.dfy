/**
 Fetching one underlying (main.py:83-233): its spot price, then every
 configured expiry in order, each resolved, reshaped and stored on its own.
 The broker SDK is an input: one reply per call, as the calls happen.
 */
module Fetch {
  import opened Maybe
  import opened Clock
  import opened Config
  import opened Text
  import opened Frames
  import opened Storage

  /** What `tsl.get_ltp_data(names=symbol)` gave: it raised, returned something other than a dict, or a dict. */
  datatype LtpReply = LtpRaises | LtpNotADict | LtpDict(prices: map<string, Option<real>>)

  /**
   `get_initial_data` (main.py:83-112): the spot price is the dict's non-`None`
   entry for the symbol; anything else, including a raised call, gives `None`.
   */
  function InitialData(symbol: string, reply: LtpReply): (spot: Option<real>)
    ensures spot.Some? <==> reply.LtpDict? && symbol in reply.prices && reply.prices[symbol].Some?
    ensures spot.Some? ==> spot.value == reply.prices[symbol].value
  {
    match reply
    case LtpDict(prices) => if symbol in prices then prices[symbol] else None
    case _ => None
  }

  /**
   Python's `round` on an exact rational: the nearest integer, and at an exact
   half the even one.
   */
  function RoundHalfEven(x: real): (n: int)
    ensures x - 0.5 <= n as real <= x + 0.5
    ensures (n as real == x - 0.5 || n as real == x + 0.5) ==> n % 2 == 0
  {
    var f := x.Floor;
    var frac := x - f as real;
    if frac < 0.5 then f
    else if frac > 0.5 then f + 1
    else if f % 2 == 0 then f
    else f + 1
  }

  /** The two properties of RoundHalfEven determine it: no other integer has both. */
  lemma RoundHalfEvenUnique(x: real, m: int)
    requires x - 0.5 <= m as real <= x + 0.5
    requires (m as real == x - 0.5 || m as real == x + 0.5) ==> m % 2 == 0
    ensures m == RoundHalfEven(x)
  {
  }

  lemma ScaleWithinHalf(d: real, g: real, e: real)
    requires -0.5 <= d <= 0.5 && g > 0.0 && e == d * g
    ensures -(g / 2.0) <= e <= g / 2.0
  {
    assert e + g / 2.0 == (d + 0.5) * g;
    assert g / 2.0 - e == (0.5 - d) * g;
  }

  /**
   The ATM fallback of main.py:153-158, the same formula in both branches:
   `round(spot / strike_gap) * strike_gap`. It is a multiple of the gap within
   half a gap of the spot; on an exact tie it is the even multiple.
   */
  function FallbackAtm(spot: real, gap: nat): (a: int)
    requires gap > 0
    ensures a % gap == 0
    ensures spot - gap as real / 2.0 <= a as real <= spot + gap as real / 2.0
    ensures (a as real == spot - gap as real / 2.0 || a as real == spot + gap as real / 2.0) ==> (a / gap) % 2 == 0
  {
    var n := RoundHalfEven(spot / gap as real);
    FallbackFacts(spot, gap, n);
    n * gap
  }

  lemma FallbackFacts(spot: real, gap: nat, n: int)
    requires gap > 0 && n == RoundHalfEven(spot / gap as real)
    ensures (n * gap) % gap == 0 && (n * gap) / gap == n
    ensures spot - gap as real / 2.0 <= (n * gap) as real <= spot + gap as real / 2.0
    ensures ((n * gap) as real == spot - gap as real / 2.0 || (n * gap) as real == spot + gap as real / 2.0) ==> n % 2 == 0
  {
    var g := gap as real;
    var q := spot / g;
    var d := n as real - q;
    DivModUnique(n * gap, gap, n, 0);
    assert spot == q * g;
    assert (n * gap) as real == n as real * g;
    var e := (n * gap) as real - spot;
    assert e == d * g by {
      Distribute(n as real, q, g);
    }
    ScaleWithinHalf(d, g, e);
    if e == -(g / 2.0) || e == g / 2.0 {
      CancelScale(d, g);
    }
  }

  lemma Distribute(a: real, b: real, g: real)
    ensures a * g - b * g == (a - b) * g
  {
  }

  lemma CancelScale(d: real, g: real)
    requires g > 0.0 && (d * g == -(g / 2.0) || d * g == g / 2.0)
    ensures d == -0.5 || d == 0.5
  {
    if d * g == g / 2.0 {
      assert (d - 0.5) * g == 0.0;
    } else {
      assert (d + 0.5) * g == 0.0;
    }
  }

  /**
   The fallback is the only multiple of the gap with its three properties: any
   multiple within half a gap of the spot, and even on a tie, is the fallback.
   */
  lemma FallbackAtmUnique(spot: real, gap: nat, m: int)
    requires gap > 0
    requires spot - gap as real / 2.0 <= (m * gap) as real <= spot + gap as real / 2.0
    requires ((m * gap) as real == spot - gap as real / 2.0 || (m * gap) as real == spot + gap as real / 2.0) ==> m % 2 == 0
    ensures FallbackAtm(spot, gap) == m * gap
  {
    var g := gap as real;
    var q := spot / g;
    var d := m as real - q;
    assert spot == q * g;
    assert (m * gap) as real == m as real * g;
    assert (m * gap) as real - spot == d * g by {
      Distribute(m as real, q, g);
    }
    WithinHalfOfScale(d, g, (m * gap) as real - spot);
    if m as real == q - 0.5 || m as real == q + 0.5 {
      assert d * g == -(0.5 * g) || d * g == 0.5 * g;
    }
    RoundHalfEvenUnique(q, m);
  }

  lemma WithinHalfOfScale(d: real, g: real, e: real)
    requires g > 0.0 && e == d * g && -(g / 2.0) <= e <= g / 2.0
    ensures -0.5 <= d <= 0.5
  {
    assert (d - 0.5) * g == e - g / 2.0 <= 0.0;
    assert (d + 0.5) * g == e + g / 2.0 >= 0.0;
  }

  /** The examples of the fallback at NIFTY's gap of 50, including both kinds of tie. */
  lemma FallbackAtmExamples()
    ensures FallbackAtm(19987.0, 50) == 20000
    ensures FallbackAtm(19975.0, 50) == 20000
    ensures FallbackAtm(19925.0, 50) == 19900
  {
    assert RoundHalfEven(19987.0 / 50.0) == 400;
    assert RoundHalfEven(19975.0 / 50.0) == 400;
    assert RoundHalfEven(19925.0 / 50.0) == 398;
  }

  /**
   What the SDK bound to `ce_name` (main.py:137): a text, or some other object
   (`None`, say) that has no `split`.
   */
  datatype SdkName = NameText(text: string) | NameOther

  /**
   The expiry label of main.py:194-203. When `ce_name.split()` raises, which
   it does while no name is bound yet and when the bound name is not a text,
   the `except` gives `Expiry_<index>`. Otherwise the label is tokens 1 and 2
   of the name joined by a space when it has at least four tokens, and `None`
   when it has fewer.
   */
  function ExpiryLabel(ceName: Option<SdkName>, index: nat): (r: Option<string>)
    ensures ceName.None? || ceName.value.NameOther? ==> r == Some("Expiry_" + DecimalText(index))
    ensures ceName.Some? && ceName.value.NameText? ==>
      var parts := Split(ceName.value.text);
      (r.Some? <==> |parts| >= 4) && (r.Some? ==> r.value == parts[1] + " " + parts[2])
  {
    match ceName
    case Some(NameText(name)) =>
      var parts := Split(name);
      if |parts| >= 4 then
        var pair := parts[1..3];
        assert pair[0] == parts[1] && pair[1..] == [parts[2]];
        assert Join(pair, " ") == parts[1] + " " + Join([parts[2]], " ");
        Some(Join(pair, " "))
      else None
    case _ => Some("Expiry_" + DecimalText(index))
  }

  /**
   For a name of at least four words, such as `<SYMBOL> <DD> <MON> <STRIKE>
   <CE/PE>`, the label is the second and third words: `<DD> <MON>`.
   */
  lemma {:induction false} LabelOfOptionName(ws: seq<string>, index: nat)
    requires |ws| >= 4 && forall i :: 0 <= i < |ws| ==> IsWord(ws[i])
    ensures ExpiryLabel(Some(NameText(Join(ws, " "))), index) == Some(ws[1] + " " + ws[2])
  {
    SplitJoin(ws);
  }

  /** Fallback labels of different indices differ, so they never share a table. */
  lemma FallbackLabelsDistinct(i: nat, j: nat)
    requires i != j
    ensures ExpiryLabel(None, i) != ExpiryLabel(None, j)
  {
    DecimalRoundTrip(i);
    DecimalRoundTrip(j);
    var a, b := "Expiry_" + DecimalText(i), "Expiry_" + DecimalText(j);
    assert a[7..] == DecimalText(i) && b[7..] == DecimalText(j);
  }

  /**
   What `tsl.ATM_Strike_Selection` gave: three values unpacked into the call
   name, the put name and the strike, or it raised (a reply that does not
   unpack into three values raises the same way). The strike is inserted as
   it came, `None` included.
   */
  datatype AtmReply = AtmSelected(ceName: SdkName, peName: SdkName, strike: Value) | AtmRaises

  /**
   What `tsl.get_option_chain` gave: it raised, returned `None`, returned a
   non-tuple, or a tuple of `arity` elements whose second element is the
   DataFrame `frame` (or `None` when it is not a DataFrame).
   */
  datatype ChainReply = ChainRaises | ChainNone | ChainNotTuple | ChainTuple(arity: nat, frame: Option<Frame>)

  predicate ChainWellFormed(c: ChainReply)
  {
    c.ChainTuple? && c.frame.Some? ==> WellFormed(c.frame.value)
  }

  /** Everything one expiry index meets: the two SDK replies, the two clock readings and the database's answer. */
  datatype ExpiryInput = ExpiryInput(
    atm: AtmReply,
    chain: ChainReply,
    now: Instant,        // main.py:190
    saveNow: Instant,    // main.py:48
    db: DatabaseReply)

  /** Why an expiry index was abandoned inside its own `try` (main.py:223-227). */
  datatype ExpiryError =
    | ChainCallRaised
    | UnpackFailed(arity: nat)      // `metadata, df = option_chain` on a longer tuple
    | ColumnExists(name: string)    // `df.insert` of a column the chain already has
    | NotAFrame                     // `df.insert` on a second element that is not a DataFrame

  datatype ExpiryOutcome =
    | ChainRejected                 // main.py:218-221: no usable chain, logged
    | ExpiryRaised(error: ExpiryError)
    | SaveFailed(storeError: StoreError)  // caught inside save_option_chain_data
    | Saved(written: Written, count: nat)

  /** One expiry index's attempt: the ATM strike it used and what became of it. */
  datatype Attempt = Attempt(index: nat, strike: Value, outcome: ExpiryOutcome)

  /** A chain the loop stores: a pair whose second element is a frame lacking the two columns it inserts. */
  predicate ChainUsable(c: ChainReply)
  {
    && c.ChainTuple? && c.arity == 2 && c.frame.Some?
    && "Spot Price" !in c.frame.value.columns && "ATM Strike" !in c.frame.value.columns
  }

  function LabelValue(expiry: Option<string>): Value
  {
    match expiry
    case Some(s) => Text(s)
    case None => Null
  }

  /** main.py:186-191: the chain frame with the spot and the strike in front and a first timestamp. */
  function Prepared(frame: Frame, spot: real, strike: Value, now: Instant): (r: Option<Frame>)
    requires WellFormed(frame)
    ensures r.Some? <==> "Spot Price" !in frame.columns && "ATM Strike" !in frame.columns
    ensures r.Some? ==> WellFormed(r.value) && |r.value.rows| == |frame.rows|
    ensures r.Some? ==>
      r.value.columns == ["Spot Price", "ATM Strike"] + frame.columns + (if "timestamp" in frame.columns then [] else ["timestamp"])
    ensures r.Some? ==> forall k :: 0 <= k < |frame.rows| ==>
      r.value.rows[k] == frame.rows[k]["Spot Price" := Num(spot)]["ATM Strike" := strike]["timestamp" := Text(MinuteStamp(now))]
  {
    match InsertColumn(frame, 0, "Spot Price", Num(spot))
    case None => None
    case Some(f1) =>
      match InsertColumn(f1, 1, "ATM Strike", strike)
      case None => None
      case Some(f2) =>
        assert f1.columns == ["Spot Price"] + frame.columns;
        assert f2.columns == ["Spot Price", "ATM Strike"] + frame.columns;
        Some(SetColumn(f2, "timestamp", Text(MinuteStamp(now))))
  }

  /**
   The chain half of one expiry (main.py:170-221): check the reply's shape,
   prepare the frame, then label, normalise and store it.
   */
  function ChainOutcome(symbol: string, spot: real, strike: Value, expiry: Option<string>, inp: ExpiryInput): (o: ExpiryOutcome)
    requires ChainWellFormed(inp.chain)
    ensures o.Saved? ==> ChainUsable(inp.chain) && expiry.Some? && inp.db.Accepts?
    ensures ChainUsable(inp.chain) && expiry.Some? && inp.db.Accepts? ==> o.Saved?
    ensures o.Saved? ==> o.written.table == QualifiedTable(symbol, expiry.value) && o.count == |inp.chain.frame.value.rows|
    ensures o == ChainRejected <==> inp.chain.ChainNone? || inp.chain.ChainNotTuple? || (inp.chain.ChainTuple? && inp.chain.arity <= 1)
    ensures o.ExpiryRaised? <==>
      || inp.chain.ChainRaises?
      || (inp.chain.ChainTuple? && inp.chain.arity > 2)
      || (inp.chain.ChainTuple? && inp.chain.arity == 2 && !ChainUsable(inp.chain))
    ensures o == ExpiryRaised(NotAFrame) <==> inp.chain.ChainTuple? && inp.chain.arity == 2 && inp.chain.frame.None?
    ensures ChainUsable(inp.chain) ==> o == SavePrepared(symbol, spot, strike, expiry, inp.chain.frame.value, inp.now, inp.saveNow, inp.db)
  {
    match inp.chain
    case ChainRaises => ExpiryRaised(ChainCallRaised)
    case ChainNone => ChainRejected
    case ChainNotTuple => ChainRejected
    case ChainTuple(arity, second) =>
      if arity <= 1 then ChainRejected
      else if arity > 2 then ExpiryRaised(UnpackFailed(arity))
      else if second.None? then ExpiryRaised(NotAFrame)
      else
        var frame := second.value;
        if "Spot Price" in frame.columns then ExpiryRaised(ColumnExists("Spot Price"))
        else if "ATM Strike" in frame.columns then ExpiryRaised(ColumnExists("ATM Strike"))
        else SavePrepared(symbol, spot, strike, expiry, frame, inp.now, inp.saveNow, inp.db)
  }

  /**
   `save_option_chain_data` (main.py:40-81) on the prepared chain: normalise
   with the label, the fetch time and the save time's minute, then insert;
   storage failures are swallowed and reported as SaveFailed. A stored frame
   is stored in full: one record per chain row, holding in COLUMN_ORDER the
   values StoredCell describes.
   */
  function SavePrepared(symbol: string, spot: real, strike: Value, expiry: Option<string>, frame: Frame,
                        now: Instant, saveNow: Instant, db: DatabaseReply): (o: ExpiryOutcome)
    requires WellFormed(frame) && "Spot Price" !in frame.columns && "ATM Strike" !in frame.columns
    ensures o.Saved? || o.SaveFailed?
    ensures o.Saved? <==> expiry.Some? && db.Accepts?
    ensures o == SaveFailed(NoExpiryLabel) <==> expiry.None?
    ensures o.Saved? ==> o.written.table == QualifiedTable(symbol, expiry.value) && o.count == |frame.rows|
    ensures o.Saved? ==> |o.written.records| == |frame.rows|
    ensures o.Saved? ==> forall k :: 0 <= k < |frame.rows| ==> |o.written.records[k]| == |COLUMN_ORDER|
  {
    var prepared := Prepared(frame, spot, strike, now).value;
    var rows := Normalize(prepared, symbol, LabelValue(expiry), FetchTime(now), Text(MinuteStamp(saveNow)));
    StoreNormalized(symbol, expiry, rows, db);
    match InsertOptionChainData(symbol, expiry, rows, db)
    case Stored(w, n) => Saved(w, n)
    case StoreFailed(e) => SaveFailed(e)
  }

  /** `datetime.now()` truncated to the second, as the `fetch_time` column holds it (main.py:190, 212). */
  function FetchTime(now: Instant): (v: Value)
    ensures v.Moment? && Microsecond(v.at) == 0 && v.at <= now < v.at + SECOND
  {
    var t := (now / SECOND) * SECOND;
    DivModUnique(t, SECOND, now / SECOND, 0);
    Moment(t)
  }

  /**
   The value stored in column `c` for a raw chain row: the inserted spot and
   strike, the four stamped columns, the chain's own value, or `None`.
   */
  function StoredCell(raw: Row, c: string, symbol: string, spot: real, strike: Value, expiry: Value, fetchTime: Value, stamp: Value): Value
  {
    if c == "Spot Price" then Num(spot)
    else if c == "ATM Strike" then strike
    else NormalCell(raw, c, symbol, expiry, fetchTime, stamp)
  }

  /** Normalising a prepared frame gives every column its stored value. */
  lemma PreparedCell(frame: Frame, p: Frame, spot: real, strike: Value, now: Instant, k: nat, c: string,
                     symbol: string, expiry: Value, fetchTime: Value, stamp: Value)
    requires WellFormed(frame) && Prepared(frame, spot, strike, now) == Some(p) && k < |frame.rows|
    ensures NormalCell(p.rows[k], c, symbol, expiry, fetchTime, stamp)
         == StoredCell(frame.rows[k], c, symbol, spot, strike, expiry, fetchTime, stamp)
  {
    var raw := frame.rows[k];
    assert p.rows[k] == raw["Spot Price" := Num(spot)]["ATM Strike" := strike]["timestamp" := Text(MinuteStamp(now))];
    PreparedRowCell(raw, c, symbol, spot, strike, Text(MinuteStamp(now)), expiry, fetchTime, stamp);
  }

  /** One row of PreparedCell: the inserted cells are read back, and the stamped ones overwritten. */
  lemma PreparedRowCell(raw: Row, c: string, symbol: string, spot: real, strike: Value, first: Value,
                        expiry: Value, fetchTime: Value, stamp: Value)
    ensures NormalCell(raw["Spot Price" := Num(spot)]["ATM Strike" := strike]["timestamp" := first], c, symbol, expiry, fetchTime, stamp)
         == StoredCell(raw, c, symbol, spot, strike, expiry, fetchTime, stamp)
  {
    if c != "Spot Price" && c != "ATM Strike" {
      UntouchedCell(raw, c, symbol, spot, strike, first, expiry, fetchTime, stamp);
    }
  }

  /** Normalisation reads past the two inserted cells and the first timestamp. */
  lemma UntouchedCell(raw: Row, c: string, symbol: string, spot: real, strike: Value, first: Value,
                      expiry: Value, fetchTime: Value, stamp: Value)
    requires c != "Spot Price" && c != "ATM Strike"
    ensures NormalCell(raw["Spot Price" := Num(spot)]["ATM Strike" := strike]["timestamp" := first], c, symbol, expiry, fetchTime, stamp)
         == NormalCell(raw, c, symbol, expiry, fetchTime, stamp)
  {
  }

  /**
   What a stored chain row holds: value `j` of record `k` is the value
   StoredCell gives column `COLUMN_ORDER[j]` of chain row `k`.
   */
  lemma SavedCell(symbol: string, spot: real, strike: Value, expiry: Option<string>, frame: Frame,
                  now: Instant, saveNow: Instant, db: DatabaseReply, k: nat, j: nat)
    requires WellFormed(frame) && "Spot Price" !in frame.columns && "ATM Strike" !in frame.columns
    requires k < |frame.rows| && j < |COLUMN_ORDER|
    ensures var o := SavePrepared(symbol, spot, strike, expiry, frame, now, saveNow, db);
      o.Saved? ==> o.written.records[k][j] == StoredCell(frame.rows[k], COLUMN_ORDER[j], symbol, spot, strike,
                                                          LabelValue(expiry), FetchTime(now), Text(MinuteStamp(saveNow)))
  {
    var p := Prepared(frame, spot, strike, now).value;
    var rows := Normalize(p, symbol, LabelValue(expiry), FetchTime(now), Text(MinuteStamp(saveNow)));
    StoredRecordCell(symbol, expiry, rows, db, k, j);
    PreparedCell(frame, p, spot, strike, now, k, COLUMN_ORDER[j], symbol, LabelValue(expiry), FetchTime(now), Text(MinuteStamp(saveNow)));
  }

  /**
   One iteration of the expiry loop (main.py:129-227), given the option name
   bound before it. The SDK's strike is used when the selection succeeds and
   the fallback otherwise; the name is rebound only by a successful selection,
   so a failed one leaves the previous expiry's name in place.
   */
  function ExpiryStep(cfg: SymbolConfig, spot: real, index: nat, ceName: Option<SdkName>, inp: ExpiryInput): (r: (Attempt, Option<SdkName>))
    requires cfg.Valid() && ChainWellFormed(inp.chain)
    ensures r.0.index == index
    ensures r.1 == if inp.atm.AtmSelected? then Some(inp.atm.ceName) else ceName
    ensures r.0.strike == if inp.atm.AtmSelected? then inp.atm.strike else Num(FallbackAtm(spot, cfg.strikeGap) as real)
    ensures r.0.outcome.Saved? <==> ChainUsable(inp.chain) && ExpiryLabel(r.1, index).Some? && inp.db.Accepts?
    ensures r.0.outcome.Saved? ==>
      r.0.outcome.written.table == QualifiedTable(cfg.name, ExpiryLabel(r.1, index).value)
  {
    var name := if inp.atm.AtmSelected? then Some(inp.atm.ceName) else ceName;
    var strike := if inp.atm.AtmSelected? then inp.atm.strike else Num(FallbackAtm(spot, cfg.strikeGap) as real);
    var expiry := ExpiryLabel(name, index);
    (Attempt(index, strike, ChainOutcome(cfg.name, spot, strike, expiry, inp)), name)
  }

  /** The option name bound after the given expiries: the call name of the last successful selection. */
  function LastCeName(inputs: seq<ExpiryInput>): Option<SdkName>
  {
    if inputs == [] then None
    else if inputs[|inputs| - 1].atm.AtmSelected? then Some(inputs[|inputs| - 1].atm.ceName)
    else LastCeName(inputs[..|inputs| - 1])
  }

  /**
   What `fetch_symbol_data` does for one underlying: nothing without a spot
   price; otherwise one attempt per expiry index, in order, each from its own
   replies and the option name the earlier expiries left bound.
   */
  predicate FetchedAsSpecified(cfg: SymbolConfig, ltp: LtpReply, inputs: seq<ExpiryInput>, attempts: seq<Attempt>)
    requires cfg.Valid() && |inputs| == cfg.numExpiries
    requires forall k :: 0 <= k < |inputs| ==> ChainWellFormed(inputs[k].chain)
  {
    match InitialData(cfg.name, ltp)
    case None => attempts == []
    case Some(spot) =>
      && |attempts| == cfg.numExpiries
      && forall k :: 0 <= k < |attempts| ==>
           attempts[k] == ExpiryStep(cfg, spot, k, LastCeName(inputs[..k]), inputs[k]).0
  }

  /**
   `fetch_symbol_data` (main.py:114-233). Without a spot price no expiry is
   attempted; otherwise every index `0 .. num_expiries - 1` is attempted in
   order, and whatever happens at one index, the later ones still run.
   */
  method FetchSymbolData(cfg: SymbolConfig, ltp: LtpReply, inputs: seq<ExpiryInput>) returns (attempts: seq<Attempt>)
    requires cfg.Valid() && |inputs| == cfg.numExpiries
    requires forall k :: 0 <= k < |inputs| ==> ChainWellFormed(inputs[k].chain)
    ensures FetchedAsSpecified(cfg, ltp, inputs, attempts)
    ensures InitialData(cfg.name, ltp).None? ==> attempts == []
    ensures InitialData(cfg.name, ltp).Some? ==>
      |attempts| == cfg.numExpiries && forall k :: 0 <= k < |attempts| ==> attempts[k].index == k
  {
    var spot := InitialData(cfg.name, ltp);
    if spot.None? {
      return [];
    }
    attempts := [];
    var ceName: Option<SdkName> := None;
    var i := 0;
    while i < cfg.numExpiries
      invariant 0 <= i <= cfg.numExpiries
      invariant |attempts| == i
      invariant ceName == LastCeName(inputs[..i])
      invariant forall k :: 0 <= k < i ==>
        attempts[k] == ExpiryStep(cfg, spot.value, k, LastCeName(inputs[..k]), inputs[k]).0
    {
      var step := ExpiryStep(cfg, spot.value, i, ceName, inputs[i]);
      attempts := attempts + [step.0];
      assert inputs[..i + 1][..i] == inputs[..i];
      ceName := step.1;
      i := i + 1;
    }
  }

  /**
   When the selection fails at one expiry after succeeding at the one before,
   the name left bound is the previous expiry's. When that name is a text,
   both expiries get the same label and, when both are stored, the same table.
   */
  lemma FailedSelectionReusesTable(cfg: SymbolConfig, spot: real, index: nat, ceName: Option<SdkName>,
                                   prevInput: ExpiryInput, input: ExpiryInput)
    requires cfg.Valid() && ChainWellFormed(prevInput.chain) && ChainWellFormed(input.chain)
    requires prevInput.atm.AtmSelected? && input.atm.AtmRaises?
    ensures var prev := ExpiryStep(cfg, spot, index, ceName, prevInput);
      var cur := ExpiryStep(cfg, spot, index + 1, prev.1, input);
      && cur.1 == prev.1 == Some(prevInput.atm.ceName)
      && (prevInput.atm.ceName.NameText? ==>
            && ExpiryLabel(cur.1, index + 1) == ExpiryLabel(prev.1, index)
            && (prev.0.outcome.Saved? && cur.0.outcome.Saved? ==> cur.0.outcome.written.table == prev.0.outcome.written.table))
  {
  }
}
