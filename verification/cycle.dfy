/**
 One collection cycle (main.py:319-326): every configured underlying in
 configuration order, each fetched on its own, and where their rows go.
 */
module Cycle {
  import opened Config
  import opened Text
  import opened Storage
  import opened Fetch

  /** Everything the SDK, the clock and the database give while one underlying is fetched. */
  datatype SymbolInput = SymbolInput(ltp: LtpReply, expiries: seq<ExpiryInput>)

  /** One input per configured underlying, one expiry input per configured expiry. */
  predicate InputsFit(inputs: seq<SymbolInput>)
  {
    && |inputs| == |SYMBOLS|
    && forall i :: 0 <= i < |inputs| ==>
         && |inputs[i].expiries| == SYMBOLS[i].numExpiries
         && forall k :: 0 <= k < |inputs[i].expiries| ==> ChainWellFormed(inputs[i].expiries[k].chain)
  }

  /**
   The cycle body: `fetch_symbol_data` for each underlying of `ALL_SYMBOLS`
   in order. Each underlying's attempts depend only on its own inputs, so a
   failing underlying neither stops nor changes the others.
   */
  method RunCycle(inputs: seq<SymbolInput>) returns (results: seq<seq<Attempt>>)
    requires InputsFit(inputs)
    ensures |results| == |SYMBOLS|
    ensures forall i :: 0 <= i < |SYMBOLS| ==>
      SYMBOLS[i].Valid() && FetchedAsSpecified(SYMBOLS[i], inputs[i].ltp, inputs[i].expiries, results[i])
  {
    SymbolsValid();
    results := [];
    var i := 0;
    while i < |SYMBOLS|
      invariant 0 <= i <= |SYMBOLS|
      invariant |results| == i
      invariant forall n :: 0 <= n < i ==>
        FetchedAsSpecified(SYMBOLS[n], inputs[n].ltp, inputs[n].expiries, results[n])
    {
      var attempts := FetchSymbolData(SYMBOLS[i], inputs[i].ltp, inputs[i].expiries);
      results := results + [attempts];
      i := i + 1;
    }
  }

  /** Every row an underlying stores lands in a table of that underlying's own schema. */
  lemma WritesStayInSchema(cfg: SymbolConfig, ltp: LtpReply, inputs: seq<ExpiryInput>, attempts: seq<Attempt>)
    requires cfg.Valid() && |inputs| == cfg.numExpiries
    requires forall k :: 0 <= k < |inputs| ==> ChainWellFormed(inputs[k].chain)
    requires FetchedAsSpecified(cfg, ltp, inputs, attempts)
    ensures forall k :: 0 <= k < |attempts| && attempts[k].outcome.Saved? ==>
      InSchema(attempts[k].outcome.written.table, cfg.name)
  {
    forall k | 0 <= k < |attempts| && attempts[k].outcome.Saved?
      ensures InSchema(attempts[k].outcome.written.table, cfg.name)
    {
      var spot := InitialData(cfg.name, ltp).value;
      var step := ExpiryStep(cfg, spot, k, LastCeName(inputs[..k]), inputs[k]);
      var expiry := ExpiryLabel(step.1, k).value;
      var p := SchemaPrefix(cfg.name);
      var t := attempts[k].outcome.written.table;
      assert t == p + (cfg.name + "_" + SanitizeLabel(expiry));
      assert t[..|p|] == p;
    }
  }

  /**
   No table belongs to two configured underlyings: their schema prefixes
   already differ in the first letter of the name.
   */
  lemma SchemasApart(i: nat, j: nat, t: string)
    requires i < j < |SYMBOLS|
    ensures !(InSchema(t, SYMBOLS[i].name) && InSchema(t, SYMBOLS[j].name))
  {
    var a, b := SchemaPrefix(SYMBOLS[i].name), SchemaPrefix(SYMBOLS[j].name);
    assert |a| > 13 && |b| > 13 && a[13] != b[13];
    assert InSchema(t, SYMBOLS[i].name) ==> t[13] == t[..|a|][13] == a[13];
    assert InSchema(t, SYMBOLS[j].name) ==> t[13] == t[..|b|][13] == b[13];
  }

  /** The writes of the attempts that stored, in attempt order. */
  function WritesOf(attempts: seq<Attempt>): (ws: seq<Written>)
    ensures |ws| <= |attempts|
    ensures forall w :: w in ws <==> exists k :: 0 <= k < |attempts| && attempts[k].outcome.Saved? && attempts[k].outcome.written == w
  {
    if attempts == [] then []
    else
      var rest := WritesOf(attempts[1..]);
      assert forall k :: 1 <= k < |attempts| ==> attempts[k] == attempts[1..][k - 1];
      if attempts[0].outcome.Saved? then [attempts[0].outcome.written] + rest else rest
  }

  /** An underlying without a spot price stores nothing in the cycle. */
  lemma NoSpotNoWrites(cfg: SymbolConfig, ltp: LtpReply, inputs: seq<ExpiryInput>, attempts: seq<Attempt>)
    requires cfg.Valid() && |inputs| == cfg.numExpiries
    requires forall k :: 0 <= k < |inputs| ==> ChainWellFormed(inputs[k].chain)
    requires FetchedAsSpecified(cfg, ltp, inputs, attempts)
    requires InitialData(cfg.name, ltp).None?
    ensures WritesOf(attempts) == []
  {
  }
}
