// The conversion helper of the currency context: an amount is converted
// between two currency codes through a rate table whose rates are all quoted
// against one anchor currency (the currency the table was fetched for).

module CurrencyContext {

  import opened Optional

  /** Currency code to rate, every rate quoted against the table's anchor. */
  type RateTable = map<string, real>

  /** The code has a usable rate in the table. A missing key would give
    * `undefined` and a zero rate a division by zero; a conversion needs
    * neither. */
  predicate Quoted(table: RateTable, code: string)
  {
    code in table && table[code] > 0.0
  }

  /** `convertAmount`: 0 while no table is loaded, otherwise the amount scaled
    * by the ratio of the target's rate to the source's rate. The result is
    * worth the same as the amount in anchor units: amount / rate(from) ==
    * result / rate(to). */
  function ConvertAmount(exchangeRates: Option<RateTable>, amount: real, from: string, to: string): (r: real)
    requires exchangeRates.Some? ==> Quoted(exchangeRates.value, from) && Quoted(exchangeRates.value, to)
    ensures exchangeRates.None? ==> r == 0.0
    ensures exchangeRates.Some? ==>
      r / exchangeRates.value[to] == amount / exchangeRates.value[from]
  {
    match exchangeRates
    case None => 0.0
    case Some(table) =>
      var fromRate := table[from];
      var toRate := table[to];
      amount * (toRate / fromRate)
  }

  /** Converting a currency to itself gives the amount back. */
  lemma ConvertIdentity(table: RateTable, amount: real, code: string)
    requires Quoted(table, code)
    ensures ConvertAmount(Some(table), amount, code, code) == amount
  {
  }

  /** Converting A to B and back to A gives the original amount. */
  lemma ConvertRoundTrip(table: RateTable, amount: real, a: string, b: string)
    requires Quoted(table, a) && Quoted(table, b)
    ensures ConvertAmount(Some(table), ConvertAmount(Some(table), amount, a, b), b, a) == amount
  {
    ConvertCompose(table, amount, a, b, a);
    ConvertIdentity(table, amount, a);
  }

  /** Converting A to B and then B to C is converting A to C directly. */
  lemma ConvertCompose(table: RateTable, amount: real, a: string, b: string, c: string)
    requires Quoted(table, a) && Quoted(table, b) && Quoted(table, c)
    ensures ConvertAmount(Some(table), ConvertAmount(Some(table), amount, a, b), b, c)
            == ConvertAmount(Some(table), amount, a, c)
  {
    var ra, rb, rc := table[a], table[b], table[c];
    calc {
      ConvertAmount(Some(table), ConvertAmount(Some(table), amount, a, b), b, c);
      (amount * (rb / ra)) * (rc / rb);
      amount * ((rb / ra) * (rc / rb));
      { assert (rb / ra) * (rc / rb) == rc / ra; }
      amount * (rc / ra);
    }
  }

  /** Every rate of the table multiplied by the same positive factor: the
    * re-anchored table of ConvertAnchorIndependent. */
  function Rescale(table: RateTable, factor: real): (scaled: RateTable)
    ensures scaled.Keys == table.Keys
    ensures forall code :: code in table ==> scaled[code] == table[code] * factor
  {
    map code | code in table :: table[code] * factor
  }

  /** Re-anchoring the table (scaling every rate by the same positive
    * factor, as a table fetched for another base currency with the same
    * cross rates does) changes no conversion. */
  lemma ConvertAnchorIndependent(table: RateTable, factor: real, amount: real, from: string, to: string)
    requires factor > 0.0
    requires Quoted(table, from) && Quoted(table, to)
    ensures Quoted(Rescale(table, factor), from) && Quoted(Rescale(table, factor), to)
    ensures ConvertAmount(Some(Rescale(table, factor)), amount, from, to)
            == ConvertAmount(Some(table), amount, from, to)
  {
    var rf, rt := table[from], table[to];
    assert (rt * factor) / (rf * factor) == rt / rf;
  }
}
