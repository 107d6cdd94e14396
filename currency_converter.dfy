// The conversion effect of the currency converter hook: from the amount, the
// selected base and target currencies and the loaded rate table it derives
// either no result or a result record holding the converted amount and a
// display rate. The React state updates that publish the record are not
// modelled; the effect is the pure function from its inputs to the record.

module CurrencyConverter {

  import opened Optional
  import opened CurrencyContext

  datatype Currency = Currency(code: string, name: string, symbol: string)

  datatype ConversionResult = ConversionResult(
    convertedAmount: real,
    fromCurrency: string,
    toCurrency: string,
    rate: real)

  /** The display rate is computed as if the table were always quoted
    * against this currency. */
  const Usd: string := "USD"

  /** The effect's inputs allow a conversion: a positive amount and a loaded
    * table. */
  predicate Converts(amount: real, exchangeRates: Option<RateTable>)
  {
    amount > 0.0 && exchangeRates.Some?
  }

  /** The display rate of the effect, computed through three branches
    * hard-wired to a USD anchor. The USD-base branch is tested first. */
  function DisplayRate(table: RateTable, base: string, target: string): (rate: real)
    requires Quoted(table, base) && Quoted(table, target)
    ensures base == Usd ==> rate == table[target]
    ensures base != Usd && target == Usd ==> rate * table[base] == 1.0
    ensures base != Usd && target != Usd ==> rate == table[target] / table[base]
    ensures base != Usd && base == target ==> rate == 1.0
  {
    if base == Usd then
      table[target]
    else if target == Usd then
      1.0 / table[base]
    else
      var baseToUsd := 1.0 / table[base];
      var usdToTarget := table[target];
      baseToUsd * usdToTarget
  }

  /** The body of the converter effect. No result is produced when the amount
    * is not positive or no table is loaded; otherwise the result records the
    * two codes, the display rate and the amount converted by
    * `convertAmount`. */
  function ConvertEffect(amount: real, baseCurrency: Currency, targetCurrency: Currency,
                         exchangeRates: Option<RateTable>): (result: Option<ConversionResult>)
    requires Converts(amount, exchangeRates) ==>
      Quoted(exchangeRates.value, baseCurrency.code) && Quoted(exchangeRates.value, targetCurrency.code)
    ensures result.Some? <==> Converts(amount, exchangeRates)
    ensures result.Some? ==>
      && result.value.fromCurrency == baseCurrency.code
      && result.value.toCurrency == targetCurrency.code
      && result.value.convertedAmount == ConvertAmount(exchangeRates, amount, baseCurrency.code, targetCurrency.code)
      && result.value.rate == DisplayRate(exchangeRates.value, baseCurrency.code, targetCurrency.code)
  {
    // `!amount || amount <= 0`: the zero test is subsumed, kept to mirror the guard
    if amount == 0.0 || amount <= 0.0 || exchangeRates.None? then
      None
    else
      var rate := DisplayRate(exchangeRates.value, baseCurrency.code, targetCurrency.code);
      var convertedAmount := ConvertAmount(exchangeRates, amount, baseCurrency.code, targetCurrency.code);
      Some(ConversionResult(convertedAmount, baseCurrency.code, targetCurrency.code, rate))
  }

  /** For a pair of currencies neither of which is USD, the converted amount is
    * the amount times the display rate, whatever the table's anchor. */
  lemma CrossRateAgrees(amount: real, baseCurrency: Currency, targetCurrency: Currency, table: RateTable)
    requires amount > 0.0
    requires Quoted(table, baseCurrency.code) && Quoted(table, targetCurrency.code)
    requires baseCurrency.code != Usd && targetCurrency.code != Usd
    ensures var result := ConvertEffect(amount, baseCurrency, targetCurrency, Some(table));
      result.Some? && result.value.convertedAmount == amount * result.value.rate
  {
    var rb, rt := table[baseCurrency.code], table[targetCurrency.code];
    assert amount * (rt / rb) == amount * ((1.0 / rb) * rt);
  }

  /** When the table is quoted against USD (its USD rate is 1), the converted
    * amount is the amount times the display rate in all three branches. */
  lemma UsdAnchoredRateAgrees(amount: real, baseCurrency: Currency, targetCurrency: Currency, table: RateTable)
    requires amount > 0.0
    requires Quoted(table, baseCurrency.code) && Quoted(table, targetCurrency.code)
    requires Usd in table && table[Usd] == 1.0
    ensures var result := ConvertEffect(amount, baseCurrency, targetCurrency, Some(table));
      result.Some? && result.value.convertedAmount == amount * result.value.rate
  {
    var b, t := baseCurrency.code, targetCurrency.code;
    if b != Usd && t != Usd {
      CrossRateAgrees(amount, baseCurrency, targetCurrency, table);
    } else if b != Usd {
      assert amount * (table[t] / table[b]) == amount * (1.0 / table[b]);
    }
  }

  /** Once the table fetched for the base currency has loaded, it quotes the
    * base at 1. With a non-USD base and USD as the target, the display rate is
    * then 1 whatever the USD rate, while the converted amount uses the USD
    * rate. */
  lemma UsdTargetRateIgnoresTable(amount: real, baseCurrency: Currency, targetCurrency: Currency, table: RateTable)
    requires amount > 0.0
    requires Quoted(table, baseCurrency.code) && Quoted(table, targetCurrency.code)
    requires baseCurrency.code != Usd && targetCurrency.code == Usd
    requires table[baseCurrency.code] == 1.0
    ensures var result := ConvertEffect(amount, baseCurrency, targetCurrency, Some(table));
      && result.Some?
      && result.value.rate == 1.0
      && result.value.convertedAmount == amount * table[Usd]
  {
  }

  /** A concrete instance: 100 euros against a euro-based table quoting the
    * dollar at 1.08 are shown as 108 dollars at a rate of 1. */
  lemma UsdTargetRateCounterexample()
    ensures var eur := Currency("EUR", "Euro", "€");
      var usd := Currency("USD", "United States Dollar", "$");
      var result := ConvertEffect(100.0, eur, usd, Some(map["EUR" := 1.0, "USD" := 1.08]));
      && result.Some?
      && result.value.rate == 1.0
      && result.value.convertedAmount == 108.0
      && result.value.convertedAmount != 100.0 * result.value.rate
  {
    var eur := Currency("EUR", "Euro", "€");
    var usd := Currency("USD", "United States Dollar", "$");
    var table := map["EUR" := 1.0, "USD" := 1.08];
    assert "EUR" != Usd;
    UsdTargetRateIgnoresTable(100.0, eur, usd, table);
  }

  // ---------------------------------------------------------------------------
  // The display rate taken from the same table lookup as the conversion

  /** The rate the display evidently means: what one unit of the base buys of
    * the target, read from the table whatever its anchor. */
  function UnifiedRate(table: RateTable, base: string, target: string): (rate: real)
    requires Quoted(table, base) && Quoted(table, target)
    ensures rate > 0.0
    ensures rate == ConvertAmount(Some(table), 1.0, base, target)
  {
    table[target] / table[base]
  }

  /** The converter effect with the display rate read from the table as the
    * conversion reads it. */
  function ConvertEffectUnified(amount: real, baseCurrency: Currency, targetCurrency: Currency,
                                exchangeRates: Option<RateTable>): (result: Option<ConversionResult>)
    requires Converts(amount, exchangeRates) ==>
      Quoted(exchangeRates.value, baseCurrency.code) && Quoted(exchangeRates.value, targetCurrency.code)
    ensures result.Some? <==> Converts(amount, exchangeRates)
    ensures result.Some? ==>
      && result.value.fromCurrency == baseCurrency.code
      && result.value.toCurrency == targetCurrency.code
      && result.value.convertedAmount == ConvertAmount(exchangeRates, amount, baseCurrency.code, targetCurrency.code)
      && result.value.convertedAmount == amount * result.value.rate
  {
    // `!amount || amount <= 0`: the zero test is subsumed, kept to mirror the guard
    if amount == 0.0 || amount <= 0.0 || exchangeRates.None? then
      None
    else
      var rate := UnifiedRate(exchangeRates.value, baseCurrency.code, targetCurrency.code);
      var convertedAmount := ConvertAmount(exchangeRates, amount, baseCurrency.code, targetCurrency.code);
      Some(ConversionResult(convertedAmount, baseCurrency.code, targetCurrency.code, rate))
  }

  /** On a table quoted against USD the unified rate is the display rate of
    * the original, and it is 1 for a currency against itself. */
  lemma UnifiedRateMatchesDisplay(table: RateTable, base: string, target: string)
    requires Quoted(table, base) && Quoted(table, target)
    requires Usd in table && table[Usd] == 1.0
    ensures UnifiedRate(table, base, target) == DisplayRate(table, base, target)
    ensures base == target ==> UnifiedRate(table, base, target) == 1.0
  {
  }
}
