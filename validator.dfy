/** Currency conversion over the fixed USD/EUR/RUB rate table. */
module Validator {
  import opened Errors

  /** The currency codes the converter knows. */
  predicate Supported(code: string) {
    code == "USD" || code == "EUR" || code == "RUB"
  }

  /** The rate table, as a table: the rate from the first code to the second. */
  const Rates: map<(string, string), real> := map[
    ("USD", "USD") := 1.0,   ("USD", "EUR") := 0.9,   ("USD", "RUB") := 70.0,
    ("EUR", "USD") := 1.1,   ("EUR", "EUR") := 1.0,   ("EUR", "RUB") := 80.0,
    ("RUB", "USD") := 0.014, ("RUB", "EUR") := 0.013, ("RUB", "RUB") := 1.0
  ]

  /** Converts `amount`, given in `trCurrency`, into `acCurrency`. */
  function ValidateCurrency(trCurrency: string, acCurrency: string, amount: real): (r: Result<real>)
    ensures r.Ok? <==> Supported(trCurrency) && Supported(acCurrency)
    ensures r.Err? ==> r.error == InvalidCurrency
    ensures r.Ok? ==> (trCurrency, acCurrency) in Rates && r.value == amount * Rates[(trCurrency, acCurrency)]
    ensures r.Ok? && trCurrency == acCurrency ==> r.value == amount
  {
    if trCurrency == "USD" then
      if acCurrency == "USD" then Ok(amount)
      else if acCurrency == "EUR" then Ok(amount * 0.9)
      else if acCurrency == "RUB" then Ok(amount * 70.0)
      else Err(InvalidCurrency)
    else if trCurrency == "EUR" then
      if acCurrency == "USD" then Ok(amount * 1.1)
      else if acCurrency == "EUR" then Ok(amount)
      else if acCurrency == "RUB" then Ok(amount * 80.0)
      else Err(InvalidCurrency)
    else if trCurrency == "RUB" then
      if acCurrency == "USD" then Ok(amount * 0.014)
      else if acCurrency == "EUR" then Ok(amount * 0.013)
      else if acCurrency == "RUB" then Ok(amount)
      else Err(InvalidCurrency)
    else
      Err(InvalidCurrency)
  }

  /** The table has exactly the nine ordered pairs of supported codes, and every
      rate in it is positive. */
  lemma RateTableShape()
    ensures forall p :: p in Rates <==> Supported(p.0) && Supported(p.1)
    ensures forall p :: p in Rates ==> Rates[p] > 0.0
  {
  }

  /** Conversion keeps the sign of the amount and maps zero to zero. */
  lemma ConversionKeepsSign(trCurrency: string, acCurrency: string, amount: real)
    requires Supported(trCurrency) && Supported(acCurrency)
    ensures var r := ValidateCurrency(trCurrency, acCurrency, amount);
      r.Ok? && (amount >= 0.0 ==> r.value >= 0.0) && (amount <= 0.0 ==> r.value <= 0.0)
      && (amount == 0.0 ==> r.value == 0.0)
  {
    RateTableShape();
  }

  /** Conversion between two supported codes preserves the order of amounts. */
  lemma ConversionMonotone(trCurrency: string, acCurrency: string, x: real, y: real)
    requires Supported(trCurrency) && Supported(acCurrency)
    requires x <= y
    ensures ValidateCurrency(trCurrency, acCurrency, x).value <= ValidateCurrency(trCurrency, acCurrency, y).value
  {
    RateTableShape();
  }

  /** Conversion is multiplication by a fixed rate, so it distributes over sums. */
  lemma ConversionAdditive(trCurrency: string, acCurrency: string, x: real, y: real)
    requires Supported(trCurrency) && Supported(acCurrency)
    ensures ValidateCurrency(trCurrency, acCurrency, x + y).value
         == ValidateCurrency(trCurrency, acCurrency, x).value + ValidateCurrency(trCurrency, acCurrency, y).value
  {
  }

  /** The table is not inverse-consistent: USD to EUR and back yields 0.99 of the
      amount, so a round trip changes every non-zero amount. */
  lemma NoRoundTrip(amount: real)
    ensures ValidateCurrency("EUR", "USD", ValidateCurrency("USD", "EUR", amount).value).value == 0.99 * amount
    ensures amount != 0.0 ==> ValidateCurrency("EUR", "USD", ValidateCurrency("USD", "EUR", amount).value).value != amount
  {
  }

  /** An unknown code, such as "RUR", is refused in either position. */
  lemma UnknownCodeRefused(amount: real)
    ensures ValidateCurrency("RUR", "USD", amount) == Err(InvalidCurrency)
    ensures ValidateCurrency("USD", "RUR", amount) == Err(InvalidCurrency)
  {
  }
}
