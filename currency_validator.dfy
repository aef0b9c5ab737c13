/**
 * The ISO 4217 currency check. The symbols come from the runtime's culture and
 * region tables, which this model does not contain: the set of symbols those
 * tables yield is a parameter, `isoSymbols`.
 */
module CurrencyValidator {
  import opened Wrappers

  /**
   * `IsoCurrencyValidator.IsValid`: a null or empty string throws
   * ArgumentException; any other string is valid exactly when some region
   * reports it as its ISO currency symbol (case-sensitive).
   */
  function IsValid(currency: Option<string>, isoSymbols: set<string>): (r: Result<bool>)
    ensures r.Failure? <==> currency == None || currency == Some("")
    ensures r.Failure? ==> r.exception == ArgumentException
    ensures r.Success? ==> (r.value <==> currency.value in isoSymbols)
  {
    match currency
    case None => Failure(ArgumentException)
    case Some(c) => if c == "" then Failure(ArgumentException) else Success(c in isoSymbols)
  }
}
