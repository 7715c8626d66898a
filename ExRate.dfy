/** The exchange-rate controller: it obtains USD-based rates through the API's cache
    facade and converts between two currencies with them. */
module ExRate {
  import opened CacheTypes
  import opened StoreBuffer
  import opened Resilience
  import opened Facade
  import ApiCacheService

  /** Rates against the base currency, by currency code (decimals modelled as reals). */
  type Rates = map<string, real>

  /** A rates dictionary that may be null: None stands for null. */
  type RatesOrNull = Option<Rates>

  const BaseCurrency: string := "USD"
  const InvalidCurrencyMessage: string := "An invalid currency code was supplied"

  /** The rate from `fromCurrency` to `toCurrency`: the source currency is looked up
      first, so when both are missing the error names `fromCurrency`; a null dictionary
      and a zero source rate raise the runtime's exceptions. */
  function GetExRateConversion(fromCurrency: string, toCurrency: string, exchangeRates: RatesOrNull): (r: Outcome<real>)
    ensures exchangeRates.None? ==> r == Err(NullReferenceException)
    ensures exchangeRates.Some? && fromCurrency !in exchangeRates.value ==>
              r == Err(ArgumentOutOfRangeException("fromCurrency"))
    ensures exchangeRates.Some? && fromCurrency in exchangeRates.value && toCurrency !in exchangeRates.value ==>
              r == Err(ArgumentOutOfRangeException("toCurrency"))
    ensures exchangeRates.Some? && fromCurrency in exchangeRates.value && toCurrency in exchangeRates.value &&
            exchangeRates.value[fromCurrency] == 0.0 ==>
              r == Err(DivideByZeroException)
    ensures r.Ok? <==> exchangeRates.Some? && fromCurrency in exchangeRates.value &&
                       toCurrency in exchangeRates.value && exchangeRates.value[fromCurrency] != 0.0
    ensures r.Ok? ==> r.value * exchangeRates.value[fromCurrency] == exchangeRates.value[toCurrency]
  {
    if exchangeRates.None? then Err(NullReferenceException)
    else if fromCurrency !in exchangeRates.value then Err(ArgumentOutOfRangeException("fromCurrency"))
    else if toCurrency !in exchangeRates.value then Err(ArgumentOutOfRangeException("toCurrency"))
    else if exchangeRates.value[fromCurrency] == 0.0 then Err(DivideByZeroException)
    else Ok(exchangeRates.value[toCurrency] / exchangeRates.value[fromCurrency])
  }

  /** Converting a currency to itself gives 1, and converting there and back multiplies
      to 1. */
  lemma ConversionInverse(a: string, b: string, rates: Rates)
    requires a in rates && b in rates && rates[a] != 0.0 && rates[b] != 0.0
    ensures GetExRateConversion(a, a, Some(rates)) == Ok(1.0)
    ensures GetExRateConversion(a, b, Some(rates)).value * GetExRateConversion(b, a, Some(rates)).value == 1.0
  {
    var x, y := rates[a], rates[b];
    var there, back := y / x, x / y;
    assert there * x == y;
    assert back * y == x;
    assert back * (x * y) == x * x by {
      assert back * (x * y) == (back * y) * x;
    }
    assert (there * back) * (x * y) == there * (x * x);
    assert there * (x * x) == y * x by {
      assert there * (x * x) == (there * x) * x;
    }
    assert ((there * back) - 1.0) * (x * y) == 0.0;
    assert x * y != 0.0;
  }

  /** Conversions compose: a to b followed by b to c is a to c. */
  lemma ConversionChain(a: string, b: string, c: string, rates: Rates)
    requires a in rates && b in rates && c in rates && rates[a] != 0.0 && rates[b] != 0.0
    ensures GetExRateConversion(a, b, Some(rates)).value * GetExRateConversion(b, c, Some(rates)).value
            == GetExRateConversion(a, c, Some(rates)).value
  {
    var x, y, z := rates[a], rates[b], rates[c];
    assert (y / x) * (z / y) == (y * z) / (x * y);
    assert (y * z) / (x * y) == z / x;
  }

  /** What the endpoint returns. */
  datatype ActionResult = OkObject(value: real) | BadRequest(message: string)

  /** The endpoint's handler: an ArgumentOutOfRangeException becomes a bad request; every
      other exception propagates. */
  function Handle(e: Exception): Outcome<ActionResult>
  {
    if e.ArgumentOutOfRangeException? then Ok(BadRequest(InvalidCurrencyMessage)) else Err(e)
  }

  /** GetExRateAsync given the outcome of obtaining the rates: the handler covers both
      obtaining the rates and converting with them. */
  function ExRateResponse(rates: Outcome<RatesOrNull>, fromCurrency: string, toCurrency: string): Outcome<ActionResult>
  {
    match rates
    case Err(e) => Handle(e)
    case Ok(rs) =>
      match GetExRateConversion(fromCurrency, toCurrency, rs)
      case Ok(v) => Ok(OkObject(v))
      case Err(e) => Handle(e)
  }

  /** With rates in hand, the endpoint answers with the conversion exactly when both codes
      are known and the source rate is not zero, answers a bad request exactly when a code
      is unknown, and otherwise fails. A null dictionary fails with a null reference, and
      a failure to obtain rates is a bad request only when it is an
      ArgumentOutOfRangeException. */
  lemma ExRateResponseCases(rates: Outcome<RatesOrNull>, fromCurrency: string, toCurrency: string)
    ensures var r := ExRateResponse(rates, fromCurrency, toCurrency);
            && (rates.Ok? && rates.value.Some? ==>
                  var m := rates.value.value;
                  && (r == Ok(BadRequest(InvalidCurrencyMessage)) <==> fromCurrency !in m || toCurrency !in m)
                  && (r.Ok? && r.value.OkObject? <==> fromCurrency in m && toCurrency in m && m[fromCurrency] != 0.0)
                  && (r.Ok? && r.value.OkObject? ==> r.value.value == m[toCurrency] / m[fromCurrency])
                  && (r.Err? ==> r.error == DivideByZeroException))
            && (rates.Ok? && rates.value.None? ==> r == Err(NullReferenceException))
            && (rates.Err? ==> r == Ok(BadRequest(InvalidCurrencyMessage)) || r == Err(rates.error))
            && (rates.Err? ==> (r == Ok(BadRequest(InvalidCurrencyMessage)) <==> rates.error.ArgumentOutOfRangeException?))
  {
  }

  /** FetchExRateAsync given the vendor call's outcome: the fetched rates, or the previous
      rates unchanged whenever fetching or parsing throws. */
  function FetchExRate(oldRates: RatesOrNull, latest: Outcome<RatesOrNull>): (rates: RatesOrNull)
    ensures latest.Err? ==> rates == oldRates
    ensures latest.Ok? ==> rates == latest.value
  {
    match latest
    case Ok(fetched) => fetched
    case Err(_) => oldRates
  }

  /** The value factory handed to the facade: it passes the previous rates (null when the
      facade passes the default) to FetchExRate. */
  function RatesFactory(latest: Outcome<RatesOrNull>): Option<RatesOrNull> -> Outcome<RatesOrNull>
  {
    (oldRates: Option<RatesOrNull>) => Ok(FetchExRate(if oldRates.Some? then oldRates.value else None, latest))
  }

  /** The controller's value factory never throws; called directly by the facade's
      fallback it yields the fetched rates or, when the vendor call fails, null. */
  lemma RatesFactoryNeverThrows(latest: Outcome<RatesOrNull>, oldRates: Option<RatesOrNull>)
    ensures RatesFactory(latest)(oldRates).Ok?
    ensures RatesFactory(latest)(None) == Ok(if latest.Ok? then latest.value else None)
  {
  }

  /** While the shared tier keeps failing and nothing is buffered, a failed vendor call
      makes the facade buffer and return null rates, and the endpoint then fails with a
      null reference instead of answering. */
  lemma OutageWithVendorFailure(keyPrefix: string, settings: CacheSettings, stack: nat -> Outcome<RatesOrNull>,
                                latest: Outcome<RatesOrNull>, buffer: Buffer<RatesOrNull>, bufferTtl: Ttl, now: nat,
                                fromCurrency: string, toCurrency: string)
    requires forall n :: IsHandledFailure(stack(n))
    requires keyPrefix + BaseCurrency !in buffer
    requires latest.Err?
    ensures var run := GetOrSetRun(RetryOnly, keyPrefix, BaseCurrency, settings, stack, RatesFactory(latest),
                                   buffer, bufferTtl, now);
            && run.result == Ok(None)
            && keyPrefix + BaseCurrency in run.buffer && run.buffer[keyPrefix + BaseCurrency].value == None
            && ExRateResponse(run.result, fromCurrency, toCurrency) == Err(NullReferenceException)
  {
    RetryCharacterization(stack);
    DirectFetchOnMiss(RetryOnly, keyPrefix, BaseCurrency, settings, stack, RatesFactory(latest), buffer, bufferTtl, now);
  }

  class ExRateController {
    const cacheService: ApiCacheService.CacheService<RatesOrNull>

    constructor (cacheService: ApiCacheService.CacheService<RatesOrNull>)
      ensures this.cacheService == cacheService
    {
      this.cacheService := cacheService;
    }

    /** Rates for `baseCurrency` through the facade, with the facade's default settings
        and the vendor-backed value factory. */
    method GetOrSetExRate(baseCurrency: string, stack: nat -> Outcome<RatesOrNull>,
                          latest: Outcome<RatesOrNull>, now: nat)
      returns (rates: Outcome<RatesOrNull>, calls: seq<Call<RatesOrNull>>)
      modifies cacheService`memCache
      ensures var run := GetOrSetRun(RetryOnly, cacheService.options.keyPrefix, baseCurrency,
                                     cacheService.GetCacheSettingsDefault(), stack, RatesFactory(latest),
                                     old(cacheService.memCache), cacheService.storeBufferDefault, now);
              rates == run.result && calls == run.calls && cacheService.memCache == run.buffer
    {
      rates, calls := cacheService.GetOrSetAsync(baseCurrency, RatesFactory(latest),
                                                 cacheService.GetCacheSettingsDefault(), stack, now);
    }

    /** The endpoint: obtain the USD rates and convert, mapping an
        ArgumentOutOfRangeException to a bad request. */
    method GetExRateAsync(fromCurrency: string, toCurrency: string, stack: nat -> Outcome<RatesOrNull>,
                          latest: Outcome<RatesOrNull>, now: nat)
      returns (response: Outcome<ActionResult>, calls: seq<Call<RatesOrNull>>)
      modifies cacheService`memCache
      ensures var run := GetOrSetRun(RetryOnly, cacheService.options.keyPrefix, BaseCurrency,
                                     cacheService.GetCacheSettingsDefault(), stack, RatesFactory(latest),
                                     old(cacheService.memCache), cacheService.storeBufferDefault, now);
              && response == ExRateResponse(run.result, fromCurrency, toCurrency)
              && calls == run.calls && cacheService.memCache == run.buffer
    {
      var usdRates;
      usdRates, calls := GetOrSetExRate(BaseCurrency, stack, latest, now);
      if usdRates.Err? {
        response := Handle(usdRates.error);
        return;
      }
      var conversion := GetExRateConversion(fromCurrency, toCurrency, usdRates.value);
      if conversion.Ok? {
        response := Ok(OkObject(conversion.value));
      } else {
        response := Handle(conversion.error);
      }
    }
  }
}
