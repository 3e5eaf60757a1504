/** The configuration value bag handed to a cache at creation, and the checks
    that the Cache constructor and CacheManager.Create both perform on it. */
module Configuration {
  import opened Errors

  /** A DateTime or TimeSpan, in ticks. */
  type Ticks = int

  type Positive = n: int | n > 0 witness 1

  /** The float OldestItemsRemovingPercentage, written as the fraction num/den. */
  datatype Percentage = Percentage(num: int, den: Positive) {
    /** The source accepts exactly the values in [0, 1]. */
    predicate InUnitRange() {
      0 <= num <= den
    }
  }

  /** (int)Math.Truncate(count * percentage): the number of oldest items a flush removes. */
  function RemovalCount(count: nat, p: Percentage): (r: nat)
    requires p.InUnitRange()
    ensures r <= count
    ensures r * p.den <= count * p.num < (r + 1) * p.den
  {
    MulMonotone(count, p.num, p.den);
    var r := (count * p.num) / p.den;
    DivBelow(count * p.num, p.den, count);
    r
  }

  lemma MulMonotone(a: nat, b: nat, c: nat)
    requires b <= c
    ensures a * b <= a * c
  {}

  lemma DivBelow(x: nat, d: Positive, bound: nat)
    requires x <= bound * d
    ensures x / d <= bound
    ensures (x / d) * d <= x < (x / d + 1) * d
  {}

  datatype CacheConfiguration = CacheConfiguration(
    sizeLimit: int,
    defaultItemExpiration: Ticks,
    defaultItemSize: int,
    oldestItemsRemovingPercentage: Percentage,
    pollingInterval: Ticks)

  /** The configurations the source accepts. */
  predicate ValidConfiguration(c: CacheConfiguration) {
    && 1 <= c.sizeLimit
    && c.defaultItemSize <= c.sizeLimit
    && c.oldestItemsRemovingPercentage.InUnitRange()
  }

  /** The validation shared by the Cache constructor and CacheManager.Create, in the
      source's order: an empty name, a missing configuration, SizeLimit below one,
      DefaultItemSize above SizeLimit, a percentage outside [0, 1]. `None` means
      that the configuration is accepted. */
  function ValidateConfiguration(name: string, configuration: Option<CacheConfiguration>): (r: Option<Error>)
    ensures r == None <==> name != "" && configuration.Some? && ValidConfiguration(configuration.value)
    ensures name == "" || configuration.None? ==> r == Some(ArgumentNull)
    ensures name != "" && configuration.Some? && configuration.value.sizeLimit < 1 ==> r == Some(ArgumentOutOfRange)
    ensures name != "" && configuration.Some? && configuration.value.sizeLimit >= 1
            && configuration.value.defaultItemSize > configuration.value.sizeLimit
            ==> r == Some(InvalidOperation(DefaultSizeAboveLimit))
    ensures name != "" && configuration.Some? && configuration.value.sizeLimit >= 1
            && configuration.value.defaultItemSize <= configuration.value.sizeLimit
            && !configuration.value.oldestItemsRemovingPercentage.InUnitRange()
            ==> r == Some(ArgumentOutOfRange)
    ensures r == Some(InvalidOperation(DefaultSizeAboveLimit)) ==>
              configuration.Some? && configuration.value.defaultItemSize > configuration.value.sizeLimit
    ensures r == Some(ArgumentOutOfRange) ==>
              configuration.Some? && (configuration.value.sizeLimit < 1
                                      || !configuration.value.oldestItemsRemovingPercentage.InUnitRange())
  {
    if name == "" then Some(ArgumentNull)
    else if configuration.None? then Some(ArgumentNull)
    else
      var c := configuration.value;
      if c.sizeLimit < 1 then Some(ArgumentOutOfRange)
      else if c.defaultItemSize > c.sizeLimit then Some(InvalidOperation(DefaultSizeAboveLimit))
      else if !c.oldestItemsRemovingPercentage.InUnitRange() then Some(ArgumentOutOfRange)
      else None
  }
}
