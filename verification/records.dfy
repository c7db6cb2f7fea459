/**
 * The plain data shapes of the stats component: the persisted price row and the
 * two aggregate projections. The service's domain records have the same fields as
 * the projections and are converted field by field, so each shape is declared once.
 *
 * A `LocalDateTime` is an `int` count of milliseconds of local time, a `LocalDate`
 * an `int` count of days, and a `BigDecimal` a `real`.
 */
module Records {

  /** Milliseconds in one calendar day of local time (`plusDays(1)` on a `LocalDateTime`). */
  const MillisPerDay: int := 86_400_000

  /** One row of the `currency_stats` table: the currency it belongs to, when, and the price. */
  datatype StatsEntity = StatsEntity(symbol: string, dateTime: int, price: real)

  /** `CurrencyStatsMinMaxProjection` / `CurrencyStatsMinMaxDomain`. */
  datatype MinMaxStats = MinMaxStats(
    symbol: string,
    oldestDate: int,
    newestDate: int,
    minPrice: real,
    maxPrice: real)

  /** `CurrencyNormalizedPriceProjection` / `CurrencyNormalizedPriceDomain`. */
  datatype NormalizedPrice = NormalizedPrice(symbol: string, normalizedPrice: real)
}
