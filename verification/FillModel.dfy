/**
 The fill estimator of `crates/executionhandler/src/fill_probability.rs`: the scores, the regime,
 the two probabilities, the fill time, the slippage, and the statistics it learns from. Floating-point
 numbers are reals; the square root and the clock are parameters.
 */
module FillModel {
  import opened Reals
  import opened OrderBook
  import opened Wrappers

  datatype Config = Config(
    minSamples: nat, historyWindow: real, decay: real, tightSpread: real, wideSpread: real,
    highVolatility: real, adaptive: bool, maxObservations: nat)

  datatype Observation = Observation(
    orderSize: real, availableDepth: real, spreadBps: real, filledPct: real,
    fillTimeMs: nat, slippageBps: real, timestamp: real)

  datatype SymbolStats = SymbolStats(
    observations: seq<Observation>, avgFillRate: real, avgFillTimeMs: real, avgSlippageBps: real, samples: nat,
    lastUpdated: real)

  datatype ExchangeStats = ExchangeStats(fillRate: real, rejectRate: real, samples: nat)

  datatype Learned = Learned(
    symbols: map<string, SymbolStats>, exchanges: map<string, ExchangeStats>, volatility: real)

  datatype Regime = Normal | Liquid | Illiquid | Volatile | Stressed

  datatype Factors = Factors(
    liquidity: real, spread: real, size: real, historical: real, volatility: real, imbalance: real)

  /** What is asked about, and when; the size is a separate argument. */
  datatype Order = Order(symbol: string, exchange: string, isBuy: bool, limit: Option<real>, at: real)

  datatype Estimate = Estimate(
    full: real, partial: real, expectedPct: real, fillTimeMs: nat, slippageBps: real, confidence: real,
    regime: Regime, factors: Factors)

  const U64_MAX: nat := 0xFFFF_FFFF_FFFF_FFFF

  /** A wide-spread threshold that is not negative; below it the spread score can divide by zero. */
  predicate Sane(cfg: Config) { 0.0 <= cfg.wideSpread }

  // ---------------------------------------------------------------- scores

  function LiquidityScore(size: real, depth: real): real {
    if depth <= 0.0 then 0.0 else LiquidityAt(size / depth)
  }

  function LiquidityAt(ratio: real): real {
    if ratio <= 0.1 then 1.0
    else if ratio <= 0.5 then 1.0 - (ratio - 0.1) * 0.5
    else if ratio <= 1.0 then 0.8 - (ratio - 0.5) * 0.8
    else 0.4 / ratio
  }

  function SpreadScore(cfg: Config, spread: real): real
    requires Sane(cfg)
  {
    if spread <= cfg.tightSpread then 1.0
    else if spread <= cfg.wideSpread then
      1.0 - (spread - cfg.tightSpread) / (cfg.wideSpread - cfg.tightSpread) * 0.4
    else 0.6 * Min(cfg.wideSpread / spread, 1.0)
  }

  function TotalSize(obs: seq<Observation>): real {
    if obs == [] then 0.0 else obs[0].orderSize + TotalSize(obs[1..])
  }

  /** The divisor of the size ratio: the average order size, but at least 0.001. */
  function TypicalSize(obs: seq<Observation>): (r: real)
    ensures 0.001 <= r
  {
    Max(if obs == [] then 0.0 else TotalSize(obs) / |obs| as real, 0.001)
  }

  function SizeScore(cfg: Config, sqrt: real -> real, learned: Learned, symbol: string, size: real): real
    requires IsSqrt(sqrt)
  {
    if symbol in learned.symbols && |learned.symbols[symbol].observations| >= cfg.minSamples then
      SizeAt(sqrt, size / TypicalSize(learned.symbols[symbol].observations))
    else 0.8
  }

  function SizeAt(sqrt: real -> real, ratio: real): real
    requires IsSqrt(sqrt)
  {
    if ratio <= 1.0 then 1.0
    else if ratio <= 5.0 then 1.0 - (ratio - 1.0) * 0.1
    else
      SqrtAboveOne(sqrt, ratio / 5.0);
      0.6 / sqrt(ratio / 5.0)
  }

  function HistoricalScore(learned: Learned, symbol: string, exchange: string): real {
    (if symbol in learned.symbols then learned.symbols[symbol].avgFillRate else 0.85) * 0.7
    + (if exchange in learned.exchanges then learned.exchanges[exchange].fillRate else 0.85) * 0.3
  }

  function VolatilityScore(cfg: Config, volatility: real): real {
    var half := cfg.highVolatility / 2.0;
    if volatility <= half then 1.0
    else if volatility <= cfg.highVolatility then 1.0 - (volatility - half) / half * 0.3
    else 0.7 - Min((volatility - cfg.highVolatility) * 5.0, 0.4)
  }

  function ImbalanceScore(isBuy: bool, imbalance: real): real {
    0.75 + (if isBuy then -imbalance else imbalance) * 0.25
  }

  function Classify(cfg: Config, spread: real, volatility: real, depth: real, size: real): Regime {
    if spread > 50.0 || (depth > 0.0 && size / depth > 2.0) then Stressed
    else if volatility > cfg.highVolatility then Volatile
    else if spread > cfg.wideSpread then Illiquid
    else if spread < cfg.tightSpread then Liquid
    else Normal
  }

  function Base(f: Factors): real {
    f.liquidity * 0.35 + f.spread * 0.15 + f.size * 0.15 + f.historical * 0.20 + f.volatility * 0.10 + f.imbalance * 0.05
  }

  function FullMultiplier(regime: Regime): real {
    match regime
    case Liquid => 1.1
    case Normal => 1.0
    case Illiquid => 0.8
    case Volatile => 0.7
    case Stressed => 0.4
  }

  function PartialMultiplier(regime: Regime): real {
    match regime
    case Liquid => 0.95
    case Normal => 1.0
    case Illiquid => 1.2
    case Volatile => 1.3
    case Stressed => 1.5
  }

  function FullProbability(base: real, regime: Regime): real {
    Min(base * FullMultiplier(regime), 0.99)
  }

  function PartialProbability(full: real, regime: Regime): real {
    Min((1.0 - full) * 0.6 * PartialMultiplier(regime), 1.0 - full)
  }

  // ---------------------------------------------------------------- time and slippage

  function TimeFactor(regime: Regime): real {
    match regime
    case Liquid => 0.7
    case Normal => 1.0
    case Illiquid => 1.5
    case Volatile => 1.2
    case Stressed => 3.0
  }

  /** The saturating float-to-u64 conversion. */
  function ToU64(x: real): nat {
    if x <= 0.0 then 0 else if x.Floor > U64_MAX then U64_MAX else x.Floor
  }

  function SizeFactor(size: real, depth: real): real {
    if depth > 0.0 then 1.0 + Min(size / depth, 2.0) else 2.0
  }

  function FillTime(learned: Learned, symbol: string, size: real, depth: real, regime: Regime): nat {
    ScaledTime(BaseTime(learned, symbol), SizeFactor(size, depth), TimeFactor(regime))
  }

  function BaseTime(learned: Learned, symbol: string): real {
    if symbol in learned.symbols then learned.symbols[symbol].avgFillTimeMs else 100.0
  }

  function ScaledTime(base: real, sizeFactor: real, regimeFactor: real): nat {
    ToU64(base * sizeFactor * regimeFactor)
  }

  function SizeSlip(size: real, depth: real): real {
    if depth > 0.0 then (size / depth) * (size / depth) * 10.0 else 5.0
  }

  /** Average price against the reference, in basis points, never negative. */
  function PriceSlip(isBuy: bool, average: real, reference: real): real
    requires reference > 0.0
  {
    Max((if isBuy then average - reference else reference - average) / reference * 10000.0, 0.0)
  }

  function BookSlip(isBuy: bool, size: real, book: Book): real {
    var reference := if isBuy then book.bestAsk else book.bestBid;
    var got := Walk(if isBuy then book.asks else book.bids, size);
    if size > 0.0 && reference > 0.0 && got.filled > 0.0 then PriceSlip(isBuy, Average(got), reference)
    else 0.0
  }

  function Slippage(isBuy: bool, size: real, depth: real, spread: real, book: Book): real {
    Max(Max(spread / 2.0, SizeSlip(size, depth)), BookSlip(isBuy, size, book))
  }

  // ---------------------------------------------------------------- confidence

  /** How much data there is; with no minimum the source's quotient by zero is capped at 1. */
  function SampleFactor(samples: nat, minSamples: nat): real {
    if minSamples == 0 then 1.0 else Min(samples as real / (minSamples * 2) as real, 1.0)
  }

  /** Whole seconds since the last update, as a share of the window, capped at 1. */
  function Staleness(now: real, past: real, window: real): real {
    var age := if now <= past then 0.0 else (now - past).Floor as real;
    if window <= 0.0 then 1.0 else Min(age / window, 1.0)
  }

  function Confidence(cfg: Config, learned: Learned, order: Order): real {
    var known := order.symbol in learned.symbols;
    var samples := (if known then learned.symbols[order.symbol].samples else 0)
                   + (if order.exchange in learned.exchanges then learned.exchanges[order.exchange].samples else 0);
    var freshness :=
      if known then 1.0 - Staleness(order.at, learned.symbols[order.symbol].lastUpdated, cfg.historyWindow) else 0.5;
    SampleFactor(samples, cfg.minSamples) * 0.7 + freshness * 0.3
  }

  lemma SampleFactorInUnit(samples: nat, minSamples: nat)
    ensures Unit(SampleFactor(samples, minSamples))
  {
    if minSamples > 0 { QuotientBounds(samples as real, (minSamples * 2) as real); }
  }

  lemma StalenessInUnit(now: real, past: real, window: real)
    ensures Unit(Staleness(now, past, window))
  {
    if window > 0.0 && now > past {
      QuotientBounds((now - past).Floor as real, window);
    }
  }

  lemma ConfidenceInUnit(cfg: Config, learned: Learned, order: Order)
    ensures Unit(Confidence(cfg, learned, order))
  {
    var n := (if order.symbol in learned.symbols then learned.symbols[order.symbol].samples else 0)
             + (if order.exchange in learned.exchanges then learned.exchanges[order.exchange].samples else 0);
    SampleFactorInUnit(n, cfg.minSamples);
    if order.symbol in learned.symbols {
      StalenessInUnit(order.at, learned.symbols[order.symbol].lastUpdated, cfg.historyWindow);
    }
  }

  // ---------------------------------------------------------------- the estimate

  function AvailableDepth(order: Order, book: Book): real {
    if order.isBuy then Depth(book.asks, true, if order.limit.Some? then order.limit.value else F64_MAX)
    else Depth(book.bids, false, if order.limit.Some? then order.limit.value else 0.0)
  }

  function Score(cfg: Config, sqrt: real -> real, learned: Learned, order: Order, size: real, book: Book): Factors
    requires Sane(cfg) && IsSqrt(sqrt)
  {
    Factors(
      LiquidityScore(size, AvailableDepth(order, book)),
      SpreadScore(cfg, SpreadBps(book)),
      SizeScore(cfg, sqrt, learned, order.symbol, size),
      HistoricalScore(learned, order.symbol, order.exchange),
      VolatilityScore(cfg, learned.volatility),
      ImbalanceScore(order.isBuy, Imbalance(book, 5)))
  }

  function EstimateFill(
      cfg: Config, sqrt: real -> real, learned: Learned, order: Order, size: real, book: Book): Estimate
    requires Sane(cfg) && IsSqrt(sqrt)
  {
    var depth, spread := AvailableDepth(order, book), SpreadBps(book);
    var factors := Score(cfg, sqrt, learned, order, size, book);
    var regime := Classify(cfg, spread, learned.volatility, depth, size);
    var full := FullProbability(Base(factors), regime);
    var partial := PartialProbability(full, regime);
    Estimate(full, partial, full + partial * 0.5,
             FillTime(learned, order.symbol, size, depth, regime),
             Slippage(order.isBuy, size, depth, spread, book), Confidence(cfg, learned, order), regime, factors)
  }

  // ---------------------------------------------------------------- scores stay in the unit interval

  predicate Unit(x: real) { 0.0 <= x <= 1.0 }

  lemma LiquidityInUnit(size: real, depth: real)
    ensures Unit(LiquidityScore(size, depth))
  {
    if depth > 0.0 && size / depth > 1.0 {
      QuotientAnti(0.4, 1.0, size / depth);
    }
  }

  lemma SpreadInUnit(cfg: Config, spread: real)
    requires Sane(cfg)
    ensures Unit(SpreadScore(cfg, spread))
  {
    if cfg.tightSpread < spread <= cfg.wideSpread {
      QuotientBounds(spread - cfg.tightSpread, cfg.wideSpread - cfg.tightSpread);
    } else if spread > cfg.wideSpread {
      QuotientBounds(cfg.wideSpread, spread);
    }
  }

  lemma SizeInUnit(cfg: Config, sqrt: real -> real, learned: Learned, symbol: string, size: real)
    requires IsSqrt(sqrt)
    ensures Unit(SizeScore(cfg, sqrt, learned, symbol, size))
  {
    if symbol in learned.symbols {
      var ratio := size / TypicalSize(learned.symbols[symbol].observations);
      SizeAtInUnit(sqrt, ratio);
    }
  }

  lemma SizeAtInUnit(sqrt: real -> real, ratio: real)
    requires IsSqrt(sqrt)
    ensures Unit(SizeAt(sqrt, ratio))
    ensures ratio > 5.0 ==> SizeAt(sqrt, ratio) <= 0.6
  {
    if ratio > 5.0 {
      SqrtAboveOne(sqrt, ratio / 5.0);
      QuotientAnti(0.6, 1.0, sqrt(ratio / 5.0));
    }
  }

  lemma VolatilityInUnit(cfg: Config, volatility: real)
    ensures Unit(VolatilityScore(cfg, volatility))
  {
    var half := cfg.highVolatility / 2.0;
    if half < volatility <= cfg.highVolatility {
      QuotientBounds(volatility - half, half);
    }
  }

  /** Learned rates that make sense: fill rates in [0, 1] and times not negative. */
  ghost predicate RatesInRange(learned: Learned) {
    && (forall s <- learned.symbols ::
          Unit(learned.symbols[s].avgFillRate) && 0.0 <= learned.symbols[s].avgFillTimeMs)
    && (forall e <- learned.exchanges ::
          Unit(learned.exchanges[e].fillRate) && Unit(learned.exchanges[e].rejectRate))
  }

  ghost predicate FactorsInUnit(f: Factors) {
    Unit(f.liquidity) && Unit(f.spread) && Unit(f.size) && Unit(f.historical) && Unit(f.volatility) && Unit(f.imbalance)
  }

  lemma ScoresInUnit(cfg: Config, sqrt: real -> real, learned: Learned, order: Order, size: real, book: Book)
    requires Sane(cfg) && IsSqrt(sqrt) && RatesInRange(learned) && NonNegative(book.bids) && NonNegative(book.asks)
    ensures FactorsInUnit(Score(cfg, sqrt, learned, order, size, book))
  {
    LiquidityInUnit(size, AvailableDepth(order, book));
    SpreadInUnit(cfg, SpreadBps(book));
    SizeInUnit(cfg, sqrt, learned, order.symbol, size);
    VolatilityInUnit(cfg, learned.volatility);
    ImbalanceBounds(book, 5);
  }

  /** What any estimate's probabilities satisfy. */
  ghost predicate Sound(e: Estimate) {
    0.0 <= e.full <= 0.99 && 0.0 <= e.partial && e.full + e.partial <= 1.0 && e.full <= e.expectedPct <= 1.0
    && Unit(e.confidence)
  }

  lemma BaseInUnit(f: Factors)
    requires FactorsInUnit(f)
    ensures Unit(Base(f))
  {
  }

  lemma ProbabilitiesSound(base: real, regime: Regime)
    requires Unit(base)
    ensures var full := FullProbability(base, regime); var partial := PartialProbability(full, regime);
            0.0 <= full <= 0.99 && 0.0 <= partial && full + partial <= 1.0
  {
  }

  /** Both probabilities are non-negative and together at most 1, for every order, book and learned state. */
  lemma EstimateSound(cfg: Config, sqrt: real -> real, learned: Learned, order: Order, size: real, book: Book)
    requires Sane(cfg) && IsSqrt(sqrt) && RatesInRange(learned) && NonNegative(book.bids) && NonNegative(book.asks)
    ensures Sound(EstimateFill(cfg, sqrt, learned, order, size, book))
  {
    ScoresInUnit(cfg, sqrt, learned, order, size, book);
    var e := EstimateFill(cfg, sqrt, learned, order, size, book);
    BaseInUnit(e.factors);
    ConfidenceInUnit(cfg, learned, order);
    ProbabilitiesSound(Base(e.factors), e.regime);
  }

  // ---------------------------------------------------------------- the shape of the scores

  /** `x` and `y` lie between `a` and `b`. */
  predicate Between(a: real, x: real, y: real, b: real) { a <= x <= b && a <= y <= b }

  /** Liquidity: full marks up to a tenth of the depth, 0.8 at half of it and 0.4 at all of it. */
  lemma LiquidityAnchors(r: real)
    ensures r <= 0.1 ==> LiquidityAt(r) == 1.0
    ensures LiquidityAt(0.5) == 0.8 && LiquidityAt(1.0) == 0.4
  {
  }

  /** Between those the line is straight: half way is half way. */
  lemma LiquidityStraight(x: real, y: real)
    ensures Between(0.1, x, y, 0.5) || Between(0.5, x, y, 1.0) ==>
              LiquidityAt((x + y) / 2.0) == (LiquidityAt(x) + LiquidityAt(y)) / 2.0
  {
  }

  /** From the whole depth on it is inversely proportional to the size. */
  lemma LiquidityTail(r: real)
    requires 1.0 <= r
    ensures LiquidityAt(r) * r == 0.4
  {
    if r > 1.0 { QuotientTimes(0.4, r); }
  }

  /** Size: full marks up to the typical size, straight down to 0.6 at five times that. */
  lemma SizeAnchors(sqrt: real -> real, x: real, y: real)
    requires IsSqrt(sqrt)
    ensures x <= 1.0 ==> SizeAt(sqrt, x) == 1.0
    ensures SizeAt(sqrt, 5.0) == 0.6
    ensures Between(1.0, x, y, 5.0) ==> SizeAt(sqrt, (x + y) / 2.0) == (SizeAt(sqrt, x) + SizeAt(sqrt, y)) / 2.0
  {
  }

  /** From there it falls as the root of the size grows. */
  lemma SizeTail(sqrt: real -> real, r: real)
    requires IsSqrt(sqrt) && 5.0 < r
    ensures SizeAt(sqrt, r) * sqrt(r / 5.0) == 0.6
  {
    SqrtAboveOne(sqrt, r / 5.0);
    QuotientTimes(0.6, sqrt(r / 5.0));
  }

  /** Spread: full marks when tight, straight down to 0.6 when wide, then inversely proportional. */
  lemma SpreadShape(cfg: Config, spread: real)
    requires Sane(cfg) && cfg.tightSpread < cfg.wideSpread
    ensures spread <= cfg.tightSpread ==> SpreadScore(cfg, spread) == 1.0
    ensures SpreadScore(cfg, cfg.wideSpread) == 0.6
    ensures cfg.tightSpread < spread <= cfg.wideSpread ==>
              (1.0 - SpreadScore(cfg, spread)) * (cfg.wideSpread - cfg.tightSpread) == 0.4 * (spread - cfg.tightSpread)
    ensures spread > cfg.wideSpread ==> SpreadScore(cfg, spread) * spread == 0.6 * cfg.wideSpread
  {
    var range := cfg.wideSpread - cfg.tightSpread;
    assert range / range == 1.0;
    if cfg.tightSpread < spread <= cfg.wideSpread {
      ShareOf(spread - cfg.tightSpread, range, 0.4);
    } else if spread > cfg.wideSpread {
      QuotientBounds(cfg.wideSpread, spread);
      ShareOf(cfg.wideSpread, spread, 0.6);
    }
  }

  lemma ShareOf(x: real, d: real, c: real)
    requires d > 0.0
    ensures (x / d * c) * d == c * x && (c * (x / d)) * d == c * x
  {
    var q := x / d;
    QuotientTimes(x, d);
    assert (q * c) * d == c * (q * d);
  }

  /** Volatility: full marks up to half the threshold, straight down to 0.7 there, then five times as steep to 0.3. */
  lemma VolatilityShape(cfg: Config, v: real)
    requires cfg.highVolatility > 0.0
    ensures var half := cfg.highVolatility / 2.0;
            && (v <= half ==> VolatilityScore(cfg, v) == 1.0)
            && (half < v <= cfg.highVolatility ==> (1.0 - VolatilityScore(cfg, v)) * half == 0.3 * (v - half))
            && (v > cfg.highVolatility ==> VolatilityScore(cfg, v) == Max(0.3, 0.7 - 5.0 * (v - cfg.highVolatility)))
  {
    var half := cfg.highVolatility / 2.0;
    if half < v <= cfg.highVolatility { ShareOf(v - half, half, 0.3); }
  }

  /** The side with more waiting against it is favourable: asks for a buyer, bids for a seller. */
  lemma ImbalanceFavours(isBuy: bool, book: Book)
    requires NonNegative(book.bids) && NonNegative(book.asks)
    ensures var bid, ask := TopVolume(book.bids, 5), TopVolume(book.asks, 5);
            var score := ImbalanceScore(isBuy, Imbalance(book, 5));
            var favour, against := if isBuy then ask else bid, if isBuy then bid else ask;
            && (score > 0.75 <==> favour > against) && (score < 0.75 <==> favour < against)
            && (score == 1.0 <==> favour > 0.0 && against == 0.0) && (score == 0.5 <==> against > 0.0 && favour == 0.0)
  {
    ImbalanceSign(book, 5);
  }

  /** History: seven tenths of the way from the exchange's rate to the symbol's, unknown ones counting as 0.85. */
  lemma HistoricalMeaning(learned: Learned, symbol: string, exchange: string)
    ensures var s := if symbol in learned.symbols then learned.symbols[symbol].avgFillRate else 0.85;
            var e := if exchange in learned.exchanges then learned.exchanges[exchange].fillRate else 0.85;
            HistoricalScore(learned, symbol, exchange) - e == 0.7 * (s - e)
  {
  }

  /** A share capped at 1 is 0 exactly for nothing and 1 exactly from the whole on. */
  lemma CappedShare(x: real, d: real)
    requires 0.0 < d && 0.0 <= x
    ensures (Min(x / d, 1.0) == 0.0 <==> x == 0.0) && (Min(x / d, 1.0) == 1.0 <==> x >= d)
  {
    QuotientTimes(x, d);
    ShareMarks(x / d, x, d);
  }

  lemma ShareMarks(q: real, x: real, d: real)
    requires 0.0 < d && q * d == x
    ensures (q >= 1.0 <==> x >= d) && (q == 0.0 <==> x == 0.0)
  {
    ScaleStrict(q, 1.0, d);
    ScaleMonoIf(1.0, q, d);
    ScaleStrict(0.0, q, d);
    ScaleStrict(q, 0.0, d);
  }

  /** Full confidence needs twice the minimum of samples, and none at all count nothing. */
  lemma SampleAnchors(samples: nat, minSamples: nat)
    requires 0 < minSamples
    ensures SampleFactor(samples, minSamples) == 1.0 <==> samples >= 2 * minSamples
    ensures SampleFactor(samples, minSamples) == 0.0 <==> samples == 0
  {
    CappedShare(samples as real, (minSamples * 2) as real);
  }

  /** Data of this very second is fresh, and data as old as the window is stale. */
  lemma StalenessAnchors(now: real, past: real, window: real)
    requires 0.0 < window
    ensures Staleness(now, past, window) == 0.0 <==> now - past < 1.0
    ensures Staleness(now, past, window) == 1.0 <==> now > past && (now - past).Floor as real >= window
  {
    var age := if now <= past then 0.0 else (now - past).Floor as real;
    CappedShare(age, window);
    assert age == 0.0 <==> now - past < 1.0;
  }

  /** Confidence is seven tenths of the way from freshness to the share of samples; unknown symbols are half fresh. */
  lemma ConfidenceMeaning(cfg: Config, learned: Learned, order: Order)
    ensures var st, ex := SymbolOrDefault(learned, order.symbol), ExchangeOrDefault(learned, order.exchange);
            var share := SampleFactor(st.samples + ex.samples, cfg.minSamples);
            var recent := if order.symbol in learned.symbols
                         then 1.0 - Staleness(order.at, st.lastUpdated, cfg.historyWindow) else 0.5;
            Confidence(cfg, learned, order) - recent == 0.7 * (share - recent)
  {
  }

  /** A symbol not seen yet is estimated as the statistics it starts from say: 85 percent filled, in 100 ms. */
  lemma DefaultsAgree(learned: Learned, symbol: string, exchange: string)
    requires symbol !in learned.symbols
    ensures var st := SymbolOrDefault(learned, symbol);
            && st.avgFillRate == 0.85 && st.avgFillTimeMs == 100.0 && st.avgSlippageBps == 5.0
            && BaseTime(learned, symbol) == st.avgFillTimeMs
            && HistoricalScore(learned, symbol, exchange)
               == HistoricalScore(learned.(symbols := learned.symbols[symbol := st]), symbol, exchange)
  {
  }

  /** A new model starts at the highest volatility that still has full marks under a threshold of two percent. */
  lemma UntaughtVolatility(cfg: Config, v: real)
    requires cfg.highVolatility == 0.02
    ensures VolatilityScore(cfg, v) == 1.0 <==> v <= Untaught.volatility
  {
    if 0.01 < v <= 0.02 { ShareOf(v - 0.01, 0.01, 0.3); }
  }

  /** The conversion to 64 bits drops the fraction and saturates at both ends. */
  lemma ToU64Meaning(x: real)
    ensures x <= 0.0 ==> ToU64(x) == 0
    ensures 0.0 <= x < (U64_MAX + 1) as real ==> ToU64(x) as real <= x < ToU64(x) as real + 1.0
    ensures (U64_MAX + 1) as real <= x ==> ToU64(x) == U64_MAX
  {
  }

  /** Regimes by the time a fill takes, and size by its share of the depth, counted up to twice. */
  lemma TimesRanked(size: real, depth: real)
    ensures 0.0 < TimeFactor(Liquid) < TimeFactor(Normal) == 1.0 < TimeFactor(Volatile) < TimeFactor(Illiquid)
            < TimeFactor(Stressed)
    ensures depth > 0.0 && size <= 2.0 * depth ==> (SizeFactor(size, depth) - 1.0) * depth == size
    ensures depth > 0.0 && size > 2.0 * depth ==> SizeFactor(size, depth) == 3.0
  {
    if depth > 0.0 {
      QuotientTimes(size, depth);
      ScaleStrict(2.0, size / depth, depth);
      ScaleMonoIf(size / depth, 2.0, depth);
    }
  }

  /** In a normal market the chance is the base itself, capped, and a partial fill takes three fifths of the rest. */
  lemma NormalAnchors(base: real, full: real)
    requires base <= 0.99 && full <= 1.0
    ensures FullProbability(base, Normal) == base && FullProbability(1.0, Normal) == 0.99
    ensures PartialProbability(full, Normal) == 0.6 * (1.0 - full)
  {
  }

  /** The expected fill is half way between no partial fill and every partial fill being a full one. */
  lemma ExpectedIsMidway(cfg: Config, sqrt: real -> real, learned: Learned, order: Order, size: real, book: Book)
    requires Sane(cfg) && IsSqrt(sqrt)
    ensures var e := EstimateFill(cfg, sqrt, learned, order, size, book);
            2.0 * e.expectedPct == e.full + (e.full + e.partial)
  {
  }

  /** Against the typical size once there are enough observations; 0.8 until then. */
  lemma SizeBasis(cfg: Config, sqrt: real -> real, learned: Learned, symbol: string, size: real)
    requires IsSqrt(sqrt)
    ensures var obs := SymbolOrDefault(learned, symbol).observations;
            symbol !in learned.symbols || |obs| < cfg.minSamples ==> SizeScore(cfg, sqrt, learned, symbol, size) == 0.8
    ensures var obs := SymbolOrDefault(learned, symbol).observations;
            symbol in learned.symbols && |obs| >= cfg.minSamples && size <= TypicalSize(obs) ==>
              SizeScore(cfg, sqrt, learned, symbol, size) == 1.0
  {
    if symbol in learned.symbols {
      var typical := TypicalSize(learned.symbols[symbol].observations);
      QuotientTimes(size, typical);
      ScaleStrict(1.0, size / typical, typical);
    }
  }

  /** The typical size is the average, but at least 0.001. */
  lemma TypicalIsAverage(obs: seq<Observation>)
    ensures obs == [] ==> TypicalSize(obs) == 0.001
    ensures obs != [] ==>
              if TotalSize(obs) >= 0.001 * |obs| as real then TypicalSize(obs) * |obs| as real == TotalSize(obs)
              else TypicalSize(obs) == 0.001
  {
    if obs != [] {
      var n := |obs| as real;
      QuotientTimes(TotalSize(obs), n);
      ScaleStrict(TotalSize(obs) / n, 0.001, n);
      ScaleMonoIf(TotalSize(obs) / n, 0.001, n);
      ScaleMonoIf(0.001, TotalSize(obs) / n, n);
    }
  }

  lemma {:induction false} TotalAdds(a: seq<Observation>, b: seq<Observation>)
    ensures TotalSize(a + b) == TotalSize(a) + TotalSize(b)
    ensures |a| == 1 ==> TotalSize(a) == a[0].orderSize
  {
    if a == [] {
      assert a + b == b;
    } else {
      assert (a + b)[1..] == a[1..] + b;
      TotalAdds(a[1..], b);
    }
  }

  /** The base is linear in the scores, and these are what each contributes at its best. */
  lemma BaseWeights(f: Factors, g: Factors)
    ensures Base(Factors(f.liquidity + g.liquidity, f.spread + g.spread, f.size + g.size, f.historical + g.historical,
                         f.volatility + g.volatility, f.imbalance + g.imbalance)) == Base(f) + Base(g)
    ensures Base(Factors(1.0, 0.0, 0.0, 0.0, 0.0, 0.0)) == 0.35
    ensures Base(Factors(0.0, 1.0, 0.0, 0.0, 0.0, 0.0)) == Base(Factors(0.0, 0.0, 1.0, 0.0, 0.0, 0.0)) == 0.15
    ensures Base(Factors(0.0, 0.0, 0.0, 1.0, 0.0, 0.0)) == 0.20
    ensures Base(Factors(0.0, 0.0, 0.0, 0.0, 1.0, 0.0)) == 0.10
    ensures Base(Factors(0.0, 0.0, 0.0, 0.0, 0.0, 1.0)) == 0.05
  {
  }

  /** What a base of one half and a wait of 100 ms become in each regime. */
  lemma RegimeAnchors()
    ensures FullProbability(0.5, Liquid) == 0.55 && FullProbability(0.5, Normal) == 0.5
            && FullProbability(0.5, Illiquid) == 0.4 && FullProbability(0.5, Volatile) == 0.35
            && FullProbability(0.5, Stressed) == 0.2
    ensures PartialProbability(0.0, Liquid) == 0.57 && PartialProbability(0.0, Normal) == 0.6
            && PartialProbability(0.0, Illiquid) == 0.72 && PartialProbability(0.0, Volatile) == 0.78
            && PartialProbability(0.0, Stressed) == 0.9
    ensures ScaledTime(100.0, 1.0, TimeFactor(Liquid)) == 70 && ScaledTime(100.0, 1.0, TimeFactor(Normal)) == 100
            && ScaledTime(100.0, 1.0, TimeFactor(Illiquid)) == 150 && ScaledTime(100.0, 1.0, TimeFactor(Volatile)) == 120
            && ScaledTime(100.0, 1.0, TimeFactor(Stressed)) == 300
  {
  }

  /** Unless stressed: volatile exactly over the threshold, else illiquid over the wide spread, else liquid under the tight one. */
  lemma RegimeIff(cfg: Config, spread: real, volatility: real, depth: real, size: real)
    ensures var regime := Classify(cfg, spread, volatility, depth, size);
            regime != Stressed ==>
              && (regime == Volatile <==> volatility > cfg.highVolatility)
              && (regime == Illiquid <==> volatility <= cfg.highVolatility && spread > cfg.wideSpread)
              && (regime == Liquid <==>
                    volatility <= cfg.highVolatility && spread <= cfg.wideSpread && spread < cfg.tightSpread)
  {
  }

  /** With no limit an order sees its whole side of the book. */
  lemma NoLimitSeesAll(order: Order, book: Book)
    requires order.limit.None?
    ensures order.isBuy && (forall i :: 0 <= i < |book.asks| ==> book.asks[i].price <= F64_MAX) ==>
              AvailableDepth(order, book) == Volume(book.asks)
    ensures !order.isBuy && (forall i :: 0 <= i < |book.bids| ==> 0.0 <= book.bids[i].price) ==>
              AvailableDepth(order, book) == Volume(book.bids)
  {
    if order.isBuy { DepthCounts(book.asks, true, F64_MAX); } else { DepthCounts(book.bids, false, 0.0); }
  }

  /** The base is an average: equal scores give themselves. */
  lemma BaseAverages(x: real)
    ensures Base(Factors(x, x, x, x, x, x)) == x
  {
  }

  /** Regimes from best to worst: each step lowers the chance of a full fill and gives more of the rest to a partial one. */
  lemma RegimesRanked(base: real)
    requires 0.0 < base < 0.9
    ensures FullProbability(base, Liquid) > FullProbability(base, Normal) > FullProbability(base, Illiquid)
            > FullProbability(base, Volatile) > FullProbability(base, Stressed)
    ensures PartialProbability(0.0, Liquid) < PartialProbability(0.0, Normal) < PartialProbability(0.0, Illiquid)
            < PartialProbability(0.0, Volatile) < PartialProbability(0.0, Stressed) < 1.0
  {
  }

  /** Stressed exactly when the spread is over 50 basis points or the order is over twice the depth. */
  lemma StressedIff(cfg: Config, spread: real, volatility: real, depth: real, size: real)
    ensures Classify(cfg, spread, volatility, depth, size) == Stressed <==>
              spread > 50.0 || (depth > 0.0 && size > 2.0 * depth)
  {
    if depth > 0.0 {
      QuotientTimes(size, depth);
      ScaleStrict(2.0, size / depth, depth);
      ScaleMonoIf(size / depth, 2.0, depth);
    }
  }

  lemma ScaleMonoIf(x: real, y: real, c: real)
    requires 0.0 < c
    ensures x <= y ==> x * c <= y * c
  {
    if x <= y { ScaleMono(x, y, c); }
  }

  /** Slippage in basis points takes the reference to the average paid, or for a sale down to the average earned. */
  lemma PriceSlipMeaning(isBuy: bool, average: real, reference: real)
    requires reference > 0.0
    ensures var slip := PriceSlip(isBuy, average, reference) / 10000.0;
            if isBuy then Max(average, reference) == reference * (1.0 + slip)
            else Min(average, reference) == reference * (1.0 - slip)
  {
    var gap := if isBuy then average - reference else reference - average;
    var q := gap / reference;
    QuotientTimes(gap, reference);
    ScaleStrict(0.0, q, reference);
    ScaleStrict(q, 0.0, reference);
    assert (q * 10000.0) / 10000.0 == q;
    assert reference * (1.0 + q) == reference + q * reference;
    assert reference * (1.0 - q) == reference - q * reference;
  }

  /** Ten basis points for the whole depth, and quadratic: twice the size, four times the impact. */
  lemma SizeSlipShape(size: real, depth: real)
    requires depth > 0.0
    ensures SizeSlip(depth, depth) == 10.0
    ensures SizeSlip(2.0 * size, depth) == 4.0 * SizeSlip(size, depth)
  {
    var q := size / depth;
    QuotientTimes(size, depth);
    assert depth / depth == 1.0;
    assert (2.0 * q) * depth == 2.0 * size;
    assert (2.0 * size) / depth == 2.0 * q;
    assert (2.0 * q) * (2.0 * q) * 10.0 == 4.0 * (q * q * 10.0);
  }

  /** The book's slippage takes the reference to the average price of the walk, where there is one to speak of. */
  lemma BookSlipMeaning(isBuy: bool, size: real, book: Book)
    ensures var reference := if isBuy then book.bestAsk else book.bestBid;
            var got := Walk(if isBuy then book.asks else book.bids, size);
            var slip := BookSlip(isBuy, size, book) / 10000.0;
            if size > 0.0 && reference > 0.0 && got.filled > 0.0 then
              if isBuy then Max(Average(got), reference) == reference * (1.0 + slip)
              else Min(Average(got), reference) == reference * (1.0 - slip)
            else slip == 0.0
  {
    var reference := if isBuy then book.bestAsk else book.bestBid;
    var got := Walk(if isBuy then book.asks else book.bids, size);
    if size > 0.0 && reference > 0.0 && got.filled > 0.0 { PriceSlipMeaning(isBuy, Average(got), reference); }
  }

  /** Without a bid the market is stressed, whatever else holds. */
  lemma NoBidIsStressed(cfg: Config, book: Book, volatility: real, depth: real, size: real)
    requires book.bestBid <= 0.0
    ensures Classify(cfg, SpreadBps(book), volatility, depth, size) == Stressed
  {
  }

  /** The worst of the three estimates. */
  lemma SlippageIsWorst(isBuy: bool, size: real, depth: real, spread: real, book: Book)
    ensures var slip := Slippage(isBuy, size, depth, spread, book);
            && spread / 2.0 <= slip && SizeSlip(size, depth) <= slip && BookSlip(isBuy, size, book) <= slip
            && (slip == spread / 2.0 || slip == SizeSlip(size, depth) || slip == BookSlip(isBuy, size, book))
  {
  }

  // ---------------------------------------------------------------- larger orders fill no better

  lemma LiquidityFalls(x: real, y: real, depth: real)
    requires x <= y
    ensures LiquidityScore(y, depth) <= LiquidityScore(x, depth)
  {
    if depth > 0.0 {
      QuotientMono(x, y, depth);
      LiquidityAtFalls(x / depth, y / depth);
    }
  }

  lemma LiquidityAtFalls(r: real, s: real)
    requires r <= s
    ensures LiquidityAt(s) <= LiquidityAt(r)
  {
    if s > 1.0 {
      QuotientAnti(0.4, if r <= 1.0 then 1.0 else r, s);
    }
  }

  lemma SizeAtFalls(sqrt: real -> real, r: real, s: real)
    requires IsSqrt(sqrt) && r <= s
    ensures SizeAt(sqrt, s) <= SizeAt(sqrt, r)
  {
    if s > 5.0 {
      SizeAtInUnit(sqrt, s);
      if r > 5.0 {
        SqrtAboveOne(sqrt, r / 5.0);
        SqrtMono(sqrt, r / 5.0, s / 5.0);
        QuotientAnti(0.6, sqrt(r / 5.0), sqrt(s / 5.0));
      }
    }
  }

  lemma SizeFalls(cfg: Config, sqrt: real -> real, learned: Learned, symbol: string, x: real, y: real)
    requires IsSqrt(sqrt) && x <= y
    ensures SizeScore(cfg, sqrt, learned, symbol, y) <= SizeScore(cfg, sqrt, learned, symbol, x)
  {
    if symbol in learned.symbols {
      var typical := TypicalSize(learned.symbols[symbol].observations);
      QuotientMono(x, y, typical);
      SizeAtFalls(sqrt, x / typical, y / typical);
    }
  }

  /** More size leaves the regime alone or turns it into Stressed. */
  lemma RegimeWorsens(cfg: Config, spread: real, volatility: real, depth: real, x: real, y: real)
    requires x <= y
    ensures var s := Classify(cfg, spread, volatility, depth, y);
            s == Classify(cfg, spread, volatility, depth, x) || s == Stressed
  {
    if depth > 0.0 {
      QuotientMono(x, y, depth);
    }
  }

  lemma FullFalls(high: real, low: real, r: Regime, s: Regime)
    requires 0.0 <= low <= high && (s == r || s == Stressed)
    ensures FullProbability(low, s) <= FullProbability(high, r)
  {
    ProductMono(low, high, FullMultiplier(s), FullMultiplier(r));
  }

  /** A larger order never gets a higher full-fill probability, across regime changes too. */
  lemma LargerOrderFillsNoBetter(
      cfg: Config, sqrt: real -> real, learned: Learned, order: Order, x: real, y: real, book: Book)
    requires Sane(cfg) && IsSqrt(sqrt) && RatesInRange(learned) && NonNegative(book.bids) && NonNegative(book.asks)
    requires x <= y
    ensures EstimateFill(cfg, sqrt, learned, order, y, book).full <= EstimateFill(cfg, sqrt, learned, order, x, book).full
  {
    var depth := AvailableDepth(order, book);
    var f, g := Score(cfg, sqrt, learned, order, x, book), Score(cfg, sqrt, learned, order, y, book);
    ScoresInUnit(cfg, sqrt, learned, order, x, book);
    ScoresInUnit(cfg, sqrt, learned, order, y, book);
    LiquidityFalls(x, y, depth);
    SizeFalls(cfg, sqrt, learned, order.symbol, x, y);
    RegimeWorsens(cfg, SpreadBps(book), learned.volatility, depth, x, y);
    BaseInUnit(g);
    FullFalls(Base(f), Base(g), Classify(cfg, SpreadBps(book), learned.volatility, depth, x),
              Classify(cfg, SpreadBps(book), learned.volatility, depth, y));
  }

  // ---------------------------------------------------------------- larger orders slip no less

  lemma SizeSlipRises(x: real, y: real, depth: real)
    requires 0.0 <= x <= y
    ensures SizeSlip(x, depth) <= SizeSlip(y, depth)
  {
    if depth > 0.0 {
      QuotientBounds(x, depth);
      QuotientMono(x, y, depth);
      SquareStrict(x / depth, y / depth);
    }
  }

  lemma PriceSlipRises(isBuy: bool, a: real, b: real, reference: real)
    requires reference > 0.0 && (if isBuy then a <= b else b <= a)
    ensures PriceSlip(isBuy, a, reference) <= PriceSlip(isBuy, b, reference)
  {
    if isBuy {
      QuotientMono(a - reference, b - reference, reference);
    } else {
      QuotientMono(reference - a, reference - b, reference);
    }
  }

  lemma AveragePriceWorsens(isBuy: bool, x: real, y: real, levels: seq<Level>)
    requires NonNegative(levels) && (if isBuy then Ascending(levels) else Descending(levels))
    requires 0.0 <= x <= y && Walk(levels, x).filled > 0.0
    ensures Walk(levels, y).filled > 0.0
    ensures var a, b := Average(Walk(levels, x)), Average(Walk(levels, y)); if isBuy then a <= b else b <= a
  {
    assert Walk(levels, y).filled > 0.0 by {
      WalkFills(levels, x);
      WalkFills(levels, y);
    }
    if isBuy {
      AverageCostRises(levels, x, y);
      AveragesOrdered(Walk(levels, x), Walk(levels, y));
    } else {
      AverageProceedsFall(levels, x, y);
      AveragesOrdered(Walk(levels, y), Walk(levels, x));
    }
  }

  lemma BookSlipRises(isBuy: bool, x: real, y: real, book: Book)
    requires WellFormed(book) && 0.0 <= x <= y
    ensures 0.0 <= BookSlip(isBuy, x, book) <= BookSlip(isBuy, y, book)
  {
    var levels := if isBuy then book.asks else book.bids;
    var reference := if isBuy then book.bestAsk else book.bestBid;
    var a, b := Walk(levels, x), Walk(levels, y);
    if x > 0.0 && reference > 0.0 && a.filled > 0.0 {
      AveragePriceWorsens(isBuy, x, y, levels);
      PriceSlipRises(isBuy, Average(a), Average(b), reference);
    }
  }

  lemma FillTimeRises(learned: Learned, symbol: string, x: real, y: real, depth: real, r: Regime, s: Regime)
    requires RatesInRange(learned) && 0.0 <= x <= y && (s == r || s == Stressed)
    ensures FillTime(learned, symbol, x, depth, r) <= FillTime(learned, symbol, y, depth, s)
  {
    SizeFactorRises(x, y, depth);
    ScaledTimeRises(BaseTime(learned, symbol), SizeFactor(x, depth), SizeFactor(y, depth), TimeFactor(r), TimeFactor(s));
  }

  lemma ScaledTimeRises(base: real, fx: real, fy: real, tx: real, ty: real)
    requires 0.0 <= base && 0.0 <= fx <= fy && 0.0 <= tx <= ty
    ensures ScaledTime(base, fx, tx) <= ScaledTime(base, fy, ty)
  {
    ProductMono(base, base, fx, fy);
    ProductMono(base * fx, base * fy, tx, ty);
    ToU64Mono(base * fx * tx, base * fy * ty);
  }

  lemma SizeFactorRises(x: real, y: real, depth: real)
    requires 0.0 <= x <= y
    ensures 0.0 <= SizeFactor(x, depth) <= SizeFactor(y, depth)
  {
    if depth > 0.0 {
      QuotientMono(x, y, depth);
      QuotientBounds(x, depth);
    }
  }

  lemma ToU64Mono(x: real, y: real)
    requires x <= y
    ensures ToU64(x) <= ToU64(y)
  {
  }

  /** A larger order on a sorted book never gets a lower expected slippage, nor a shorter time to fill. */
  lemma LargerOrderSlipsNoLess(
      cfg: Config, sqrt: real -> real, learned: Learned, order: Order, x: real, y: real, book: Book)
    requires Sane(cfg) && IsSqrt(sqrt) && RatesInRange(learned) && WellFormed(book) && 0.0 <= x <= y
    ensures var a, b := EstimateFill(cfg, sqrt, learned, order, x, book), EstimateFill(cfg, sqrt, learned, order, y, book);
            a.slippageBps <= b.slippageBps && a.fillTimeMs <= b.fillTimeMs
  {
    var depth, spread := AvailableDepth(order, book), SpreadBps(book);
    SizeSlipRises(x, y, depth);
    BookSlipRises(order.isBuy, x, y, book);
    RegimeWorsens(cfg, spread, learned.volatility, depth, x, y);
    FillTimeRises(learned, order.symbol, x, y, depth,
                  Classify(cfg, spread, learned.volatility, depth, x),
                  Classify(cfg, spread, learned.volatility, depth, y));
  }

  // ---------------------------------------------------------------- learning

  /** The observations newer than the cutoff, in order. */
  function Recent(obs: seq<Observation>, cutoff: real): (r: seq<Observation>)
    ensures |r| <= |obs|
    ensures forall i :: 0 <= i < |r| ==> r[i] in obs && r[i].timestamp > cutoff
  {
    if obs == [] then []
    else (if obs[0].timestamp > cutoff then [obs[0]] else []) + Recent(obs[1..], cutoff)
  }

  function Newest(obs: seq<Observation>, n: nat): seq<Observation> {
    if |obs| > n then obs[|obs| - n..] else obs
  }

  /** Exponential decay: the old average and the new value, weighted. */
  function Decayed(average: real, value: real, decay: real): real {
    average * decay + value * (1.0 - decay)
  }

  /** An update leaves the share `decay` of the distance to the new value. */
  lemma DecayedMeaning(average: real, value: real, decay: real)
    ensures Decayed(average, value, decay) - value == decay * (average - value)
    ensures decay == 1.0 ==> Decayed(average, value, decay) == average
    ensures decay == 0.0 ==> Decayed(average, value, decay) == value
  {
  }

  function SymbolAfter(cfg: Config, st: SymbolStats, o: Observation): SymbolStats {
    SymbolStats(
      Newest(Recent(st.observations + [o], o.timestamp - cfg.historyWindow), cfg.maxObservations),
      Decayed(st.avgFillRate, o.filledPct, cfg.decay),
      Decayed(st.avgFillTimeMs, o.fillTimeMs as real, cfg.decay),
      Decayed(st.avgSlippageBps, o.slippageBps, cfg.decay),
      st.samples + 1,
      o.timestamp)
  }

  function SymbolOrDefault(learned: Learned, symbol: string): SymbolStats {
    if symbol in learned.symbols then learned.symbols[symbol] else SymbolStats([], 0.85, 100.0, 5.0, 0, 0.0)
  }

  function ExchangeOrDefault(learned: Learned, exchange: string): ExchangeStats {
    if exchange in learned.exchanges then learned.exchanges[exchange] else ExchangeStats(0.0, 0.0, 0)
  }

  datatype Event =
    | Filled(symbol: string, exchange: string, observation: Observation)
    | Rejected(exchange: string)
    | VolatilitySet(value: real)

  /** The learned state after one event. */
  function Learn(cfg: Config, learned: Learned, e: Event): Learned {
    match e
    case VolatilitySet(value) => learned.(volatility := value)
    case Filled(symbol, exchange, o) =>
      if !cfg.adaptive then learned
      else
        var st, ex := SymbolOrDefault(learned, symbol), ExchangeOrDefault(learned, exchange);
        var hit := if o.filledPct > 0.0 then 1.0 else 0.0;
        learned.(symbols := learned.symbols[symbol := SymbolAfter(cfg, st, o)],
                 exchanges := learned.exchanges[exchange :=
                   ex.(fillRate := Decayed(ex.fillRate, hit, cfg.decay), samples := ex.samples + 1)])
    case Rejected(exchange) =>
      if !cfg.adaptive then learned
      else
        var ex := ExchangeOrDefault(learned, exchange);
        learned.(exchanges := learned.exchanges[exchange :=
                   ex.(rejectRate := Decayed(ex.rejectRate, 1.0, cfg.decay), samples := ex.samples + 1)])
  }

  function LearnAll(cfg: Config, learned: Learned, events: seq<Event>): Learned {
    if events == [] then learned else Learn(cfg, LearnAll(cfg, learned, events[..|events| - 1]), events[|events| - 1])
  }

  /** The state of a new model. */
  const Untaught: Learned := Learned(map[], map[], 0.01)

  /** Every fill percentage reported lies in [0, 1]. */
  ghost predicate Reported(events: seq<Event>) {
    forall e <- events :: e.Filled? ==> Unit(e.observation.filledPct)
  }

  lemma DecayedBetween(a: real, v: real, decay: real)
    requires Unit(decay)
    ensures 0.0 <= a && 0.0 <= v ==> 0.0 <= Decayed(a, v, decay)
    ensures a <= 1.0 && v <= 1.0 ==> Decayed(a, v, decay) <= 1.0
  {
    WeightedBetween(a, v, decay, 1.0 - decay);
  }

  lemma WeightedBetween(a: real, v: real, d: real, w: real)
    requires 0.0 <= d && 0.0 <= w
    ensures 0.0 <= a && 0.0 <= v ==> 0.0 <= a * d + v * w
    ensures a <= 1.0 && v <= 1.0 ==> a * d + v * w <= d + w
  {
    var p, q := a * d, v * w;
    Shrinks(a, d, p);
    Shrinks(v, w, q);
    SumsOrdered(p, q, d, w);
  }

  lemma SumsOrdered(p: real, q: real, d: real, w: real)
    ensures p <= d && q <= w ==> p + q <= d + w
    ensures 0.0 <= p && 0.0 <= q ==> 0.0 <= p + q
  {
  }

  lemma Shrinks(a: real, d: real, p: real)
    requires 0.0 <= d && p == a * d
    ensures 0.0 <= a ==> 0.0 <= p
    ensures a <= 1.0 ==> p <= d
  {
  }

  lemma LearnKeepsRange(cfg: Config, learned: Learned, e: Event)
    requires Unit(cfg.decay) && RatesInRange(learned) && (e.Filled? ==> Unit(e.observation.filledPct))
    ensures RatesInRange(Learn(cfg, learned, e))
  {
    match e
    case VolatilitySet(_) =>
    case Filled(symbol, exchange, o) =>
      var st, ex := SymbolOrDefault(learned, symbol), ExchangeOrDefault(learned, exchange);
      DecayedBetween(st.avgFillRate, o.filledPct, cfg.decay);
      DecayedBetween(st.avgFillTimeMs, o.fillTimeMs as real, cfg.decay);
      DecayedBetween(ex.fillRate, if o.filledPct > 0.0 then 1.0 else 0.0, cfg.decay);
    case Rejected(exchange) =>
      DecayedBetween(ExchangeOrDefault(learned, exchange).rejectRate, 1.0, cfg.decay);
  }

  lemma {:induction false} RunKeepsRange(cfg: Config, events: seq<Event>)
    requires Unit(cfg.decay) && Reported(events)
    ensures RatesInRange(LearnAll(cfg, Untaught, events))
    decreases |events|
  {
    if events != [] {
      var n := |events| - 1;
      assert events[n] in events;
      RunKeepsRange(cfg, events[..n]);
      LearnKeepsRange(cfg, LearnAll(cfg, Untaught, events[..n]), events[n]);
    }
  }

  /**
   A recorded fill: the symbol's fill rate and the exchange's move towards what was seen and keep the share
   `decay` of the distance; everything about other symbols and exchanges, and the reject rate, stays.
   */
  lemma FilledOutcome(cfg: Config, learned: Learned, symbol: string, exchange: string, o: Observation)
    requires cfg.adaptive
    ensures var after := Learn(cfg, learned, Filled(symbol, exchange, o));
            var st, ex := SymbolOrDefault(learned, symbol), ExchangeOrDefault(learned, exchange);
            var hit := if o.filledPct > 0.0 then 1.0 else 0.0;
            && symbol in after.symbols && exchange in after.exchanges
            && after.symbols[symbol].avgFillRate - o.filledPct == cfg.decay * (st.avgFillRate - o.filledPct)
            && after.exchanges[exchange].fillRate - hit == cfg.decay * (ex.fillRate - hit)
            && after.symbols[symbol].avgFillTimeMs - o.fillTimeMs as real
               == cfg.decay * (st.avgFillTimeMs - o.fillTimeMs as real)
            && after.symbols[symbol].avgSlippageBps - o.slippageBps == cfg.decay * (st.avgSlippageBps - o.slippageBps)
            && after.exchanges[exchange].rejectRate == ex.rejectRate
            && after.exchanges[exchange].samples == ex.samples + 1
            && after.symbols[symbol].samples == st.samples + 1 && after.symbols[symbol].lastUpdated == o.timestamp
            && after.symbols - {symbol} == learned.symbols - {symbol}
            && after.exchanges - {exchange} == learned.exchanges - {exchange}
            && after.volatility == learned.volatility
  {
    DecayedMeaning(SymbolOrDefault(learned, symbol).avgFillRate, o.filledPct, cfg.decay);
    DecayedMeaning(SymbolOrDefault(learned, symbol).avgFillTimeMs, o.fillTimeMs as real, cfg.decay);
    DecayedMeaning(SymbolOrDefault(learned, symbol).avgSlippageBps, o.slippageBps, cfg.decay);
    DecayedMeaning(ExchangeOrDefault(learned, exchange).fillRate, if o.filledPct > 0.0 then 1.0 else 0.0, cfg.decay);
  }

  /** A recorded rejection: only the exchange's reject rate moves, towards 1. */
  lemma RejectedOutcome(cfg: Config, learned: Learned, exchange: string)
    requires cfg.adaptive
    ensures var after := Learn(cfg, learned, Rejected(exchange)); var ex := ExchangeOrDefault(learned, exchange);
            && exchange in after.exchanges
            && after.exchanges[exchange].rejectRate - 1.0 == cfg.decay * (ex.rejectRate - 1.0)
            && after.exchanges[exchange].fillRate == ex.fillRate && after.exchanges[exchange].samples == ex.samples + 1
            && after.symbols == learned.symbols && after.exchanges - {exchange} == learned.exchanges - {exchange}
  {
    DecayedMeaning(ExchangeOrDefault(learned, exchange).rejectRate, 1.0, cfg.decay);
  }

  /** A new volatility replaces the old one, with learning on or off, and nothing else. */
  lemma VolatilityOutcome(cfg: Config, learned: Learned, value: real)
    ensures var after := Learn(cfg, learned, VolatilitySet(value));
            after.volatility == value && after.symbols == learned.symbols && after.exchanges == learned.exchanges
  {
  }

  /** With learning off nothing but the volatility ever changes. */
  lemma NotAdaptive(cfg: Config, learned: Learned, e: Event)
    requires !cfg.adaptive && !e.VolatilitySet?
    ensures Learn(cfg, learned, e) == learned
  {
  }

  /** At most the allowed number of observations, all of them newer than the window at the last update. */
  ghost predicate Pruned(cfg: Config, st: SymbolStats) {
    PrunedTo(st.observations, cfg.maxObservations, st.lastUpdated - cfg.historyWindow)
  }

  ghost predicate PrunedTo(obs: seq<Observation>, max: nat, cutoff: real) {
    |obs| <= max && forall i :: 0 <= i < |obs| ==> obs[i].timestamp > cutoff
  }

  ghost predicate EndsWith(obs: seq<Observation>, o: Observation) {
    obs != [] && obs[|obs| - 1] == o
  }

  /** What pruning is for: over any run, memory per symbol is bounded and old observations are gone. */
  lemma {:induction false} RunKeepsPruned(cfg: Config, events: seq<Event>, symbol: string)
    requires symbol in LearnAll(cfg, Untaught, events).symbols
    ensures Pruned(cfg, LearnAll(cfg, Untaught, events).symbols[symbol])
    decreases |events|
  {
    var n := |events| - 1;
    var before, e := LearnAll(cfg, Untaught, events[..n]), events[n];
    if e.Filled? && e.symbol == symbol && cfg.adaptive {
      UpdateKeepsPruned(cfg, SymbolOrDefault(before, symbol), e.observation);
    } else {
      RunKeepsPruned(cfg, events[..n], symbol);
    }
  }

  lemma UpdateKeepsPruned(cfg: Config, st: SymbolStats, o: Observation)
    ensures Pruned(cfg, SymbolAfter(cfg, st, o))
    ensures cfg.historyWindow > 0.0 && cfg.maxObservations > 0 ==> EndsWith(SymbolAfter(cfg, st, o).observations, o)
  {
    var cutoff := o.timestamp - cfg.historyWindow;
    RecentKeepsLast(st.observations, o, cutoff);
    NewestKeepsEnd(Recent(st.observations + [o], cutoff), o, cutoff, cfg.maxObservations);
    assert SymbolAfter(cfg, st, o).observations == Newest(Recent(st.observations + [o], cutoff), cfg.maxObservations);
  }

  lemma NewestKeepsEnd(obs: seq<Observation>, o: Observation, cutoff: real, max: nat)
    requires forall i :: 0 <= i < |obs| ==> obs[i].timestamp > cutoff
    ensures PrunedTo(Newest(obs, max), max, cutoff)
    ensures max > 0 && EndsWith(obs, o) ==> EndsWith(Newest(obs, max), o)
  {
  }

  lemma {:induction false} RecentKeepsLast(obs: seq<Observation>, o: Observation, cutoff: real)
    ensures o.timestamp > cutoff ==> EndsWith(Recent(obs + [o], cutoff), o)
  {
    if obs == [] {
      assert obs + [o] == [o] && [o][1..] == [];
    } else {
      assert (obs + [o])[1..] == obs[1..] + [o];
      RecentKeepsLast(obs[1..], o, cutoff);
    }
  }

  /**
   The estimator over whole runs: whatever fills, rejections and volatilities were reported, estimates
   are probabilities, and of two orders the larger never fills more surely, faster or with less slippage.
   */
  lemma EstimatorSafety(
      cfg: Config, sqrt: real -> real, events: seq<Event>, order: Order, x: real, y: real, book: Book)
    requires Sane(cfg) && Unit(cfg.decay) && IsSqrt(sqrt) && Reported(events) && WellFormed(book) && 0.0 <= x <= y
    ensures var learned := LearnAll(cfg, Untaught, events);
            var a, b := EstimateFill(cfg, sqrt, learned, order, x, book), EstimateFill(cfg, sqrt, learned, order, y, book);
            && Sound(a) && Sound(b)
            && b.full <= a.full && a.slippageBps <= b.slippageBps && a.fillTimeMs <= b.fillTimeMs
  {
    var learned := LearnAll(cfg, Untaught, events);
    RunKeepsRange(cfg, events);
    EstimateSound(cfg, sqrt, learned, order, x, book);
    EstimateSound(cfg, sqrt, learned, order, y, book);
    LargerOrderFillsNoBetter(cfg, sqrt, learned, order, x, y, book);
    LargerOrderSlipsNoLess(cfg, sqrt, learned, order, x, y, book);
  }

  // ---------------------------------------------------------------- the model object

  class FillProbabilityModel {
    const config: Config
    const sqrt: real -> real
    var symbolStats: map<string, SymbolStats>
    var exchangeStats: map<string, ExchangeStats>
    var volatility: real

    function State(): Learned
      reads this
    {
      Learned(symbolStats, exchangeStats, volatility)
    }

    constructor (config: Config, sqrt: real -> real)
      ensures this.config == config && this.sqrt == sqrt && State() == Untaught
    {
      this.config, this.sqrt := config, sqrt;
      symbolStats, exchangeStats, volatility := map[], map[], 0.01;
    }

    method RecordFill(symbol: string, exchange: string, observation: Observation)
      modifies this
      ensures State() == Learn(config, old(State()), Filled(symbol, exchange, observation))
    {
      if !config.adaptive {
        return;
      }
      var st, ex := SymbolOrDefault(State(), symbol), ExchangeOrDefault(State(), exchange);
      st := UpdateSymbol(config, st, observation);
      symbolStats := symbolStats[symbol := st];
      var hit := if observation.filledPct > 0.0 then 1.0 else 0.0;
      ex := ex.(fillRate := Decayed(ex.fillRate, hit, config.decay), samples := ex.samples + 1);
      exchangeStats := exchangeStats[exchange := ex];
    }

    method RecordRejection(exchange: string)
      modifies this
      ensures State() == Learn(config, old(State()), Rejected(exchange))
    {
      if !config.adaptive {
        return;
      }
      var ex := ExchangeOrDefault(State(), exchange);
      ex := ex.(rejectRate := Decayed(ex.rejectRate, 1.0, config.decay), samples := ex.samples + 1);
      exchangeStats := exchangeStats[exchange := ex];
    }

    method UpdateVolatility(value: real)
      modifies this
      ensures State() == Learn(config, old(State()), VolatilitySet(value))
    {
      volatility := value;
    }

    /** The estimate, with the book walked level by level. */
    method EstimateFillProbability(order: Order, size: real, book: Book) returns (e: Estimate)
      requires Sane(config) && IsSqrt(sqrt)
      ensures e == EstimateFill(config, sqrt, State(), order, size, book)
      ensures RatesInRange(State()) && NonNegative(book.bids) && NonNegative(book.asks) ==> Sound(e)
    {
      var depth, spread := AvailableDepth(order, book), SpreadBps(book);
      var factors := Score(config, sqrt, State(), order, size, book);
      var regime := Classify(config, spread, volatility, depth, size);
      var full := FullProbability(Base(factors), regime);
      var partial := PartialProbability(full, regime);
      var slip := EstimateSlippage(order.isBuy, size, depth, spread, book);
      e := Estimate(full, partial, full + partial * 0.5,
                    FillTime(State(), order.symbol, size, depth, regime), slip,
                    Confidence(config, State(), order), regime, factors);
      if RatesInRange(State()) && NonNegative(book.bids) && NonNegative(book.asks) {
        EstimateSound(config, sqrt, State(), order, size, book);
      }
    }
  }

  /** Push, prune by age, drain the oldest over the bound, then decay the averages. */
  method UpdateSymbol(cfg: Config, st: SymbolStats, o: Observation) returns (r: SymbolStats)
    ensures r == SymbolAfter(cfg, st, o)
  {
    var kept := Recent(st.observations + [o], o.timestamp - cfg.historyWindow);
    if |kept| > cfg.maxObservations {
      var drained := |kept| - cfg.maxObservations;
      kept := kept[drained..];
    }
    r := SymbolStats(kept,
      Decayed(st.avgFillRate, o.filledPct, cfg.decay),
      Decayed(st.avgFillTimeMs, o.fillTimeMs as real, cfg.decay),
      Decayed(st.avgSlippageBps, o.slippageBps, cfg.decay),
      st.samples + 1,
      o.timestamp);
  }

  method EstimateSlippage(isBuy: bool, size: real, depth: real, spread: real, book: Book) returns (slip: real)
    ensures slip == Slippage(isBuy, size, depth, spread, book)
  {
    var bookSlip := 0.0;
    if size > 0.0 {
      var prices := if isBuy then book.asks else book.bids;
      var reference := if isBuy then book.bestAsk else book.bestBid;
      if reference > 0.0 {
        var cost, filled := WalkBook(prices, size);
        if filled > 0.0 {
          bookSlip := PriceSlip(isBuy, cost / filled, reference);
        }
      }
    }
    slip := Max(Max(spread / 2.0, SizeSlip(size, depth)), bookSlip);
  }
}
