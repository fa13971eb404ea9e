/** The base fee of the next block, from the gas that this one used. */
module BaseFee {
  import opened Common

  // -------- stored numbers --------

  datatype MetaKey =
    BaseFeePerGas | TipPool | MintedTotal | BurnedTotal | FeeMin | FeeMax | TargetGas | MaxGas | AdjustRate

  /** What a key holds: eight bytes are a number, anything else is not one. */
  datatype Raw = Number(value: u64) | Other(bytes: seq<byte>)

  type Meta = map<MetaKey, Raw>

  function ReadNumber(meta: Meta, key: MetaKey): Option<u64> {
    if key in meta && meta[key].Number? then Some(meta[key].value) else None
  }

  function ReadOr(meta: Meta, key: MetaKey, default: u64): u64 {
    if key in meta && meta[key].Number? then meta[key].value else default
  }

  // -------- parameters --------

  const PPM: nat := 1_000_000

  datatype Market = Market(feeMin: u64, feeMax: u64, target: u64, maxGas: u64, rate: u64)

  const DEFAULT: Market := Market(1, 1_000_000_000, 1_000_000, 2_000_000, 125_000)

  predicate Usable(m: Market) {
    1 <= m.feeMin <= m.feeMax && 1 <= m.target <= m.maxGas && m.rate <= PPM
  }

  /** Parameters that make no sense are replaced, each by the nearest that does. */
  function Repaired(m: Market): (r: Market)
    ensures Usable(r) && (Usable(m) ==> r == m)
  {
    var feeMin := if m.feeMin == 0 then DEFAULT.feeMin else m.feeMin;
    var target := if m.target == 0 then 1 else m.target;
    Market(feeMin, if m.feeMax < feeMin then feeMin else m.feeMax, target,
           if m.maxGas < target then target else m.maxGas, if m.rate > PPM then PPM else m.rate)
  }

  function MarketOf(meta: Meta): (m: Market)
    ensures Usable(m)
  {
    Repaired(Market(ReadOr(meta, FeeMin, DEFAULT.feeMin), ReadOr(meta, FeeMax, DEFAULT.feeMax),
                    ReadOr(meta, TargetGas, DEFAULT.target), ReadOr(meta, MaxGas, DEFAULT.maxGas),
                    ReadOr(meta, AdjustRate, DEFAULT.rate)))
  }

  function Clamp(v: u64, low: u64, high: u64): u64 {
    if v < low then low else if v > high then high else v
  }

  predicate InRange(m: Market, fee: u64) {
    m.feeMin <= fee <= m.feeMax
  }

  function FeeNow(meta: Meta): (fee: u64)
    ensures InRange(MarketOf(meta), fee)
  {
    var m := MarketOf(meta);
    Clamp(ReadOr(meta, BaseFeePerGas, m.feeMin), m.feeMin, m.feeMax)
  }

  // -------- the step --------

  function Counted(m: Market, gas: u64): u64 {
    if gas > m.maxGas then m.maxGas else gas
  }

  /** Gas used in millionths of the target. */
  function Demand(m: Market, gas: u64): nat
    requires Usable(m)
  {
    Part(Counted(m, gas), PPM, m.target)
  }

  /** `a * b / c`, rounded down. */
  function Part(a: nat, b: nat, c: nat): (q: nat)
    requires c > 0
  {
    a * b / c
  }

  function Scale(m: Market, demand: u64): (scale: u64)
    requires m.rate <= PPM
    ensures demand > PPM ==> PPM <= scale <= demand
    ensures demand <= PPM ==> scale <= PPM
  {
    if demand > PPM then
      PartAtMost(m.rate, demand - PPM, PPM);
      PPM + Part(m.rate, demand - PPM, PPM)
    else
      PartAtMost(m.rate, PPM - demand, PPM);
      PPM - Part(m.rate, PPM - demand, PPM)
  }

  /** The fee after the step, before 64 bits cut it. */
  function Scaled(m: Market, fee: u64, demand: u64): nat
    requires m.rate <= PPM
  {
    Part(fee, Scale(m, demand), PPM)
  }

  function Stepped(m: Market, fee: u64, demand: u64): u64
    requires m.rate <= PPM
  {
    var next := Wrap64(Scaled(m, fee, demand));
    if demand > PPM && next == fee && fee < m.feeMax then fee + 1
    else if demand < PPM && next == fee && fee > m.feeMin then fee - 1
    else next
  }

  function NextFee(m: Market, fee: u64, gas: u64): (next: u64)
    requires Usable(m)
    ensures InRange(m, next)
  {
    Clamp(Stepped(m, fee, Wrap64(Demand(m, gas))), m.feeMin, m.feeMax)
  }

  // -------- arithmetic --------

  lemma PartAtMost(a: nat, b: nat, c: nat)
    requires a <= c && c > 0
    ensures Part(a, b, c) <= b
  {
    MulMonotone(a, c, b);
    DivMonotone(a * b, c * b, c);
    DivExact(b, c);
  }

  lemma PartAtLeast(a: nat, b: nat, c: nat)
    requires b >= c > 0
    ensures Part(a, b, c) >= a
  {
    MulMonotone(c, b, a);
    DivMonotone(c * a, a * b, c);
    DivExact(a, c);
  }

  lemma MulMonotone(a: nat, b: nat, x: nat)
    requires a <= b
    ensures a * x <= b * x && x * a <= x * b
  {
  }

  lemma DivMonotone(a: nat, b: nat, c: nat)
    requires a <= b && c > 0
    ensures a / c <= b / c
  {
    DivBounds(a, c);
    DivBounds(b, c);
    if a / c > b / c {
      MulMonotone(b / c + 1, a / c, c);
    }
  }

  lemma DivBounds(a: nat, c: nat)
    requires c > 0
    ensures c * (a / c) <= a < c * (a / c) + c
  {
  }

  lemma QuotientReaches(a: nat, c: nat, k: nat)
    requires c > 0
    ensures a / c >= k <==> a >= k * c
  {
    DivBounds(a, c);
    if a / c >= k {
      MulMonotone(k, a / c, c);
    } else {
      MulMonotone(a / c + 1, k, c);
    }
  }

  lemma DivExact(a: nat, c: nat)
    requires c > 0
    ensures a * c / c == a
  {
    QuotientIs(a * c, c, a);
  }

  lemma QuotientIs(p: nat, c: nat, a: nat)
    requires c > 0 && p == a * c
    ensures p / c == a
  {
    QuotientReaches(p, c, a);
    QuotientReaches(p, c, a + 1);
  }

  lemma PartMonotone(a: nat, a': nat, b: nat, b': nat, c: nat)
    requires a <= a' && b <= b' && c > 0
    ensures Part(a, b, c) <= Part(a', b', c)
  {
    MulMonotone(a, a', b);
    MulMonotone(b, b', a');
    DivMonotone(a * b, a' * b', c);
  }

  // -------- the fee follows demand --------

  /** Demand is below the target, or above it by at least a millionth, exactly when the counted gas is. */
  lemma DemandMeans(m: Market, gas: u64)
    requires Usable(m)
    ensures Demand(m, gas) < PPM <==> Counted(m, gas) < m.target
    ensures Demand(m, gas) > PPM <==> Counted(m, gas) * PPM >= (PPM + 1) * m.target
  {
    var used := Counted(m, gas);
    QuotientReaches(used * PPM, m.target, PPM);
    QuotientReaches(used * PPM, m.target, PPM + 1);
    MillionthsCancel(used, m.target);
  }

  lemma MillionthsCancel(a: nat, b: nat)
    ensures a * PPM >= PPM * b <==> a >= b
  {
  }

  /** Above the target the fee rises, below it falls, each as far as its bound lets it, and on it the fee stays. */
  predicate FeeFollows(m: Market, fee: u64, gas: u64)
    requires Usable(m)
  {
    var demand, next := Demand(m, gas), NextFee(m, fee, gas);
    && (demand > PPM ==> next > fee || next == fee == m.feeMax)
    && (demand < PPM ==> next < fee || next == fee == m.feeMin)
    && (demand == PPM ==> next == fee)
  }

  /** What the step compares with the old fee, in a busy block. */
  function Kept(m: Market, fee: u64, gas: u64): u64
    requires Usable(m)
  {
    Wrap64(Scaled(m, fee, Wrap64(Demand(m, gas))))
  }

  /**
   The fee follows demand except in a block above the target whose numbers do not fit 64 bits: the demand itself, or
   the scaled fee, loses its upper part and comes out below what it was.
   */
  lemma FeeFollowsIff(m: Market, fee: u64, gas: u64)
    requires Usable(m) && InRange(m, fee)
    ensures var demand := Demand(m, gas);
      FeeFollows(m, fee, gas) <==>
        demand <= PPM || (Wrap64(demand) > PPM && Kept(m, fee, gas) >= fee) ||
        (Wrap64(demand) == PPM && fee == m.feeMax) || m.feeMin == m.feeMax
  {
    var demand := Demand(m, gas);
    StepSides(m, fee, Wrap64(demand));
    hide Demand, Scaled, Stepped;
    var at := Stepped(m, fee, Wrap64(demand));
    assert NextFee(m, fee, gas) == Clamp(at, m.feeMin, m.feeMax);
  }

  lemma StepSides(m: Market, fee: u64, demand: u64)
    requires Usable(m) && InRange(m, fee)
    ensures var kept := Wrap64(Scaled(m, fee, demand));
      && (demand == PPM ==> Stepped(m, fee, demand) == fee)
      && (demand < PPM ==> Stepped(m, fee, demand) < fee || fee == m.feeMin >= Stepped(m, fee, demand))
      && (demand > PPM && kept >= fee ==> Stepped(m, fee, demand) > fee || fee == m.feeMax <= Stepped(m, fee, demand))
      && (demand > PPM && kept < fee ==> Stepped(m, fee, demand) == kept)
  {
    hide Part;
    if demand <= PPM {
      PartMonotone(fee, fee, Scale(m, demand), PPM, PPM);
      WholePart(fee);
      if demand == PPM {
        NothingOver(m.rate);
      }
    }
  }

  lemma WholePart(fee: nat)
    ensures Part(fee, PPM, PPM) == fee
  {
    DivExact(fee, PPM);
  }

  lemma NothingOver(rate: nat)
    ensures Part(rate, 0, PPM) == 0
  {
  }

  /** With room for the largest fee at the largest demand, nothing is cut. */
  predicate Roomy(m: Market)
    requires Usable(m)
  {
    Demand(m, m.maxGas) <= U64_MAX && Part(m.feeMax, Demand(m, m.maxGas), PPM) <= U64_MAX
  }

  lemma NothingIsCut(m: Market, fee: u64, gas: u64)
    requires Usable(m) && Roomy(m) && InRange(m, fee)
    ensures Demand(m, gas) <= U64_MAX && Scaled(m, fee, Demand(m, gas)) <= U64_MAX
    ensures Demand(m, gas) > PPM ==> Scaled(m, fee, Demand(m, gas)) >= fee
  {
    var demand := Demand(m, gas);
    PartMonotone(Counted(m, gas), m.maxGas, PPM, PPM, m.target);
    if demand > PPM {
      PartMonotone(fee, m.feeMax, Scale(m, demand), Demand(m, m.maxGas), PPM);
      PartAtLeast(fee, Scale(m, demand), PPM);
    } else {
      PartMonotone(fee, fee, Scale(m, demand), PPM, PPM);
      WholePart(fee);
    }
  }

  /** In a market with room the fee follows demand in every block. */
  lemma RoomyMarketFollows(m: Market, fee: u64, gas: u64)
    requires Usable(m) && Roomy(m) && InRange(m, fee)
    ensures FeeFollows(m, fee, gas)
  {
    NothingIsCut(m, fee, gas);
    FeeFollowsIff(m, fee, gas);
  }

  lemma DefaultMarketIsRoomy()
    ensures Usable(DEFAULT) && Roomy(DEFAULT)
  {
  }

  /** More gas never makes the next block cheaper, where there is room. */
  lemma FeeGrowsWithGas(m: Market, fee: u64, gas: u64, more: u64)
    requires Usable(m) && Roomy(m) && InRange(m, fee) && gas <= more
    ensures NextFee(m, fee, gas) <= NextFee(m, fee, more)
  {
    NothingIsCut(m, fee, gas);
    NothingIsCut(m, fee, more);
    PartMonotone(Counted(m, gas), Counted(m, more), PPM, PPM, m.target);
    var low, high := Demand(m, gas), Demand(m, more);
    RoomyMarketFollows(m, fee, gas);
    RoomyMarketFollows(m, fee, more);
    hide Demand, Part;
    if low <= PPM && high <= PPM {
      PartMonotone(m.rate, m.rate, PPM - high, PPM - low, PPM);
      PartMonotone(fee, fee, Scale(m, low), Scale(m, high), PPM);
    } else if low > PPM {
      PartMonotone(m.rate, m.rate, low - PPM, high - PPM, PPM);
      PartMonotone(fee, fee, Scale(m, low), Scale(m, high), PPM);
    }
  }

  /** Full blocks at the highest rate double a fee of 2^63 to 2^64, of which 64 bits keep zero. */
  lemma FullBlockCanDropFee()
    ensures var m, fee := Market(1, U64_MAX, 1, 2, PPM), 0x8000_0000_0000_0000;
      Usable(m) && InRange(m, fee) && Demand(m, 2) == 2 * PPM && NextFee(m, fee, 2) == 1
  {
    var m, fee := Market(1, U64_MAX, 1, 2, PPM), 0x8000_0000_0000_0000;
    assert Scale(m, 2 * PPM) == 2 * PPM;
    assert Scaled(m, fee, 2 * PPM) == U64_MAX + 1;
  }

  // -------- how far the fee moves --------

  lemma PartAdds(fee: nat, more: nat)
    ensures Part(fee, PPM + more, PPM) == fee + Part(fee, more, PPM)
  {
    assert fee * (PPM + more) == fee * PPM + fee * more;
    DivAdds(fee, fee * more);
  }

  lemma DivAdds(a: nat, b: nat)
    ensures (a * PPM + b) / PPM == a + b / PPM
  {
  }

  /**
   In a market with room a busy block raises the fee by its share of the excess demand at the market's rate, and by one
   at least; a quiet one lowers it likewise; the bounds hold either way.
   */
  lemma FeeMovesBy(m: Market, fee: u64, gas: u64)
    requires Usable(m) && Roomy(m) && InRange(m, fee)
    ensures var demand, next := Demand(m, gas), NextFee(m, fee, gas);
      && (demand > PPM ==>
            var rise := Part(fee, Part(m.rate, demand - PPM, PPM), PPM);
            next == if fee + rise >= m.feeMax then m.feeMax else if rise == 0 then fee + 1 else fee + rise)
      && (demand < PPM ==>
            var left := Part(fee, PPM - Part(m.rate, PPM - demand, PPM), PPM);
            next == if left <= m.feeMin then m.feeMin else if left == fee then fee - 1 else left)
  {
    NothingIsCut(m, fee, gas);
    hide Demand, Scaled, Stepped;
    StepIs(m, fee, Demand(m, gas));
  }

  lemma StepIs(m: Market, fee: u64, demand: u64)
    requires Usable(m) && InRange(m, fee) && Scaled(m, fee, demand) <= U64_MAX
    ensures var next := Clamp(Stepped(m, fee, demand), m.feeMin, m.feeMax);
      && (demand > PPM ==>
            var rise := Part(fee, Part(m.rate, demand - PPM, PPM), PPM);
            next == if fee + rise >= m.feeMax then m.feeMax else if rise == 0 then fee + 1 else fee + rise)
      && (demand < PPM ==>
            var left := Part(fee, PPM - Part(m.rate, PPM - demand, PPM), PPM);
            next == if left <= m.feeMin then m.feeMin else if left == fee then fee - 1 else left)
  {
    hide Part;
    if demand > PPM {
      PartAdds(fee, Part(m.rate, demand - PPM, PPM));
    } else {
      PartMonotone(fee, fee, Scale(m, demand), PPM, PPM);
      WholePart(fee);
    }
  }

  // -------- stored parameters --------

  /** Parameters that make sense are used as stored, each from its own key; without any the defaults are. */
  lemma MarketIsStored(meta: Meta, m: Market)
    requires Usable(m)
    requires ReadNumber(meta, FeeMin) == Some(m.feeMin) && ReadNumber(meta, FeeMax) == Some(m.feeMax)
    requires ReadNumber(meta, TargetGas) == Some(m.target) && ReadNumber(meta, MaxGas) == Some(m.maxGas)
    requires ReadNumber(meta, AdjustRate) == Some(m.rate)
    ensures MarketOf(meta) == m
  {
    hide Repaired;
  }

  lemma MarketIsDefault(meta: Meta)
    requires forall key | key in {FeeMin, FeeMax, TargetGas, MaxGas, AdjustRate} :: ReadNumber(meta, key) == None
    ensures MarketOf(meta) == Market(1, 1_000_000_000, 1_000_000, 2_000_000, 125_000)
  {
    assert ReadNumber(meta, FeeMin).None? && ReadNumber(meta, FeeMax).None? && ReadNumber(meta, TargetGas).None?;
    assert ReadNumber(meta, MaxGas).None? && ReadNumber(meta, AdjustRate).None?;
  }

  /** Parameters out of bounds are moved to the nearest bound, and a fee below the least one to the least one. */
  lemma RepairsAre(m: Market)
    ensures var r := Repaired(m);
      && (m.feeMin > 0 ==> r.feeMin == m.feeMin) && (m.feeMin == 0 ==> r.feeMin == 1)
      && r.feeMax == (if m.feeMax < r.feeMin then r.feeMin else m.feeMax)
      && (m.target > 0 ==> r.target == m.target) && (m.target == 0 ==> r.target == 1)
      && r.maxGas == (if m.maxGas < r.target then r.target else m.maxGas)
      && r.rate == if m.rate > 1_000_000 then 1_000_000 else m.rate
  {
  }

  /** The fee in force is the stored one, moved into its range, or the least one where none is stored. */
  lemma FeeNowIs(meta: Meta)
    ensures var m, fee := MarketOf(meta), FeeNow(meta);
      match ReadNumber(meta, BaseFeePerGas)
      case None => fee == m.feeMin
      case Some(stored) =>
        && (InRange(m, stored) ==> fee == stored) && (stored < m.feeMin ==> fee == m.feeMin)
        && (stored > m.feeMax ==> fee == m.feeMax)
  {
    hide MarketOf;
  }
}
