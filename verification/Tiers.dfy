/** Subscription tiers and the limits they carry (`crates/executionhandler/src/multi_tenant.rs`). */
module Tiers {
  type TenantId = nat

  const USIZE_MAX: nat := 0xFFFF_FFFF_FFFF_FFFF

  datatype Tier = Explorer | Trader | Professional | Team | Enterprise {
    function SchedulerWeight(): (w: nat)
      ensures 1 <= w <= 50
    {
      match this
      case Explorer => 1
      case Trader => 5
      case Professional => 10
      case Team => 25
      case Enterprise => 50
    }

    function OrdersPerMinute(): nat {
      match this
      case Explorer => 10
      case Trader => 100
      case Professional => 1_000
      case Team => 10_000
      case Enterprise => 100_000
    }

    function MaxExchanges(): nat {
      match this
      case Explorer => 1
      case Trader => 1
      case Professional => 3
      case Team => 10
      case Enterprise => USIZE_MAX
    }
  }

  /** A tier's place in the price list. */
  function Place(tier: Tier): nat {
    match tier
    case Explorer => 0
    case Trader => 1
    case Professional => 2
    case Team => 3
    case Enterprise => 4
  }

  /**
   A higher tier gets a greater share and ten times the orders at each step up, and never fewer exchanges;
   every tier may trade at all, and only the lowest two are held to a single exchange.
   */
  lemma HigherTiersGetMore(a: Tier, b: Tier)
    ensures Place(a) < Place(b) ==>
              && a.SchedulerWeight() < b.SchedulerWeight()
              && a.MaxExchanges() <= b.MaxExchanges()
              && 10 * a.OrdersPerMinute() <= b.OrdersPerMinute()
    ensures Place(a) + 1 == Place(b) ==> b.OrdersPerMinute() == 10 * a.OrdersPerMinute()
    ensures 50 == Enterprise.SchedulerWeight() == 2 * Team.SchedulerWeight() == 5 * Professional.SchedulerWeight()
            == 10 * Trader.SchedulerWeight() == 50 * Explorer.SchedulerWeight()
    ensures Explorer.OrdersPerMinute() == 10
    ensures Professional.MaxExchanges() == 3 && Team.MaxExchanges() == 10 && Enterprise.MaxExchanges() == USIZE_MAX
    ensures 1 <= a.OrdersPerMinute() && 1 <= a.MaxExchanges() && (a.MaxExchanges() == 1 <==> Place(a) <= 1)
  {
  }
}
