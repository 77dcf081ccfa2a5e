/** The switch and the rate cap every order has to pass. */
module Guardrails {

  /** A single switch that halts all trading until it is reset. */
  class KillSwitch {
    var engaged: bool
    var reason: string

    constructor ()
      ensures !engaged
    {
      engaged, reason := false, "";
    }

    method Engage(why: string)
      modifies this
      ensures engaged && reason == why
    {
      engaged, reason := true, why;
    }

    method Reset()
      modifies this
      ensures !engaged
    {
      engaged, reason := false, "";
    }
  }

  /** At most so many submissions until the next reset. */
  class OrderRateLimiter {
    const maxOrders: int
    var count: int

    function SlotsLeft(): int
      reads this
    {
      maxOrders - count
    }

    constructor (maxOrders: int)
      ensures this.maxOrders == maxOrders && count == 0
    {
      this.maxOrders := maxOrders;
      count := 0;
    }

    method Allow() returns (ok: bool)
      modifies this
      ensures ok <==> old(SlotsLeft()) > 0
      ensures SlotsLeft() == old(SlotsLeft()) - if ok then 1 else 0
    {
      if count >= maxOrders {
        return false;
      }
      count := count + 1;
      ok := true;
    }

    method Reset()
      modifies this
      ensures SlotsLeft() == maxOrders
    {
      count := 0;
    }
  }
}
