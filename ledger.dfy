/**
 * The reward ledger: the prize catalogue, the rule "every 4 referrals is one prize", and the
 * decrement `decrementReferralsBy4` applies to a counter.
 */
module Ledger {
  /** `PRIZES_LIST`: the vouchers a user may claim. */
  const Prizes: seq<string> := ["Amazon", "Zalando", "Airbnb", "Apple", "Spotify"]

  /** The number of referrals one prize costs. */
  const PerPrize: nat := 4

  /** The note and status of a new `invite_redemptions` row. */
  const RedemptionNote: string := "Richiesta premio da bot"
  const PendingStatus: string := "PENDING"

  predicate IsPrize(name: string) {
    name in Prizes
  }

  /** `Math.floor(count / 4)`: the largest number of whole prizes the counter pays for. */
  function Available(count: nat): (n: nat)
    ensures n * PerPrize <= count < n * PerPrize + PerPrize
  {
    count / PerPrize
  }

  /** `{ ok, count }` as `decrementReferralsBy4` returns it. */
  datatype Decrement = Decrement(ok: bool, count: nat)

  /**
   * `decrementReferralsBy4` on a counter: refused, with the counter as it is, below 4;
   * otherwise exactly 4 less, so the counter never goes negative.
   */
  function TakeFour(count: nat): (d: Decrement)
    ensures d.ok <==> count >= PerPrize
    ensures d.ok ==> d.count + PerPrize == count
    ensures !d.ok ==> d.count == count
  {
    if count < PerPrize then Decrement(false, count) else Decrement(true, count - PerPrize)
  }

  /** The bands the rules announce: 4 to 7 referrals give 1 prize, 8 to 11 give 2, and so on. */
  lemma {:induction false} AvailableBands(count: nat, n: nat)
    ensures Available(count) == n <==> n * PerPrize <= count <= n * PerPrize + 3
  {
    var a := Available(count);
    if a < n {
      assert a + 1 <= n;
      assert (a + 1) * PerPrize <= n * PerPrize;
    } else if a > n {
      assert n + 1 <= a;
      assert (n + 1) * PerPrize <= a * PerPrize;
    }
  }

  /** The two gates agree: a prize is available exactly when the counter is at least 4. */
  lemma AvailableGate(count: nat)
    ensures Available(count) > 0 <==> count >= PerPrize
  {
  }

  /** A successful decrement spends exactly one prize. */
  lemma TakeFourSpendsOnePrize(count: nat)
    requires TakeFour(count).ok
    ensures Available(TakeFour(count).count) + 1 == Available(count)
  {
    AvailableBands(count, Available(TakeFour(count).count) + 1);
  }
}
