/**
  `GetQuota`, the shared table of monthly event quotas by plan, and how it stands against the
  tables the two key middlewares write out for themselves (neither calls it).
*/
module Quota {
  import PublicKeyMiddleware
  import PrivateKeyMiddleware

  const FreeQuota := 15000
  const PaidQuota := 1000000
  const UnlimitedQuota := 0

  /** `GetQuota(plan)`: 0 means unlimited. */
  function GetQuota(plan: string): (q: int)
    ensures q in {FreeQuota, PaidQuota, UnlimitedQuota}
  {
    match plan
    case "paid" => PaidQuota
    case "enterprise" => UnlimitedQuota
    case _ => FreeQuota
  }

  /**
    The quota is never negative; it is the paid quota exactly for "paid", unlimited exactly
    for "enterprise", and the free quota for every other plan, "pro" included.
  */
  lemma GetQuotaSpec(plan: string)
    ensures GetQuota(plan) >= 0
    ensures GetQuota(plan) == PaidQuota <==> plan == "paid"
    ensures GetQuota(plan) == UnlimitedQuota <==> plan == "enterprise"
    ensures GetQuota(plan) == FreeQuota <==> plan != "paid" && plan != "enterprise"
  {
  }

  /**
    The three tables against each other: they agree on "enterprise" (no quota: the private
    middleware's -1 and the 0 elsewhere both switch the check off) and on every plan other
    than "paid" and "pro"; a "pro" owner gets 1,000,000 events from the public middleware,
    150,000 from the private one and only the free quota from `GetQuota`, which gives
    1,000,000 to "paid" instead, a plan both middlewares treat as free.
  */
  lemma QuotaTablesDiffer(plan: string)
    ensures plan == "enterprise" ==>
      GetQuota(plan) <= 0 && PublicKeyMiddleware.PublicQuota(plan) <= 0 && PrivateKeyMiddleware.PrivateQuota(plan) <= 0
    ensures plan != "paid" && plan != "pro" ==>
      GetQuota(plan) == PublicKeyMiddleware.PublicQuota(plan) == PrivateKeyMiddleware.PrivateQuota(plan)
      || (GetQuota(plan) <= 0 && PublicKeyMiddleware.PublicQuota(plan) <= 0 && PrivateKeyMiddleware.PrivateQuota(plan) <= 0)
    ensures GetQuota("pro") == FreeQuota
      && PublicKeyMiddleware.PublicQuota("pro") == 1000000
      && PrivateKeyMiddleware.PrivateQuota("pro") == 150000
    ensures GetQuota("paid") == PaidQuota
      && PublicKeyMiddleware.PublicQuota("paid") == FreeQuota
      && PrivateKeyMiddleware.PrivateQuota("paid") == FreeQuota
  {
  }
}
