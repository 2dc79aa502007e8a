// What the polling loops of both sources share.
module Polling {
  import opened Writesets

  datatype Attribution = Attribution(quietMs: int, timeoutMs: int, trxCheck: bool)

  datatype Outcome = Taken(changes: seq<RowChange>) | Failed(reason: string)

  // The least number from k on that has the property.
  ghost function First(p: nat -> bool, k: nat, bound: nat): (n: nat)
    requires k <= bound && p(bound)
    ensures k <= n <= bound && p(n) && forall i: nat :: k <= i < n ==> !p(i)
    decreases bound - k
  {
    if p(k) then k else First(p, k + 1, bound)
  }
}
