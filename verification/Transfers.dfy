// packages/shared/src/chainTypes.ts: one movement of value, as every adapter reports it.
module Transfers {
  import opened Wrappers

  /** usd is what pricing adds; None when an amount cannot be priced. */
  datatype Transfer = Transfer(
    txHash: string, idx: nat, from: string, to: string,
    token: string, amount: string, usd: Option<real>, ts: int)

  /** `txHash|idx`, the engine's key of an edge. */
  type EdgeKey = (string, nat)

  function EdgeKeyOf(t: Transfer): EdgeKey {
    (t.txHash, t.idx)
  }
}
