/**
 The token-gate predicates of the on-chain hook (src/hooks/usePixelCanvas.ts):
 whether the spending allowance covers the burn amount, the guard in front of
 the `placePixel` contract write, and the approval receipt check. The
 allowance is `None` until the contract read delivers it; amounts are
 natural numbers of the token's base unit.
 */
module TokenGate {
  import opened Wrappers

  /** `!allowance`: no value yet, or a zero allowance. */
  predicate Unfunded(allowance: Option<nat>) {
    allowance.None? || allowance.value == 0
  }

  /** `canPlacePixel()`. */
  function CanPlacePixel(allowance: Option<nat>, burn: nat): (r: bool)
    ensures Unfunded(allowance) ==> !r
    ensures !Unfunded(allowance) ==> (r <==> allowance.value >= burn)
  {
    if Unfunded(allowance) then false else allowance.value >= burn
  }

  /** `needsApproval()`. */
  function NeedsApproval(allowance: Option<nat>, burn: nat): (r: bool)
    ensures Unfunded(allowance) ==> r
    ensures !Unfunded(allowance) ==> (r <==> allowance.value < burn)
  {
    if Unfunded(allowance) then true else allowance.value < burn
  }

  /** The two predicates are complements for every allowance and burn amount,
      including the unloaded and the zero allowance. */
  lemma NeedsApprovalIsNotCanPlace(allowance: Option<nat>, burn: nat)
    ensures NeedsApproval(allowance, burn) == !CanPlacePixel(allowance, burn)
  {
  }

  /** A positive allowance is enough exactly when it reaches the burn amount;
      raising it never takes that away. */
  lemma CanPlaceIsMonotone(a: nat, b: nat, burn: nat)
    requires 0 < a <= b
    ensures CanPlacePixel(Some(a), burn) ==> CanPlacePixel(Some(b), burn)
  {
  }

  /** The contract call `placePixel(x, y, color)`. */
  datatype WriteCall = PlacePixelCall(x: int, y: int, color: string)

  /** `placePixel(x, y, color)`: without a writer, or when the allowance does
      not cover the burn amount, nothing is sent; otherwise exactly the call
      for the given cell and colour. */
  function PlacePixelWrite(hasWriter: bool, allowance: Option<nat>, burn: nat, x: int, y: int, color: string): (r: Option<WriteCall>)
    ensures r.Some? <==> hasWriter && CanPlacePixel(allowance, burn)
    ensures r.Some? ==> r.value == PlacePixelCall(x, y, color)
  {
    if !hasWriter then None
    else if !CanPlacePixel(allowance, burn) then None
    else Some(PlacePixelCall(x, y, color))
  }

  /** No contract write goes out while approval is still needed. */
  lemma NoWriteWhileApprovalNeeded(hasWriter: bool, allowance: Option<nat>, burn: nat, x: int, y: int, color: string)
    requires NeedsApproval(allowance, burn)
    ensures PlacePixelWrite(hasWriter, allowance, burn, x, y, color) == None
  {
  }

  /** A transaction receipt as far as the hook reads it. */
  datatype Receipt = Receipt(status: string)

  /** `approveConfirmation?.status === 'success'`: no receipt yet means not
      confirmed. */
  function ApproveConfirmed(receipt: Option<Receipt>): (r: bool)
    ensures r <==> receipt.Some? && receipt.value.status == "success"
    ensures receipt.None? ==> !r
  {
    match receipt
    case None => false
    case Some(rc) => rc.status == "success"
  }
}
