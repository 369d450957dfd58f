/**
 The boolean functions the circuits are made of (`maj` and the C-elements of cells/verify/inits.py).
 */
module Gates {

  /** `C(a, b)`: follow when the inputs agree, hold `q` when they differ. */
  function Majority(a: bool, b: bool, q: bool): bool {
    (a && b) || (q && (a || b))
  }

  predicate AllUp(req: seq<bool>) {
    forall i | 0 <= i < |req| :: req[i]
  }

  predicate AllDown(req: seq<bool>) {
    forall i | 0 <= i < |req| :: !req[i]
  }

  /** An N-input C-element: follow when the inputs agree, hold when they differ. */
  function CElement(req: seq<bool>, q: bool): bool {
    if AllUp(req) then true else if AllDown(req) then false else q
  }
}
