/** The exceptions raised by the HEOM core, one constructor per raise site. */
module Errors {
  import opened Wrappers

  datatype Error =
      /** `filter`: the tags, dims and types filters have different lengths. */
    | FilterLengthMismatch
      /** `filter`: more excitation filters than the maximum depth. */
    | FilterTooDeep
      /** `filter`: the `level` argument disagrees with the number of filters. */
    | FilterLevelMismatch
      /** `_grad_prev_*` / `_grad_next_fermionic`: an exponent type the branch does not handle. */
    | UnsupportedType(k: nat)
      /** `_combine_bath_exponents`: coupling operators of different dimensions. */
    | MixedCouplingDims
      /** `steady_state`: the system Liouvillian is time dependent. */
    | TimeDependentSystem
      /** `_prepare_state`: the initial ADO array has the wrong shape. */
    | WrongHierarchyShape
      /** `_prepare_state`: the initial density matrix has the wrong dims. */
    | WrongSystemDims
      /** A dictionary lookup of a label that is not in the hierarchy. */
    | KeyError
      /** A Python sequence index outside `[-len, len)`. */
    | IndexError
      /** Arithmetic on a `None` attribute (a missing `ck2` or `sigma_bar_k_offset`). */
    | TypeError

  /**
   * Python's `s[i]` on a list: negative indices count from the end, anything outside
   * `[-len(s), len(s))` raises IndexError.
   */
  function PyIndex<T>(s: seq<T>, i: int): (r: Result<T, Error>)
    ensures r.Ok? <==> -|s| <= i < |s|
    ensures 0 <= i < |s| ==> r == Ok(s[i])
    ensures -|s| <= i < 0 ==> r == Ok(s[|s| + i])
  {
    if 0 <= i < |s| then Ok(s[i])
    else if -|s| <= i < 0 then Ok(s[|s| + i])
    else Err(IndexError)
  }
}
