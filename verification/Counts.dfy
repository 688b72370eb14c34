/** A condition as a number, for sums that count. */
module Counts {

  function One(b: bool): nat {
    if b then 1 else 0
  }
}
