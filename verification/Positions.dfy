/**
 Positions every iterator of the store exposes: one below the length is an entry, the length
 itself means "not valid" at either end.
 */
module Positions {
  function PrevPos(n: nat, p: nat): nat {
    if p == 0 then n else p - 1
  }

  function LastPos(n: nat): nat {
    if n == 0 then 0 else n - 1
  }
}
