/** Live orders as the remaining shares of each ref. */
module Shares {

  type Orders = map<nat, nat>

  /** An order that loses all it has, or more, goes away. */
  ghost function Reduced(m: Orders, ref: nat, shares: nat): Orders {
    if ref !in m then m
    else if m[ref] > shares then m[ref := m[ref] - shares]
    else m - {ref}
  }
}
