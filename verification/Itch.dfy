/** The ITCH 5.0 messages that touch an order book, as the tools read them from the wire:
    `Add` is 'A'/'F', `Reduce` is 'E'/'C' (an execution) or 'X', `Delete` is 'D', `Replace` is 'U',
    `Directory` is 'R'. `stock` says whether the message's symbol field is the target symbol. */
module Itch {

  datatype Msg =
    | Add(ts: nat, loc: nat, stock: bool, ref: nat, buy: bool, shares: nat, price: nat)
    | Reduce(ts: nat, loc: nat, ref: nat, shares: nat, exec: bool)
    | Delete(ts: nat, loc: nat, ref: nat)
    | Replace(ts: nat, loc: nat, ref: nat, newRef: nat, shares: nat, price: nat)
    | Directory(ts: nat, loc: nat, stock: bool)
    | Other(ts: nat, loc: nat)
}
