/**
  The part of the chain state that gas and value accounting touches: balances,
  nonces, the refund counter, the spent stamp images, and the sink that collects
  the fees of an epoch under proof of stake.
 */
module Worlds {
  type Address = nat
  type Image = nat
  type Balances = map<Address, nat>

  datatype World = World(balances: Balances, nonces: map<Address, nat>, refund: nat, images: map<Image, nat>, sink: nat)

  function Balance(b: Balances, a: Address): nat {
    if a in b then b[a] else 0
  }

  function Nonce(w: World, a: Address): nat {
    if a in w.nonces then w.nonces[a] else 0
  }

  /** An image counts as spent if a value was stored under it that is not empty; zero is stored as the empty value. */
  predicate Spent(images: map<Image, nat>, i: Image) {
    i in images && images[i] != 0
  }

  ghost function Pick(b: Balances): Address
    requires b != map[]
  {
    var a :| a in b;
    a
  }

  ghost function Sum(b: Balances): nat
    decreases |b|
  {
    if b == map[] then 0 else
      assert b.Keys == (b - {Pick(b)}).Keys + {Pick(b)};
      b[Pick(b)] + Sum(b - {Pick(b)})
  }

  lemma {:induction false} SumTake(b: Balances, a: Address)
    requires a in b
    ensures Sum(b) == b[a] + Sum(b - {a})
    decreases |b|
  {
    var p := Pick(b);
    if p != a {
      assert b.Keys == (b - {p}).Keys + {p};
      SumTake(b - {p}, a);
      assert b.Keys == (b - {a}).Keys + {a};
      SumTake(b - {a}, p);
      assert b - {p} - {a} == b - {a} - {p};
    }
  }

  lemma SumSet(b: Balances, a: Address, v: nat)
    ensures Sum(b[a := v]) == Sum(b) - Balance(b, a) + v
  {
    SumTake(b[a := v], a);
    if a in b {
      SumTake(b, a);
      assert b[a := v] - {a} == b - {a};
    } else {
      assert b[a := v] - {a} == b;
    }
  }

  function Credit(b: Balances, a: Address, v: nat): Balances {
    b[a := Balance(b, a) + v]
  }

  function Debit(b: Balances, a: Address, v: nat): Balances
    requires v <= Balance(b, a)
  {
    b[a := Balance(b, a) - v]
  }

  /** All value there is: what accounts have and what the sink collected. */
  ghost function Wealth(w: World): nat {
    Sum(w.balances) + w.sink
  }
}
