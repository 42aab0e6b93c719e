/** Transaction lists by account, as the pool keeps them in `pending` and `queue` (core/tx_pool.go). */
module AccountLists {
  import opened SortedMaps

  type Lists = map<nat, Items>

  /** The list of an account, empty if it has none. */
  function Get(m: Lists, a: nat): Items {
    if a in m then m[a] else map[]
  }

  /** All transactions of a list belong to account a and sit under their nonce. */
  ghost predicate Own(items: Items, a: nat) {
    forall n | n in items :: items[n].nonce == n && items[n].from == a
  }

  /** Every transaction sits under its own sender and nonce. */
  ghost predicate Sits(m: Lists) {
    forall a: nat {:trigger Own(Get(m, a), a)} :: Own(Get(m, a), a)
  }

  ghost predicate In(m: Lists, tx: Tx) {
    tx.from in m && tx.nonce in m[tx.from] && m[tx.from][tx.nonce] == tx
  }

  /** Sets the list of an account, dropping the entry of an empty one. */
  function Set(m: Lists, a: nat, items: Items): Lists {
    if items == map[] then m - {a} else m[a := items]
  }

  /** An account without transactions has no entry. */
  ghost predicate Tidy(m: Lists, a: nat) {
    a in m ==> m[a] != map[]
  }

  lemma SetGet(m: Lists, a: nat, items: Items)
    ensures Get(Set(m, a, items), a) == items && Set(m, a, items) - {a} == m - {a}
    ensures forall b | b != a :: Get(Set(m, a, items), b) == Get(m, b)
  {
  }

  lemma SetSits(m: Lists, a: nat, items: Items)
    requires Sits(m) && Own(items, a)
    ensures Sits(Set(m, a, items))
  {
    forall b: nat ensures Own(Get(Set(m, a, items), b), b) {
      if b != a {
        assert Own(Get(m, b), b);
      }
    }
  }

  lemma SetIn(m: Lists, a: nat, items: Items, tx: Tx)
    ensures In(Set(m, a, items), tx) <==>
              if tx.from == a then tx.nonce in items && items[tx.nonce] == tx else In(m, tx)
  {
  }
}
