/**
  A header database (core/database_util.go) as a map from hash to header, and
  the ancestor paths in it.
 */
module HeaderStore {
  import opened Options

  type Hash = nat

  /** `seal` stands for the header fields that only matter to the hash. */
  datatype Header = Header(parent: Hash, number: nat, difficulty: nat, seal: nat)

  ghost predicate NoCollision(hash: Header -> Hash, a: Header, b: Header) {
    hash(a) == hash(b) ==> a == b
  }

  ghost predicate CollisionFree(hash: Header -> Hash) {
    forall a, b {:trigger NoCollision(hash, a, b)} :: NoCollision(hash, a, b)
  }

  /** Headers by hash; `hash` is the header hash, taken to be free of collisions. */
  datatype Store = Store(hash: Header -> Hash, genesis: Header, db: map<Hash, Header>) {

    ghost predicate Has(x: Header) {
      hash(x) in db && db[hash(x)] == x
    }

    /** Only the genesis header has no parent in the store. */
    ghost predicate Closed() {
      && CollisionFree(hash)
      && Has(genesis) && genesis.number == 0
      && (forall h {:trigger Linked(h)} | h in db :: Linked(h))
    }

    /** The header stored under h has that hash and, unless it is the genesis header, a stored parent. */
    ghost predicate Linked(h: Hash)
      requires h in db
    {
      && hash(db[h]) == h
      && (db[h] != genesis ==> db[h].parent in db && db[h].number == db[db[h].parent].number + 1)
    }

    /** The stored parent of a header. */
    ghost function Parent(x: Header): (y: Header)
      requires Closed() && Has(x) && x != genesis
      ensures Has(y) && y.number + 1 == x.number && hash(y) == x.parent && db[x.parent] == y
    {
      assert Linked(hash(x));
      assert Linked(x.parent);
      db[x.parent]
    }

    /** The ancestors of x, from the genesis header up to x itself. */
    ghost function Path(x: Header): seq<Header>
      requires Closed() && Has(x)
      decreases x.number
    {
      if x == genesis then [x] else Path(Parent(x)) + [x]
    }

    lemma {:induction false} PathShape(x: Header)
      requires Closed() && Has(x)
      ensures |Path(x)| == x.number + 1 && Path(x)[x.number] == x && Path(x)[0] == genesis
      ensures forall i | 0 <= i <= x.number :: Has(Path(x)[i]) && Path(x)[i].number == i
      ensures forall i | 0 < i <= x.number :: Path(x)[i].parent == hash(Path(x)[i - 1])
      decreases x.number
    {
      if x != genesis {
        PathShape(Parent(x));
      }
    }

    /** Every initial part of a path is the path of its last header. */
    lemma {:induction false} PathPrefix(x: Header, i: nat)
      requires Closed() && Has(x) && i <= x.number
      ensures i < |Path(x)| && Has(Path(x)[i]) && Path(x)[..i + 1] == Path(Path(x)[i])
      decreases x.number
    {
      PathShape(x);
      if i == x.number {
        assert Path(x)[..i + 1] == Path(x);
      } else {
        PathPrefix(Parent(x), i);
        assert Path(x)[..i + 1] == Path(Parent(x))[..i + 1];
      }
    }

    /** Two paths that agree at a number agree below it. */
    lemma PathsAgreeBelow(x: Header, y: Header, i: nat)
      requires Closed() && Has(x) && Has(y) && i <= x.number && i <= y.number
      requires |Path(x)| == x.number + 1 && |Path(y)| == y.number + 1 && Path(x)[i] == Path(y)[i]
      ensures Path(x)[..i + 1] == Path(y)[..i + 1]
    {
      PathPrefix(x, i);
      PathPrefix(y, i);
    }

    ghost function Add(x: Header): Store {
      this.(db := db[hash(x) := x])
    }

    ghost predicate Attaches(x: Header) {
      x.number > 0 && x.parent in db && db[x.parent].number + 1 == x.number
    }

    lemma AddClosed(x: Header)
      requires Closed() && Attaches(x)
      ensures Add(x).Closed() && Add(x).Has(x)
      ensures forall y | Has(y) :: Add(x).Has(y)
    {
      if hash(x) in db {
        assert Linked(hash(x)) && NoCollision(hash, db[hash(x)], x);
      }
      forall h | h in Add(x).db ensures Add(x).Linked(h) {
        if h != hash(x) {
          assert Linked(h);
        }
      }
    }

    /** Storing a header does not change the path of another. */
    lemma {:induction false} AddKeepsPaths(x: Header, y: Header)
      requires Closed() && Attaches(x) && Has(y)
      ensures Add(x).Closed() && Add(x).Has(y) && Add(x).Path(y) == Path(y)
      decreases y.number
    {
      AddClosed(x);
      if y != genesis {
        AddKeepsPaths(x, Parent(y));
        assert Add(x).Parent(y) == Parent(y);
      }
    }

    /** Total difficulty: the sum along the ancestor path. */
    ghost function Total(x: Header): nat
      requires Closed() && Has(x)
    {
      Sum(Path(x))
    }

    lemma TotalOfChild(x: Header)
      requires Closed() && Attaches(x)
      ensures Add(x).Closed() && Add(x).Has(x)
      ensures Has(db[x.parent]) && Add(x).Total(x) == Total(db[x.parent]) + x.difficulty
    {
      AddClosed(x);
      assert Linked(x.parent);
      AddKeepsPaths(x, db[x.parent]);
      assert Add(x).Parent(x) == db[x.parent];
      var p := Path(db[x.parent]);
      assert Add(x).Path(x) == p + [x];
      assert (p + [x])[..|p|] == p;
    }
  }

  ghost function Sum(p: seq<Header>): nat {
    if p == [] then 0 else Sum(p[..|p| - 1]) + p[|p| - 1].difficulty
  }

  /** GetHeader: nil for an unknown hash or a number that is not the header's. */
  function GetHeader(db: map<Hash, Header>, h: Hash, n: int): Option<Header> {
    if h in db && db[h].number == n then Some(db[h]) else None
  }

  /**
    The header with number n that GetHeader leads to from x, parent by parent; nil if x lies below n
    or a parent is missing.
   */
  function Ancestor(db: map<Hash, Header>, x: Header, n: nat): Option<Header>
    decreases x.number
  {
    if x.number < n then None
    else if x.number == n then Some(x)
    else match GetHeader(db, x.parent, x.number - 1)
      case None => None
      case Some(y) => Ancestor(db, y, n)
  }

  /** Going down to n by way of m. */
  lemma {:induction false} AncestorVia(db: map<Hash, Header>, x: Header, m: nat, n: nat)
    requires n <= m
    ensures Ancestor(db, x, n) == if m > x.number then Ancestor(db, x, n)
                                  else if Ancestor(db, x, m).None? then None
                                      else Ancestor(db, Ancestor(db, x, m).value, n)
    ensures Ancestor(db, x, m).Some? ==> Ancestor(db, x, m).value.number == m
    decreases x.number
  {
    if m < x.number {
      var y := GetHeader(db, x.parent, x.number - 1);
      if y.Some? {
        AncestorVia(db, y.value, m, n);
      }
    }
  }

  /** Walks up the parents of x until their number is at most n. */
  method Lower(db: map<Hash, Header>, x: Header, n: nat) returns (r: Option<Header>)
    ensures r == if n < x.number then Ancestor(db, x, n) else Some(x)
  {
    var a := x;
    while a.number > n
      invariant if n < x.number then n <= a.number && Ancestor(db, x, n) == Ancestor(db, a, n) else a == x
    {
      var y := GetHeader(db, a.parent, a.number - 1);
      if y.None? {
        return None;
      }
      a := y.value;
    }
    return Some(a);
  }

  /** At number n both headers have an ancestor, and the two have the same hash. */
  ghost predicate SharedAt(store: Store, a: Header, b: Header, n: nat) {
    var x, y := Ancestor(store.db, a, n), Ancestor(store.db, b, n);
    x.Some? && y.Some? && store.hash(x.value) == store.hash(y.value)
  }

  /** r is the ancestor of a that is shared with b at the highest number, and nil if there is none. */
  ghost predicate HighestShared(store: Store, a: Header, b: Header, r: Option<Header>) {
    match r
    case None => forall n: nat :: !SharedAt(store, a, b, n)
    case Some(x) =>
      && Ancestor(store.db, a, x.number) == Some(x) && SharedAt(store, a, b, x.number)
      && forall n: nat | n > x.number :: !SharedAt(store, a, b, n)
  }

  /** Where one of two headers has no ancestor, nothing is shared there or below. */
  lemma NothingShared(store: Store, a: Header, b: Header, m: nat)
    requires m <= a.number && m <= b.number && (Ancestor(store.db, a, m).None? || Ancestor(store.db, b, m).None?)
    requires forall n: nat | n > m :: !SharedAt(store, a, b, n)
    ensures HighestShared(store, a, b, None)
  {
    forall n: nat ensures !SharedAt(store, a, b, n) {
      if n <= m {
        AncestorVia(store.db, a, m, n);
        AncestorVia(store.db, b, m, n);
      }
    }
  }

  /** FindCommonAncestor, in any store: the highest shared ancestor, or nil exactly if there is none. */
  method FindCommonAncestor(store: Store, a0: Header, b0: Header) returns (r: Option<Header>)
    ensures HighestShared(store, a0, b0, r)
  {
    var least := if a0.number < b0.number then a0.number else b0.number;
    var x := Lower(store.db, a0, b0.number);
    if x.None? {
      NothingShared(store, a0, b0, least);
      return None;
    }
    AncestorVia(store.db, a0, least, least);
    var y := Lower(store.db, b0, x.value.number);
    if y.None? {
      NothingShared(store, a0, b0, least);
      return None;
    }
    AncestorVia(store.db, b0, least, least);
    r := Meet(store, a0, b0, x.value, y.value, least);
  }

  /** Both go down in step until their hashes are the same. */
  method Meet(store: Store, ghost a0: Header, ghost b0: Header, a1: Header, b1: Header, ghost least: nat)
    returns (r: Option<Header>)
    requires least <= a0.number && least <= b0.number && (least == a0.number || least == b0.number)
    requires Ancestor(store.db, a0, least) == Some(a1) && Ancestor(store.db, b0, least) == Some(b1)
    requires a1.number == least == b1.number
    ensures HighestShared(store, a0, b0, r)
  {
    var a, b := a1, b1;
    while store.hash(a) != store.hash(b)
      invariant a.number == b.number <= least
      invariant Ancestor(store.db, a0, a.number) == Some(a) && Ancestor(store.db, b0, b.number) == Some(b)
      invariant forall n: nat | n > a.number :: !SharedAt(store, a0, b0, n)
      decreases a.number
    {
      assert !SharedAt(store, a0, b0, a.number);
      var x := GetHeader(store.db, a.parent, a.number - 1);
      var y := GetHeader(store.db, b.parent, b.number - 1);
      OneDown(store, a0, b0, a, b);
      if x.None? {
        return None;
      }
      if y.None? {
        return None;
      }
      a, b := x.value, y.value;
    }
    return Some(a);
  }

  lemma OneDown(store: Store, a0: Header, b0: Header, a: Header, b: Header)
    requires a.number == b.number <= a0.number && b.number <= b0.number
    requires Ancestor(store.db, a0, a.number) == Some(a) && Ancestor(store.db, b0, b.number) == Some(b)
    requires forall n: nat | n >= a.number :: !SharedAt(store, a0, b0, n)
    ensures var x, y := GetHeader(store.db, a.parent, a.number - 1), GetHeader(store.db, b.parent, b.number - 1);
            if x.Some? && y.Some?
            then a.number > 0 && Ancestor(store.db, a0, a.number - 1) == x && Ancestor(store.db, b0, b.number - 1) == y
            else HighestShared(store, a0, b0, None)
  {
    if a.number > 0 {
      AncestorVia(store.db, a0, a.number, a.number - 1);
      AncestorVia(store.db, b0, b.number, b.number - 1);
      var x, y := GetHeader(store.db, a.parent, a.number - 1), GetHeader(store.db, b.parent, b.number - 1);
      if x.None? || y.None? {
        NothingShared(store, a0, b0, a.number - 1);
      }
    }
  }

  /** In a store with all parents, ancestors are the headers of the path. */
  lemma {:induction false} AncestorOnPath(store: Store, x: Header, n: nat)
    requires store.Closed() && store.Has(x) && n <= x.number
    ensures |store.Path(x)| == x.number + 1 && Ancestor(store.db, x, n) == Some(store.Path(x)[n])
    decreases x.number
  {
    store.PathShape(x);
    if n < x.number {
      AncestorOnPath(store, store.Parent(x), n);
    }
  }

  /**
    In a store with all parents there always is a highest shared ancestor: the
    two paths agree up to it and, above it, nowhere.
   */
  lemma PathsPart(store: Store, a: Header, b: Header, r: Option<Header>)
    requires store.Closed() && store.Has(a) && store.Has(b) && HighestShared(store, a, b, r)
    ensures r.Some? && store.Has(r.value)
    ensures var n := r.value.number;
            && n <= a.number && n <= b.number
            && |store.Path(a)| == a.number + 1 && |store.Path(b)| == b.number + 1
            && store.Path(a)[..n + 1] == store.Path(b)[..n + 1] == store.Path(r.value)
            && forall i | n < i <= a.number && i <= b.number :: store.Path(a)[i] != store.Path(b)[i]
  {
    var p, q := store.Path(a), store.Path(b);
    store.PathShape(a);
    store.PathShape(b);
    AncestorOnPath(store, a, 0);
    AncestorOnPath(store, b, 0);
    assert SharedAt(store, a, b, 0);
    var n := r.value.number;
    AncestorBelow(store.db, a, n);
    AncestorBelow(store.db, b, n);
    AncestorOnPath(store, a, n);
    AncestorOnPath(store, b, n);
    assert NoCollision(store.hash, p[n], q[n]);
    store.PathsAgreeBelow(a, b, n);
    store.PathPrefix(a, n);
    forall i | n < i <= a.number && i <= b.number ensures p[i] != q[i] {
      AncestorOnPath(store, a, i);
      AncestorOnPath(store, b, i);
      assert !SharedAt(store, a, b, i);
    }
  }

  lemma AncestorBelow(db: map<Hash, Header>, x: Header, n: nat)
    ensures Ancestor(db, x, n).Some? ==> n <= x.number
  {
  }

  /** Walking down a path with GetHeader never misses, until the genesis header. */
  lemma ParentOnPath(store: Store, x: Header, i: nat)
    requires store.Closed() && store.Has(x) && i < |store.Path(x)|
    ensures store.Path(x)[i].number == i
    ensures i > 0 ==> GetHeader(store.db, store.Path(x)[i].parent, i - 1) == Some(store.Path(x)[i - 1])
    ensures i > 0 ==> store.Path(x)[i - 1].number == i - 1
    ensures i == 0 ==> store.Path(x)[i] == store.genesis
  {
    store.PathShape(x);
  }
}
