/**
  The group that the ring signatures live in: an associative addition with a
  neutral element, in which every element vanishes after `order` additions.
  Scalar multiplication is repeated addition.
 */
module Groups {
  datatype Group<!G> = Group(add: (G, G) -> G, zero: G, base: G, order: nat)

  function Mul<G>(g: Group<G>, k: nat, p: G): G {
    if k == 0 then g.zero else g.add(p, Mul(g, k - 1, p))
  }

  ghost predicate Associates<G>(g: Group<G>, a: G, b: G, c: G) {
    g.add(g.add(a, b), c) == g.add(a, g.add(b, c))
  }

  ghost predicate Neutral<G>(g: Group<G>, a: G) {
    g.add(g.zero, a) == a && g.add(a, g.zero) == a
  }

  ghost predicate Vanishes<G>(g: Group<G>, a: G) {
    Mul(g, g.order, a) == g.zero
  }

  ghost predicate Lawful<G(!new)>(g: Group<G>) {
    && g.order > 1
    && (forall a, b, c {:trigger Associates(g, a, b, c)} :: Associates(g, a, b, c))
    && (forall a {:trigger Neutral(g, a)} :: Neutral(g, a))
    && (forall a {:trigger Vanishes(g, a)} :: Vanishes(g, a))
  }

  lemma {:induction false} MulAdd<G(!new)>(g: Group<G>, j: nat, k: nat, p: G)
    requires Lawful(g)
    ensures Mul(g, j + k, p) == g.add(Mul(g, j, p), Mul(g, k, p))
  {
    if j == 0 {
      assert Neutral(g, Mul(g, k, p));
    } else {
      MulAdd(g, j - 1, k, p);
      assert Associates(g, p, Mul(g, j - 1, p), Mul(g, k, p));
    }
  }

  lemma Distribute(j: nat, k: nat)
    requires j > 0
    ensures j * k == k + (j - 1) * k && (j - 1) * k >= 0
  {
  }

  lemma {:induction false} MulMul<G(!new)>(g: Group<G>, j: nat, k: nat, p: G)
    requires Lawful(g)
    ensures Mul(g, j, Mul(g, k, p)) == Mul(g, j * k, p)
  {
    if j > 0 {
      MulMul(g, j - 1, k, p);
      Distribute(j, k);
      MulAdd(g, k, (j - 1) * k, p);
    }
  }

  lemma {:induction false} MulPeriod<G(!new)>(g: Group<G>, k: nat, n: nat, p: G)
    requires Lawful(g)
    ensures Mul(g, k + n * g.order, p) == Mul(g, k, p)
  {
    if n > 0 {
      MulPeriod(g, k, n - 1, p);
      Distribute(n, g.order);
      MulAdd(g, g.order, k + (n - 1) * g.order, p);
      assert Vanishes(g, p) && Neutral(g, Mul(g, k, p));
    }
  }

  /** Only the residue of a scalar matters. */
  lemma MulMod<G(!new)>(g: Group<G>, k: nat, p: G)
    requires Lawful(g)
    ensures Mul(g, k % g.order, p) == Mul(g, k, p)
  {
    var n := k / g.order;
    assert k == k % g.order + n * g.order;
    MulPeriod(g, k % g.order, n, p);
  }

  /** Scalars commute. */
  lemma MulCommutes<G(!new)>(g: Group<G>, j: nat, k: nat, p: G)
    requires Lawful(g)
    ensures Mul(g, j, Mul(g, k, p)) == Mul(g, k, Mul(g, j, p))
  {
    MulMul(g, j, k, p);
    MulMul(g, k, j, p);
    assert j * k == k * j;
  }
}
