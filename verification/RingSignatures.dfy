/**
  Ring signatures and one-time keys (crypto/crypto.go) over an arbitrary group
  of the given order. Keccak is an arbitrary function: `point` hashes one point,
  `digest` a message followed by points, both to numbers. Randomness is a
  parameter.
 */
module RingSignatures {
  import opened Options
  import opened ByteStrings
  import opened Groups
  import opened Residues

  datatype Scheme<!G> = Scheme(group: Group<G>, point: G -> nat, digest: (Bytes, seq<G>) -> nat)

  datatype Signature<G> = Signature(keys: seq<G>, image: G, w: seq<nat>, q: seq<nat>)

  /** xScalarHashP: x times the point times its hash. */
  function HashMul<G>(s: Scheme<G>, x: nat, p: G): G {
    Mul(s.group, x, Mul(s.group, s.point(p), p))
  }

  // ---------- signing and verifying as functions ----------

  /** The points that the verifier computes for member i: [qi]G+[wi]Pi and [qi]Hash(Pi)+[wi]I. */
  function Left<G>(s: Scheme<G>, p: G, w: nat, q: nat): G {
    s.group.add(Mul(s.group, q, s.group.base), Mul(s.group, w, p))
  }

  function Right<G>(s: Scheme<G>, p: G, image: G, w: nat, q: nat): G {
    s.group.add(HashMul(s, q, p), Mul(s.group, w, image))
  }

  /** The points that the signer computes: at its own position without the second term. */
  function SignedLeft<G>(s: Scheme<G>, p: G, w: nat, q: nat, own: bool): G {
    if own then Mul(s.group, q, s.group.base) else Left(s, p, w, q)
  }

  function SignedRight<G>(s: Scheme<G>, p: G, image: G, w: nat, q: nat, own: bool): G {
    if own then HashMul(s, q, p) else Right(s, p, image, w, q)
  }

  function Swap<T>(a: seq<T>, i: nat): seq<T>
    requires i < |a|
  {
    a[0 := a[i]][i := a[0]]
  }

  ghost function SumMod(w: seq<nat>, n: nat): nat
    requires n > 0
  {
    if w == [] then 0 else (SumMod(w[..|w| - 1], n) + w[|w| - 1]) % n
  }

  ghost function Lefts<G>(s: Scheme<G>, keys: seq<G>, w: seq<nat>, q: seq<nat>): seq<G>
    requires |keys| == |w| == |q|
  {
    seq(|keys|, i requires 0 <= i < |keys| => Left(s, keys[i], w[i], q[i]))
  }

  ghost function Rights<G>(s: Scheme<G>, keys: seq<G>, image: G, w: seq<nat>, q: seq<nat>): seq<G>
    requires |keys| == |w| == |q|
  {
    seq(|keys|, i requires 0 <= i < |keys| => Right(s, keys[i], image, w[i], q[i]))
  }

  ghost predicate Accepts<G>(s: Scheme<G>, m: Bytes, sig: Signature<G>)
    requires s.group.order > 0
  {
    && sig.keys != [] && |sig.keys| == |sig.w| == |sig.q|
    && s.digest(m, Lefts(s, sig.keys, sig.w, sig.q) + Rights(s, sig.keys, sig.image, sig.w, sig.q)) % s.group.order
       == SumMod(sig.w, s.group.order)
  }

  /** VerifyRingSign. */
  method VerifyRingSign<G>(s: Scheme<G>, m: Bytes, sig: Signature<G>) returns (ok: bool)
    requires s.group.order > 0
    ensures ok <==> Accepts(s, m, sig)
  {
    var n := |sig.keys|;
    if n == 0 || n != |sig.w| || n != |sig.q| {
      return false;
    }
    var sum, lefts := AddLefts(s, sig.keys, sig.w, sig.q);
    var points := AddRights(s, sig.keys, sig.image, sig.w, sig.q, lefts);
    ok := s.digest(m, points) % s.group.order == sum;
  }

  method AddLefts<G>(s: Scheme<G>, keys: seq<G>, w: seq<nat>, q: seq<nat>) returns (sum: nat, points: seq<G>)
    requires s.group.order > 0 && |keys| == |w| == |q|
    ensures sum == SumMod(w, s.group.order) && points == Lefts(s, keys, w, q)
  {
    sum, points := 0, [];
    for i := 0 to |keys|
      invariant sum == SumMod(w[..i], s.group.order)
      invariant points == Lefts(s, keys, w, q)[..i]
    {
      assert w[..i + 1][..i] == w[..i];
      sum := (sum + w[i]) % s.group.order;
      points := points + [Left(s, keys[i], w[i], q[i])];
    }
    assert w[..|keys|] == w;
  }

  method AddRights<G>(s: Scheme<G>, keys: seq<G>, image: G, w: seq<nat>, q: seq<nat>, lefts: seq<G>)
    returns (points: seq<G>)
    requires |keys| == |w| == |q|
    ensures points == lefts + Rights(s, keys, image, w, q)
  {
    ghost var rights := Rights(s, keys, image, w, q);
    points := lefts;
    for i := 0 to |keys|
      invariant points == lefts + rights[..i]
    {
      assert rights[..i + 1] == rights[..i] + [rights[i]];
      points := points + [Right(s, keys[i], image, w[i], q[i])];
    }
    assert rights[..|keys|] == rights;
  }

  // ---------- signing ----------

  ghost function SignedLefts<G>(s: Scheme<G>, keys: seq<G>, w: seq<nat>, q: seq<nat>, pos: nat): seq<G>
    requires |keys| == |w| == |q|
  {
    seq(|keys|, i requires 0 <= i < |keys| => SignedLeft(s, keys[i], w[i], q[i], i == pos))
  }

  ghost function SignedRights<G>(s: Scheme<G>, keys: seq<G>, image: G, w: seq<nat>, q: seq<nat>, pos: nat): seq<G>
    requires |keys| == |w| == |q|
  {
    seq(|keys|, i requires 0 <= i < |keys| => SignedRight(s, keys[i], image, w[i], q[i], i == pos))
  }

  /** What the signer sums up: all but its own w. */
  ghost function OthersSum(w: seq<nat>, pos: nat, n: nat): nat
    requires n > 0
  {
    if w == [] then 0
    else if |w| - 1 == pos then OthersSum(w[..|w| - 1], pos, n)
    else (OthersSum(w[..|w| - 1], pos, n) + w[|w| - 1]) % n
  }

  ghost function Signed<G>(s: Scheme<G>, m: Bytes, x: nat, keys: seq<G>, pos: nat, w: seq<nat>,
      q: seq<nat>): Signature<G>
    requires s.group.order > 0 && pos < |keys| == |w| == |q|
  {
    var image := HashMul(s, x, keys[0]);
    var ring := Swap(keys, pos);
    var h := s.digest(m, SignedLefts(s, ring, w, q, pos) + SignedRights(s, ring, image, w, q, pos));
    Close(s.group.order, ring, image, w, q, pos, x, (h - OthersSum(w, pos, s.group.order)) % s.group.order)
  }

  /** The ring is closed at the signer's position with the challenge c that the digest leaves for it. */
  function Close<G>(order: nat, ring: seq<G>, image: G, w: seq<nat>, q: seq<nat>, pos: nat, x: nat,
      c: nat): Signature<G>
    requires order > 0 && pos < |w| == |q|
  {
    Signature(ring, image, w[pos := c], q[pos := (q[pos] - c * x) % order])
  }

  /** RingSign, with the position of the real key and the random numbers as parameters. */
  method RingSign<G>(s: Scheme<G>, m: Bytes, x: nat, keys: seq<G>, pos: nat, w: seq<nat>, q: seq<nat>)
    returns (r: Option<Signature<G>>)
    requires s.group.order > 0 && |keys| == |w| == |q| && (keys != [] ==> pos < |keys|)
    ensures r == if keys == [] then None else Some(Signed(s, m, x, keys, pos, w, q))
  {
    if keys == [] {
      return None;
    }
    var image, ring := HashMul(s, x, keys[0]), Swap(keys, pos);
    var sum, lefts := SumLefts(s, ring, pos, w, q);
    var rights := CollectRights(s, ring, image, pos, w, q);
    var c := (s.digest(m, lefts + rights) - sum) % s.group.order;
    r := Some(Close(s.group.order, ring, image, w, q, pos, x, c));
  }

  method SumLefts<G>(s: Scheme<G>, ring: seq<G>, pos: nat, w: seq<nat>, q: seq<nat>) returns (sum: nat, points: seq<G>)
    requires s.group.order > 0 && |ring| == |w| == |q|
    ensures sum == OthersSum(w, pos, s.group.order) && points == SignedLefts(s, ring, w, q, pos)
  {
    sum, points := 0, [];
    for i := 0 to |ring|
      invariant sum == OthersSum(w[..i], pos, s.group.order)
      invariant points == SignedLefts(s, ring, w, q, pos)[..i]
    {
      assert w[..i + 1][..i] == w[..i];
      var left := Mul(s.group, q[i], s.group.base);
      if i != pos {
        left := s.group.add(left, Mul(s.group, w[i], ring[i]));
        sum := (sum + w[i]) % s.group.order;
      }
      points := points + [left];
    }
    assert w[..|ring|] == w;
  }

  method CollectRights<G>(s: Scheme<G>, ring: seq<G>, image: G, pos: nat, w: seq<nat>, q: seq<nat>)
    returns (points: seq<G>)
    requires |ring| == |w| == |q|
    ensures points == SignedRights(s, ring, image, w, q, pos)
  {
    points := [];
    for i := 0 to |ring|
      invariant points == SignedRights(s, ring, image, w, q, pos)[..i]
    {
      var right := HashMul(s, q[i], ring[i]);
      if i != pos {
        right := s.group.add(right, Mul(s.group, w[i], image));
      }
      points := points + [right];
    }
  }

  // ---------- completeness ----------

  /** Scalars with the same residue make the same multiples. */
  lemma SameResidue<G(!new)>(g: Group<G>, j: nat, k: nat, p: G)
    requires Lawful(g) && j % g.order == k % g.order
    ensures Mul(g, j, p) == Mul(g, k, p)
  {
    MulMod(g, j, p);
    MulMod(g, k, p);
  }

  /** What was taken off a scalar, modulo the order, is made up for by adding it again. */
  lemma AddBack<G(!new)>(g: Group<G>, q: nat, m: nat, r: nat, p: G)
    requires Lawful(g) && r == (q - m) % g.order
    ensures g.add(Mul(g, r, p), Mul(g, m, p)) == Mul(g, q, p)
  {
    MulAdd(g, r, m, p);
    ModBack(q, m, g.order);
    SameResidue(g, r + m, q, p);
  }

  /** The term that the signer left out is made up for by its own response. */
  lemma OwnTerm<G(!new)>(g: Group<G>, q: nat, c: nat, x: nat, r: nat, p: G)
    requires Lawful(g) && r == (q - c * x) % g.order
    ensures g.add(Mul(g, r, p), Mul(g, c, Mul(g, x, p))) == Mul(g, q, p)
  {
    MulMul(g, c, x, p);
    AddBack(g, q, c * x, r, p);
  }

  lemma {:induction false} OthersAndOwn(w: seq<nat>, pos: nat, c: nat, n: nat)
    requires n > 0 && pos < |w|
    ensures SumMod(w[pos := c], n) == (OthersSum(w, pos, n) + c) % n
  {
    var last := |w| - 1;
    var w' := w[pos := c];
    if pos == last {
      assert w'[..last] == w[..last];
      OthersBefore(w[..last], pos, n);
    } else {
      assert w'[..last] == w[..last][pos := c];
      OthersAndOwn(w[..last], pos, c, n);
      var o := OthersSum(w[..last], pos, n);
      ModAdd(o + c, w[last], n);
      ModAdd(o + w[last], c, n);
      assert o + c + w[last] == o + w[last] + c;
    }
  }

  lemma {:induction false} OthersBefore(w: seq<nat>, pos: nat, n: nat)
    requires n > 0 && |w| <= pos
    ensures OthersSum(w, pos, n) == SumMod(w, n)
  {
    if w != [] {
      OthersBefore(w[..|w| - 1], pos, n);
    }
  }

  /** The verifier computes the points that the signer computed. */
  lemma SamePoints<G(!new)>(s: Scheme<G>, ring: seq<G>, x: nat, pos: nat, w: seq<nat>, q: seq<nat>, c: nat)
    requires Lawful(s.group) && pos < |ring| == |w| == |q| && ring[pos] == Mul(s.group, x, s.group.base)
    ensures var image := HashMul(s, x, ring[pos]);
            var w', q' := w[pos := c], q[pos := (q[pos] - c * x) % s.group.order];
            && Lefts(s, ring, w', q') == SignedLefts(s, ring, w, q, pos)
            && Rights(s, ring, image, w', q') == SignedRights(s, ring, image, w, q, pos)
  {
    var r := (q[pos] - c * x) % s.group.order;
    OwnTerm(s.group, q[pos], c, x, r, s.group.base);
    OwnTerm(s.group, q[pos], c, x, r, Mul(s.group, s.point(ring[pos]), ring[pos]));
  }

  /** Every signature made with the key behind the first member of the ring is accepted. */
  lemma Completeness<G(!new)>(s: Scheme<G>, m: Bytes, x: nat, keys: seq<G>, pos: nat, w: seq<nat>, q: seq<nat>)
    requires Lawful(s.group) && pos < |keys| == |w| == |q| && keys[0] == Mul(s.group, x, s.group.base)
    ensures Accepts(s, m, Signed(s, m, x, keys, pos, w, q))
  {
    var n := s.group.order;
    var ring, image := Swap(keys, pos), HashMul(s, x, keys[0]);
    var h: int := s.digest(m, SignedLefts(s, ring, w, q, pos) + SignedRights(s, ring, image, w, q, pos));
    var others: int := OthersSum(w, pos, n);
    var c := (h - others) % n;
    SamePoints(s, ring, x, pos, w, q, c);
    OthersAndOwn(w, pos, c, n);
    ModBack(h, others, n);
    assert (others + c) % n == (c + others) % n;
  }

  // ---------- one-time keys ----------

  /** generateA1: [hash([r]B)]G + A. */
  function OneTimeAddress<G>(s: Scheme<G>, r: nat, a: G, b: G): G {
    s.group.add(Mul(s.group, s.point(Mul(s.group, r, b)), s.group.base), a)
  }

  predicate CompareA1<G(==)>(s: Scheme<G>, b: nat, a: G, r: G, a1: G) {
    OneTimeAddress(s, b, a, r) == a1
  }

  /** GenerateOneTimePrivateKey2528: hash([b]R) + a modulo the order. */
  function OneTimeKey<G>(s: Scheme<G>, a: nat, b: nat, r: G): nat
    requires s.group.order > 0
  {
    (s.point(Mul(s.group, b, r)) + a) % s.group.order
  }

  /** The receiver's derived key is the key of the address that the sender made, and the receiver recognises it. */
  lemma OneTimeKeyOpens<G(!new)>(s: Scheme<G>, a: nat, b: nat, r: nat)
    requires Lawful(s.group)
    ensures var A, B, R := Mul(s.group, a, s.group.base), Mul(s.group, b, s.group.base), Mul(s.group, r, s.group.base);
            var A1 := OneTimeAddress(s, r, A, B);
            && Mul(s.group, OneTimeKey(s, a, b, R), s.group.base) == A1
            && CompareA1(s, b, A, R, A1)
  {
    MulCommutes(s.group, r, b, s.group.base);
    var k := s.point(Mul(s.group, b, Mul(s.group, r, s.group.base)));
    MulMod(s.group, k + a, s.group.base);
    MulAdd(s.group, k, a, s.group.base);
  }

  /** A stamp sent to a one-time address can be spent: its key signs for any ring that the address heads. */
  lemma OneTimeKeySigns<G(!new)>(s: Scheme<G>, m: Bytes, a: nat, b: nat, r: nat, keys: seq<G>, pos: nat, w: seq<nat>,
      q: seq<nat>)
    requires Lawful(s.group) && pos < |keys| == |w| == |q|
    requires keys[0] == OneTimeAddress(s, r, Mul(s.group, a, s.group.base), Mul(s.group, b, s.group.base))
    ensures Accepts(s, m, Signed(s, m, OneTimeKey(s, a, b, Mul(s.group, r, s.group.base)), keys, pos, w, q))
  {
    OneTimeKeyOpens(s, a, b, r);
    Completeness(s, m, OneTimeKey(s, a, b, Mul(s.group, r, s.group.base)), keys, pos, w, q);
  }
}
