/**
  HeaderChain.WriteHeader (core/headerchain.go): storing a header, the fork
  choice, and keeping the number-to-hash index on the ancestor path of the head.
 */
module HeaderChains {
  import opened Options
  import opened HeaderStore

  datatype Status = UnknownAncestor | Canonical | Side

  /** The index that assigns to every number up to the head the hash on the head's path. */
  ghost function Index(hash: Header -> Hash, p: seq<Header>): map<nat, Hash> {
    map n: nat | n < |p| :: hash(p[n])
  }

  /** A total difficulty is stored for exactly the stored headers, and it is the sum along their path. */
  ghost predicate TotalsStored(v: Store, td: map<(Hash, nat), nat>)
    requires v.Closed()
  {
    && (forall h, n | (h, n) in td :: h in v.db && v.db[h].number == n)
    && (forall x | v.Has(x) :: (v.hash(x), x.number) in td && td[(v.hash(x), x.number)] == v.Total(x))
  }

  lemma AddTotal(v: Store, td: map<(Hash, nat), nat>, x: Header)
    requires v.Closed() && v.Attaches(x) && TotalsStored(v, td)
    ensures v.Add(x).Closed() && v.Has(v.db[x.parent])
    ensures TotalsStored(v.Add(x), td[(v.hash(x), x.number) := v.Total(v.db[x.parent]) + x.difficulty])
  {
    v.TotalOfChild(x);
    var w := v.Add(x);
    var td' := td[(v.hash(x), x.number) := v.Total(v.db[x.parent]) + x.difficulty];
    forall y | w.Has(y) ensures (w.hash(y), y.number) in td' && td'[(w.hash(y), y.number)] == w.Total(y) {
      if y != x {
        assert v.Has(y);
        v.AddKeepsPaths(x, y);
      }
    }
    if v.hash(x) in v.db {
      assert v.Linked(v.hash(x)) && NoCollision(v.hash, v.db[v.hash(x)], x);
    }
  }

  /** Storing an attached header and its total difficulty keeps the store sound and every path as it was. */
  lemma AddHeader(v: Store, td: map<(Hash, nat), nat>, x: Header, y: Header)
    requires v.Closed() && v.Attaches(x) && TotalsStored(v, td) && v.Has(y)
    ensures var w := v.Add(x);
            && v.Has(v.db[x.parent])
            && w.Closed() && w.Has(x) && w.Has(y) && w.Path(y) == v.Path(y) && |w.Path(y)| == y.number + 1
            && TotalsStored(w, td[(v.hash(x), x.number) := v.Total(v.db[x.parent]) + x.difficulty])
            && w.Total(x) == v.Total(v.db[x.parent]) + x.difficulty
            && x != w.genesis
  {
    AddTotal(v, td, x);
    v.TotalOfChild(x);
    v.AddClosed(x);
    v.AddKeepsPaths(x, y);
    v.Add(x).PathShape(y);
  }

  /** A header attaches exactly when its parent's total difficulty is known. */
  lemma AttachesByTotal(v: Store, td: map<(Hash, nat), nat>, x: Header)
    requires v.Closed() && TotalsStored(v, td)
    ensures v.Attaches(x) <==> x.number > 0 && (x.parent, x.number - 1) in td
    ensures v.Attaches(x) ==> v.Has(v.db[x.parent]) && td[(x.parent, x.number - 1)] == v.Total(v.db[x.parent])
  {
    if x.parent in v.db {
      assert v.Linked(x.parent);
      assert v.Has(v.db[x.parent]);
    }
  }

  /**
    The fork choice: before the proof-of-stake stage more total difficulty wins,
    with a coin for ties; in it, more height.
   */
  predicate Beats(pos: bool, number: nat, head: nat, extern: nat, local: nat, coin: bool) {
    || (!pos && (extern > local || (extern == local && coin)))
    || (pos && head < number)
  }

  /** All parents are stored, and the number index and the total difficulties are those of the paths. */
  ghost predicate Consistent(v: Store, td: map<(Hash, nat), nat>, canon: map<nat, Hash>, current: Header) {
    && v.Closed() && v.Has(current)
    && canon == Index(v.hash, v.Path(current))
    && TotalsStored(v, td)
  }

  /** The database that setting up a genesis block leaves. */
  lemma GenesisConsistent(hash: Header -> Hash, genesis: Header)
    requires genesis.number == 0 && CollisionFree(hash)
    ensures var h := hash(genesis);
            Consistent(Store(hash, genesis, map[h := genesis]), map[(h, 0) := genesis.difficulty], map[0 := h], genesis)
  {
    var v := Store(hash, genesis, map[hash(genesis) := genesis]);
    assert v.Linked(hash(genesis));
    assert v.Path(genesis) == [genesis];
    assert Sum([genesis]) == Sum([genesis][..0]) + genesis.difficulty;
  }

  /**
    NewHeaderChain on any database: it fails exactly without a genesis header,
    starts at the head that the database names, or at the genesis header if that
    is not stored, and is valid if the database was consistent.
   */
  method NewHeaderChain(hash: Header -> Hash, posActive: bool, db: map<Hash, Header>, td: map<(Hash, nat), nat>,
                        canon: map<nat, Hash>, head: Hash) returns (r: Option<HeaderChain>)
    ensures r.Some? <==> 0 in canon && GetHeader(db, canon[0], 0).Some?
    ensures r.Some? ==>
              && fresh(r.value) && r.value.hash == hash && r.value.posActive == posActive
              && r.value.genesis == db[canon[0]]
                 && r.value.current == (if head != 0 && head in db then db[head] else r.value.genesis)
              && r.value.db == db && r.value.td == td && r.value.canon == canon
              && (r.value.Valid() <==> Consistent(Store(hash, db[canon[0]], db), td, canon, r.value.current))
  {
    if 0 !in canon {
      return None;
    }
    var genesis := GetHeader(db, canon[0], 0);
    if genesis.None? {
      return None;
    }
    var current := if head != 0 && head in db then db[head] else genesis.value;
    var hc := new HeaderChain(hash, genesis.value, posActive, db, td, canon, current);
    return Some(hc);
  }

  class HeaderChain {
    const hash: Header -> Hash
    const genesis: Header
    var posActive: bool
    var db: map<Hash, Header>
    var td: map<(Hash, nat), nat>
    var canon: map<nat, Hash>
    var current: Header

    ghost function View(): Store
      reads this
    {
      Store(hash, genesis, db)
    }

    ghost predicate Valid()
      reads this
    {
      Consistent(View(), td, canon, current)
    }

    /** GetTd: nil for a pair that was never written. */
    function GetTd(h: Hash, n: int): Option<nat>
      reads this
    {
      if n >= 0 && (h, n) in td then Some(td[(h, n)]) else None
    }

    constructor (hash: Header -> Hash, genesis: Header, posActive: bool, db: map<Hash, Header>,
                 td: map<(Hash, nat), nat>, canon: map<nat, Hash>, current: Header)
      ensures this.hash == hash && this.genesis == genesis && this.posActive == posActive
      ensures this.db == db && this.td == td && this.canon == canon && this.current == current
    {
      this.hash, this.genesis, this.posActive := hash, genesis, posActive;
      this.db, this.td, this.canon, this.current := db, td, canon, current;
    }

    /** The fork choice in terms of the sums of difficulties along the two paths. */
    ghost predicate Wins(header: Header, coin: bool)
      requires Valid() && View().Attaches(header)
      reads this
    {
      AttachesByTotal(View(), td, header);
      Beats(posActive, header.number, current.number,
            View().Total(db[header.parent]) + header.difficulty, View().Total(current), coin)
    }

    method WriteHeader(header: Header, coin: bool) returns (status: Status)
      requires Valid()
      modifies this`db, this`td, this`canon, this`current
      ensures Valid()
      ensures status == UnknownAncestor <==> !old(View()).Attaches(header)
      ensures status == UnknownAncestor ==>
                db == old(db) && td == old(td) && canon == old(canon) && current == old(current)
      ensures status != UnknownAncestor ==> View() == old(View()).Add(header)
      ensures status == Canonical <==> old(View()).Attaches(header) && old(Wins(header, coin))
      ensures current == if status == Canonical then header else old(current)
      ensures !posActive ==> View().Total(current) >= old(View().Total(current))
      ensures posActive && status == Canonical ==> current.number > old(current).number
    {
      AttachesByTotal(View(), td, header);
      var ptd := GetTd(header.parent, header.number - 1);
      if ptd.None? {
        return UnknownAncestor;
      }
      var externTd, localTd := Record(header, ptd.value);
      if Beats(posActive, header.number, current.number, externTd, localTd, coin) {
        Adopt(header);
        status := Canonical;
      } else {
        status := Side;
      }
    }

    /** The header and its total difficulty are stored, whoever wins. */
    method Record(header: Header, ptd: nat) returns (externTd: nat, localTd: nat)
      requires Valid() && View().Attaches(header) && View().Has(db[header.parent])
      requires ptd == View().Total(db[header.parent])
      modifies this`db, this`td
      ensures Valid() && View() == old(View()).Add(header) && View().Has(header) && header != genesis
      ensures externTd == View().Total(header) == old(View().Total(db[header.parent])) + header.difficulty
      ensures localTd == View().Total(current) == old(View().Total(current))
    {
      AddHeader(View(), td, header, current);
      localTd := td[(hash(current), current.number)];
      externTd := header.difficulty + ptd;
      td := td[(hash(header), header.number) := externTd];
      db := db[hash(header) := header];
    }

    /** Make a stored header the head. */
    method Adopt(header: Header)
      requires View().Closed() && View().Has(header) && View().Has(current) && header != genesis
      requires canon == Index(hash, View().Path(current))
      modifies this`canon, this`current
      ensures current == header && canon == Index(hash, View().Path(header))
    {
      View().PathShape(current);
      DeleteAbove(header.number, View().Path(current));
      Reroute(header, current);
      current := header;
    }

    /** Index entries above the new head go. */
    method DeleteAbove(number: nat, ghost p: seq<Header>)
      requires canon == Index(hash, p)
      modifies this`canon
      ensures canon == Index(hash, if number < |p| then p[..number + 1] else p)
    {
      var i := number + 1;
      while i in canon
        invariant i > number
        invariant canon == map n: nat | n < |p| && !(number < n < i) :: hash(p[n])
        decreases |p| - i
      {
        canon := canon - {i};
        i := i + 1;
      }
    }

    /** Entries off the new path are rewritten downwards until one agrees, and the new head is added. */
    method Reroute(header: Header, ghost x: Header)
      requires View().Closed() && View().Has(header) && View().Has(x) && header != genesis
      requires var p := View().Path(x);
               canon == Index(hash, if header.number < |p| then p[..header.number + 1] else p)
      modifies this`canon
      ensures canon == Index(hash, View().Path(header))
    {
      ghost var v := View();
      ghost var p, q := v.Path(x), v.Path(header);
      v.PathShape(x);
      v.PathShape(header);
      var number := header.number;
      var headHash, headNumber := header.parent, number - 1;
      ParentOnPath(v, header, number);
      var headHeader := GetHeader(db, headHash, headNumber);
      MixedStart(hash, p, q);
      while !(headNumber in canon && canon[headNumber] == headHash)
        invariant 0 <= headNumber < number
        invariant headHash == hash(q[headNumber]) && headHeader == Some(q[headNumber])
        invariant canon == Mixed(hash, p, q, headNumber)
        decreases headNumber
      {
        assert headNumber > 0;
        ParentOnPath(v, header, headNumber);
        MixedStep(hash, p, q, headNumber);
        canon := canon[headNumber := headHash];
        headHash, headNumber := headHeader.value.parent, headHeader.value.number - 1;
        headHeader := GetHeader(db, headHash, headNumber);
      }
      assert NoCollision(hash, p[headNumber], q[headNumber]);
      v.PathsAgreeBelow(x, header, headNumber);
      MixedDone(hash, p, q, headNumber);
      canon := canon[number := hash(header)];
    }
  }

  /** Numbers above m and below the new head are on the new path q already, the others still on p. */
  ghost function Mixed(hash: Header -> Hash, p: seq<Header>, q: seq<Header>, m: nat): map<nat, Hash> {
    map n: nat | n < |p| + |q| && n < |q| && (m < n < |q| - 1 || n < |p|) ::
      if m < n < |q| - 1 then hash(q[n]) else hash(p[n])
  }

  lemma MixedStart(hash: Header -> Hash, p: seq<Header>, q: seq<Header>)
    requires |q| >= 2
    ensures Index(hash, if |q| <= |p| then p[..|q|] else p) == Mixed(hash, p, q, |q| - 2)
  {
  }

  lemma MixedStep(hash: Header -> Hash, p: seq<Header>, q: seq<Header>, m: nat)
    requires 0 < m < |q| - 1
    ensures Mixed(hash, p, q, m)[m := hash(q[m])] == Mixed(hash, p, q, m - 1)
  {
  }

  lemma MixedDone(hash: Header -> Hash, p: seq<Header>, q: seq<Header>, m: nat)
    requires m < |q| - 1 && m < |p| && p[..m + 1] == q[..m + 1]
    ensures Mixed(hash, p, q, m)[|q| - 1 := hash(q[|q| - 1])] == Index(hash, q)
  {
    forall n | 0 <= n <= m ensures p[n] == q[n] {
      assert p[n] == p[..m + 1][n] == q[..m + 1][n];
    }
  }
}
