/**
  Hasher.Write (bmt/bmt.go): how the hashing thread cuts what is written to it.

  `launched` records the goroutines started so far, as the arguments of
  writeSegment. However the data is split into Write calls, the launches and the
  open segment are those of the machine in BmtProtocol for the data kept. What is
  kept of a write beyond the capacity is stated exactly: it is not always what
  the reference hasher keeps.
 */
module BmtHasher {
  import opened Options
  import opened ByteStrings
  import opened BmtReference
  import opened BmtTree
  import opened BmtProtocol
  import opened BmtTheorem

  datatype Started = Started(i: nat, s: Bytes, d: nat)

  ghost function Texts(l: seq<Started>): seq<Bytes> {
    seq(|l|, i requires 0 <= i < |l| => l[i].s)
  }

  /** NewTree: row by row from the top, each twice as wide as the one above, and as clean as a tree given back. */
  method NewTree(count: int) returns (depth: nat, nodes: map<Pos, Node>)
    requires count >= 1
    ensures depth == Bits((count - 1) / 2) && Fresh(depth, nodes) && Clean(depth, 0, nodes)
  {
    depth := Depth(count);
    nodes := map[Pos(depth, 0) := Node([], [], 0, false, true)];
    var width := 2;
    for d := 1 to depth + 1
      invariant width == Pow2(d)
      invariant forall h: nat, k: nat | depth - d < h <= depth && k < Pow2(depth - h) :: CleanNode(depth, nodes, h, k)
    {
      nodes := AddRow(depth, nodes, depth - d, width);
      width := width * 2;
    }
    forall h: nat, k: nat | InTree(depth, h, k) ensures CleanNode(depth, nodes, h, k) {
    }
  }

  method AddRow(ghost depth: nat, nodes: map<Pos, Node>, h: nat, width: nat) returns (r: map<Pos, Node>)
    requires h < depth
    ensures forall k: nat | k < width :: CleanNode(depth, r, h, k)
    ensures forall h': nat, k: nat | h' != h && CleanNode(depth, nodes, h', k) :: CleanNode(depth, r, h', k)
  {
    r := nodes;
    for i := 0 to width
      invariant forall k: nat | k < i :: CleanNode(depth, r, h, k)
      invariant forall h': nat, k: nat | h' != h && CleanNode(depth, nodes, h', k) :: CleanNode(depth, r, h', k)
    {
      ghost var before := r;
      r := r[Pos(h, i) := Node([], [], 0, false, false)];
      assert forall h': nat, k: nat | Pos(h', k) != Pos(h, i) && CleanNode(depth, before, h', k) ::
          CleanNode(depth, r, h', k);
    }
  }

  /** The double segments handed out and the open one are the data, well cut, on leaves of the tree. */
  ghost predicate Holds(size: nat, count: nat, depth: nat, launched: seq<Started>, segment: Bytes, data: Bytes) {
    && |launched| < (count + 1) / 2 && Numbered(launched, depth)
    && WellCut(size, Texts(launched) + [segment]) && Flat(Texts(launched) + [segment]) == data
  }

  class Hasher {
    const size: nat
    const count: nat
    const depth: nat
    var cur: nat
    var segment: Bytes
    var launched: seq<Started>
    ghost var data: Bytes

    /** The double segments handed out so far and the open one. */
    ghost function Pieces(): seq<Bytes>
      reads this
    {
      Texts(launched) + [segment]
    }

    ghost predicate Valid()
      reads this
    {
      && size >= 1 && count >= 1 && depth == Bits((count - 1) / 2)
      && cur == |launched| && Holds(size, count, depth, launched, segment, data)
    }

    /**
      How much a write may fill: the capacity, or more if it starts inside a double segment before a
      half-sized last one.
     */
    ghost function Limit(): nat
      reads this
    {
      count * size + if count % 2 == 1 && cur < (count + 1) / 2 - 1 then Least(|segment|, size) else 0
    }

    constructor (size: nat, count: nat)
      requires size >= 1 && count >= 1
      ensures Valid() && this.size == size && this.count == count && data == []
    {
      this.size := size;
      this.count := count;
      var d := Depth(count);
      depth := d;
      cur := 0;
      segment := [];
      launched := [];
      data := [];
    }

    /** What has been kept, however it was split, is cut as the reference cuts it. */
    lemma CutAsReference(H: BaseHash)
      requires Valid()
      ensures var c := Chunk(H, size, depth, Segments(size, data));
              && c.Valid() && Flat(c.segs) == data && c.segs == Pieces()
              && cur == c.Last() && segment == c.segs[cur]
              && (forall i | 0 <= i < cur :: launched[i] == Started(i, c.segs[i], c.depth))
              && (|data| <= count * size ==> c == ChunkOf(H, size, count, data))
    {
      WellCutIsSegments(size, Pieces());
      BitsCover((count - 1) / 2);
      assert forall i | 0 <= i < cur :: Pieces()[i] == launched[i].s;
    }

    /**
      A write that begins at the start of a double segment, or in the last one, or on an even count,
      never overfills.
     */
    lemma KeepsCapacity(b: Bytes)
      requires Valid() && |data| <= count * size
      ensures Cut(data + b, Limit()) == Cut(data + b, count * size) <==>
                || |data + b| <= count * size || count % 2 == 0 || segment == [] || cur == (count + 1) / 2 - 1
    {
      var all, cap := data + b, count * size;
      if |all| > cap && Limit() > cap {
        assert |Cut(all, Limit())| > cap == |Cut(all, cap)|;
      }
    }

    /**
      Write. After an overfull write the next one slices with a negative bound and
      crashes; otherwise the first bytes up to the limit are kept.
     */
    method Write(b: Bytes) returns (n: Option<nat>)
      requires Valid()
      modifies this`cur, this`segment, this`launched, this`data
      ensures Valid()
      ensures n.None? <==> b != [] && |old(data)| > count * size
      ensures n.None? ==> data == old(data)
      ensures n.Some? ==> n.value == |b|
      ensures n.Some? && b == [] ==> data == old(data)
      ensures n.Some? && b != [] ==> data == Cut(old(data) + b, old(Limit()))
    {
      var l := |b|;
      if l <= 0 {
        return Some(0);
      }
      ghost var d0, limit := data, Limit();
      ghost var room := OpenRoom(launched, segment, size, count);
      var rest, need, sz := Shares(l, |segment|, cur, room);
      if rest < 0 {
        return None;
      }
      var s, out := Fill(b, rest, need, sz, room, limit);
      segment, cur, launched, data := s, |out|, out, Cut(d0 + b, limit);
      n := Some(l);
    }

    /** The open segment is filled up, and the segments after it are handed out. */
    method Fill(b: Bytes, rest: nat, need: nat, sz: nat, ghost room: nat, ghost limit: nat)
      returns (s: Bytes, out: seq<Started>)
      requires size >= 1 && Holds(size, count, depth, launched, segment, data)
      requires room == Room((count + 1) / 2 - 1 - |launched|, size)
      requires rest <= need <= |b| && |segment| + rest <= 2 * size
                && Taken(|segment|, |b|, size, room, count % 2 == 1, rest, need)
      requires need > rest && room > 0 ==> |segment| + rest == sz == 2 * size
      requires |segment| <= |data| && limit == |data| - |segment| + UpTo(|segment|, size, room, count % 2 == 1)
      ensures Holds(size, count, depth, out, s, Cut(data + b, limit))
    {
      Extend(launched, segment, b[..rest], size);
      s, out := HandOut(b, rest, need - rest, sz, segment + b[..rest], launched, room);
      Lands(data, b, |segment|, size, room, count % 2 == 1, rest, need, limit);
    }

    /** How much of l bytes goes to the open segment, which holds s, and how much is needed in all. */
    method Shares(l: nat, s: nat, i: nat, ghost room: nat) returns (rest: int, need: int, sz: nat)
      requires size >= 1 && l >= 1 && (room == 0 || room >= 2 * size) && s <= 2 * size
      requires count * size - i * 2 * size == room + if count % 2 == 1 then size else 2 * size
      ensures rest < 0 <==> count % 2 == 1 && room == 0 && s > size
      ensures rest >= 0 ==>
                && rest <= need <= l && s + rest <= 2 * size && (need > rest && room > 0 ==> s + rest == sz == 2 * size)
                && Taken(s, l, size, room, count % 2 == 1, rest, need)
    {
      need := count * size - i * 2 * size;
      sz := size;
      if need > sz {
        sz := sz * 2;
      }
      if l < need {
        need := l;
      }
      rest := sz - s;
      if need < rest {
        rest := need;
      }
    }

    /** The loop of Write: push every finished double segment and open the next one, while there is room. */
    method HandOut(b: Bytes, rest0: nat, need0: nat, sz0: nat, s0: Bytes, out0: seq<Started>, ghost room: nat)
      returns (s: Bytes, out: seq<Started>)
      requires size >= 1 && rest0 + need0 <= |b| && |out0| < (count + 1) / 2
      requires Numbered(out0, depth) && WellCut(size, Texts(out0) + [s0])
      requires room == Room((count + 1) / 2 - 1 - |out0|, size)
      requires need0 > 0 && room > 0 ==> |s0| == sz0 == 2 * size
      ensures |out| < (count + 1) / 2 && Numbered(out, depth) && WellCut(size, Texts(out) + [s])
      ensures Flat(Texts(out) + [s]) == Flat(Texts(out0) + [s0]) + b[rest0..rest0 + Least(need0, room)]
    {
      var half := (count + 1) / 2;
      var i, rest, need, sz := |out0|, rest0, need0 as int, sz0;
      s, out := s0, out0;
      ghost var d0 := Flat(Texts(out0) + [s0]);
      ghost var left := room;
      assert b[rest0..rest0] == [] && d0 + [] == d0;
      while need > 0 && i < half - 1
        invariant |out| == i < half && rest0 <= rest && left == Room(half - 1 - i, size)
        invariant Numbered(out, depth) && WellCut(size, Texts(out) + [s])
        invariant need > 0 ==> rest + need == rest0 + need0
        invariant rest + (if need > 0 then Least(need, left) else 0) == rest0 + Least(need0, room)
        invariant rest <= |b| && Flat(Texts(out) + [s]) == d0 + b[rest0..rest]
        invariant need > 0 && left > 0 ==> |s| == sz == 2 * size
        decreases need
      {
        ghost var handed, full := out, s;
        out := out + [Started(i, s, depth)];
        need := need - sz;
        if need < 0 {
          sz := sz + need;
        }
        s := b[rest..rest + sz];
        Handed(handed, full, depth, size, d0, b, rest0, rest, rest + sz);
        rest := rest + sz;
        i := i + 1;
        left := left - 2 * size;
      }
    }
  }

  /**
    Room for three segments of one byte, written in two parts: four bytes are kept
    where the reference keeps three, and a third part crashes.
   */
  method OverfullHasher() returns (h: Hasher, third: Option<nat>)
    ensures fresh(h) && h.Valid() && h.size == 1 && h.count == 3
    ensures h.data == [1, 2, 3, 4] && h.data != Cut([1, 2, 3, 4], h.count * h.size) && third.None?
  {
    h := new Hasher(1, 3);
    var n := h.Write([1]);
    assert h.data == [1];
    h.CutAsReference((x: Bytes) => x);
    assert h.cur == 0 && |h.segment| == 1;
    n := h.Write([2, 3, 4]);
    assert [1] + [2, 3, 4] == [1, 2, 3, 4];
    third := h.Write([5]);
  }

  function Least(x: nat, y: nat): nat {
    if x < y then x else y
  }

  /** The first n bytes. */
  ghost function Cut(d: Bytes, n: nat): Bytes {
    d[..Least(|d|, n)]
  }

  /** The bytes that k leaves hold. */
  ghost function Room(k: nat, size: nat): nat {
    if k == 0 then 0 else Room(k - 1, size) + 2 * size
  }

  ghost predicate Numbered(l: seq<Started>, d: nat) {
    forall i | 0 <= i < |l| :: l[i].i == i && l[i].d == d
  }

  lemma Appended(d: Bytes, b: Bytes, i: nat, j: nat, k: nat)
    requires i <= j <= k <= |b|
    ensures d + b[i..j] + b[j..k] == d + b[i..k]
  {
    assert b[i..j] + b[j..k] == b[i..k];
  }

  /** Extending the open segment extends the data. */
  lemma Extend(l: seq<Started>, s: Bytes, t: Bytes, size: nat)
    requires WellCut(size, Texts(l) + [s]) && |s + t| <= 2 * size
    ensures WellCut(size, Texts(l) + [s + t])
    ensures Flat(Texts(l) + [s + t]) == Flat(Texts(l) + [s]) + t
  {
    FlatAppend(Texts(l), [s + t]);
    FlatAppend(Texts(l), [s]);
    var a, b := Texts(l) + [s], Texts(l) + [s + t];
    assert forall j | 0 <= j < |l| :: a[j] == b[j];
  }

  /** Handing out a full segment and opening the next one. */
  lemma NextPiece(l: seq<Started>, s: Bytes, p: Started, t: Bytes, size: nat)
    requires WellCut(size, Texts(l) + [s]) && p.s == s && |s| == 2 * size && 0 < |t| <= 2 * size
    ensures WellCut(size, Texts(l + [p]) + [t])
    ensures Flat(Texts(l + [p]) + [t]) == Flat(Texts(l) + [s]) + t
  {
    var a, b := Texts(l) + [s], Texts(l + [p]) + [t];
    assert Texts(l + [p]) == a;
    FlatAppend(a, [t]);
    assert forall j | 0 <= j < |l| :: b[j] == a[j];
  }

  lemma Handed(l: seq<Started>, s: Bytes, depth: nat, size: nat, d0: Bytes, b: Bytes, from: nat, i: nat, j: nat)
    requires Numbered(l, depth) && WellCut(size, Texts(l) + [s]) && |s| == 2 * size
    requires from <= i < j <= |b| && j - i <= 2 * size && Flat(Texts(l) + [s]) == d0 + b[from..i]
    ensures var l' := l + [Started(|l|, s, depth)];
            Numbered(l', depth) && WellCut(size, Texts(l') + [b[i..j]])
                && Flat(Texts(l') + [b[i..j]]) == d0 + b[from..j]
  {
    NextPiece(l, s, Started(|l|, s, depth), b[i..j], size);
    Appended(d0, b, from, i, j);
  }

  /** The room in the leaves after the open one, and the capacity from the open one on. */
  lemma OpenRoom(l: seq<Started>, s: Bytes, size: nat, count: nat) returns (room: nat)
    requires WellCut(size, Texts(l) + [s]) && size >= 1 && |l| < (count + 1) / 2
    ensures room == Room((count + 1) / 2 - 1 - |l|, size) && (room == 0 || room >= 2 * size)
    ensures room == 0 <==> |l| == (count + 1) / 2 - 1
    ensures count * size - |l| * 2 * size == room + if count % 2 == 1 then size else 2 * size
    ensures |Flat(Texts(l) + [s])| == |l| * 2 * size + |s|
  {
    WrittenLength(l, s, size);
    room := RoomLeft(count, size, |l|);
  }

  /** What a write takes, in numbers: everything up to the capacity from the open leaf on, or a little more. */
  ghost predicate Taken(s: nat, l: nat, size: nat, room: nat, odd: bool, rest: nat, need: nat)
    requires rest <= need
  {
    s + rest + Least(need - rest, room) == Least(s + l, UpTo(s, size, room, odd))
  }

  /** How far a write can go, counted from the start of the open leaf, which holds s bytes. */
  ghost function UpTo(s: nat, size: nat, room: nat, odd: bool): nat {
    room + (if odd then size else 2 * size) + if odd && room > 0 then Least(s, size) else 0
  }

  lemma Lands(d: Bytes, b: Bytes, s: nat, size: nat, room: nat, odd: bool, rest: nat, need: nat, limit: nat)
    requires s <= |d| && rest <= need <= |b| && Taken(s, |b|, size, room, odd, rest, need)
    requires limit == |d| - s + UpTo(s, size, room, odd)
    ensures d + b[..rest] + b[rest..rest + Least(need - rest, room)] == Cut(d + b, limit)
  {
    var n := rest + Least(need - rest, room);
    assert d + b[..rest] + b[rest..n] == d + b[..n] == (d + b)[..|d| + n];
  }

  /** Full double segments and the open one make up the data. */
  lemma {:induction false} WrittenLength(l: seq<Started>, s: Bytes, size: nat)
    requires WellCut(size, Texts(l) + [s])
    ensures |Flat(Texts(l) + [s])| == |l| * 2 * size + |s|
    decreases |l|
  {
    if l == [] {
      assert Texts(l) + [s] == [s];
    } else {
      var segs := Texts(l) + [s];
      assert segs[1..] == Texts(l[1..]) + [s];
      assert |segs[0]| == 2 * size;
      WrittenLength(l[1..], s, size);
    }
  }

  lemma RoomLeft(count: nat, size: nat, i: nat) returns (room: nat)
    requires i < (count + 1) / 2 && size >= 1
    ensures room == Room((count + 1) / 2 - 1 - i, size) && (room == 0 || room >= 2 * size)
    ensures room == 0 <==> i == (count + 1) / 2 - 1
    ensures count * size - i * 2 * size == room + if count % 2 == 1 then size else 2 * size
  {
    var k := (count + 1) / 2 - 1 - i;
    room := Room(k, size);
    RoomIs(k, size);
    var last := if count % 2 == 1 then 1 else 2;
    assert count == 2 * i + 2 * k + last;
    assert count * size == i * 2 * size + k * (2 * size) + last * size;
  }

  lemma {:induction false} RoomIs(k: nat, size: nat)
    ensures Room(k, size) == k * (2 * size)
  {
    if k > 0 {
      RoomIs(k - 1, size);
    }
  }
}
