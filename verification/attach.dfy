/** The attachment graph of object.cpp: every link is stored at both of its ends, in a field for the
    device above and in a table that grows and shrinks for those below. */
module Attach {
  import opened Words
  import opened Wrappers

  const APPEND := -1
  const INSERTSTART := -2
  const UP := -3
  const SESSION := -4

  const ERR_FAIL := 1
  const ERR_INVALIDPARAM := 3
  const ERR_NOTSUPPORTED := 10
  const ERR_ATTACHINUSE := 41

  datatype ConPoint = ConPoint(t: IsiInfo?, i: int)

  /** One end of a link: a point of a device. */
  type End = (IsiInfo, int)

  /** What a kind of device answers to a hardware query. */
  datatype Identity = Identity(verid: Word, devid: Word32, mfgid: Word32)

  class IsiInfo {
    const meta: Option<Identity>
    var updev: ConPoint
    var table: seq<ConPoint> // as long as the memory allocated for it
    var count: nat

    constructor (identity: Option<Identity>)
      ensures Valid() && Ends() == map[] && count == 0 && meta == identity
    {
      meta, updev, table, count := identity, ConPoint(null, -1), [], 0;
    }

    /** The last entry in use is not empty. */
    ghost predicate Valid()
      reads this
    {
      count <= |table| && (count > 0 ==> table[count - 1].t != null)
    }

    /** What is attached, point by point. */
    ghost predicate Live(p: int)
      requires count <= |table|
      reads this
    {
      if p == UP then updev.t != null else 0 <= p < count && table[p].t != null
    }

    ghost function Peer(p: int): End
      requires count <= |table| && Live(p)
      reads this
    {
      if p == UP then (updev.t, updev.i) else (table[p].t, table[p].i)
    }

    ghost function Ends(): map<int, End>
      requires count <= |table|
      reads this
    {
      map p | UP <= p < count && Live(p) :: Peer(p)
    }

    /** isiInfo::get_devi. The index is compared as an unsigned number, so no negative point is ever
        found. */
    method GetDevi(index: int) returns (r: Option<End>)
      requires Valid()
      ensures r == if 0 <= index && index in Ends() then Some(Ends()[index]) else None
    {
      if index < 0 || index >= count {
        return None;
      }
      var o := table[index].t;
      if o == null {
        return None;
      }
      return Some((o, table[index].i));
    }

    /** isi_initindex_dev and isi_indexresize: room for `size` entries. The original leaves what lies
        behind the old entries undefined; it is `filler` here. */
    method Grow(size: nat, filler: ConPoint)
      requires Valid()
      modifies this`table
      ensures Valid() && |table| >= size && |table| >= |old(table)| && table[..|old(table)|] == old(table)
      ensures forall i | |old(table)| <= i < |table| :: table[i].t == null || table[i] == filler
      ensures Ends() == old(Ends())
    {
      if |table| == 0 {
        table := [ConPoint(null, 0)];
      }
      if size > |table| {
        table := table + seq(size - |table|, i => filler);
      }
    }

    /** isi_appendindex_dev */
    method AppendIndex(d: IsiInfo, rindex: int, filler: ConPoint) returns (x: int)
      requires Valid()
      modifies this`table, this`count
      ensures Valid() && x == old(count) && count == old(count) + 1 && Ends() == old(Ends())[x := (d, rindex)]
    {
      if count >= |table| {
        Grow(if |table| == 0 then 1 else 2 * |table|, filler);
      }
      x := count;
      count := count + 1;
      table := table[x := ConPoint(d, rindex)];
    }

    /** Setting point p brings no other entry to light: it leaves no gap, or the memory behind the
        table is clear. */
    ghost predicate ClearUpTo(p: int, filler: ConPoint)
      reads this
    {
      p <= count || (filler.t == null && forall i | count <= i < |table| :: table[i].t == null)
    }

    /** isi_setindex_dev */
    method SetIndex(index: nat, d: IsiInfo, rindex: int, filler: ConPoint)
      requires Valid() && ClearUpTo(index, filler)
      modifies this`table, this`count
      ensures Valid() && Ends() == old(Ends())[index := (d, rindex)]
      ensures count == if index >= old(count) then index + 1 else old(count)
    {
      if index >= |table| {
        Grow(index + 1, filler);
      }
      if count < index + 1 {
        count := index + 1;
      }
      table := table[index := ConPoint(d, rindex)];
    }

    method SetUp(d: IsiInfo, rindex: int)
      requires Valid()
      modifies this`updev
      ensures Valid() && Ends() == old(Ends())[UP := (d, rindex)]
    {
      updev := ConPoint(d, rindex);
    }

    /** *iptr = iout: the index in an end that has just been set is corrected. */
    method Patch(p: int, rindex: int)
      requires Valid() && p in Ends()
      modifies this`updev, this`table
      ensures Valid() && Ends() == old(Ends())[p := (old(Ends())[p].0, rindex)]
    {
      if p == UP {
        updev := ConPoint(updev.t, rindex);
      } else {
        table := table[p := ConPoint(table[p].t, rindex)];
      }
    }

    /** The part of isi_attach that stores one end of the link. */
    method Place(point: int, d: IsiInfo, rindex: int, filler: ConPoint) returns (actual: int)
      requires Valid() && (point == APPEND || point == UP || point >= 0) && ClearUpTo(point, filler)
      modifies this`updev, this`table, this`count
      ensures Valid() && actual == (if point == APPEND then old(count) else point)
      ensures Ends() == old(Ends())[actual := (d, rindex)]
    {
      actual := point;
      if point == APPEND {
        actual := AppendIndex(d, rindex, filler);
      } else if point == UP {
        SetUp(d, rindex);
      } else {
        SetIndex(point, d, rindex, filler);
      }
    }

    /** Empties one end and gives up the empty entries at the end of the table. */
    method ClearEnd(p: int)
      requires Valid() && (p == UP || p in Ends())
      modifies this
      ensures Valid() && Ends() == old(Ends()) - {p}
    {
      if p == UP {
        updev := ConPoint(null, -1);
      } else {
        ghost var before := Ends();
        table := table[p := ConPoint(null, -1)];
        assert Ends() == before - {p};
        while count > 0 && table[count - 1].t == null
          invariant count <= |table| && Ends() == before - {p} && p != UP
        {
          ghost var ends := Ends();
          count := count - 1;
          assert Ends() == ends;
        }
      }
    }
  }

  // ----- links -----

  type Graph = map<End, End>

  ghost function AllEnds(nodes: set<IsiInfo>): (m: map<IsiInfo, map<int, End>>)
    reads nodes
    ensures m.Keys == nodes
  {
    map n | n in nodes :: if n.Valid() then n.Ends() else map[]
  }

  ghost function Flat(m: map<IsiInfo, map<int, End>>): Graph {
    map n: IsiInfo, p: int | n in m && p in m[n] :: (n, p) := m[n][p]
  }

  /** All links between devices, each under both of its ends. */
  ghost function Links(nodes: set<IsiInfo>): Graph
    reads nodes
  {
    Flat(AllEnds(nodes))
  }

  lemma SetOne(m: map<IsiInfo, map<int, End>>, a: IsiInfo, p: int, x: End)
    requires a in m
    ensures Flat(m[a := m[a][p := x]]) == Flat(m)[(a, p) := x]
  {
  }

  lemma DropOne(m: map<IsiInfo, map<int, End>>, a: IsiInfo, p: int)
    requires a in m
    ensures Flat(m[a := m[a] - {p}]) == Flat(m) - {(a, p)}
  {
  }

  /** Every link is known at both of its ends. */
  ghost predicate Reciprocal(g: Graph) {
    forall e: End | e in g :: g[e] in g && g[g[e]] == e
  }

  /** An end that is free, or already linked to the other one. */
  ghost predicate FreeFor(g: Graph, x: End, y: End) {
    x !in g || g[x] == x || g[x] == y
  }

  /** Linking two ends keeps all links reciprocal if and only if neither end was linked to a third. */
  lemma JoinKeepsReciprocity(g: Graph, x: End, y: End)
    requires Reciprocal(g) && x != y
    ensures Reciprocal(g[x := y][y := x]) <==> FreeFor(g, x, y) && FreeFor(g, y, x)
  {
    var j := g[x := y][y := x];
    if !FreeFor(g, x, y) {
      assert g[x] in j && j[g[x]] == x && j[x] == y;
    } else if !FreeFor(g, y, x) {
      assert g[y] in j && j[g[y]] == y && j[y] == x;
    }
  }

  /** Taking out both ends of a link keeps all links reciprocal. */
  lemma CutKeepsReciprocity(g: Graph, x: End)
    requires Reciprocal(g) && x in g
    ensures Reciprocal(g - {x, g[x]})
  {
  }

  /** Cutting at the end just joined gives the graph there was before. */
  lemma CutUndoesJoin(g: Graph, x: End, y: End)
    requires x !in g && y !in g && x != y
    ensures g[x := y][y := x] - {x, g[x := y][y := x][x]} == g
  {
  }

  // ----- attaching -----

  /** isi_attach for two devices, neither of them memory. The two answers stand for QueryAttach. A
      device is not attached to itself nor at the unsupported point INSERTSTART. */
  method Attach(item: IsiInfo, itempoint: int, dev: IsiInfo, devpoint: int,
                itemAnswer: int, devAnswer: int, filler: ConPoint)
    returns (e: int, itemActual: int, devActual: int)
    requires item != dev && item.Valid() && dev.Valid()
    requires itempoint != INSERTSTART && devpoint != INSERTSTART
    requires item.ClearUpTo(itempoint, filler) && dev.ClearUpTo(devpoint, filler)
    modifies item, dev
    ensures item.Valid() && dev.Valid()
    ensures e == AttachError(old(item.Ends()), itempoint, old(dev.Ends()), devpoint, itemAnswer, devAnswer)
    ensures e != 0 ==> item.Ends() == old(item.Ends()) && dev.Ends() == old(dev.Ends())
    ensures e == 0 ==>
      itemActual == (if itempoint == APPEND then old(item.count) else itempoint) &&
      devActual == (if devpoint == APPEND then old(dev.count) else devpoint)
    ensures e == 0 ==> item.Ends() == old(item.Ends())[itemActual := (dev, devActual)]
    ensures e == 0 ==>
      dev.Ends() == old(dev.Ends())[devActual := (item, if devpoint >= 0 then itempoint else itemActual)]
  {
    hide IsiInfo.Ends, IsiInfo.Valid, IsiInfo.ClearUpTo;
    e, itemActual, devActual := 0, 0, 0;
    if itempoint < -4 || devpoint < -4 || itempoint == SESSION || devpoint == SESSION {
      return ERR_INVALIDPARAM, 0, 0;
    }
    if itemAnswer != 0 {
      return itemAnswer, 0, 0;
    }
    if devAnswer != 0 {
      return devAnswer, 0, 0;
    }
    if itempoint >= 0 {
      var inUse := item.GetDevi(itempoint);
      if inUse.Some? {
        return ERR_ATTACHINUSE, 0, 0;
      }
    }
    if devpoint >= 0 {
      var inUse := dev.GetDevi(devpoint);
      if inUse.Some? {
        return ERR_ATTACHINUSE, 0, 0;
      }
    }
    devActual := dev.Place(devpoint, item, itempoint, filler);
    itemActual := item.Place(itempoint, dev, devActual, filler);
    if itempoint == APPEND && devpoint < 0 {
      dev.Patch(devActual, itemActual);
    }
  }

  /** Which error isi_attach returns, 0 for none. */
  function AttachError(itemEnds: map<int, End>, itempoint: int, devEnds: map<int, End>, devpoint: int,
                       itemAnswer: int, devAnswer: int): int {
    if itempoint <= SESSION || devpoint <= SESSION then ERR_INVALIDPARAM
    else if itemAnswer != 0 then itemAnswer
    else if devAnswer != 0 then devAnswer
    else if (itempoint >= 0 && itempoint in itemEnds) || (devpoint >= 0 && devpoint in devEnds) then ERR_ATTACHINUSE
    else 0
  }

  /** What isi_attach does to the graph. `back` is the point of `item` that `dev` is told. */
  ghost function Joined(g: Graph, item: IsiInfo, p: int, dev: IsiInfo, q: int, back: int): Graph {
    g[(item, p) := (dev, q)][(dev, q) := (item, back)]
  }

  /** When attaching keeps all links reciprocal: no end belongs to a third device, and the place in
      the item's table is not one that `dev` is never told (`unpatched`). */
  ghost predicate MayJoin(g: Graph, x: End, y: End, unpatched: bool) {
    !unpatched && FreeFor(g, x, y) && FreeFor(g, y, x)
  }

  /** isi_attach as an operation on the graph of all devices. */
  method AttachIn(ghost nodes: set<IsiInfo>, item: IsiInfo, itempoint: int, dev: IsiInfo, devpoint: int,
                  itemAnswer: int, devAnswer: int, filler: ConPoint)
    returns (e: int, itemActual: int, devActual: int)
    requires item.Valid() && dev.Valid()
    requires item in nodes && dev in nodes && item != dev && forall n | n in nodes :: n.Valid()
    requires itempoint != INSERTSTART && devpoint != INSERTSTART
    requires item.ClearUpTo(itempoint, filler) && dev.ClearUpTo(devpoint, filler)
    requires Reciprocal(Links(nodes))
    modifies item, dev
    ensures forall n | n in nodes :: n.Valid()
    ensures e == AttachError(old(item.Ends()), itempoint, old(dev.Ends()), devpoint, itemAnswer, devAnswer)
    ensures e != 0 ==> Links(nodes) == old(Links(nodes))
    ensures e == 0 ==> Links(nodes) == Joined(old(Links(nodes)), item, itemActual, dev, devActual,
                                              if devpoint >= 0 then itempoint else itemActual)
    ensures e == 0 ==> (Reciprocal(Links(nodes)) <==>
      MayJoin(old(Links(nodes)), (item, itemActual), (dev, devActual), itempoint == APPEND && devpoint >= 0))
    ensures e == 0 ==>
      itemActual == (if itempoint == APPEND then old(item.count) else itempoint) &&
      devActual == (if devpoint == APPEND then old(dev.count) else devpoint)
    ensures e == 0 ==> (itemActual == UP == itempoint || (item, itemActual) !in old(Links(nodes)))
    ensures e == 0 ==> (devActual == UP == devpoint || (dev, devActual) !in old(Links(nodes)))
  {
    hide Reciprocal, MayJoin, Flat, AllEnds, BothSet, Joined, AttachError;
    ghost var g, ends := Links(nodes), AllEnds(nodes);
    NotAnEnd(nodes, item);
    FreePlace(nodes, item, itempoint, dev, devpoint, itemAnswer, devAnswer);
    e, itemActual, devActual := AttachEnds(nodes, item, itempoint, dev, devpoint, itemAnswer, devAnswer, filler);
    if e == 0 {
      ghost var back := if devpoint >= 0 then itempoint else itemActual;
      BothEndsSet(ends, item, itemActual, dev, devActual, back);
      JoinOutcome(g, item, itemActual, dev, devActual, back);
    }
  }

  /** What an attachment does to the tables of all devices. */
  method AttachEnds(ghost nodes: set<IsiInfo>, item: IsiInfo, itempoint: int, dev: IsiInfo, devpoint: int,
                    itemAnswer: int, devAnswer: int, filler: ConPoint)
    returns (e: int, itemActual: int, devActual: int)
    requires item in nodes && dev in nodes && item != dev && forall n | n in nodes :: n.Valid()
    requires itempoint != INSERTSTART && devpoint != INSERTSTART
    requires item.Valid() && dev.Valid()
    requires item.ClearUpTo(itempoint, filler) && dev.ClearUpTo(devpoint, filler)
    modifies item, dev
    ensures forall n | n in nodes :: n.Valid()
    ensures e == AttachError(old(item.Ends()), itempoint, old(dev.Ends()), devpoint, itemAnswer, devAnswer)
    ensures e == 0 ==>
      itemActual == (if itempoint == APPEND then old(item.count) else itempoint) &&
      devActual == (if devpoint == APPEND then old(dev.count) else devpoint)
    ensures AllEnds(nodes) ==
      if e != 0 then old(AllEnds(nodes))
      else BothSet(old(AllEnds(nodes)), item, itemActual, dev, devActual,
                   if devpoint >= 0 then itempoint else itemActual)
  {
    hide AttachError, IsiInfo.Ends, IsiInfo.ClearUpTo;
    e, itemActual, devActual := Attach(item, itempoint, dev, devpoint, itemAnswer, devAnswer, filler);
  }

  /** Two entries stored in two tables. */
  ghost function BothSet(m: map<IsiInfo, map<int, End>>, a: IsiInfo, p: int, b: IsiInfo, q: int, back: int)
    : map<IsiInfo, map<int, End>>
    requires a in m && b in m
  {
    m[a := m[a][p := (b, q)]][b := m[b][q := (a, back)]]
  }

  /** Where isi_attach puts a link below a device there was none: the place asked for is checked, and
      the place behind the table is free. */
  lemma FreePlace(nodes: set<IsiInfo>, item: IsiInfo, itempoint: int, dev: IsiInfo, devpoint: int,
                  itemAnswer: int, devAnswer: int)
    requires item.Valid() && dev.Valid()
    requires itempoint != INSERTSTART && devpoint != INSERTSTART
    ensures AttachError(item.Ends(), itempoint, dev.Ends(), devpoint, itemAnswer, devAnswer) == 0 ==>
      var p := if itempoint == APPEND then item.count else itempoint;
      var q := if devpoint == APPEND then dev.count else devpoint;
      (p == UP == itempoint || (item, p) !in Links(nodes)) && (q == UP == devpoint || (dev, q) !in Links(nodes))
  {
    hide Links;
    EndIsLink(nodes, item, if itempoint == APPEND then item.count else itempoint);
    EndIsLink(nodes, dev, if devpoint == APPEND then dev.count else devpoint);
  }

  lemma NotAnEnd(nodes: set<IsiInfo>, n: IsiInfo)
    ensures (n, APPEND) !in Links(nodes)
  {
  }

  lemma BothEndsSet(m: map<IsiInfo, map<int, End>>, a: IsiInfo, p: int, b: IsiInfo, q: int, back: int)
    requires a in m && b in m && a != b
    ensures Flat(BothSet(m, a, p, b, q, back)) == Joined(Flat(m), a, p, b, q, back)
  {
    hide Flat;
    var half: map<IsiInfo, map<int, End>> := m[a := m[a][p := (b, q)]];
    SetOne(m, a, p, (b, q));
    SetOne(half, b, q, (a, back));
  }

  lemma JoinOutcome(g: Graph, a: IsiInfo, p: int, b: IsiInfo, q: int, back: int)
    requires Reciprocal(g) && a != b && (back == p || (back == APPEND != p && (a, APPEND) !in g))
    ensures Reciprocal(Joined(g, a, p, b, q, back)) <==> MayJoin(g, (a, p), (b, q), back != p)
  {
    JoinKeepsReciprocity(g, (a, p), (b, q));
    if back != p {
      var j := Joined(g, a, p, b, q, back);
      assert (b, q) in j && j[(b, q)] == (a, back) && (a, back) !in j;
    }
  }

  // ----- detaching -----

  /** The graph without the link at x. */
  function Unlinked(g: Graph, x: End): Graph {
    if x in g then g - {x, g[x]} else g
  }

  function DeattachError(g: Graph, item: IsiInfo, itempoint: int): int {
    if itempoint < -4 || itempoint == APPEND then ERR_INVALIDPARAM
    else if itempoint == INSERTSTART then ERR_NOTSUPPORTED
    else if (item, itempoint) !in g then ERR_FAIL
    else 0
  }

  /** The first half of isi_deattach: the other end of the link. */
  method FindLink(ghost nodes: set<IsiInfo>, item: IsiInfo, itempoint: int) returns (e: int, dev: IsiInfo, rai: int)
    requires item in nodes && item.Valid()
    requires itempoint == UP ==> (item, UP) in Links(nodes)
    ensures e == DeattachError(Links(nodes), item, itempoint)
    ensures e == 0 ==> (item, itempoint) in Links(nodes) && (dev, rai) == Links(nodes)[(item, itempoint)]
  {
    hide Links;
    EndIsLink(nodes, item, itempoint);
    dev, rai := item, -1;
    if itempoint < -4 || itempoint == APPEND {
      return ERR_INVALIDPARAM, dev, rai;
    }
    if itempoint == UP {
      return 0, item.updev.t, item.updev.i;
    } else if itempoint == INSERTSTART {
      return ERR_NOTSUPPORTED, dev, rai;
    }
    var found := item.GetDevi(itempoint);
    if found.None? {
      return ERR_FAIL, dev, rai;
    }
    return 0, found.value.0, found.value.1;
  }

  /** The second half: both ends are emptied. */
  method CutLink(ghost nodes: set<IsiInfo>, item: IsiInfo, itempoint: int, dev: IsiInfo, rai: int)
    requires item in nodes && (forall n | n in nodes :: n.Valid())
    requires Reciprocal(Links(nodes))
    requires (item, itempoint) in Links(nodes) && Links(nodes)[(item, itempoint)] == (dev, rai)
    modifies item, dev
    ensures forall n | n in nodes :: n.Valid()
    ensures Links(nodes) == old(Links(nodes)) - {(item, itempoint), (dev, rai)}
  {
    hide Links;
    EndIsLink(nodes, dev, rai);
    ClearIn(nodes, item, itempoint);
    EndIsLink(nodes, dev, rai);
    if rai == UP {
      ClearIn(nodes, dev, rai);
    } else if rai >= 0 {
      var found := dev.GetDevi(rai);
      if found.Some? {
        ClearIn(nodes, dev, rai);
      }
    }
  }

  /** isi_deattach. A device is detached upwards only while it is attached there. */
  method Deattach(ghost nodes: set<IsiInfo>, item: IsiInfo, itempoint: int) returns (e: int)
    requires item in nodes && (forall n | n in nodes :: n.Valid())
    requires Reciprocal(Links(nodes))
    requires itempoint == UP ==> (item, UP) in Links(nodes)
    modifies nodes
    ensures forall n | n in nodes :: n.Valid()
    ensures e == DeattachError(old(Links(nodes)), item, itempoint)
    ensures Links(nodes) == (if e == 0 then Unlinked(old(Links(nodes)), (item, itempoint)) else old(Links(nodes)))
    ensures Reciprocal(Links(nodes))
  {
    hide Links;
    var dev, rai;
    e, dev, rai := FindLink(nodes, item, itempoint);
    if e == 0 {
      EndIsLink(nodes, dev, rai);
      CutKeepsReciprocity(Links(nodes), (item, itempoint));
      CutLink(nodes, item, itempoint, dev, rai);
    }
  }

  /** Detaching at the point just attached gives the graph there was before, wherever the link went.
      An end upwards has to be free, since attaching would displace what it is attached to. */
  method AttachAndDeattach(ghost nodes: set<IsiInfo>, item: IsiInfo, itempoint: int, dev: IsiInfo, devpoint: int,
                           itemAnswer: int, devAnswer: int, filler: ConPoint)
    returns (e: int)
    requires item in nodes && dev in nodes && item != dev && forall n | n in nodes :: n.Valid()
    requires itempoint != INSERTSTART && devpoint != INSERTSTART
    requires item.ClearUpTo(itempoint, filler) && dev.ClearUpTo(devpoint, filler)
    requires !(itempoint == APPEND && devpoint >= 0)
    requires (itempoint == UP ==> (item, UP) !in Links(nodes)) && (devpoint == UP ==> (dev, UP) !in Links(nodes))
    requires Reciprocal(Links(nodes))
    modifies nodes
    ensures forall n | n in nodes :: n.Valid()
    ensures Links(nodes) == old(Links(nodes))
  {
    hide Links, Reciprocal;
    ghost var g := Links(nodes);
    var itemActual, devActual;
    e, itemActual, devActual := AttachIn(nodes, item, itempoint, dev, devpoint, itemAnswer, devAnswer, filler);
    if e == 0 {
      CutUndoesJoin(g, (item, itemActual), (dev, devActual));
      EndIsLink(nodes, item, itemActual);
      var cut := Deattach(nodes, item, itemActual);
    }
  }

  lemma EndIsLink(nodes: set<IsiInfo>, n: IsiInfo, p: int)
    ensures (n, p) in Links(nodes) <==> n in nodes && n.Valid() && p in n.Ends()
    ensures (n, p) in Links(nodes) ==> Links(nodes)[(n, p)] == n.Ends()[p] && (p == UP || p >= 0)
  {
  }

  method ClearIn(ghost nodes: set<IsiInfo>, n: IsiInfo, p: int)
    requires n in nodes && (forall m | m in nodes :: m.Valid())
    requires p == UP || (n, p) in Links(nodes)
    modifies n
    ensures forall m | m in nodes :: m.Valid()
    ensures Links(nodes) == old(Links(nodes)) - {(n, p)}
  {
    hide Flat;
    EndIsLink(nodes, n, p);
    ghost var ends := AllEnds(nodes);
    n.ClearEnd(p);
    DropOne(ends, n, p);
    assert AllEnds(nodes) == ends[n := n.Ends()];
  }

  // ----- errors by number -----

  /** Attaching: 3 for the session and unknown points, then what the item answers, then what the device
      answers, then 41 for a place in use. */
  lemma AttachErrors(itemEnds: map<int, End>, p: int, devEnds: map<int, End>, q: int, a: int, b: int)
    ensures var e := AttachError(itemEnds, p, devEnds, q, a, b);
      (p <= -4 || q <= -4 ==> e == 3) &&
      (p > -4 && q > -4 && a != 0 ==> e == a) &&
      (p > -4 && q > -4 && a == 0 && b != 0 ==> e == b) &&
      (p > -4 && q > -4 && a == 0 && b == 0 ==>
         e == if (p >= 0 && p in itemEnds) || (q >= 0 && q in devEnds) then 41 else 0)
  {
  }

  /** Detaching: 3 for APPEND and unknown points, 10 for INSERTSTART, 1 where nothing is attached. */
  lemma DeattachErrors(g: Graph, item: IsiInfo, p: int)
    ensures var e := DeattachError(g, item, p);
      e == if p < -4 || p == -1 then 3 else if p == -2 then 10 else if (item, p) in g then 0 else 1
  {
  }
}
