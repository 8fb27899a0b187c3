/** Series of attachments and detachments, and two attachments that break a link. */
module AttachRuns {
  import opened Wrappers
  import opened Attach

  /** What a client asks for. The answers stand for QueryAttach. */
  datatype Change =
    | Join(item: IsiInfo, itempoint: int, dev: IsiInfo, devpoint: int, itemAnswer: int, devAnswer: int)
    | Cut(item: IsiInfo, point: int)

  /** The change is about devices of the set. */
  predicate Concerns(nodes: set<IsiInfo>, c: Change) {
    c.item in nodes && (c.Join? ==> c.dev in nodes && c.dev != c.item)
  }

  // ----- changes of the graph -----

  /** The table of n ends before place c: its last entry is linked and none behind it. */
  ghost predicate EndsAt(g: Graph, n: IsiInfo, c: nat) {
    (c > 0 ==> (n, c - 1) in g) && forall p: int | p >= c :: (n, p) !in g
  }

  /** The number of places in use below n. */
  ghost function Slots(g: Graph, n: IsiInfo): nat {
    if exists c: nat :: EndsAt(g, n, c) then var c: nat :| EndsAt(g, n, c); c else 0
  }

  /** The place that a point asks for. */
  ghost function PlaceFor(g: Graph, n: IsiInfo, p: int): int {
    if p == APPEND then Slots(g, n) else p
  }

  /** What a careful client makes sure of: both ends are free, no place is left out, and the item's
      place is one that the other side is told. */
  ghost predicate Granted(g: Graph, c: Change)
    requires c.Join?
  {
    (c.itempoint >= 0 || c.itempoint == APPEND || c.itempoint == UP) &&
    (c.devpoint >= 0 || c.devpoint == APPEND || c.devpoint == UP) && !(c.itempoint == APPEND && c.devpoint >= 0) &&
    c.itempoint <= Slots(g, c.item) && c.devpoint <= Slots(g, c.dev) &&
    (c.item, c.itempoint) !in g && (c.dev, c.devpoint) !in g && c.itemAnswer == 0 && c.devAnswer == 0
  }

  /** The graph after a change: two free ends are linked, a link is cut, or nothing happens. */
  ghost function Changed(g: Graph, c: Change): Graph {
    match c
    case Join(item, itempoint, dev, devpoint, _, _) =>
      if Granted(g, c) then
        var x, y := (item, PlaceFor(g, item, itempoint)), (dev, PlaceFor(g, dev, devpoint));
        g[x := y][y := x]
      else g
    case Cut(item, point) => Unlinked(g, (item, point))
  }

  ghost function ChangedAll(g: Graph, changes: seq<Change>): Graph {
    if |changes| == 0 then g else Changed(ChangedAll(g, changes[..|changes| - 1]), changes[|changes| - 1])
  }

  lemma SlotsOf(g: Graph, n: IsiInfo, c: nat)
    requires EndsAt(g, n, c)
    ensures Slots(g, n) == c
  {
    var d := Slots(g, n);
    assert EndsAt(g, n, d);
    assert d > 0 ==> d - 1 < c;
    assert c > 0 ==> c - 1 < d;
  }

  /** The place that a client is granted is free. */
  lemma PlaceIsFree(g: Graph, n: IsiInfo, p: int, c: nat)
    requires EndsAt(g, n, c) && (n, p) !in g
    ensures (n, PlaceFor(g, n, p)) !in g
  {
    SlotsOf(g, n, c);
  }

  /** A change keeps all links reciprocal. */
  lemma ChangeKeepsReciprocity(g: Graph, c: Change, i: nat, d: nat)
    requires Reciprocal(g) && EndsAt(g, c.item, i)
    requires c.Join? ==> c.item != c.dev && EndsAt(g, c.dev, d)
    ensures Reciprocal(Changed(g, c))
  {
    hide Reciprocal, EndsAt, PlaceFor;
    match c
    case Join(item, itempoint, dev, devpoint, _, _) =>
      if Granted(g, c) {
        PlaceIsFree(g, item, itempoint, i);
        PlaceIsFree(g, dev, devpoint, d);
        JoinKeepsReciprocity(g, (item, PlaceFor(g, item, itempoint)), (dev, PlaceFor(g, dev, devpoint)));
      }
    case Cut(item, point) =>
      if (item, point) in g {
        CutKeepsReciprocity(g, (item, point));
      }
  }

  /** Two free ends that are asked for are linked: an end upwards, the next place, or a given one up to
      the next. */
  lemma JoinTakesEffect(g: Graph, c: Change, i: nat, d: nat)
    requires c.Join? && c.item != c.dev && EndsAt(g, c.item, i) && EndsAt(g, c.dev, d)
    requires (c.itempoint == -3 || -1 <= c.itempoint <= i) && (c.devpoint == -3 || -1 <= c.devpoint <= d)
    requires (c.item, c.itempoint) !in g && (c.dev, c.devpoint) !in g && c.itemAnswer == 0 && c.devAnswer == 0
    requires !(c.itempoint == -1 && c.devpoint >= 0)
    ensures var x := (c.item, if c.itempoint == -1 then i else c.itempoint);
      var y := (c.dev, if c.devpoint == -1 then d else c.devpoint);
      Changed(g, c) == g[x := y][y := x]
  {
    SlotsOf(g, c.item, i);
    SlotsOf(g, c.dev, d);
    hide Slots, EndsAt;
  }

  /** A link that is cut is gone at both ends, and no other changes. */
  lemma CutTakesEffect(g: Graph, c: Change)
    requires c.Cut?
    ensures (c.item, c.point) in g ==> Changed(g, c) == g - {(c.item, c.point), g[(c.item, c.point)]}
    ensures (c.item, c.point) !in g ==> Changed(g, c) == g
  {
  }

  /** An end that is taken, or a device that objects, leaves the graph as it is. */
  lemma JoinRefused(g: Graph, c: Change)
    requires c.Join?
    requires (c.item, c.itempoint) in g || (c.dev, c.devpoint) in g || c.itemAnswer != 0 || c.devAnswer != 0
    ensures Changed(g, c) == g
  {
  }

  // ----- changes of the devices -----

  /** The same as Granted, read from the tables of the two devices. */
  predicate MayAsk(c: Change)
    requires c.Join?
    reads c.item, c.dev
  {
    c.itempoint != INSERTSTART && c.devpoint != INSERTSTART && !(c.itempoint == APPEND && c.devpoint >= 0) &&
    c.itempoint <= c.item.count && c.devpoint <= c.dev.count &&
    (c.itempoint == UP ==> c.item.updev.t == null) && (c.devpoint == UP ==> c.dev.updev.t == null)
  }

  /** The table of a device, seen in the graph. */
  lemma TableInGraph(nodes: set<IsiInfo>, n: IsiInfo)
    requires n in nodes && n.Valid()
    ensures EndsAt(Links(nodes), n, n.count) && Slots(Links(nodes), n) == n.count
    ensures n.updev.t != null <==> (n, UP) in Links(nodes)
    ensures forall p :: p in n.Ends() <==> (n, p) in Links(nodes)
  {
    hide Links, AllEnds, Flat, Slots, IsiInfo.Ends, IsiInfo.Live, IsiInfo.Peer;
    PointsInGraph(nodes, n);
    UsedPlaces(n);
    SlotsOf(Links(nodes), n, n.count);
  }

  lemma UsedPlaces(n: IsiInfo)
    requires n.Valid()
    ensures n.count > 0 ==> n.count - 1 in n.Ends()
    ensures forall p: int | p >= n.count :: p !in n.Ends()
    ensures n.updev.t != null <==> UP in n.Ends()
  {
  }

  lemma PointsInGraph(nodes: set<IsiInfo>, n: IsiInfo)
    requires n in nodes && n.Valid()
    ensures forall p :: p in n.Ends() <==> (n, p) in Links(nodes)
  {
    forall p: int
      ensures p in n.Ends() <==> (n, p) in Links(nodes)
    {
      EndIsLink(nodes, n, p);
    }
  }

  /** What isi_attach checks and what the client makes sure of are together the graph's condition. */
  lemma AskedAndAccepted(nodes: set<IsiInfo>, c: Change)
    requires c.Join? && Concerns(nodes, c) && c.item.Valid() && c.dev.Valid()
    ensures Granted(Links(nodes), c) <==>
      MayAsk(c) &&
      AttachError(c.item.Ends(), c.itempoint, c.dev.Ends(), c.devpoint, c.itemAnswer, c.devAnswer) == 0
  {
    TableInGraph(nodes, c.item);
    TableInGraph(nodes, c.dev);
    NoSuchPoint(nodes, c.item);
    NoSuchPoint(nodes, c.dev);
    hide Links, Slots, EndsAt, IsiInfo.Ends;
  }

  lemma NoSuchPoint(nodes: set<IsiInfo>, n: IsiInfo)
    ensures forall p: int | p < 0 && p != UP :: (n, p) !in Links(nodes)
  {
    forall p: int | p < 0 && p != UP
      ensures (n, p) !in Links(nodes)
    {
      EndIsLink(nodes, n, p);
    }
  }

  /** One change, made if the client may ask for it: the graph changes exactly as it says. */
  method Perform(ghost nodes: set<IsiInfo>, c: Change, filler: ConPoint)
    requires Concerns(nodes, c) && (forall n | n in nodes :: n.Valid()) && Reciprocal(Links(nodes))
    modifies nodes
    ensures (forall n | n in nodes :: n.Valid()) && Reciprocal(Links(nodes))
    ensures Links(nodes) == Changed(old(Links(nodes)), c)
  {
    ReciprocalAfter(nodes, c);
    hide Links, Reciprocal, AllEnds, Flat, Granted, AttachError, PlaceFor, IsiInfo.Ends, IsiInfo.Peer, IsiInfo.Live;
    match c
    case Join(_, _, _, _, _, _) =>
      AskedAndAccepted(nodes, c);
      if MayAsk(c) {
        AttachAsked(nodes, c, filler);
      }
    case Cut(item, point) =>
      TableInGraph(nodes, item);
      if point != UP || item.updev.t != null {
        DeattachAsked(nodes, item, point);
      }
  }

  lemma ReciprocalAfter(nodes: set<IsiInfo>, c: Change)
    requires Concerns(nodes, c) && (forall n | n in nodes :: n.Valid()) && Reciprocal(Links(nodes))
    ensures Reciprocal(Changed(Links(nodes), c))
  {
    hide Links, Reciprocal, Changed, EndsAt;
    TableInGraph(nodes, c.item);
    if c.Join? {
      TableInGraph(nodes, c.dev);
      ChangeKeepsReciprocity(Links(nodes), c, c.item.count, c.dev.count);
    } else {
      ChangeKeepsReciprocity(Links(nodes), c, c.item.count, 0);
    }
  }

  method DeattachAsked(ghost nodes: set<IsiInfo>, item: IsiInfo, point: int)
    requires item in nodes && (point == UP ==> (item, UP) in Links(nodes))
    requires (forall n | n in nodes :: n.Valid()) && Reciprocal(Links(nodes))
    modifies nodes
    ensures forall n | n in nodes :: n.Valid()
    ensures Links(nodes) == Changed(old(Links(nodes)), Cut(item, point))
  {
    NoSuchPoint(nodes, item);
    hide Links, Reciprocal, AllEnds, Flat, IsiInfo.Ends, IsiInfo.Peer, IsiInfo.Live;
    var e := Deattach(nodes, item, point);
  }

  method AttachAsked(ghost nodes: set<IsiInfo>, c: Change, filler: ConPoint)
    requires c.Join? && Concerns(nodes, c) && MayAsk(c) && c.item.Valid() && c.dev.Valid()
    requires (forall n | n in nodes :: n.Valid()) && Reciprocal(Links(nodes))
    modifies c.item, c.dev
    ensures forall n | n in nodes :: n.Valid()
    ensures Links(nodes) == Changed(old(Links(nodes)), c)
  {
    AskedAndAccepted(nodes, c);
    TableInGraph(nodes, c.item);
    TableInGraph(nodes, c.dev);
    hide Links, Reciprocal, AllEnds, Flat, MayJoin, FreeFor, Granted, AttachError, Slots, EndsAt,
      IsiInfo.Ends, IsiInfo.Peer, IsiInfo.Live;
    var Join(item, itempoint, dev, devpoint, itemAnswer, devAnswer) := c;
    var e, p, q := AttachIn(nodes, item, itempoint, dev, devpoint, itemAnswer, devAnswer, filler);
  }

  /** Starting with nothing attached, every series of attachments and detachments ends in the graph
      that the changes give one after the other, with all links reciprocal all the time. */
  method Evolve(ghost nodes: set<IsiInfo>, changes: seq<Change>, filler: ConPoint)
    requires (forall n | n in nodes :: n.Valid()) && Links(nodes) == map[]
    requires forall c | c in changes :: Concerns(nodes, c)
    modifies nodes
    ensures forall n | n in nodes :: n.Valid()
    ensures Links(nodes) == ChangedAll(map[], changes)
    ensures forall k | 0 <= k <= |changes| :: Reciprocal(ChangedAll(map[], changes[..k]))
  {
    EmptyIsReciprocal();
    hide Links, Reciprocal, AllEnds, Flat, Changed, IsiInfo.Ends, IsiInfo.Peer, IsiInfo.Live, IsiInfo.Valid;
    for i := 0 to |changes|
      invariant forall n | n in nodes :: n.Valid()
      invariant Links(nodes) == ChangedAll(map[], changes[..i])
      invariant forall k | 0 <= k <= i :: Reciprocal(ChangedAll(map[], changes[..k]))
    {
      assert changes[i] in changes && changes[..i + 1][..i] == changes[..i];
      Perform(nodes, changes[i], filler);
    }
    assert changes[..|changes|] == changes;
  }

  lemma EmptyIsReciprocal()
    ensures Reciprocal(map[])
  {
  }

  // ----- links that only one end knows -----

  lemma OneEnded(g: Graph, x: End)
    requires x in g && g[x] in g && g[g[x]] != x
    ensures !Reciprocal(g)
  {
  }

  /** Attaching a device upwards a second time: the first bus still names it, and it names the second. */
  method TakenUpwards() returns (item: IsiInfo, first: IsiInfo, second: IsiInfo)
    ensures item != first && item != second && first != second && item.Valid() && first.Valid() && second.Valid()
    ensures var g := Links({item, first, second});
      (item, UP) in g && g[(item, UP)] == (second, 0) && (first, 0) in g && g[(first, 0)] == (item, UP) &&
      !Reciprocal(g)
  {
    hide Links, Reciprocal, AllEnds, Flat, MayJoin, FreeFor, Joined,
      IsiInfo.Ends, IsiInfo.Peer, IsiInfo.Live;
    item := new IsiInfo(None);
    first := new IsiInfo(None);
    second := new IsiInfo(None);
    var e, p, q := Attach.Attach(item, UP, first, APPEND, 0, 0, ConPoint(null, -1));
    e, p, q := Attach.Attach(item, UP, second, APPEND, 0, 0, ConPoint(null, -1));
    ghost var nodes := {item, first, second};
    EndIsLink(nodes, item, UP);
    EndIsLink(nodes, first, 0);
    OneEnded(Links(nodes), (first, 0));
  }

  /** Appending a device at an explicit place of another: the other is told the place -1. */
  method NeverTold() returns (item: IsiInfo, dev: IsiInfo)
    ensures item != dev && item.Valid() && dev.Valid()
    ensures var g := Links({item, dev});
      (item, 0) in g && g[(item, 0)] == (dev, 0) && (dev, 0) in g && g[(dev, 0)] == (item, APPEND) && !Reciprocal(g)
  {
    hide Links, Reciprocal, AllEnds, Flat, MayJoin, FreeFor, Joined,
      IsiInfo.Ends, IsiInfo.Peer, IsiInfo.Live;
    item := new IsiInfo(None);
    dev := new IsiInfo(None);
    var e, p, q := Attach.Attach(item, APPEND, dev, 0, 0, 0, ConPoint(null, -1));
    ghost var nodes := {item, dev};
    EndIsLink(nodes, item, 0);
    EndIsLink(nodes, dev, 0);
    OneEnded(Links(nodes), (item, 0));
  }
}
