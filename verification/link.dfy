/** Two interface cards joined by a link: what is sent on one side, and what becomes of it, under
    every interleaving of commands and timer ticks on both sides. */
module Link {
  import opened Words
  import opened Wrappers
  import opened Pdi
  import opened Hic

  /** What has gone from one card to the other. `accepted` and `sent` cover all ports of the sender;
      `arrived` is what came over the link, each word with whether there was room for it; `taken` is
      what the receiver's program got, `losses` the drops since it last saw the overflow status. */
  datatype History = History(
    accepted: seq<Sending>, sent: seq<Sending>, arrived: seq<(Word, bool)>, taken: seq<Word>, losses: nat)

  const NOTHING := History([], [], [], [], 0)

  /** Both cards, and the two directions of the link between port p of a and port q of b. */
  datatype System = System(a: Card, b: Card, p: nat, q: nat, ab: History, ba: History)

  datatype Action =
    | Send(connected: bool, port: Word, word: Word)
    | Take(port: Word)
    | SetInts(rcv: Word, txe: Word)
    | Tick(crun: nat)
    | Foreign(at: nat, word: Word) // a word from elsewhere arrives on another port

  /** The linked port is connected, and nothing else can deliver to it. */
  predicate Possible(p: nat, act: Action) {
    (act.Send? && act.port == p ==> act.connected) && (act.Foreign? ==> act.at != p)
  }

  /** The words accepted for, or sent through, one port. */
  function Through(p: nat, log: seq<Sending>): seq<Word> {
    if |log| == 0 then []
    else
      var rest := Through(p, log[..|log| - 1]);
      if log[|log| - 1].port == p then rest + [log[|log| - 1].word] else rest
  }

  function Arrivals(log: seq<(Word, bool)>): seq<Word> {
    if |log| == 0 then [] else Arrivals(log[..|log| - 1]) + [log[|log| - 1].0]
  }

  /** The arrivals that were not dropped. */
  function Kept(log: seq<(Word, bool)>): seq<Word> {
    if |log| == 0 then []
    else Kept(log[..|log| - 1]) + if log[|log| - 1].1 then [log[|log| - 1].0] else []
  }

  function Tagged(port: Word, words: seq<Word>): seq<Sending> {
    seq(|words|, (i: nat) requires i < |words| => Sending(port, words[i]))
  }

  // ----- one action of card x, whose port p is linked to port q of card y -----

  function Acted(x: Card, act: Action): Card {
    match act
    case Send(connected, port, w) => Sent(x, connected, port, w)
    case Take(port) => Received(x, port)
    case SetInts(rcv, txe) => x.(rxInt := rcv, txInt := txe)
    case Tick(crun) => Ran(x, crun)
    case Foreign(port, w) => Arrived(x, port, w)
  }

  /** The word, if any, that the action puts on the link. */
  function Crossing(x: Card, p: nat, act: Action): Option<Word> {
    if act.Tick? && Outgoing(x, act.crun).Some? && Outgoing(x, act.crun).value.port == p
    then Some(Outgoing(x, act.crun).value.word) else None
  }

  function Delivered(y: Card, q: nat, crossing: Option<Word>): Card {
    if crossing.Some? then Arrived(y, q, crossing.value) else y
  }

  /** The history of the words x sends. */
  function Outbound(x: Card, y: Card, p: nat, q: nat, act: Action, h: History): History
    requires q < PORTS
  {
    var h1 := if act.Send? && Accepts(x, act.connected, act.port)
              then h.(accepted := h.accepted + [Sending(act.port, act.word)]) else h;
    var h2 := if act.Tick? && Outgoing(x, act.crun).Some?
              then h1.(sent := h1.sent + [Outgoing(x, act.crun).value]) else h1;
    var crossing := Crossing(x, p, act);
    if crossing.None? then h2
    else
      var room := |y.rx[q].words| < LIMIT;
      h2.(arrived := h2.arrived + [(crossing.value, room)], losses := h2.losses + if room then 0 else 1)
  }

  /** The history of the words x receives on its linked port. */
  function Inbound(x: Card, p: nat, act: Action, h: History): History {
    if act.Take? && act.port == p && ReceiveStatus(x, act.port) != 3
    then h.(taken := h.taken + [ReceivedWord(x, act.port)], losses := 0) else h
  }

  function Next(s: System, left: bool, act: Action): System
    requires s.p < PORTS && s.q < PORTS
  {
    if left then
      System(Acted(s.a, act), Delivered(s.b, s.q, Crossing(s.a, s.p, act)), s.p, s.q,
             Outbound(s.a, s.b, s.p, s.q, act, s.ab), Inbound(s.a, s.p, act, s.ba))
    else
      System(Delivered(s.a, s.p, Crossing(s.b, s.q, act)), Acted(s.b, act), s.p, s.q,
             Inbound(s.b, s.q, act, s.ab), Outbound(s.b, s.a, s.q, s.p, act, s.ba))
  }

  // ----- invariants -----

  predicate CardOk(c: Card) {
    c.tx.ready == 0 && |c.tx.words| <= LIMIT && forall i | 0 <= i < PORTS :: c.rx[i].Ok()
  }

  /** Every word accepted has been sent, in order and through the port it was accepted for, or waits
      in the transmit queue, bound for the current port. */
  predicate Sends(x: Card, h: History) {
    h.accepted == h.sent + Tagged(x.txport, x.tx.words)
  }

  /** Every word sent through the linked port has arrived; every arrival that found room has been
      taken or waits in the receive queue, in order; a loss shows as the overflow flag. */
  predicate Receives(y: Card, p: nat, q: nat, h: History)
    requires q < PORTS
  {
    Arrivals(h.arrived) == Through(p, h.sent) &&
    Kept(h.arrived) == h.taken + y.rx[q].words &&
    (y.rx[q].overflow <==> h.losses > 0)
  }

  predicate Good(s: System) {
    s.p < PORTS && s.q < PORTS && CardOk(s.a) && CardOk(s.b) &&
    Sends(s.a, s.ab) && Receives(s.b, s.p, s.q, s.ab) &&
    Sends(s.b, s.ba) && Receives(s.a, s.q, s.p, s.ba)
  }

  lemma ActedOk(x: Card, act: Action)
    requires CardOk(x)
    ensures CardOk(Acted(x, act))
  {
  }

  lemma DeliveredOk(y: Card, q: nat, crossing: Option<Word>)
    requires CardOk(y)
    ensures CardOk(Delivered(y, q, crossing))
  {
  }

  lemma SendsKept(x: Card, y: Card, p: nat, q: nat, act: Action, h: History)
    requires CardOk(x) && Sends(x, h) && q < PORTS
    ensures Sends(Acted(x, act), Outbound(x, y, p, q, act, h))
  {
    var x', h' := Acted(x, act), Outbound(x, y, p, q, act, h);
    if act.Send? && Accepts(x, act.connected, act.port) {
      assert Tagged(x'.txport, x'.tx.words) == Tagged(x.txport, x.tx.words) + [Sending(act.port, act.word)];
    } else if act.Tick? && Outgoing(x, act.crun).Some? {
      assert Tagged(x.txport, x.tx.words) == [Sending(x.txport, x.tx.words[0])] + Tagged(x.txport, x'.tx.words);
    }
  }

  lemma {:induction false} ArrivalsSnoc(log: seq<(Word, bool)>, w: Word, room: bool)
    ensures Arrivals(log + [(w, room)]) == Arrivals(log) + [w]
    ensures Kept(log + [(w, room)]) == Kept(log) + if room then [w] else []
  {
    assert (log + [(w, room)])[..|log|] == log;
  }

  lemma ThroughSnoc(p: nat, log: seq<Sending>, s: Sending)
    ensures Through(p, log + [s]) == if s.port == p then Through(p, log) + [s.word] else Through(p, log)
  {
    assert (log + [s])[..|log|] == log;
  }

  /** The sender's action keeps the receiver's side in order. */
  lemma ReceivesKept(x: Card, y: Card, p: nat, q: nat, act: Action, h: History)
    requires CardOk(x) && CardOk(y) && q < PORTS && Receives(y, p, q, h)
    ensures Receives(Delivered(y, q, Crossing(x, p, act)), p, q, Outbound(x, y, p, q, act, h))
  {
    hide Outgoing, Accepts, Through, Kept, Arrivals;
    if act.Tick? && Outgoing(x, act.crun).Some? {
      var s := Outgoing(x, act.crun).value;
      ThroughSnoc(p, h.sent, s);
      if s.port == p {
        ArrivalsSnoc(h.arrived, s.word, |y.rx[q].words| < LIMIT);
      }
    }
  }

  /** The receiver's own actions keep it too. */
  lemma TakingKept(y: Card, p: nat, q: nat, act: Action, h: History)
    requires CardOk(y) && q < PORTS && Receives(y, p, q, h) && Possible(q, act)
    ensures Receives(Acted(y, act), p, q, Inbound(y, q, act, h))
  {
    if act.Take? && act.port == q && ReceiveStatus(y, act.port) != 3 {
      assert y.rx[q].words == [y.rx[q].words[0]] + y.rx[q].words[1..];
    }
  }

  /** What one side's action does to the words it receives from the other, apart from taking them. */
  lemma SendsUndisturbed(x: Card, q: nat, crossing: Option<Word>, h: History)
    requires Sends(x, h)
    ensures Sends(Delivered(x, q, crossing), h)
  {
  }

  lemma InboundKeepsSends(y: Card, x: Card, p: nat, act: Action, h: History)
    requires Sends(x, h)
    ensures Sends(x, Inbound(y, p, act, h))
  {
  }

  lemma StepGood(s: System, left: bool, act: Action)
    requires Good(s) && Possible(if left then s.p else s.q, act)
    ensures Good(Next(s, left, act))
  {
    hide Sends, Receives, CardOk, Acted, Delivered, Crossing, Outbound, Inbound;
    if left {
      var crossing := Crossing(s.a, s.p, act);
      ActedOk(s.a, act);
      DeliveredOk(s.b, s.q, crossing);
      SendsKept(s.a, s.b, s.p, s.q, act, s.ab);
      ReceivesKept(s.a, s.b, s.p, s.q, act, s.ab);
      SendsUndisturbed(s.b, s.q, crossing, s.ba);
      InboundKeepsSends(s.a, Delivered(s.b, s.q, crossing), s.p, act, s.ba);
      TakingKept(s.a, s.q, s.p, act, s.ba);
    } else {
      var crossing := Crossing(s.b, s.q, act);
      ActedOk(s.b, act);
      DeliveredOk(s.a, s.p, crossing);
      SendsKept(s.b, s.a, s.q, s.p, act, s.ba);
      ReceivesKept(s.b, s.a, s.q, s.p, act, s.ba);
      SendsUndisturbed(s.a, s.p, crossing, s.ab);
      InboundKeepsSends(s.b, Delivered(s.a, s.p, crossing), s.q, act, s.ab);
      TakingKept(s.b, s.p, s.q, act, s.ab);
    }
  }

  // ----- runs -----

  datatype Event = Event(left: bool, act: Action)

  predicate Stable(p: nat, q: nat, events: seq<Event>) {
    forall e | e in events :: Possible(if e.left then p else q, e.act)
  }

  function After(s: System, events: seq<Event>): System
    requires s.p < PORTS && s.q < PORTS
    ensures After(s, events).p == s.p && After(s, events).q == s.q
  {
    if |events| == 0 then s
    else
      var e := events[|events| - 1];
      Next(After(s, events[..|events| - 1]), e.left, e.act)
  }

  /** An action as the card object carries it out. */
  method Act(card: KaiHic, act: Action) returns (out: Option<Sending>)
    requires card.Valid()
    modifies card.Repr()
    ensures card.Valid() && card.View() == Acted(old(card.View()), act)
    ensures out == if act.Tick? then Outgoing(old(card.View()), act.crun) else None
  {
    hide Sent, Received, Ran, Arrived, Outgoing, SendStatus, ReceivedWord, ReceiveStatus, TickNotices, DueAt;
    out := None;
    match act
    case Send(connected, port, w) => var status := card.Transmit(connected, port, w);
    case Take(port) => var word, status := card.Receive(port);
    case SetInts(rcv, txe) => card.SetInterrupts(rcv, txe);
    case Tick(crun) => out := card.Run(crun);
    case Foreign(port, w) => card.Arrive(port, w);
  }

  /** An action of `x` while the port p of `x` is linked to the port q of `y`. */
  method ActLinked(x: KaiHic, p: nat, y: KaiHic, q: nat, act: Action)
    requires x.Valid() && y.Valid() && x.Repr() !! y.Repr() && p < PORTS && q < PORTS
    modifies x.Repr(), y.Repr()
    ensures x.Valid() && y.Valid() && x.View() == Acted(old(x.View()), act)
    ensures y.View() == Delivered(old(y.View()), q, Crossing(old(x.View()), p, act))
  {
    hide Acted, Outgoing, Arrived;
    var out := Act(x, act);
    if out.Some? && out.value.port == p {
      y.Arrive(q, out.value.word);
    }
  }

  /** Two card objects joined by a link go through the runs of `System`. */
  method RunLinked(a: KaiHic, p: nat, b: KaiHic, q: nat, events: seq<Event>, ghost s: System)
    requires a.Valid() && b.Valid() && a.Repr() !! b.Repr() && p < PORTS && q < PORTS
    requires s.a == a.View() && s.b == b.View() && s.p == p && s.q == q
    modifies a.Repr(), b.Repr()
    ensures a.Valid() && b.Valid() && a.View() == After(s, events).a && b.View() == After(s, events).b
  {
    hide Acted, Delivered, Crossing, Outbound, Inbound;
    for k := 0 to |events|
      invariant a.Valid() && b.Valid()
      invariant a.View() == After(s, events[..k]).a && b.View() == After(s, events[..k]).b
    {
      assert events[..k + 1][..k] == events[..k];
      if events[k].left {
        ActLinked(a, p, b, q, events[k].act);
      } else {
        ActLinked(b, q, a, p, events[k].act);
      }
    }
    assert events[..|events|] == events;
  }

  lemma {:induction false} RunGood(s: System, events: seq<Event>)
    requires s.p < PORTS && s.q < PORTS && Good(s) && Stable(s.p, s.q, events)
    ensures Good(After(s, events))
  {
    hide Good, Next, Possible;
    if |events| > 0 {
      var n := |events| - 1;
      RunGood(s, events[..n]);
      assert Possible(if events[n].left then s.p else s.q, events[n].act);
      StepGood(After(s, events[..n]), events[n].left, events[n].act);
    }
  }

  lemma {:induction false} ThroughConcat(p: nat, log: seq<Sending>, more: seq<Sending>)
    ensures Through(p, log + more) == Through(p, log) + Through(p, more)
  {
    if |more| == 0 {
      assert log + more == log;
    } else {
      var n := |more| - 1;
      ThroughConcat(p, log, more[..n]);
      assert log + more == (log + more[..n]) + [more[n]] && more == more[..n] + [more[n]];
      ThroughSnoc(p, log + more[..n], more[n]);
      ThroughSnoc(p, more[..n], more[n]);
    }
  }

  lemma {:induction false} ThroughTagged(p: nat, port: Word, words: seq<Word>)
    ensures Through(p, Tagged(port, words)) == if port == p then words else []
  {
    if |words| > 0 {
      var n := |words| - 1;
      ThroughTagged(p, port, words[..n]);
      assert Tagged(port, words)[..n] == Tagged(port, words[..n]);
    }
  }

  function Drops(log: seq<(Word, bool)>): nat {
    if |log| == 0 then 0 else Drops(log[..|log| - 1]) + if log[|log| - 1].1 then 0 else 1
  }

  /** Cards as Reset leaves them, with any timers. */
  predicate Fresh(c: Card) {
    c.tx == Queue([], 0, false) && forall i | 0 <= i < PORTS :: c.rx[i] == Queue([], 0, false)
  }

  /** Two cards joined by a link that stays, under any interleaving of commands and ticks. The words
      accepted for the linked port are, in order, the words that arrived at the other card and the
      words still in the transmit queue; what arrived is, in order, what was taken and what is still
      in the receive queue, except for the words dropped for lack of room; and as long as a drop has
      not been reported, the overflow flag is set. The same holds the other way. */
  lemma WordsAccountedFor(s: System, events: seq<Event>)
    requires Fresh(s.a) && Fresh(s.b) && s.ab == NOTHING && s.ba == NOTHING && s.p < PORTS && s.q < PORTS
    requires Stable(s.p, s.q, events)
    ensures var t := After(s, events);
      Through(s.p, t.ab.accepted) ==
        Arrivals(t.ab.arrived) + (if t.a.txport == s.p then t.a.tx.words else []) &&
      Kept(t.ab.arrived) == t.ab.taken + t.b.rx[s.q].words &&
      (t.b.rx[s.q].overflow <==> t.ab.losses > 0) &&
      Through(s.q, t.ba.accepted) ==
        Arrivals(t.ba.arrived) + (if t.b.txport == s.q then t.b.tx.words else []) &&
      Kept(t.ba.arrived) == t.ba.taken + t.a.rx[s.p].words &&
      (t.a.rx[s.p].overflow <==> t.ba.losses > 0)
  {
    assert Tagged(s.a.txport, s.a.tx.words) == [] && Tagged(s.b.txport, s.b.tx.words) == [];
    RunGood(s, events);
    var t := After(s, events);
    ThroughConcat(s.p, t.ab.sent, Tagged(t.a.txport, t.a.tx.words));
    ThroughTagged(s.p, t.a.txport, t.a.tx.words);
    ThroughConcat(s.q, t.ba.sent, Tagged(t.b.txport, t.b.tx.words));
    ThroughTagged(s.q, t.b.txport, t.b.tx.words);
  }

  /** A word is dropped exactly when it arrives at a full queue. */
  lemma {:induction false} ArrivalsCounted(log: seq<(Word, bool)>)
    ensures |Arrivals(log)| == |Kept(log)| + Drops(log)
  {
    if |log| > 0 {
      ArrivalsCounted(log[..|log| - 1]);
    }
  }
}
