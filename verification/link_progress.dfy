/** Words get through: what is stored on a port becomes ready, one word with every tick, and what is sent
    over a link is received. */
module LinkProgress {
  import opened Words
  import opened Pdi
  import opened Hic
  import opened Link

  function ActedAll(x: Card, acts: seq<Action>): Card {
    if |acts| == 0 then x else Acted(ActedAll(x, acts[..|acts| - 1]), acts[|acts| - 1])
  }

  /** How many of the ticks come after the time of the timer. */
  function DueTicks(x: Card, acts: seq<Action>): nat {
    if |acts| == 0 then 0
    else
      var y, act := ActedAll(x, acts[..|acts| - 1]), acts[|acts| - 1];
      DueTicks(x, acts[..|acts| - 1]) + if act.Tick? && 0 < y.nrun < act.crun then 1 else 0
  }

  function Least(a: nat, b: nat): nat {
    if a < b then a else b
  }

  /** One action that takes nothing from port p: the words stored stay, and at most one more becomes
      ready, which a due tick always achieves if there is one. */
  lemma PortStep(x: Card, p: nat, act: Action)
    requires CardOk(x) && p < 32 && (act.Take? ==> act.port != p)
    ensures var y := Acted(x, act);
      var tick := act.Tick? && 0 < x.nrun < act.crun;
      CardOk(y) && x.rx[p].words <= y.rx[p].words &&
      y.rx[p].ready == if tick && x.rx[p].ready < |x.rx[p].words| then x.rx[p].ready + 1 else x.rx[p].ready
  {
    hide Sent, Outgoing;
    ActedOk(x, act);
    if act.Send? {
      SendKeepsReceivers(x, act.connected, act.port, act.word);
    }
  }

  lemma SendKeepsReceivers(x: Card, connected: bool, port: Word, w: Word)
    ensures Sent(x, connected, port, w).rx == x.rx
  {
  }

  /** While nothing is taken from port p, the words it stores stay where they are, and every due tick
      makes one more of them ready, until all are. */
  lemma {:induction false} PortProgress(x: Card, p: nat, acts: seq<Action>)
    requires CardOk(x) && p < 32 && forall act | act in acts && act.Take? :: act.port != p
    ensures var y, ticks := ActedAll(x, acts), DueTicks(x, acts);
      CardOk(y) && x.rx[p].words <= y.rx[p].words &&
      Least(x.rx[p].ready + ticks, |x.rx[p].words|) <= y.rx[p].ready <= x.rx[p].ready + ticks
  {
    hide CardOk, Acted;
    if |acts| > 0 {
      var n := |acts| - 1;
      PortProgress(x, p, acts[..n]);
      assert acts[n] in acts;
      ReadyIsStored(x, p);
      PortStep(ActedAll(x, acts[..n]), p, acts[n]);
    } else {
      ReadyIsStored(x, p);
    }
  }

  lemma ReadyIsStored(x: Card, p: nat)
    requires CardOk(x) && p < 32
    ensures x.rx[p].ready <= |x.rx[p].words|
  {
  }

  /** Taking j words from a port. */
  function Took(y: Card, p: Word, j: nat): Card {
    if j == 0 then y else Received(Took(y, p, j - 1), p)
  }

  lemma {:induction false} TookWords(y: Card, p: Word, j: nat)
    requires CardOk(y) && p < 32 && j <= y.rx[p].ready
    ensures var t := Took(y, p, j);
      CardOk(t) && t.rx[p].words == y.rx[p].words[j..] && t.rx[p].ready == y.rx[p].ready - j
  {
    hide CardOk;
    ReadyIsStored(y, p);
    if j > 0 {
      TookWords(y, p, j - 1);
      TakeOne(Took(y, p, j - 1), p);
    }
  }

  lemma TakeOne(y: Card, p: Word)
    requires CardOk(y) && p < 32 && y.rx[p].ready > 0
    ensures var t := Received(y, p);
      CardOk(t) && t.rx[p].words == y.rx[p].words[1..] && t.rx[p].ready == y.rx[p].ready - 1
  {
  }

  /** A port that stores more than k words gives them up in order once k + 1 due ticks have passed: the
      k + 1 receive commands that follow answer the words 0 to k, none of them "no data". */
  lemma WordsAreGiven(x: Card, p: Word, acts: seq<Action>, k: nat, j: nat)
    requires CardOk(x) && p < 32 && forall act | act in acts && act.Take? :: act.port != p
    requires |x.rx[p].words| > k && DueTicks(x, acts) >= k + 1 && j <= k
    ensures var t := Took(ActedAll(x, acts), p, j);
      ReceivedWord(t, p) == x.rx[p].words[j] && ReceiveStatus(t, p) != 3
  {
    hide CardOk, Took, ActedAll, DueTicks;
    var y := ActedAll(x, acts);
    PortProgress(x, p, acts);
    ReadyIsStored(y, p);
    TookWords(y, p, j);
  }

  // ----- over a link -----

  /** Send, a due tick on the sender, a due tick on the receiver, and receive. */
  function Course(p: Word, q: Word, w: Word, t: nat, u: nat): seq<Event> {
    [Event(true, Send(true, p, w)), Event(true, Tick(t)), Event(false, Tick(u)), Event(false, Take(q))]
  }

  /** Between two fresh cards the word sent is the word received. */
  lemma WordArrives(s: System, w: Word, t: nat, u: nat)
    requires Fresh(s.a) && Fresh(s.b) && s.ab == NOTHING && s.ba == NOTHING && s.p < 32 && s.q < 32
    requires 0 < s.a.nrun < t && 0 < s.b.nrun < u
    ensures var events := Course(s.p, s.q, w, t, u);
      After(s, events).ab.taken == [w] && After(s, events).ab.arrived == [(w, true)] &&
      ReceivedWord(After(s, events[..3]).b, s.q) == w && ReceiveStatus(After(s, events[..3]).b, s.q) == 0
  {
    hide After, Next, Fresh, ReceivedWord, ReceiveStatus;
    var events := Course(s.p, s.q, w, t, u);
    AfterMore(s, events, 0);
    AfterMore(s, events, 1);
    AfterMore(s, events, 2);
    AfterMore(s, events, 3);
    assert events[..4] == events;
    SendStep(s, w);
    TickStep(After(s, events[..1]), w, t);
    ReadyStep(After(s, events[..2]), w, u);
    TakeStep(After(s, events[..3]), w);
  }

  lemma AfterMore(s: System, events: seq<Event>, k: nat)
    requires s.p < PORTS && s.q < PORTS && k < |events|
    ensures After(s, events[..k + 1]) == Next(After(s, events[..k]), events[k].left, events[k].act)
    ensures k == 0 ==> After(s, events[..k]) == s
  {
    hide Next;
    assert events[..k + 1][..k] == events[..k];
  }

  lemma SendStep(s: System, w: Word)
    requires Fresh(s.a) && s.ab == NOTHING && s.p < 32 && s.q < 32
    ensures var t := Next(s, true, Send(true, s.p, w));
      t.p == s.p && t.q == s.q && t.b == s.b && t.a.tx == Queue([w], 0, false) && t.a.txport == s.p &&
      t.a.nrun == s.a.nrun && t.ab.arrived == [] && t.ab.taken == []
  {
  }

  lemma TickStep(s: System, w: Word, t: nat)
    requires s.p < 32 && s.q < 32 && s.a.tx == Queue([w], 0, false) && s.a.txport == s.p && 0 < s.a.nrun < t
    requires Fresh(s.b) && s.ab.arrived == [] && s.ab.taken == []
    ensures var e := Next(s, true, Tick(t));
      e.p == s.p && e.q == s.q && e.b.rx[s.q] == Queue([w], 0, false) && e.b.nrun == s.b.nrun &&
      e.ab.arrived == [(w, true)] && e.ab.taken == []
  {
    hide AllProcessed;
  }

  lemma ReadyStep(s: System, w: Word, u: nat)
    requires s.p < 32 && s.q < 32 && s.b.rx[s.q] == Queue([w], 0, false) && 0 < s.b.nrun < u
    requires s.ab.arrived == [(w, true)] && s.ab.taken == []
    ensures var e := Next(s, false, Tick(u));
      e.p == s.p && e.q == s.q && e.b.rx[s.q] == Queue([w], 1, false) && e.ab.arrived == s.ab.arrived &&
      e.ab.taken == []
  {
  }

  lemma TakeStep(s: System, w: Word)
    requires s.p < 32 && s.q < 32 && s.b.rx[s.q] == Queue([w], 1, false) && s.ab.taken == []
    ensures var e := Next(s, false, Take(s.q));
      e.ab.taken == [w] && e.ab.arrived == s.ab.arrived &&
      ReceivedWord(s.b, s.q) == w && ReceiveStatus(s.b, s.q) == 0
  {
  }

  /** In every run: a receive command that brings a word also tells, with status 1, if and only if a word
      has been lost since the last one that did. */
  lemma LossIsTold(s: System, events: seq<Event>)
    requires Fresh(s.a) && Fresh(s.b) && s.ab == NOTHING && s.ba == NOTHING && s.p < 32 && s.q < 32
    requires Stable(s.p, s.q, events)
    requires After(s, events).b.rx[s.q].ready > 0
    ensures var t := After(s, events);
      ReceiveStatus(t.b, s.q) == if t.ab.losses > 0 then 1 else 0
  {
    hide After, Through, Arrivals, Kept;
    WordsAccountedFor(s, events);
  }
}
