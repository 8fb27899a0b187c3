/** The 32-port KaiComm interface card of hardware/kaihic.cpp: one transmit queue shared by all
    ports, and a receive queue for every port. */
module Hic {
  import opened Words
  import opened Wrappers
  import opened Pdi

  const PORTS := 32
  const WORD_TIME := 100_000

  // ----- the card as a value -----

  type Receivers = s: seq<Queue> | |s| == PORTS witness seq(32, (i: nat) => Queue([], 0, false))

  datatype Card = Card(tx: Queue, rx: Receivers, txport: Word, rxInt: Word, txInt: Word, nrun: nat)

  /** A word on its way out. */
  datatype Sending = Sending(port: Word, word: Word)

  /** The status of a transmit command: 0 accepted, 1 accepted behind others, 2 no room, 3 no such
      connection, 4 busy with another port. */
  function SendStatus(c: Card, connected: bool, port: Word): Word {
    if port >= PORTS || !connected then 3
    else if port != c.txport && c.tx.ready < |c.tx.words| then 4
    else if |c.tx.words| >= LIMIT then 2
    else if c.tx.ready < |c.tx.words| then 1
    else 0
  }

  predicate Accepts(c: Card, connected: bool, port: Word) {
    SendStatus(c, connected, port) <= 1
  }

  function Sent(c: Card, connected: bool, port: Word, w: Word): Card {
    if SendStatus(c, connected, port) < 3 then c.(txport := port, tx := AddedTx(c.tx, w)) else c
  }

  function ReceiveStatus(c: Card, port: Word): Word {
    if port >= PORTS || c.rx[port].ready == 0 then 3
    else if c.rx[port].overflow then 1
    else 0
  }

  function Received(c: Card, port: Word): Card {
    if ReceiveStatus(c, port) == 3 then c
    else c.(rx := c.rx[port := Taken(c.rx[port]).(overflow := false)])
  }

  function ReceivedWord(c: Card, port: Word): Word {
    if ReceiveStatus(c, port) == 3 || |c.rx[port].words| == 0 then 0 else c.rx[port].words[0]
  }

  /** The answer to a status query: receiver busy 1, no connection 2, data 4, invalid port 8,
      room to transmit 16, transmitter idle 32, interrupts on 0x4000 and 0x8000. */
  function StatusBits(c: Card, connected: bool, port: Word): Word {
    (if port >= PORTS then 10
     else if !connected then 2
     else (if c.rx[port].ready < |c.rx[port].words| then 1 else 0) + if c.rx[port].ready > 0 then 4 else 0) +
    (if |c.tx.words| < LIMIT then 16 else 0) + (if c.tx.ready < |c.tx.words| then 0 else 32) +
    (if c.rxInt != 0 then 0x4000 else 0) + if c.txInt != 0 then 0x8000 else 0
  }

  function AllProcessed(rx: Receivers): Receivers {
    seq(PORTS, (i: nat) requires i < PORTS => Processed(rx[i]))
  }

  predicate DueAt(c: Card, crun: nat) {
    (if c.nrun == 0 then crun else c.nrun) < crun
  }

  /** What leaves the card when its timer fires. */
  function Outgoing(c: Card, crun: nat): Option<Sending> {
    if DueAt(c, crun) && c.tx.ready < |c.tx.words| then Some(Sending(c.txport, c.tx.words[0])) else None
  }

  function Ran(c: Card, crun: nat): Card {
    if !DueAt(c, crun) then c.(nrun := if c.nrun == 0 then crun else c.nrun)
    else
      c.(nrun := c.nrun + WORD_TIME,
         tx := if c.tx.ready < |c.tx.words| then Taken(Processed(c.tx)) else c.tx,
         rx := AllProcessed(c.rx))
  }

  predicate Waiting(q: Queue) {
    q.ready < |q.words|
  }

  predicate AnyWaiting(rx: Receivers) {
    exists i | 0 <= i < PORTS :: Waiting(rx[i])
  }

  /** The interrupts a timer tick raises: one when the transmitter has nothing more to send, one
      when any received word has become ready. */
  function TickNotices(c: Card): seq<Word> {
    (if Waiting(c.tx) && !Waiting(Taken(Processed(c.tx))) && c.txInt != 0 then [c.txInt] else []) +
    (if AnyWaiting(c.rx) && c.rxInt != 0 then [c.rxInt] else [])
  }

  /** A word arrives on a port. */
  function Arrived(c: Card, port: nat, w: Word): Card {
    if port < PORTS then c.(rx := c.rx[port := AddedRx(c.rx[port], w)]) else c
  }

  // ----- the card as an object -----

  ghost function QueuesOf(ports: seq<Port>): (qs: seq<Queue>)
    requires forall p | p in ports :: p.Valid()
    reads set p | p in ports, set p | p in ports :: p.dat
    ensures |qs| == |ports| && forall i | 0 <= i < |ports| :: qs[i] == ports[i].View()
  {
    if |ports| == 0 then []
    else QueuesOf(ports[..|ports| - 1]) + [ports[|ports| - 1].View()]
  }

  lemma Blank(ports: seq<Port>)
    requires |ports| == PORTS && forall p | p in ports :: p.Valid() && p.View() == Queue([], 0, false)
    ensures QueuesOf(ports) == seq(PORTS, (i: nat) => Queue([], 0, false))
  {
  }

  /** The queues of all ports, each with its own buffer. */
  method NewPorts() returns (ports: seq<Port>)
    ensures |ports| == PORTS
    ensures forall p | p in ports :: fresh(p) && fresh(p.dat) && p.Valid() && p.View() == Queue([], 0, false)
    ensures forall j, k | 0 <= j < k < PORTS :: ports[j] != ports[k] && ports[j].dat != ports[k].dat
  {
    ports := [];
    for i := 0 to PORTS
      invariant |ports| == i
      invariant forall p | p in ports :: fresh(p) && fresh(p.dat) && p.Valid() && p.View() == Queue([], 0, false)
      invariant forall j, k | 0 <= j < k < i :: ports[j] != ports[k] && ports[j].dat != ports[k].dat
    {
      var p := new Port();
      ports := ports + [p];
    }
  }

  class KaiHic {
    var iwordrcv: Word
    var iwordtxe: Word
    var txport: Word
    var nrun: nat
    const tx: Port
    const rx: seq<Port>
    var raised: seq<Word> // the interrupts sent to the processor, oldest first

    constructor ()
      ensures Valid() && fresh(Repr())
      ensures View() == Card(Queue([], 0, false), seq(PORTS, (i: nat) => Queue([], 0, false)), 0, 0, 0, 0)
    {
      hide QueuesOf;
      iwordrcv, iwordtxe, txport, nrun, raised := 0, 0, 0, 0, [];
      var t := new Port();
      var ports := NewPorts();
      tx, rx := t, ports;
      new;
      Blank(rx);
    }

    ghost predicate Valid()
      reads tx, set p | p in rx
    {
      |rx| == PORTS && tx.Valid() && (forall p | p in rx :: p.Valid() && p != tx && p.dat != tx.dat) &&
      forall i, j | 0 <= i < j < PORTS :: rx[i] != rx[j] && rx[i].dat != rx[j].dat
    }

    ghost function Repr(): set<object> {
      {this, tx, tx.dat} + (set p | p in rx) + (set p | p in rx :: p.dat)
    }

    ghost function Queues(): Receivers
      requires Valid()
      reads tx, tx.dat, set p | p in rx, set p | p in rx :: p.dat
    {
      QueuesOf(rx)
    }

    ghost function View(): Card
      requires Valid()
      reads this, tx, tx.dat, set p | p in rx, set p | p in rx :: p.dat
    {
      Card(tx.View(), Queues(), txport, iwordrcv, iwordtxe, nrun)
    }

    /** The card with the queue of one port replaced by what it is now. */
    twostate lemma OnePort(port: nat)
      requires old(Valid()) && Valid() && port < PORTS
      requires unchanged(this) && unchanged(tx) && unchanged(tx.dat)
      requires forall i | 0 <= i < PORTS && i != port :: unchanged(rx[i]) && unchanged(rx[i].dat)
      ensures View() == old(View()).(rx := old(View()).rx[port := rx[port].View()])
    {
    }

    /** Command 1 of KaiHIC::HWI */
    method Receive(port: Word) returns (word: Word, status: Word)
      requires Valid()
      modifies Repr()
      ensures Valid() && View() == Received(old(View()), port)
      ensures word == ReceivedWord(old(View()), port) && status == ReceiveStatus(old(View()), port)
    {
      hide QueuesOf;
      word, status := 0, 0;
      if port >= PORTS {
        return 0, 3;
      }
      var p := rx[port];
      var got := p.GetWord();
      if got.None? {
        status := 3;
      } else {
        word := got.value;
        var lost := p.GetOverflow();
        if lost {
          status := 1;
        }
      }
      OnePort(port);
    }

    /** Command 2 of KaiHIC::HWI. `connected` says whether something is attached to the port. */
    method Transmit(connected: bool, port: Word, w: Word) returns (status: Word)
      requires Valid()
      modifies this`txport, tx, tx.dat
      ensures Valid() && View() == Sent(old(View()), connected, port, w)
      ensures status == SendStatus(old(View()), connected, port)
    {
      hide QueuesOf;
      var busy := tx.IsBusy();
      status := 0;
      if port >= PORTS {
        status := 3;
      } else if !connected {
        status := 3;
      } else if port != txport && busy {
        status := 4;
      } else {
        txport := port;
        if busy {
          status := 1;
        }
        var r := tx.AddTx(w);
        if r != 0 {
          status := 2;
        }
      }
      assert Queues() == old(Queues());
    }

    /** The ISE_DPSI branch of KaiHIC::MsgIn */
    method Arrive(port: nat, w: Word)
      requires Valid()
      modifies Repr()
      ensures Valid() && View() == Arrived(old(View()), port, w)
    {
      hide QueuesOf;
      if port < PORTS {
        var r := rx[port].AddRx(w);
        OnePort(port);
      }
    }

    /** Command 3 of KaiHIC::HWI */
    method SetInterrupts(rcv: Word, txe: Word)
      requires Valid()
      modifies this`iwordrcv, this`iwordtxe
      ensures Valid() && View() == old(View()).(rxInt := rcv, txInt := txe)
    {
      iwordrcv, iwordtxe := rcv, txe;
      assert Queues() == old(Queues());
    }

    /** The lowest port with a word to receive, 0xffff if there is none. */
    method LowestReady() returns (lowest: Word)
      requires Valid()
      ensures lowest < PORTS || lowest == 0xffff
      ensures lowest < PORTS ==> rx[lowest].View().ready > 0
      ensures forall i | 0 <= i < PORTS && i < lowest :: rx[i].View().ready == 0
    {
      for i := 0 to PORTS
        invariant forall k | 0 <= k < i :: rx[k].View().ready == 0
      {
        var data := rx[i].HasData();
        if data {
          return i;
        }
      }
      return 0xffff;
    }

    method ReceiverBits(connected: bool, port: Word) returns (bits: nat)
      requires Valid()
      ensures bits ==
        (if port >= PORTS then 10
         else if !connected then 2
         else (if Waiting(rx[port].View()) then 1 else 0) + if rx[port].View().ready > 0 then 4 else 0)
    {
      bits := 0;
      if port >= PORTS {
        bits := 2 + 8;
      } else if !connected {
        bits := 2;
      } else {
        var busy := rx[port].IsBusy();
        var data := rx[port].HasData();
        bits := (if busy then 1 else 0) + if data then 4 else 0;
      }
    }

    /** Command 0 of KaiHIC::HWI: the status bits. */
    method Query(connected: bool, port: Word) returns (bits: Word, lowest: Word)
      requires Valid()
      ensures bits == StatusBits(View(), connected, port)
      ensures lowest < PORTS || lowest == 0xffff
      ensures lowest < PORTS ==> View().rx[lowest].ready > 0
      ensures forall i | 0 <= i < PORTS && i < lowest :: View().rx[i].ready == 0
    {
      hide QueuesOf;
      var receiver := ReceiverBits(connected, port);
      var free := tx.HasFree();
      var sending := tx.IsBusy();
      bits := receiver + (if free then 16 else 0) + (if sending then 0 else 32) +
        (if iwordrcv != 0 then 0x4000 else 0) + if iwordtxe != 0 then 0x8000 else 0;
      lowest := LowestReady();
    }

    /** KaiHIC::Reset. The timer is not part of it. */
    method Reset()
      requires Valid()
      modifies Repr()
      ensures Valid()
      ensures View() == Card(Queue([], 0, false), seq(PORTS, (i: nat) => Queue([], 0, false)), 0, 0, 0, old(nrun))
    {
      iwordrcv, iwordtxe, txport := 0, 0, 0;
      tx.Clear();
      for i := 0 to PORTS
        invariant Valid() && tx.View() == Queue([], 0, false)
        invariant iwordrcv == iwordtxe == txport == 0 && nrun == old(nrun)
        invariant forall k | 0 <= k < i :: rx[k].View() == Queue([], 0, false)
      {
        rx[i].Clear();
      }
    }

    method Raise(word: Word)
      modifies this`raised
      ensures raised == old(raised) + [word]
    {
      raised := raised + [word];
    }

    /** The transmit half of a timer tick. */
    method RunTransmitter() returns (out: Option<Sending>)
      requires Valid()
      modifies this`raised, tx, tx.dat
      ensures Valid() && Queues() == old(Queues())
      ensures tx.View() == (var q := old(tx.View()); if q.ready < |q.words| then Taken(Processed(q)) else q)
      ensures out == (var q := old(tx.View());
        if q.ready < |q.words| then Some(Sending(txport, q.words[0])) else None)
      ensures raised == old(raised) +
        if old(Waiting(tx.View())) && !Waiting(tx.View()) && iwordtxe != 0 then [iwordtxe] else []
    {
      out := None;
      var processed := tx.Process();
      if processed {
        var word := tx.GetWord();
        if word.Some? {
          out := Some(Sending(txport, word.value));
        }
        var busy := tx.IsBusy();
        if !busy && iwordtxe != 0 {
          Raise(iwordtxe);
        }
      }
    }

    /** On one port one more stored word becomes ready; the other ports are left alone. */
    method ProcessOne(i: nat) returns (processed: bool)
      requires Valid() && i < PORTS
      modifies rx[i]
      ensures Valid() && tx.View() == old(tx.View())
      ensures rx[i].View() == Processed(old(rx[i].View())) && processed == Waiting(old(rx[i].View()))
      ensures forall k | 0 <= k < PORTS && k != i :: rx[k].View() == old(rx[k].View())
    {
      hide Processed;
      processed := rx[i].Process();
    }

    /** The receive half: on every port one more stored word becomes ready. */
    method ProcessAll() returns (isend: bool)
      requires Valid()
      modifies rx
      ensures Valid() && tx.View() == old(tx.View())
      ensures Queues() == AllProcessed(old(Queues())) && isend == AnyWaiting(old(Queues()))
    {
      hide Processed, Waiting;
      isend := false;
      ghost var before := Queues();
      for i := 0 to PORTS
        invariant Valid() && tx.View() == old(tx.View())
        invariant forall k | 0 <= k < i :: rx[k].View() == Processed(before[k])
        invariant forall k | i <= k < PORTS :: rx[k].View() == before[k]
        invariant isend <==> exists k | 0 <= k < i :: Waiting(before[k])
      {
        var processed := ProcessOne(i);
        if processed {
          isend := true;
        }
      }
    }

    /** What a timer tick does. */
    method Tick() returns (out: Option<Sending>)
      requires Valid()
      modifies this`raised, tx, tx.dat, rx
      ensures Valid() && Queues() == AllProcessed(old(Queues()))
      ensures tx.View() == (if old(Waiting(tx.View())) then Taken(Processed(old(tx.View()))) else old(tx.View()))
      ensures out == if old(Waiting(tx.View())) then Some(Sending(txport, old(tx.View()).words[0])) else None
      ensures raised == old(raised) + TickNotices(old(View()))
    {
      hide QueuesOf, AllProcessed, Processed, Taken, AnyWaiting;
      ghost var before := View();
      out := RunTransmitter();
      var isend := ProcessAll();
      if isend && iwordrcv != 0 {
        Raise(iwordrcv);
      }
    }

    /** KaiHIC::Run. The word that leaves is delivered to whatever is attached to its port. */
    method Run(crun: nat) returns (out: Option<Sending>)
      requires Valid()
      modifies Repr()
      ensures Valid() && View() == Ran(old(View()), crun) && out == Outgoing(old(View()), crun)
      ensures raised == old(raised) + if DueAt(old(View()), crun) then TickNotices(old(View())) else []
    {
      hide QueuesOf, AllProcessed, Processed, Taken, TickNotices;
      out := None;
      if nrun == 0 {
        nrun := crun;
      }
      if !(nrun < crun) {
        assert Queues() == old(Queues());
        return;
      }
      nrun := nrun + WORD_TIME;
      assert Queues() == old(Queues());
      SameNotices(View(), old(View()));
      out := Tick();
    }
  }

  lemma SameNotices(c: Card, d: Card)
    requires c == d.(nrun := c.nrun)
    ensures TickNotices(c) == TickNotices(d)
  {
  }

  // ----- what the answers mean -----

  /** The answers to a transmit command: 3 without a connection, 4 while words for another port wait, 2
      with three words stored, 1 behind others, 0 otherwise; with 0 and 1, and only then, the word is
      stored and the port is the current one. */
  lemma TransmitAnswers(c: Card, connected: bool, port: Word, w: Word)
    ensures var status := SendStatus(c, connected, port);
      var open := connected && port < 32;
      var blocked := c.tx.ready < |c.tx.words| && port != c.txport;
      (status == 3 <==> !open) && (status == 4 <==> open && blocked) &&
      (status == 2 <==> open && !blocked && |c.tx.words| >= 3) &&
      (status == 1 <==> open && !blocked && c.tx.ready < |c.tx.words| < 3) && status <= 4 &&
      Sent(c, connected, port, w).tx.words == (if status <= 1 then c.tx.words + [w] else c.tx.words) &&
      (status <= 1 ==> Sent(c, connected, port, w).txport == port)
  {
  }

  /** The answers to a receive command: 3 without a ready word, 1 if a word has been lost since the last
      time, 0 otherwise. */
  lemma ReceiveAnswers(c: Card, port: Word)
    ensures ReceiveStatus(c, port) == 3 <==> port >= 32 || c.rx[port].ready == 0
    ensures ReceiveStatus(c, port) == 1 <==> port < 32 && c.rx[port].ready > 0 && c.rx[port].overflow
    ensures ReceiveStatus(c, port) in {0, 1, 3}
    ensures ReceiveStatus(c, port) != 3 && |c.rx[port].words| > 0 ==>
      ReceivedWord(c, port) == c.rx[port].words[0] && Received(c, port).rx[port].words == c.rx[port].words[1..] &&
      !Received(c, port).rx[port].overflow
  {
  }

  predicate Flag(bits: nat, value: nat)
    requires value > 0
  {
    bits / value % 2 == 1
  }

  /** Every bit of the status by itself. */
  lemma StatusFlags(c: Card, connected: bool, port: Word)
    ensures var bits := StatusBits(c, connected, port);
      (Flag(bits, 1) <==> connected && port < 32 && c.rx[port].ready < |c.rx[port].words|) &&
      (Flag(bits, 2) <==> !connected || port >= 32) &&
      (Flag(bits, 4) <==> connected && port < 32 && c.rx[port].ready > 0) &&
      (Flag(bits, 8) <==> port >= 32) &&
      (Flag(bits, 16) <==> |c.tx.words| < 3) && (Flag(bits, 32) <==> !(c.tx.ready < |c.tx.words|)) &&
      (Flag(bits, 0x4000) <==> c.rxInt != 0) && (Flag(bits, 0x8000) <==> c.txInt != 0)
  {
    var low := (if port >= 32 then 10 else if !connected then 2
                else (if c.rx[port].ready < |c.rx[port].words| then 1 else 0) + if c.rx[port].ready > 0 then 4 else 0);
    FlagsOf(low, if |c.tx.words| < 3 then 1 else 0, if c.tx.ready < |c.tx.words| then 0 else 1,
            if c.rxInt != 0 then 1 else 0, if c.txInt != 0 then 1 else 0);
    hide Flag;
  }

  lemma FlagsOf(low: nat, free: nat, idle: nat, rx: nat, tx: nat)
    requires low in {0, 1, 2, 4, 5, 10} && free <= 1 && idle <= 1 && rx <= 1 && tx <= 1
    ensures var bits := low + free * 16 + idle * 32 + rx * 0x4000 + tx * 0x8000;
      Flag(bits, 1) == (low in {1, 5}) && Flag(bits, 2) == (low in {2, 10}) && Flag(bits, 4) == (low in {4, 5}) &&
      Flag(bits, 8) == (low == 10) && Flag(bits, 16) == (free == 1) && Flag(bits, 32) == (idle == 1) &&
      Flag(bits, 0x4000) == (rx == 1) && Flag(bits, 0x8000) == (tx == 1)
  {
    LowFlags(low, free + idle * 2 + rx * 0x400 + tx * 0x800);
    var bits := low + free * 16 + idle * 32 + rx * 0x4000 + tx * 0x8000;
    DivBetween(bits, 16, free + idle * 2 + rx * 0x400 + tx * 0x800);
    DivBetween(bits, 32, idle + rx * 0x200 + tx * 0x400);
    DivBetween(bits, 0x4000, rx + tx * 2);
    DivBetween(bits, 0x8000, tx);
  }

  lemma LowFlags(low: nat, high: nat)
    requires low in {0, 1, 2, 4, 5, 10}
    ensures var bits := low + high * 16;
      Flag(bits, 1) == (low in {1, 5}) && Flag(bits, 2) == (low in {2, 10}) && Flag(bits, 4) == (low in {4, 5}) &&
      Flag(bits, 8) == (low == 10)
  {
    var bits := low + high * 16;
    DivBetween(bits, 2, low / 2 + high * 8);
    DivBetween(bits, 4, low / 4 + high * 4);
    DivBetween(bits, 8, low / 8 + high * 2);
  }

  /** The interrupts of a tick: the transmitter's when its last word leaves, the receiver's when a word
      becomes ready on any port. */
  lemma NoticesOf(c: Card)
    requires c.tx.ready <= |c.tx.words|
    ensures TickNotices(c) ==
      (if c.tx.ready + 1 == |c.tx.words| && c.txInt != 0 then [c.txInt] else []) +
      (if (exists i | 0 <= i < 32 :: c.rx[i].ready < |c.rx[i].words|) && c.rxInt != 0 then [c.rxInt] else [])
  {
    assert AnyWaiting(c.rx) <==> exists i | 0 <= i < 32 :: Waiting(c.rx[i]);
  }

  /** The timer: it is set by the first run, fires only when its time has passed, and is then due a tenth
      of a millisecond later. */
  lemma Timer(c: Card, crun: nat)
    ensures DueAt(c, crun) <==> 0 < c.nrun < crun
    ensures Ran(c, crun).nrun == if c.nrun == 0 then crun else if c.nrun < crun then c.nrun + 100_000 else c.nrun
    ensures Outgoing(c, crun).Some? <==> 0 < c.nrun < crun && c.tx.ready < |c.tx.words|
    ensures Outgoing(c, crun).Some? ==> Outgoing(c, crun).value == Sending(c.txport, c.tx.words[0])
  {
  }
}
