/** Messages along the links: isi_message_dev, the backplane of dcpuhw.cpp, and what the two make of
    device interrupts and of HWI. */
module Routing {
  import opened Words
  import opened Wrappers
  import opened Attach
  import opened DcpuSpec
  import opened Dcpu

  const RESET := 0
  const QINT := 1

  /** The destination of isi_message_dev and the index it is told. Sessions are not devices. */
  method MessageDev(ghost nodes: set<IsiInfo>, src: IsiInfo, srcindex: int) returns (r: Option<End>)
    requires src in nodes && src.Valid()
    ensures srcindex == UP || srcindex >= 0 ==>
      r == if (src, srcindex) in Links(nodes) then Some(Links(nodes)[(src, srcindex)]) else None
    ensures srcindex == -1 ==> r == Some((src, -1))
    ensures srcindex < -1 && srcindex != UP ==> r == None
  {
    EndIsLink(nodes, src, srcindex);
    if srcindex == UP {
      if src.updev.t == null {
        return None;
      }
      return Some((src.updev.t, src.updev.i));
    } else if srcindex >= 0 {
      r := src.GetDevi(srcindex);
    } else if srcindex == -1 {
      return Some((src, -1));
    } else {
      return None;
    }
  }

  /** An answer sent back on the index a message came with arrives where the message came from, with
      the index it was sent on. */
  method Answer(ghost nodes: set<IsiInfo>, src: IsiInfo, i: int) returns (there: Option<End>, back: Option<End>)
    requires Reciprocal(Links(nodes)) && (src, i) in Links(nodes) && forall n | n in nodes :: n.Valid()
    ensures there == Some(Links(nodes)[(src, i)]) && back == Some((src, i))
  {
    EndIsLink(nodes, src, i);
    hide Links;
    there := MessageDev(nodes, src, i);
    EndIsLink(nodes, there.value.0, there.value.1);
    back := MessageDev(nodes, there.value.0, there.value.1);
  }

  /** What the backplane does with a message. */
  datatype Verdict =
    | Refused
    | Ignored
    | ResetAll(devices: seq<End>, msg: seq<Word32>) // reset and told, in this order
    | Forward(to: End, msg: seq<Word32>)

  /** DCPUBUS::MsgIn. The message of the processor, in slot 0, names a device from 0 on; that of a
      device names a slot, and its first word takes the place of the second. */
  method BusMsgIn(ghost nodes: set<IsiInfo>, bus: IsiInfo, src: IsiInfo, message: seq<Word32>) returns (v: Verdict)
    requires bus in nodes && bus.Valid() && LongEnough(message)
    ensures v == Judged(Links(nodes), bus, bus.count, src, message)
  {
    hide Links;
    EndIsLink(nodes, bus, 0);
    var h: nat, hs, msg := message[1], bus.count, message;
    if hs > 0 && src == bus.table[0].t {
      h := h + 1;
    } else {
      msg := msg[1 := msg[0]];
      msg := msg[1..];
      assert msg == [message[0]] + message[2..];
    }
    if msg[0] == RESET {
      msg := msg[1 := Offset(hs, -1)];
      var devices := ResetBelow(nodes, bus, hs);
      return ResetAll(devices, msg);
    } else if msg[0] == QINT || msg[0] == XINT {
      v := Pass(nodes, bus, h, msg);
    } else {
      return Ignored;
    }
  }

  /** The loop over the slots behind the first, on a reset. */
  method ResetBelow(ghost nodes: set<IsiInfo>, bus: IsiInfo, hs: nat) returns (devices: seq<End>)
    requires bus in nodes && bus.Valid() && hs == bus.count
    ensures devices == Below(Links(nodes), bus, hs)
  {
    hide Links;
    devices := [];
    var h := 1;
    while h < hs
      invariant h == 1 || h <= hs
      invariant devices == Below(Links(nodes), bus, h)
    {
      EndIsLink(nodes, bus, h);
      var dev := bus.GetDevi(h);
      if dev.Some? {
        devices := devices + [dev.value];
      }
      h := h + 1;
    }
  }

  /** The message goes on to the device in slot h, if there is one. */
  method Pass(ghost nodes: set<IsiInfo>, bus: IsiInfo, h: nat, msg: seq<Word32>) returns (v: Verdict)
    requires bus in nodes && bus.Valid() && |msg| > 0 && (msg[0] == QINT ==> |msg| >= 7)
    ensures v == Passed(Links(nodes), (bus, h), msg)
  {
    hide Links;
    EndIsLink(nodes, bus, h);
    if h >= bus.count {
      return Refused;
    }
    var dev := bus.GetDevi(h);
    if dev.None? {
      return Refused;
    }
    var meta := dev.value.0.meta;
    if msg[0] == QINT && meta.Some? {
      return Forward(dev.value, msg[..2] + IdentityWords(meta.value) + msg[7..]);
    }
    return Forward(dev.value, msg);
  }

  /** A reset and a query have room for their answers, also when they come from a device. */
  predicate LongEnough(message: seq<Word32>) {
    |message| >= 2 && (message[0] == RESET ==> |message| >= 3) && (message[0] == QINT ==> |message| >= 8)
  }

  /** A query is answered by the backplane before the device sees it: words 2 to 6, which HWQ loads
      into A, B, C, X and Y, are the identity of the device. */
  function Labelled(dev: IsiInfo, msg: seq<Word32>): seq<Word32>
    requires |msg| > 0 && (msg[0] == QINT ==> |msg| >= 7)
  {
    if msg[0] == QINT && dev.meta.Some? then
      var id := dev.meta.value;
      msg[2 := Low(id.devid)][3 := High(id.devid)][4 := id.verid][5 := Low(id.mfgid)][6 := High(id.mfgid)]
    else msg
  }

  predicate FromProcessor(g: Graph, bus: IsiInfo, src: IsiInfo) {
    (bus, 0) in g && g[(bus, 0)].0 == src
  }

  /** What is attached to the slots from 1 up to but without `slots`. */
  function Below(g: Graph, bus: IsiInfo, slots: nat): seq<End> {
    if slots <= 1 then []
    else Below(g, bus, slots - 1) + if (bus, slots - 1) in g then [g[(bus, slots - 1)]] else []
  }

  function Judged(g: Graph, bus: IsiInfo, slots: nat, src: IsiInfo, message: seq<Word32>): Verdict
    requires LongEnough(message)
  {
    var up := FromProcessor(g, bus, src);
    var msg := if up then message else [message[0]] + message[2..];
    var slot: int := (message[1] as int) + if up then 1 else 0;
    if msg[0] == RESET then ResetAll(Below(g, bus, slots), msg[1 := Offset(slots, -1)])
    else if msg[0] != QINT && msg[0] != XINT then Ignored
    else Passed(g, (bus, slot), msg)
  }

  ghost predicate Linked(g: Graph, x: End, y: End) {
    x in g && g[x] == y
  }

  /** The message goes to whatever is linked to an end. */
  function Passed(g: Graph, e: End, msg: seq<Word32>): Verdict
    requires |msg| > 0 && (msg[0] == QINT ==> |msg| >= 7)
  {
    if e in g then Forward(g[e], Labelled(g[e].0, msg)) else Refused
  }

  // ----- the two paths through the backplane -----

  function IdentityWords(id: Identity): seq<Word32> {
    [Low(id.devid), High(id.devid), id.verid, Low(id.mfgid), High(id.mfgid)]
  }

  /** What becomes of HWI n or HWQ n: it reaches the device in slot n + 1, on the point that device is
      attached by, HWI with the message unchanged and HWQ with the device's identity in it. */
  function HardwareVerdict(g: Graph, bus: IsiInfo, kind: Word32, n: Word, registers: seq<Word32>): Verdict
    requires |registers| == 8
  {
    if (bus, n + 1) !in g then Refused
    else
      var to := g[(bus, n + 1)];
      if kind == QINT && to.0.meta.Some? then
        Forward(to, [kind, n] + IdentityWords(to.0.meta.value) + registers[5..])
      else Forward(to, [kind, n] + registers)
  }

  /** HWI and HWQ, sent up by a processor in slot 0 of its backplane. */
  method HardwareMessage(ghost nodes: set<IsiInfo>, cpu: IsiInfo, bus: IsiInfo, kind: Word32, n: Word,
                         registers: seq<Word32>)
    returns (v: Verdict)
    requires cpu in nodes && bus in nodes && cpu.Valid() && bus.Valid() && Reciprocal(Links(nodes))
    requires Linked(Links(nodes), (cpu, UP), (bus, 0))
    requires (kind == QINT || kind == XINT) && |registers| == 8
    ensures v == HardwareVerdict(Links(nodes), bus, kind, n, registers)
  {
    hide Links;
    var up := MessageDev(nodes, cpu, UP);
    assert up == Some((bus, 0));
    v := BusMsgIn(nodes, up.value.0, cpu, [kind, n] + registers);
  }

  /** The interrupt a device sends up, as every device of the repository does: the bus passes it on
      to the processor, which queues the message if it has a handler and room for it. */
  method DeviceInterrupt(ghost nodes: set<IsiInfo>, dev: IsiInfo, bus: IsiInfo, cpu: IsiInfo, core: Dcpu16, w: Word)
    returns (r: int)
    requires dev in nodes && bus in nodes && dev.Valid() && bus.Valid() && Reciprocal(Links(nodes))
    requires (dev, UP) in Links(nodes) && Links(nodes)[(dev, UP)].0 == bus && dev != cpu
    requires Linked(Links(nodes), (bus, 0), (cpu, UP))
    requires core.Valid()
    modifies core, core.R, core.IQU
    ensures core.Valid() && core.State() == Interrupt(old(core.State()), w)
    ensures r == if old(core.IA) != 0 && old(core.IQC) == QUEUE_LIMIT then HUGE_FIREBALL else 0
    ensures core.State().queue == old(core.State().queue) + [w] <==> old(core.IA) != 0 && old(core.IQC) < QUEUE_LIMIT
    ensures core.State().queue == old(core.State().queue) <==> old(core.IA) == 0 || old(core.IQC) == QUEUE_LIMIT
  {
    hide Links;
    var up := MessageDev(nodes, dev, UP);
    var v := BusMsgIn(nodes, up.value.0, dev, [XINT, 0, w]);
    assert [XINT as Word32] + [XINT, 0, w][2..] == [XINT, w];
    assert v == Forward((cpu, UP), [XINT, w]);
    ghost var queue := core.State().queue;
    r := core.MsgIn(v.msg);
    assert |queue + [w]| == |queue| + 1;
  }

  // ----- a reset, seen from the processor -----

  predicate Increasing(slots: seq<nat>) {
    forall i, j | 0 <= i < j < |slots| :: slots[i] < slots[j]
  }

  /** The slots from 1 up to but without n that are in use, in order, are those whose devices are told. */
  lemma {:induction false} BelowInOrder(g: Graph, bus: IsiInfo, n: nat) returns (slots: seq<nat>)
    ensures Increasing(slots) && |Below(g, bus, n)| == |slots|
    ensures forall h :: h in slots <==> 1 <= h < n && (bus, h) in g
    ensures forall i | 0 <= i < |slots| :: (bus, slots[i]) in g && Below(g, bus, n)[i] == g[(bus, slots[i])]
  {
    if n <= 1 {
      return [];
    }
    slots := BelowInOrder(g, bus, n - 1);
    if (bus, n - 1) in g {
      ghost var before := slots;
      slots := slots + [n - 1];
      forall i | 0 <= i < |slots|
        ensures (bus, slots[i]) in g && Below(g, bus, n)[i] == g[(bus, slots[i])]
      {
        if i < |before| {
          assert slots[i] == before[i];
        }
      }
      assert forall h :: h in slots <==> h in before || h == n - 1;
      assert forall i | 0 <= i < |before| :: before[i] in before;
    }
  }

  /** The devices told are those in the slots from 1 to `count` that are in use, each once and in order. */
  predicate ToldInOrder(g: Graph, bus: IsiInfo, count: nat, devices: seq<End>, slots: seq<nat>) {
    |devices| == |slots| && Increasing(slots) &&
    (forall h | h in slots :: 1 <= h <= count && (bus, h) in g) &&
    (forall h | 1 <= h <= count && (bus, h) in g :: h in slots) &&
    forall i | 0 <= i < |slots| :: (bus, slots[i]) in g && devices[i] == g[(bus, slots[i])]
  }

  /** The processor resets its computer and then sends HWI n or HWQ n. Every device on the bus is told
      the reset once, in the order of the slots, and the count answered is the number that hardware
      messages go by: number n is refused from the count on, and the last one below it is there. */
  method ResetThenMessage(ghost nodes: set<IsiInfo>, cpu: IsiInfo, bus: IsiInfo, message: seq<Word32>,
                          kind: Word32, n: Word, registers: seq<Word32>)
    returns (reset: Verdict, v: Verdict, ghost slots: seq<nat>)
    requires cpu in nodes && bus in nodes && cpu.Valid() && bus.Valid() && Reciprocal(Links(nodes))
    requires Linked(Links(nodes), (cpu, UP), (bus, 0)) && bus.count <= 0x1_0000
    requires |message| == 10 && message[0] == 0 && (kind == QINT || kind == XINT) && |registers| == 8
    ensures reset.ResetAll? && |reset.msg| == 10 && ToldInOrder(Links(nodes), bus, reset.msg[1], reset.devices, slots)
    ensures (n >= reset.msg[1] ==> v == Refused) && (n + 1 == reset.msg[1] ==> v.Forward?)
  {
    LinkedBack(nodes, cpu, bus);
    CountInGraph(nodes, bus);
    hide Links, AllEnds, Flat, Reciprocal, Below, Judged, HardwareVerdict, ToldInOrder, Increasing, FromProcessor,
      InUse, IsiInfo.Ends, IsiInfo.Live, IsiInfo.Peer;
    reset := BusMsgIn(nodes, bus, cpu, message);
    v := HardwareMessage(nodes, cpu, bus, kind, n, registers);
    slots := ResetFits(Links(nodes), bus, bus.count, cpu, message, kind, n, registers);
  }

  /** The slots in use are those below the count, the last of them included. */
  predicate InUse(g: Graph, bus: IsiInfo, count: nat) {
    (count > 0 ==> (bus, count - 1) in g) && forall e | e in g && e.0 == bus :: e.1 < count
  }

  lemma CountInGraph(nodes: set<IsiInfo>, bus: IsiInfo)
    requires bus in nodes && bus.Valid()
    ensures InUse(Links(nodes), bus, bus.count)
  {
    LastSlot(nodes, bus, 0);
    if bus.count > 0 {
      LastSlot(nodes, bus, bus.count - 1);
    }
    forall e | e in Links(nodes) && e.0 == bus
      ensures e.1 < bus.count
    {
      LastSlot(nodes, bus, e.1);
    }
  }

  lemma LinkedBack(nodes: set<IsiInfo>, cpu: IsiInfo, bus: IsiInfo)
    requires Reciprocal(Links(nodes)) && Linked(Links(nodes), (cpu, UP), (bus, 0))
    ensures FromProcessor(Links(nodes), bus, cpu)
  {
    hide Links;
  }

  lemma ResetFits(g: Graph, bus: IsiInfo, count: nat, cpu: IsiInfo, message: seq<Word32>,
                  kind: Word32, n: Word, registers: seq<Word32>) returns (slots: seq<nat>)
    requires FromProcessor(g, bus, cpu) && InUse(g, bus, count) && count <= 0x1_0000
    requires |message| == 10 && message[0] == 0 && |registers| == 8
    ensures var reset := Judged(g, bus, count, cpu, message);
      var v := HardwareVerdict(g, bus, kind, n, registers);
      reset.ResetAll? && |reset.msg| == 10 && ToldInOrder(g, bus, reset.msg[1], reset.devices, slots) &&
      (n >= reset.msg[1] ==> v == Refused) && (n + 1 == reset.msg[1] ==> v.Forward?)
  {
    hide Below;
    slots := BelowInOrder(g, bus, count);
    assert count >= 1;
  }

  /** No slot from the count on is in use, and the last one below it is. */
  lemma LastSlot(nodes: set<IsiInfo>, bus: IsiInfo, h: int)
    requires bus in nodes && bus.Valid()
    ensures h >= bus.count ==> (bus, h) !in Links(nodes)
    ensures 0 <= h && h + 1 == bus.count ==> (bus, h) in Links(nodes)
  {
    EndIsLink(nodes, bus, h);
  }

  /** HWQ n brings the identity of the device in slot n + 1: its device number in A and B, lower half
      first, its version in C, and its maker in X and Y. */
  lemma IdentityTold(g: Graph, bus: IsiInfo, n: Word, registers: seq<Word32>)
    requires |registers| == 8 && (bus, n + 1) in g && g[(bus, n + 1)].0.meta.Some?
    ensures var id := g[(bus, n + 1)].0.meta.value;
      var v := HardwareVerdict(g, bus, QINT, n, registers);
      v.Forward? && v.to == g[(bus, n + 1)] && |v.msg| == 10 &&
      v.msg[2] == id.devid % 0x1_0000 && v.msg[3] == id.devid / 0x1_0000 && v.msg[4] == id.verid &&
      v.msg[5] == id.mfgid % 0x1_0000 && v.msg[6] == id.mfgid / 0x1_0000 && v.msg[7..] == registers[5..]
  {
  }

  /** A message of another kind is not passed on. */
  lemma OthersIgnored(g: Graph, bus: IsiInfo, slots: nat, src: IsiInfo, message: seq<Word32>)
    requires LongEnough(message) && message[0] > 2
    ensures Judged(g, bus, slots, src, message) == Ignored
  {
  }
}
