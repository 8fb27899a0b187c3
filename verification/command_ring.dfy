/** The command queue of a session (get_cmdq and add_cmdq of session.cpp): a ring of slots that the
    caller fills in after they have been handed out. */
module CommandRing {
  import opened Words
  import opened Wrappers

  /** The pointers are numbers here, 0 for null. */
  datatype Command = Command(cmd: Word32, tid: Word32, id: Word32, param: Word32, rdata: nat, xdata: nat, cptr: nat)

  /** A slot that has been cleared. As a command it means "cancel". */
  const BLANK := Command(0, 0, 0, 0, 0, 0, 0)

  /** Slots first, first + 1, ... up to but without `last`, around the end of the ring. */
  function Between(slots: seq<Command>, first: nat, last: nat): seq<Command>
    requires first < |slots| && last < |slots|
  {
    if first <= last then slots[first..last] else slots[first..] + slots[..last]
  }

  class Session {
    const cmdq: array<Command>
    var cmdqstart: nat
    var cmdqend: nat

    constructor (limit: nat)
      requires limit > 0
      ensures Valid() && Contents() == [] && cmdq.Length == limit && fresh(cmdq)
    {
      cmdq := new Command[limit](i => BLANK);
      cmdqstart, cmdqend := 0, 0;
    }

    /** The slot handed out next is blank. */
    ghost predicate Valid()
      reads this, cmdq
    {
      cmdqstart < cmdq.Length && cmdqend < cmdq.Length && cmdq[cmdqend] == BLANK
    }

    /** The commands waiting, oldest first. */
    ghost function Contents(): seq<Command>
      requires Valid()
      reads this, cmdq
    {
      Between(cmdq[..], cmdqstart, cmdqend)
    }

    /** The slot of the k-th command waiting. */
    function Slot(k: nat): int
      reads this
    {
      if cmdqstart + k < cmdq.Length then cmdqstart + k else cmdqstart + k - cmdq.Length
    }

    /** get_cmdq. Without a place for the result (`wanted` false) a removed command is destroyed. */
    method GetCmdq(wanted: bool, remove: bool) returns (slot: Option<nat>)
      requires Valid()
      modifies this`cmdqstart, cmdq
      ensures Valid()
      ensures slot == if old(Contents()) == [] then None else Some(old(cmdqstart))
      ensures slot.Some? ==> slot.value < cmdq.Length && old(cmdq[..])[slot.value] == old(Contents())[0]
      ensures slot.Some? && wanted ==> cmdq[slot.value] == old(Contents())[0]
      ensures slot.Some? && remove ==> Contents() == old(Contents())[1..]
      ensures slot.None? || !remove ==> Contents() == old(Contents())
    {
      if cmdqstart == cmdqend {
        return None;
      }
      slot := Some(cmdqstart);
      if remove {
        if !wanted {
          cmdq[cmdqstart] := cmdq[cmdqstart].(rdata := 0, xdata := 0);
        }
        var ncp := cmdqstart + 1;
        if ncp >= cmdq.Length {
          ncp := 0;
        }
        cmdqstart := ncp;
      }
    }

    /** add_cmdq. A ring of n slots takes n - 1 commands. */
    method AddCmdq(wanted: bool) returns (r: int, slot: nat)
      requires Valid()
      modifies this`cmdqend, cmdq
      ensures Valid()
      ensures r == if |old(Contents())| + 1 == cmdq.Length then -1 else 0
      ensures r == 0 && wanted ==>
        Contents() == old(Contents()) + [BLANK] && slot < cmdq.Length && slot == old(cmdqend) &&
        slot == Slot(|old(Contents())|)
      ensures r != 0 || !wanted ==> Contents() == old(Contents())
    {
      var ncp := cmdqend + 1;
      if ncp >= cmdq.Length {
        ncp := 0;
      }
      if ncp == cmdqstart {
        return -1, 0;
      }
      if !wanted {
        return 0, 0;
      }
      cmdq[ncp] := BLANK;
      slot := cmdqend;
      cmdqend := ncp;
      r := 0;
    }

    /** The caller fills in a slot it was handed, while the command waits. */
    method Fill(k: nat, c: Command)
      requires Valid() && k < |Contents()|
      modifies cmdq
      ensures Valid() && Contents() == old(Contents())[k := c]
    {
      cmdq[Slot(k)] := c;
    }
  }

  // ----- runs -----

  /** Operations on a session, and what each of them answers. */
  datatype Operation =
    | Add
    | Put(k: nat, c: Command)
    | Peek
    | Remove

  datatype Answer =
    | Added(ok: bool)
    | Filled(ok: bool)
    | Oldest(command: Option<Command>)
    | Removed(ok: bool)

  /** The same on a bounded queue. */
  function Applied(q: seq<Command>, capacity: nat, op: Operation): seq<Command> {
    match op
    case Add => if |q| < capacity then q + [BLANK] else q
    case Put(k, c) => if k < |q| then q[k := c] else q
    case Peek => q
    case Remove => if |q| > 0 then q[1..] else q
  }

  function Answered(q: seq<Command>, capacity: nat, op: Operation): Answer {
    match op
    case Add => Added(|q| < capacity)
    case Put(k, c) => Filled(k < |q|)
    case Peek => Oldest(if |q| > 0 then Some(q[0]) else None)
    case Remove => Removed(|q| > 0)
  }

  function AppliedAll(q: seq<Command>, capacity: nat, ops: seq<Operation>): seq<Command>
    decreases |ops|
  {
    if |ops| == 0 then q else AppliedAll(Applied(q, capacity, ops[0]), capacity, ops[1..])
  }

  function AnsweredAll(q: seq<Command>, capacity: nat, ops: seq<Operation>): seq<Answer>
    decreases |ops|
  {
    if |ops| == 0 then []
    else [Answered(q, capacity, ops[0])] + AnsweredAll(Applied(q, capacity, ops[0]), capacity, ops[1..])
  }

  method Perform(s: Session, op: Operation) returns (answer: Answer)
    requires s.Valid()
    modifies s, s.cmdq
    ensures s.Valid() && s.Contents() == Applied(old(s.Contents()), s.cmdq.Length - 1, op)
    ensures answer == Answered(old(s.Contents()), s.cmdq.Length - 1, op)
  {
    match op {
      case Add =>
        var r, slot := s.AddCmdq(true);
        answer := Added(r == 0);
      case Put(k, c) =>
        var used := if s.cmdqstart <= s.cmdqend then s.cmdqend - s.cmdqstart
                    else s.cmdq.Length - s.cmdqstart + s.cmdqend;
        if k < used {
          s.Fill(k, c);
        }
        answer := Filled(k < used);
      case Peek =>
        var slot := s.GetCmdq(true, false);
        answer := Oldest(if slot.Some? then Some(s.cmdq[slot.value]) else None);
      case Remove =>
        var slot := s.GetCmdq(false, true);
        answer := Removed(slot.Some?);
    }
  }

  /** Through any number of wrap-arounds the ring is a queue of one command less than its slots, in
      what it holds and in what it answers. */
  method RunAll(s: Session, ops: seq<Operation>) returns (answers: seq<Answer>)
    requires s.Valid()
    modifies s, s.cmdq
    ensures s.Valid() && s.Contents() == AppliedAll(old(s.Contents()), s.cmdq.Length - 1, ops)
    ensures answers == AnsweredAll(old(s.Contents()), s.cmdq.Length - 1, ops)
    ensures |s.Contents()| < s.cmdq.Length
  {
    hide Applied, Answered;
    answers := [];
    for i := 0 to |ops|
      invariant s.Valid()
      invariant AppliedAll(s.Contents(), s.cmdq.Length - 1, ops[i..]) ==
        AppliedAll(old(s.Contents()), s.cmdq.Length - 1, ops)
      invariant answers + AnsweredAll(s.Contents(), s.cmdq.Length - 1, ops[i..]) ==
        AnsweredAll(old(s.Contents()), s.cmdq.Length - 1, ops)
    {
      assert ops[i..][0] == ops[i] && ops[i..][1..] == ops[i + 1..];
      var answer := Perform(s, ops[i]);
      answers := answers + [answer];
    }
  }
}
