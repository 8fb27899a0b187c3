/** Whole runs of the drive: what any series of commands, waits, memory stores, resets and exchanges
    of the disk makes of drive, disk and memory. */
module FloppyRuns {
  import opened Words
  import opened Ram
  import opened Wrappers
  import opened Disk
  import opened FloppySpec
  import opened Floppy

  /** What is done to the drive, its disk and the memory from outside. */
  datatype Input =
    | Command(msg: seq<Word>)
    | RunTo(time: nat)
    | StoreWord(addr: Word, v: Word)
    | Restart
    | Eject
    | Insert

  predicate Proper(input: Input) {
    input.Command? ==> |input.msg| == 8
  }

  type Inputs = s: seq<Input> | forall input | input in s :: Proper(input)

  // ----- drive and disk as a value -----

  /** The drive, and the disk, in the drive or beside it. */
  datatype Desk = Desk(drive: Drive, disk: Media)

  predicate Tidy(d: Desk) {
    Sound(d.drive) && (d.drive.media.Some? ==> d.drive.media.value == d.disk)
  }

  function Moved(d: Desk, input: Input): Drive
    requires Tidy(d) && Proper(input)
  {
    match input
    case Command(msg) => Commanded(d.drive, msg)
    case RunTo(time) => RanTo(d.drive, time)
    case StoreWord(addr, v) => d.drive.(mem := d.drive.mem[addr := v])
    case Restart => Restarted(d.drive)
    case Eject => d.drive.(media := None)
    case Insert => d.drive.(media := Some(d.disk))
  }

  function Fed(d: Desk, input: Input): (e: Desk)
    requires Tidy(d) && Proper(input)
    ensures Tidy(e)
  {
    StaysSound(d, input);
    var drive := Moved(d, input);
    Desk(drive, if drive.media.Some? then drive.media.value else d.disk)
  }

  lemma StaysSound(d: Desk, input: Input)
    requires Tidy(d) && Proper(input)
    ensures Sound(Moved(d, input))
  {
    hide Snapshot;
    if input.RunTo? {
      WentKeeps(Started(d.drive, input.time), input.time);
    }
  }

  /** Without a disk no operation starts. */
  lemma StartsNothing(d: Desk, input: Input)
    requires Tidy(d) && Proper(input) && d.drive.media.None?
    ensures var e := Moved(d, input);
      Working(e) ==> Working(d.drive) && e.seeksector == d.drive.seeksector && e.oper == d.drive.oper
  {
    hide Went, Snapshot;
    if input.RunTo? {
      var s := Started(d.drive, input.time);
      WentKeeps(s, input.time);
      if Working(s) && s.nrun < input.time {
        WentWithout(s, input.time);
      } else if Working(s) {
        NoTurn(s, input.time);
      }
    }
  }

  /** What a command answers. */
  function Answer(d: Desk, input: Input): seq<Word>
    requires Proper(input)
  {
    if input.Command? then Replied(d.drive, input.msg) else []
  }

  function DeskAt(d: Desk, inputs: Inputs, k: nat): (e: Desk)
    requires Tidy(d) && k <= |inputs|
    ensures Tidy(e)
  {
    if k == 0 then d
    else
      assert inputs[k - 1] in inputs;
      Fed(DeskAt(d, inputs, k - 1), inputs[k - 1])
  }

  // ----- the drive object -----

  /** The disk is in the drive or could be put into it. */
  ghost predicate Fits(drive: M35fd, disk: IsiDisk)
    reads drive, drive.Repr(), disk.Repr()
  {
    (drive.media == null || drive.media == disk) && drive.Consistent() && drive.Suits(disk)
  }

  ghost function Seen(drive: M35fd, disk: IsiDisk): Desk
    requires Fits(drive, disk)
    reads drive, drive.Repr(), disk.Repr()
  {
    Desk(drive.View(), MediaOf(disk.View()))
  }

  method Feed(drive: M35fd, disk: IsiDisk, input: Input) returns (answer: seq<Word>)
    requires Fits(drive, disk) && Proper(input)
    modifies drive, drive.svbuf, drive.mem.cells, disk.Repr()
    ensures Fits(drive, disk) && Tidy(old(Seen(drive, disk)))
    ensures Seen(drive, disk) == Fed(old(Seen(drive, disk)), input) && answer == Answer(old(Seen(drive, disk)), input)
  {
    hide SectorsOf, Snapshot, Commanded, RanTo, Replied;
    SeenIsTidy(drive, disk);
    StaysSound(Seen(drive, disk), input);
    if drive.media == null {
      StartsNothing(Seen(drive, disk), input);
    }
    answer := [];
    match input
    case Command(msg) =>
      var r;
      r, answer := drive.HWI(msg);
    case RunTo(time) => drive.Run(time);
    case StoreWord(addr, v) => drive.mem.Write(addr, v);
    case Restart => drive.Reset();
    case Eject => drive.media := null;
    case Insert => drive.media := disk;
  }

  lemma SeenIsTidy(drive: M35fd, disk: IsiDisk)
    requires Fits(drive, disk)
    ensures Tidy(Seen(drive, disk))
  {
  }

  /** Whatever is done to drive, disk and memory, they are afterwards exactly what `Fed` makes of what
      they were, input by input, and every command is answered accordingly. */
  method FeedAll(drive: M35fd, disk: IsiDisk, inputs: Inputs) returns (answers: seq<seq<Word>>)
    requires Fits(drive, disk)
    modifies drive, drive.svbuf, drive.mem.cells, disk.Repr()
    ensures Fits(drive, disk) && Tidy(old(Seen(drive, disk)))
    ensures Seen(drive, disk) == DeskAt(old(Seen(drive, disk)), inputs, |inputs|)
    ensures |answers| == |inputs|
    ensures forall k | 0 <= k < |inputs| ::
      Proper(inputs[k]) && answers[k] == Answer(DeskAt(old(Seen(drive, disk)), inputs, k), inputs[k])
  {
    hide Fed, Answer, Tidy, Fits, Seen;
    SeenIsTidy(drive, disk);
    ghost var d := Seen(drive, disk);
    answers := [];
    for k := 0 to |inputs|
      invariant Fits(drive, disk) && Seen(drive, disk) == DeskAt(d, inputs, k)
      invariant |answers| == k
      invariant forall i | 0 <= i < k :: Proper(inputs[i]) && answers[i] == Answer(DeskAt(d, inputs, i), inputs[i])
    {
      assert inputs[k] in inputs;
      var answer := Feed(drive, disk, inputs[k]);
      answers := answers + [answer];
    }
  }

  // ----- the array of sectors -----

  /** What an input is to the array of sectors. */
  datatype Event =
    | StartRead(n: nat, addr: Word)
    | StartWrite(n: nat, addr: Word)
    | Complete
    | Cancel
    | ProcessorStores(addr: Word, v: Word)
    | Nothing

  predicate Possible(s: Store, e: Event) {
    (s.pending.Some? ==> s.pending.value.sector < SECTORS) &&
    match e
    case StartRead(n, _) => n < SECTORS && s.pending.None?
    case StartWrite(n, _) => n < SECTORS && s.pending.None?
    case Complete => s.pending.Some?
    case _ => true
  }

  function Next(s: Store, e: Event): Store
    requires Possible(s, e)
  {
    match e
    case StartRead(n, addr) => s.(pending := Some(Read(n, addr)))
    case StartWrite(n, addr) => s.(pending := Some(Write(n, Snapshot(s.mem, addr))))
    case Complete => Completed(s)
    case Cancel => s.(pending := None)
    case ProcessorStores(addr, v) => s.(mem := s.mem[addr := v])
    case Nothing => s
  }

  /** Drive, disk and memory as the program on the processor knows them. */
  function Visible(d: Desk): Store {
    Store(d.disk.sectors, d.drive.mem, d.drive.pending)
  }

  /** Which event an input is: a command starts an operation if nothing refuses it; a wait completes one
      if and only if it is due in that time, and gives it up if the disk is gone. */
  function EventOf(d: Desk, input: Input): Event
    requires Proper(input)
  {
    match input
    case Command(msg) =>
      if msg[0] == 2 && RefusalOf(d.drive, false, msg[3]) == ERR_NONE then StartRead(msg[3], msg[4])
      else if msg[0] == 3 && RefusalOf(d.drive, true, msg[3]) == ERR_NONE then StartWrite(msg[3], msg[4])
      else Nothing
    case RunTo(time) =>
      if !Working(d.drive) then Nothing
      else if d.drive.media.Some? then (if DueAt(d.drive, time) < time then Complete else Nothing)
      else if Started(d.drive, time).nrun < time then Cancel else Nothing
    case StoreWord(addr, v) => ProcessorStores(addr, v)
    case Restart => Cancel
    case _ => Nothing
  }

  /** Every input is that event. */
  lemma OneEvent(d: Desk, input: Input)
    requires Tidy(d) && Proper(input)
    ensures Possible(Visible(d), EventOf(d, input)) && Visible(Fed(d, input)) == Next(Visible(d), EventOf(d, input))
  {
    hide Snapshot, Completed, TimeLeft;
    if input.RunTo? {
      WaitingEvent(d, input.time);
    }
  }

  lemma WaitingEvent(d: Desk, time: nat)
    requires Tidy(d)
    ensures var e := EventOf(d, RunTo(time));
      Possible(Visible(d), e) && Visible(Fed(d, RunTo(time))) == Next(Visible(d), e)
  {
    hide Completed, TimeLeft, Went;
    var s := Started(d.drive, time);
    WentKeeps(s, time);
    if Working(s) {
      if s.media.Some? {
        WentWorking(s, time);
      } else if s.nrun < time {
        WentWithout(s, time);
      } else {
        NoTurn(s, time);
      }
    }
  }

  lemma NoTurn(d: Drive, time: nat)
    requires Sound(d) && d.nrun >= time
    ensures Went(d, time) == d
  {
  }

  /** The states of a run, one more than its events. */
  predicate IsRun(states: seq<Store>, events: seq<Event>) {
    |states| == |events| + 1 &&
    forall i | 0 <= i < |events| :: Possible(states[i], events[i]) && states[i + 1] == Next(states[i], events[i])
  }

  function StatesOf(d: Desk, inputs: Inputs): (states: seq<Store>)
    requires Tidy(d)
    ensures |states| == |inputs| + 1
  {
    seq(|inputs| + 1, (k: nat) requires k <= |inputs| => Visible(DeskAt(d, inputs, k)))
  }

  function EventsOf(d: Desk, inputs: Inputs): (events: seq<Event>)
    requires Tidy(d)
    ensures |events| == |inputs|
  {
    seq(|inputs|, (k: nat) requires k < |inputs| && inputs[k] in inputs => EventOf(DeskAt(d, inputs, k), inputs[k]))
  }

  lemma StateIs(d: Desk, inputs: Inputs, k: nat)
    requires Tidy(d) && k <= |inputs|
    ensures StatesOf(d, inputs)[k] == Visible(DeskAt(d, inputs, k))
  {
    hide DeskAt, Visible;
  }

  lemma EventIs(d: Desk, inputs: Inputs, k: nat)
    requires Tidy(d) && k < |inputs| && Proper(inputs[k])
    ensures EventsOf(d, inputs)[k] == EventOf(DeskAt(d, inputs, k), inputs[k])
  {
    hide DeskAt, EventOf;
    assert inputs[k] in inputs;
  }

  lemma StepOfRun(d: Desk, inputs: Inputs, k: nat)
    requires Tidy(d) && k < |inputs|
    ensures var states, events := StatesOf(d, inputs), EventsOf(d, inputs);
      Possible(states[k], events[k]) && states[k + 1] == Next(states[k], events[k])
  {
    hide Possible, Next, Fed, EventOf, Visible, StatesOf, EventsOf;
    assert inputs[k] in inputs;
    StateIs(d, inputs, k);
    StateIs(d, inputs, k + 1);
    EventIs(d, inputs, k);
    OneEvent(DeskAt(d, inputs, k), inputs[k]);
  }

  /** Every series of inputs is a run of the array of sectors, one event for each input. */
  lemma InputsAreRun(d: Desk, inputs: Inputs)
    requires Tidy(d)
    ensures IsRun(StatesOf(d, inputs), EventsOf(d, inputs))
  {
    hide Possible, Next, StatesOf, EventsOf;
    var states, events := StatesOf(d, inputs), EventsOf(d, inputs);
    forall k | 0 <= k < |events|
      ensures Possible(states[k], events[k]) && states[k + 1] == Next(states[k], events[k])
    {
      StepOfRun(d, inputs, k);
    }
  }

  predicate Ends(e: Event) {
    e == Complete || e == Cancel
  }

  /** Event i accepts an operation and event j completes it: nothing in between ends it. */
  predicate Brackets(events: seq<Event>, i: nat, j: nat) {
    i < j < |events| && events[j] == Complete &&
    forall k | i < k < j :: !Ends(events[k])
  }

  /** An operation, once accepted, stays as it is until it is completed. */
  lemma {:induction false} OperationKept(states: seq<Store>, events: seq<Event>, i: nat, j: nat)
    requires IsRun(states, events) && i < j <= |events| && states[i + 1].pending.Some?
    requires forall k | i < k < j :: !Ends(events[k])
    ensures states[j].pending == states[i + 1].pending && states[j].sectors == states[i + 1].sectors
  {
    if i + 1 < j {
      OperationKept(states, events, i, j - 1);
      assert Possible(states[j - 1], events[j - 1]);
    }
  }

  /** A completed write changes exactly its sector, to what memory held when it was accepted, and
      not to what memory holds when it is completed. */
  lemma WriteCompletes(states: seq<Store>, events: seq<Event>, i: nat, j: nat)
    requires IsRun(states, events) && Brackets(events, i, j) && events[i].StartWrite?
    ensures states[j + 1].sectors ==
      states[i].sectors[events[i].n := Snapshot(states[i].mem, events[i].addr)]
    ensures states[j + 1].mem == states[j].mem && states[j + 1].pending == None
  {
    assert Possible(states[i], events[i]);
    OperationKept(states, events, i, j);
  }

  /** A completed read changes exactly the 512 words from its address on, to the sector. */
  lemma ReadCompletes(states: seq<Store>, events: seq<Event>, i: nat, j: nat)
    requires IsRun(states, events) && Brackets(events, i, j) && events[i].StartRead?
    ensures states[j + 1].sectors == states[i].sectors
    ensures states[j + 1].mem == Loaded(states[j].mem, events[i].addr, states[i].sectors[events[i].n])
    ensures Snapshot(states[j + 1].mem, events[i].addr) == states[i].sectors[events[i].n]
  {
    assert Possible(states[i], events[i]);
    OperationKept(states, events, i, j);
    LoadedSnapshot(states[j].mem, events[i].addr, states[i].sectors[events[i].n]);
  }

  lemma LoadedSnapshot(mem: Memory, addr: Word, data: Sector)
    ensures Snapshot(Loaded(mem, addr, data), addr) == data
  {
    forall i: nat | i < SECTOR_WORDS
      ensures Snapshot(Loaded(mem, addr, data), addr)[i] == data[i]
    {
      SamePlace(addr, i, Offset(addr, i));
    }
  }

  /** Between two events that do not complete a write to sector n, the sector stays as it is. */
  lemma {:induction false} SectorKept(states: seq<Store>, events: seq<Event>, n: nat, i: nat, j: nat)
    requires IsRun(states, events) && i <= j <= |events| && n < SECTORS
    requires forall k | i <= k < j && events[k] == Complete :: !WritesTo(states[k], n)
    ensures states[j].sectors[n] == states[i].sectors[n]
  {
    if i < j {
      SectorKept(states, events, n, i, j - 1);
      assert Possible(states[j - 1], events[j - 1]);
    }
  }

  predicate WritesTo(s: Store, n: nat) {
    s.pending.Some? && s.pending.value.Write? && s.pending.value.sector == n
  }

  /** What is written is what is read: a read of sector n returns the memory words of the last
      write to n that was completed before the read was accepted. */
  lemma ReadReturnsLastWrite(states: seq<Store>, events: seq<Event>, n: nat, w: nat, c: nat, r: nat, d: nat)
    requires IsRun(states, events) && c < r && n < SECTORS
    requires Brackets(events, w, c) && events[w].StartWrite? && events[w].n == n
    requires Brackets(events, r, d) && events[r].StartRead? && events[r].n == n
    requires forall k | c < k < r && events[k] == Complete :: !WritesTo(states[k], n)
    ensures Snapshot(states[d + 1].mem, events[r].addr) == Snapshot(states[w].mem, events[w].addr)
  {
    WriteCompletes(states, events, w, c);
    SectorKept(states, events, n, c + 1, r);
    ReadCompletes(states, events, r, d);
  }

  // ----- what is read is what was written -----

  /** In every series of inputs: the memory words at the time a write to sector n was accepted are what
      a later read of n brings, if both are completed and no other write to n is in between. */
  lemma WrittenThenRead(d: Desk, inputs: Inputs, n: nat, w: nat, c: nat, r: nat, e: nat)
    requires Tidy(d) && c < r && n < SECTORS
    requires var events := EventsOf(d, inputs);
      Brackets(events, w, c) && events[w].StartWrite? && events[w].n == n &&
      Brackets(events, r, e) && events[r].StartRead? && events[r].n == n &&
      forall k | c < k < r && events[k] == Complete :: !WritesTo(StatesOf(d, inputs)[k], n)
    ensures var events := EventsOf(d, inputs);
      Snapshot(DeskAt(d, inputs, e + 1).drive.mem, events[r].addr) ==
        Snapshot(DeskAt(d, inputs, w).drive.mem, events[w].addr)
  {
    hide IsRun, Brackets, WritesTo, Snapshot, StatesOf, EventsOf, DeskAt;
    InputsAreRun(d, inputs);
    Indices(EventsOf(d, inputs), w, c);
    Indices(EventsOf(d, inputs), r, e);
    StateIs(d, inputs, w);
    StateIs(d, inputs, e + 1);
    ReadReturnsLastWrite(StatesOf(d, inputs), EventsOf(d, inputs), n, w, c, r, e);
  }

  lemma Indices(events: seq<Event>, i: nat, j: nat)
    requires Brackets(events, i, j)
    ensures i < j < |events|
  {
  }

  // ----- what commands are answered -----

  /** With no operation under way and a disk in the drive, a read of a sector that exists is accepted,
      whether or not the disk is protected. */
  lemma ReadIsAccepted(d: Desk, msg: seq<Word>)
    requires Tidy(d) && d.drive.pending == None && d.drive.media.Some? && |msg| == 8 && msg[0] == 2 && msg[3] < 1440
    ensures Answer(d, Command(msg)) == msg[1 := 1]
    ensures Fed(d, Command(msg)).drive.pending == Some(Read(msg[3], msg[4]))
  {
  }

  /** A write then is accepted if and only if the disk is not protected, with the words that memory
      holds now; refused, it starts nothing. */
  lemma WriteIsAccepted(d: Desk, msg: seq<Word>)
    requires Tidy(d) && d.drive.pending == None && d.drive.media.Some? && |msg| == 8 && msg[0] == 3 && msg[3] < 1440
    ensures Answer(d, Command(msg)) == msg[1 := if d.disk.protect then 0 else 1]
    ensures var e := Fed(d, Command(msg));
      if d.disk.protect then e.drive.pending == None && e.drive.errcode == 3
      else e.drive.pending == Some(Write(msg[3], Snapshot(d.drive.mem, msg[4])))
  {
    hide Snapshot;
  }

  /** The other refusals, in the order in which they are looked for: an operation under way, no disk, a
      sector that does not exist. A refused command starts nothing and leaves what is under way alone. */
  lemma Refusals(d: Desk, msg: seq<Word>)
    requires Tidy(d) && |msg| == 8 && (msg[0] == 2 || msg[0] == 3)
    requires d.drive.pending.Some? || d.drive.media.None? || msg[3] >= 1440
    ensures var e := Fed(d, Command(msg));
      Answer(d, Command(msg)) == msg[1 := 0] && e.drive.pending == d.drive.pending && e.disk == d.disk &&
      e.drive.errcode == if d.drive.pending.Some? then 1 else if d.drive.media.None? then 2 else 5
  {
    hide Snapshot;
  }

  /** Command 0 answers the last error in C and forgets it, and the status in B: 0 without a disk, 3
      during an operation, otherwise the mode found by the last wait. */
  lemma StatusIsTold(d: Desk, msg: seq<Word>)
    requires Tidy(d) && |msg| == 8 && msg[0] == 0
    ensures var answer := Answer(d, Command(msg));
      |answer| == 8 && answer[2] == d.drive.errcode &&
      (d.drive.media.None? ==> answer[1] == 0) &&
      (d.drive.media.Some? && d.drive.pending.Some? ==> answer[1] == 3) &&
      (d.drive.media.Some? && d.drive.pending.None? ==> answer[1] == d.drive.oper <= 2)
    ensures Fed(d, Command(msg)).drive.errcode == 0
  {
  }

  /** A wait finds the mode: a disk put into an idle drive shows as 1, or as 2 if it is protected. */
  lemma ModeIsFound(d: Desk, time: nat)
    requires Tidy(d) && d.drive.pending == None && d.drive.media.Some? && d.drive.oper == 0
    requires 0 < d.drive.nrun < time
    ensures Fed(d, RunTo(time)).drive.oper == if d.disk.protect then 2 else 1
  {
    var t := Turned(d.drive);
    TurnedIsSound(d.drive);
    WentKeeps(t, time);
  }

  /** Read and wait past the due time: the sector is in memory, word by word, from any disk. */
  lemma ReadAndWait(d: Desk, n: Word, to: Word, t: nat)
    requires Tidy(d) && d.drive.pending == None && d.drive.media.Some? && n < 1440
    requires DueAt(Fed(d, Command(Request(false, n, to))).drive, t) < t
    ensures var e := Fed(Fed(d, Command(Request(false, n, to))), RunTo(t));
      e.disk == d.disk && e.drive.pending == None &&
      forall i: nat | i < 512 :: e.drive.mem[(to + i) % 0x1_0000] == d.disk.sectors[n][i]
  {
    hide TimeLeft, Loaded, Snapshot;
    var d1 := Fed(d, Command(Request(false, n, to)));
    OneEvent(d, Command(Request(false, n, to)));
    WaitingEvent(d1, t);
    InPlace(d1, t);
    ProtectionStays(d1, t);
    LoadedSnapshot(d1.drive.mem, to, d.disk.sectors[n]);
    forall i: nat | i < 512
      ensures Fed(d1, RunTo(t)).drive.mem[(to + i) % 0x1_0000] == d.disk.sectors[n][i]
    {
      WordOf(Fed(d1, RunTo(t)).drive.mem, to, i);
    }
  }

  lemma ProtectionStays(d: Desk, t: nat)
    requires Tidy(d)
    ensures Fed(d, RunTo(t)).disk.protect == d.disk.protect
  {
    hide Went;
    WentKeeps(Started(d.drive, t), t);
  }

  lemma WordOf(mem: Memory, addr: Word, i: nat)
    requires i < 512
    ensures Snapshot(mem, addr)[i] == mem[(addr + i) % 0x1_0000]
  {
  }

  /** The commands of a program: read or write sector n, at memory address addr. */
  function Request(write: bool, n: Word, addr: Word): seq<Word> {
    [if write then 3 else 2, 0, 0, n, addr, 0, 0, 0]
  }

  /** Write, wait, read, wait: with a writable disk in an idle drive, waiting long enough each time, the
      512 words from address `from` on when the write was commanded are afterwards those from `to` on. */
  lemma WriteWaitReadWait(d: Desk, n: Word, from: Word, to: Word, t: nat, u: nat, i: nat)
    requires i < 512 && Tidy(d) && !Working(d.drive) && d.drive.media.Some? && !d.disk.protect && n < SECTORS
    requires var d1 := Fed(d, Command(Request(true, n, from)));
      DueAt(d1.drive, t) < t &&
      var d3 := Fed(Fed(d1, RunTo(t)), Command(Request(false, n, to)));
      DueAt(d3.drive, u) < u
    ensures
      var d2 := Fed(Fed(d, Command(Request(true, n, from))), RunTo(t));
      var d4 := Fed(Fed(d2, Command(Request(false, n, to))), RunTo(u));
      d4.drive.mem[(to + i) % 0x1_0000] == d.drive.mem[(from + i) % 0x1_0000] &&
      d4.disk.sectors == d.disk.sectors[n := Snapshot(d.drive.mem, from)]
  {
    hide Snapshot, TimeLeft, Loaded;
    var d1 := Fed(d, Command(Request(true, n, from)));
    OneEvent(d, Command(Request(true, n, from)));
    WaitingEvent(d1, t);
    var d2 := Fed(d1, RunTo(t));
    InPlace(d1, t);
    OneEvent(d2, Command(Request(false, n, to)));
    var d3 := Fed(d2, Command(Request(false, n, to)));
    WaitingEvent(d3, u);
    LoadedSnapshot(d3.drive.mem, to, d3.disk.sectors[n]);
    WordOf(Fed(d3, RunTo(u)).drive.mem, to, i);
    WordOf(d.drive.mem, from, i);
  }

  lemma InPlace(d: Desk, t: nat)
    requires Tidy(d) && Working(d.drive) && d.drive.media.Some? && DueAt(d.drive, t) < t
    ensures var e := Fed(d, RunTo(t)); e.drive.media.Some? && !Working(e.drive)
  {
    hide Went, TimeLeft, Completed;
    WentWorking(Started(d.drive, t), t);
  }

  // ----- the disk outside the drive, and its file -----

  /** A disk that is not in the drive is not changed by anything done to the drive. */
  lemma {:induction false} OutOfReach(d: Desk, inputs: Inputs, k: nat)
    requires Tidy(d) && d.drive.media.None? && k <= |inputs| && Insert !in inputs
    ensures DeskAt(d, inputs, k).disk == d.disk && DeskAt(d, inputs, k).drive.media.None?
  {
    if k > 0 {
      OutOfReach(d, inputs, k - 1);
      assert inputs[k - 1] in inputs;
      StaysOut(DeskAt(d, inputs, k - 1), inputs[k - 1]);
    }
  }

  lemma StaysOut(d: Desk, input: Input)
    requires Tidy(d) && Proper(input) && d.drive.media.None? && input != Insert
    ensures Fed(d, input).disk == d.disk && Fed(d, input).drive.media.None?
  {
    if input.RunTo? {
      WentKeeps(Started(d.drive, input.time), input.time);
    }
  }

  /** The sectors of a file. */
  function FileSectors(file: File): Surface {
    seq(SECTORS, (s: nat) => At(file, s / 4)[SECTOR_WORDS * (s % 4)..SECTOR_WORDS * (s % 4) + SECTOR_WORDS])
  }

  /** After any series of inputs and unloading, the file alone holds the sectors that the inputs left. */
  method FeedAndUnload(drive: M35fd, disk: IsiDisk, inputs: Inputs) returns (answers: seq<seq<Word>>)
    requires Fits(drive, disk)
    modifies drive, drive.svbuf, drive.mem.cells, disk.Repr()
    ensures Tidy(old(Seen(drive, disk)))
    ensures var sectors := DeskAt(old(Seen(drive, disk)), inputs, |inputs|).disk.sectors;
      forall n: nat, i: nat | n < 1440 && i < 512 :: At(disk.file.blocks, n / 4)[512 * (n % 4) + i] == sectors[n][i]
  {
    answers := FeedAll(drive, disk, inputs);
    hide Fed, Tidy, DeskAt;
    ghost var c := disk.View();
    assert c.wrprotect ==> c.block == c.dblock;
    disk.Unload();
    UnloadedSectors(c);
    FileWords(disk.file.blocks);
  }

  lemma FileWords(file: File)
    ensures forall n: nat, i: nat | n < 1440 && i < 512 :: At(file, n / 4)[512 * (n % 4) + i] == FileSectors(file)[n][i]
  {
    hide At;
  }

  lemma UnloadedSectors(c: Cache)
    requires Synced(c) && (c.wrprotect ==> c.block == c.dblock)
    ensures FileSectors(Flushed(c)) == SectorsOf(c)
  {
    UnloadKeepsContents(c);
    hide Contents, At, Flushed;
    forall s: nat | s < SECTORS
      ensures FileSectors(Flushed(c))[s] == SectorsOf(c)[s]
    {
      assert At(Flushed(c), s / 4) == Contents(c, s / 4);
    }
  }
}
