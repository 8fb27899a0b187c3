/** The Mackapar M35FD drive as a value: what a command, a turn of the timed loop and a reset do to
    drive, disk and memory. `Floppy` proves that the drive of hardware/floppy_m35.cpp computes this. */
module FloppySpec {
  import opened Words
  import opened Ram
  import opened Wrappers

  const SECTORS := 1440
  const SECTOR_WORDS := 512
  const TRACK_SECTORS := 18
  const TRACK_TIME := 2_400_000
  const SECTOR_TIME := 32_573
  const IDLE_TIME := 50_000_000

  const ERR_NONE := 0
  const ERR_BUSY := 1
  const ERR_NO_MEDIA := 2
  const ERR_PROTECT := 3
  const ERR_EJECT := 4
  const ERR_SECTOR := 5

  const ST_NO_MEDIA := 0
  const ST_IDLE := 1
  const ST_IDLEP := 2
  const ST_BUSYREAD := 3
  const ST_BUSYWRITE := 4

  type Sector = s: seq<Word> | |s| == SECTOR_WORDS witness seq(512, (i: nat) => 0)

  /** A read or a write that has been accepted. */
  datatype Operation =
    | Read(sector: nat, addr: Word)
    | Write(sector: nat, data: Sector)

  function BlankSectors(): seq<Sector> {
    seq(SECTORS, (n: nat) => seq(SECTOR_WORDS, (i: nat) => 0))
  }

  type Surface = s: seq<Sector> | |s| == SECTORS witness BlankSectors()

  /** Drive, disk and memory as the program on the processor knows them. */
  datatype Store = Store(sectors: Surface, mem: Memory, pending: Option<Operation>)

  /** The words at addr, addr + 1, ..., around the end of memory. */
  function Snapshot(mem: Memory, addr: Word): Sector {
    seq(SECTOR_WORDS, (i: nat) => mem[Offset(addr, i)])
  }

  function LoadedWord(mem: Memory, addr: Word, data: Sector, n: nat, x: Word): Word {
    if Offset(x, 0 - addr) < n && n <= SECTOR_WORDS then data[Offset(x, 0 - addr)] else mem[x]
  }

  /** Storing the first n words of `data` at addr, addr + 1, ... */
  function LoadedWords(mem: Memory, addr: Word, data: Sector, n: nat): Memory {
    seq(SIZE, (x: nat) requires x < SIZE => LoadedWord(mem, addr, data, n, x))
  }

  function Loaded(mem: Memory, addr: Word, data: Sector): Memory {
    LoadedWords(mem, addr, data, SECTOR_WORDS)
  }

  lemma LoadOne(mem: Memory, addr: Word, data: Sector, n: nat)
    requires n < SECTOR_WORDS
    ensures LoadedWords(mem, addr, data, n)[Offset(addr, n) := data[n]] == LoadedWords(mem, addr, data, n + 1)
  {
    var m, m' := LoadedWords(mem, addr, data, n), LoadedWords(mem, addr, data, n + 1);
    forall x: Word | x < SIZE
      ensures m[Offset(addr, n) := data[n]][x] == m'[x]
    {
      SamePlace(addr, n, x);
    }
  }

  lemma LoadNone(mem: Memory, addr: Word, data: Sector)
    ensures LoadedWords(mem, addr, data, 0) == mem
  {
  }

  lemma SamePlace(addr: Word, n: nat, x: Word)
    requires n < SECTOR_WORDS
    ensures x == Offset(addr, n) <==> Offset(x, 0 - addr) == n
  {
  }

  /** What the completion of an operation does. */
  function Completed(s: Store): Store
    requires s.pending.Some? && s.pending.value.sector < SECTORS
  {
    match s.pending.value
    case Read(n, addr) => Store(s.sectors, Loaded(s.mem, addr, s.sectors[n]), None)
    case Write(n, data) => Store(s.sectors[n := data], s.mem, None)
  }

  /** Steps of the head from one track to another. */
  function Distance(track: Word, seektrack: Word): nat {
    Abs(seektrack - track)
  }

  /** Sectors that pass under the head before the one wanted has been read: 1 to 18. Every track
      crossed turns the disk by 73 sectors. */
  function Turns(d: nat, sector: Word, seeksector: Word): nat {
    (seeksector - sector - 73 * d) % TRACK_SECTORS + 1
  }

  /** The drive time an operation still needs. */
  function TimeLeft(track: Word, sector: Word, seektrack: Word, seeksector: Word): nat {
    var d := Distance(track, seektrack);
    d * TRACK_TIME + Turns(d, sector, seeksector) * SECTOR_TIME
  }

  /** An operation takes at most the seek and one revolution. */
  lemma TimeBound(track: Word, sector: Word, seektrack: Word, seeksector: Word)
    ensures SECTOR_TIME <= TimeLeft(track, sector, seektrack, seeksector) <=
      Distance(track, seektrack) * TRACK_TIME + TRACK_SECTORS * SECTOR_TIME
    ensures TimeLeft(track, sector, seektrack, seeksector) <= Abs(seektrack - track) * 2_400_000 + 18 * 32_573
  {
  }

  lemma SeekTakesTime(track: Word, sector: Word, seektrack: Word, seeksector: Word)
    requires track != seektrack
    ensures var t := if seektrack < track then track - 1 else track + 1;
      t < SIZE && TimeLeft(t, (sector + 73) % TRACK_SECTORS, seektrack, seeksector) + TRACK_TIME ==
        TimeLeft(track, sector, seektrack, seeksector)
  {
    var d := Distance(track, seektrack);
    ModuloShift(seeksector - sector - 73 * d, sector + 73, seeksector - 73 * (d - 1));
  }

  lemma ModuloShift(x: int, y: int, z: int)
    requires x == z - y
    ensures x % TRACK_SECTORS == (z - y % TRACK_SECTORS) % TRACK_SECTORS
  {
  }

  /** One sector further: either it was the one wanted, or an eighteenth of a turn less is left. */
  lemma RotationTakesTime(track: Word, sector: Word, seeksector: Word)
    ensures var turned := (sector + 1) % TRACK_SECTORS;
      var left := TimeLeft(track, sector, track, seeksector);
      if (seeksector + 1) % TRACK_SECTORS == turned then left == SECTOR_TIME
      else left == TimeLeft(track, turned, track, seeksector) + SECTOR_TIME
  {
    var x := seeksector - sector;
    ModuloShift(x - 1, sector + 1, seeksector);
    assert (seeksector + 1) % TRACK_SECTORS == (sector + 1) % TRACK_SECTORS <==> x % TRACK_SECTORS == 0;
    assert x % TRACK_SECTORS > 0 ==> (x - 1) % TRACK_SECTORS == x % TRACK_SECTORS - 1;
  }

  // ----- the drive as a value -----

  /** A disk: its sectors, and whether it is protected. */
  datatype Media = Media(sectors: Surface, protect: bool)

  /** The registers of the drive, the interrupts it has raised, the operation under way, the disk in the
      drive and the memory. */
  datatype Drive = Drive(
    track: Word, sector: Word, seektrack: Word, seeksector: Word, oper: Word, errcode: Word, iword: Word,
    nrun: nat, sent: seq<Word>, pending: Option<Operation>, media: Option<Media>, mem: Memory)

  predicate Working(d: Drive) {
    d.oper >= ST_BUSYREAD
  }

  predicate Sound(d: Drive) {
    d.sector < TRACK_SECTORS && d.oper <= ST_BUSYWRITE && (Working(d) <==> d.pending.Some?) &&
    (d.pending.Some? ==>
       d.pending.value.sector == d.seeksector < SECTORS && d.seektrack == d.seeksector / TRACK_SECTORS)
  }

  function StoreOf(d: Drive): Store
    requires d.media.Some?
  {
    Store(d.media.value.sectors, d.mem, d.pending)
  }

  function Noticed(d: Drive): Drive {
    if d.iword != 0 then d.(sent := d.sent + [d.iword]) else d
  }

  // ----- commands -----

  /** Why a read or write command is refused, 0 if it is accepted. */
  function RefusalOf(d: Drive, write: bool, n: Word): Word {
    if Working(d) then ERR_BUSY
    else if d.media.None? then ERR_NO_MEDIA
    else if n >= SECTORS then ERR_SECTOR
    else if write && d.media.value.protect then ERR_PROTECT
    else ERR_NONE
  }

  function Accepted(d: Drive, write: bool, n: Word, addr: Word): Drive {
    d.(seeksector := n, seektrack := n / TRACK_SECTORS, oper := if write then ST_BUSYWRITE else ST_BUSYREAD,
       pending := Some(if write then Write(n, Snapshot(d.mem, addr)) else Read(n, addr)))
  }

  function Transferred(d: Drive, write: bool, n: Word, addr: Word): Drive {
    var refusal := RefusalOf(d, write, n);
    if refusal == ERR_NONE then Noticed(Accepted(d, write, n, addr))
    else if refusal != d.errcode then Noticed(d.(errcode := refusal))
    else d
  }

  function Commanded(d: Drive, msg: seq<Word>): Drive
    requires |msg| == 8
  {
    match msg[0]
    case 0 => (if d.errcode != 0 then Noticed(d) else d).(errcode := ERR_NONE)
    case 1 => d.(iword := msg[3])
    case 2 => Transferred(d, false, msg[3], msg[4])
    case 3 => Transferred(d, true, msg[3], msg[4])
    case _ => d
  }

  function StatusOf(d: Drive): Word {
    if d.media.None? then ST_NO_MEDIA else if d.oper >= ST_BUSYREAD then ST_BUSYREAD else d.oper
  }

  /** The registers that a command answers with. */
  function Replied(d: Drive, msg: seq<Word>): seq<Word>
    requires |msg| == 8
  {
    match msg[0]
    case 0 => msg[1 := StatusOf(d)][2 := d.errcode]
    case 2 => msg[1 := if RefusalOf(d, false, msg[3]) == ERR_NONE then 1 else 0]
    case 3 => msg[1 := if RefusalOf(d, true, msg[3]) == ERR_NONE then 1 else 0]
    case _ => msg
  }

  // ----- time -----

  function IdleMode(m: Media): Word {
    if m.protect then ST_IDLEP else ST_IDLE
  }

  /** The transfer at the end of an operation. */
  function Delivered(d: Drive): Drive
    requires d.media.Some? && d.pending.Some? && d.pending.value.sector < SECTORS
  {
    var store, m := Completed(StoreOf(d)), d.media.value;
    Noticed(d.(media := Some(m.(sectors := store.sectors)), mem := store.mem, pending := None, oper := IdleMode(m)))
  }

  function SeekTurn(d: Drive): Drive
    requires d.seektrack != d.track
  {
    d.(nrun := d.nrun + TRACK_TIME, track := if d.seektrack < d.track then d.track - 1 else d.track + 1,
       sector := (d.sector + 73) % TRACK_SECTORS)
  }

  function RotateTurn(d: Drive): Drive {
    d.(nrun := d.nrun + SECTOR_TIME, sector := (d.sector + 1) % TRACK_SECTORS)
  }

  /** The sector wanted has gone by. */
  predicate Reached(d: Drive) {
    (d.seeksector + 1) % TRACK_SECTORS == d.sector
  }

  function Aborted(d: Drive): Drive {
    Noticed(d.(errcode := ERR_EJECT, oper := ST_NO_MEDIA, pending := None))
  }

  function IdleTurn(d: Drive): Drive {
    var oper :=
      if d.media.None? then ST_NO_MEDIA else if d.oper != ST_NO_MEDIA then d.oper else IdleMode(d.media.value);
    var e := if oper != d.oper then Noticed(d.(oper := oper)) else d;
    e.(nrun := d.nrun + IDLE_TIME, sector := (d.sector + 1535) % TRACK_SECTORS)
  }

  /** One turn of the timed loop. */
  function Turned(d: Drive): Drive
    requires Sound(d)
  {
    if !Working(d) then IdleTurn(d)
    else if d.media.None? then Aborted(d)
    else if d.seektrack != d.track then SeekTurn(d)
    else if Reached(RotateTurn(d)) then Delivered(RotateTurn(d))
    else RotateTurn(d)
  }

  lemma TurnedIsSound(d: Drive)
    requires Sound(d)
    ensures Sound(Turned(d))
    ensures Turned(d).nrun > d.nrun || (Turned(d).nrun == d.nrun && Working(d) && !Working(Turned(d)))
  {
    hide Completed;
  }

  function Went(d: Drive, crun: nat): Drive
    requires Sound(d)
    decreases if d.nrun < crun then crun - d.nrun else 0, Working(d)
  {
    TurnedIsSound(d);
    if d.nrun < crun then Went(Turned(d), crun) else d
  }

  /** Where the drive's clock stands when it is run at time crun. */
  function Started(d: Drive, crun: nat): Drive {
    if d.nrun == 0 then d.(nrun := crun) else d
  }

  function RanTo(d: Drive, crun: nat): Drive
    requires Sound(d)
  {
    Went(Started(d, crun), crun)
  }

  function Restarted(d: Drive): Drive {
    d.(errcode := ERR_NONE, iword := 0, oper := ST_NO_MEDIA, seektrack := 0, seeksector := 0, track := 400, sector := 0,
       pending := None)
  }

  // ----- when an operation is complete -----

  function LeftOf(d: Drive): nat {
    TimeLeft(d.track, d.sector, d.seektrack, d.seeksector)
  }

  /** When the last sector of the operation begins to pass under the head. */
  function DueAt(d: Drive, crun: nat): int {
    Started(d, crun).nrun + LeftOf(d) - SECTOR_TIME
  }

  /** One turn during an operation: it is completed, or the time passed is taken off what it needs. */
  lemma WorkingTurn(d: Drive)
    requires Sound(d) && Working(d) && d.media.Some?
    ensures var e := Turned(d);
      if LeftOf(d) == SECTOR_TIME then
        StoreOf(e) == Completed(StoreOf(d)) && !Working(e) && e.oper == IdleMode(d.media.value) &&
        e.sent == Noticed(d).sent
      else
        StoreOf(e) == StoreOf(d) && Working(e) && e.nrun + LeftOf(e) == d.nrun + LeftOf(d) && e.sent == d.sent &&
        LeftOf(e) < LeftOf(d)
    ensures var e := Turned(d);
      e.media.Some? && e.media.value.protect == d.media.value.protect && e.errcode == d.errcode && e.iword == d.iword
  {
    hide Loaded, TimeLeft;
    TimeBound(d.track, d.sector, d.seektrack, d.seeksector);
    if d.seektrack != d.track {
      SeekTakesTime(d.track, d.sector, d.seektrack, d.seeksector);
      var t := Turned(d);
      TimeBound(t.track, t.sector, t.seektrack, t.seeksector);
    } else {
      RotationTakesTime(d.track, d.sector, d.seeksector);
      var t := RotateTurn(d);
      TimeBound(t.track, t.sector, t.seektrack, t.seeksector);
    }
  }

  /** Running the drive keeps what it does not concern. */
  lemma {:induction false} WentKeeps(d: Drive, crun: nat)
    requires Sound(d)
    ensures var e := Went(d, crun);
      Sound(e) && e.nrun >= d.nrun && e.nrun >= crun && e.iword == d.iword &&
      (e.seektrack, e.seeksector) == (d.seektrack, d.seeksector) &&
      (e.media.Some? <==> d.media.Some?) && (d.media.Some? ==> e.media.value.protect == d.media.value.protect) &&
      (!Working(d) ==> !Working(e) && e.mem == d.mem && e.media == d.media && e.errcode == d.errcode) &&
      (!Working(d) && d.media.Some? && d.oper != ST_NO_MEDIA ==> e.oper == d.oper && e.sent == d.sent)
    decreases if d.nrun < crun then crun - d.nrun else 0, Working(d)
  {
    if d.nrun < crun {
      TurnedIsSound(d);
      TurnedKeeps(d);
      hide Turned;
      WentKeeps(Turned(d), crun);
    }
  }

  lemma TurnedKeeps(d: Drive)
    requires Sound(d)
    ensures var e := Turned(d);
      e.nrun >= d.nrun && e.iword == d.iword && (e.seektrack, e.seeksector) == (d.seektrack, d.seeksector) &&
      (e.media.Some? <==> d.media.Some?) && (d.media.Some? ==> e.media.value.protect == d.media.value.protect) &&
      (!Working(d) ==> !Working(e) && e.mem == d.mem && e.media == d.media && e.errcode == d.errcode) &&
      (!Working(d) && d.media.Some? && d.oper != ST_NO_MEDIA ==> e.oper == d.oper && e.sent == d.sent)
  {
    hide Completed;
  }

  /** With its disk in place an operation is completed, with one interrupt, if and only if it is due
      before the time to which the drive is run; otherwise exactly the time passed is taken off what it
      needs, and nothing else happens. */
  lemma {:induction false} WentWorking(d: Drive, crun: nat)
    requires Sound(d) && Working(d) && d.media.Some?
    ensures var e := Went(d, crun);
      e.media.Some? && e.errcode == d.errcode &&
      if d.nrun + LeftOf(d) - SECTOR_TIME < crun then
        StoreOf(e) == Completed(StoreOf(d)) && !Working(e) && e.oper == IdleMode(d.media.value) &&
        e.sent == Noticed(d).sent
      else
        StoreOf(e) == StoreOf(d) && Working(e) && e.sent == d.sent && e.nrun + LeftOf(e) == d.nrun + LeftOf(d)
    decreases LeftOf(d)
  {
    hide Completed, TimeLeft, Turned;
    TimeBound(d.track, d.sector, d.seektrack, d.seeksector);
    if d.nrun < crun {
      var t := Turned(d);
      TurnedIsSound(d);
      WorkingTurn(d);
      if LeftOf(d) == SECTOR_TIME {
        WentKeeps(t, crun);
      } else {
        TimeBound(t.track, t.sector, t.seektrack, t.seeksector);
        WentWorking(t, crun);
      }
    }
  }

  /** Without its disk an operation is given up at the first turn, with the eject error and one interrupt. */
  lemma WentWithout(d: Drive, crun: nat)
    requires Sound(d) && Working(d) && d.media.None? && d.nrun < crun
    ensures var e := Went(d, crun);
      e.pending == None && e.oper == ST_NO_MEDIA && e.errcode == ERR_EJECT && e.mem == d.mem &&
      e.sent == Noticed(d).sent
  {
    var t := Turned(d);
    TurnedIsSound(d);
    IdleWithout(t, crun);
  }

  lemma {:induction false} IdleWithout(d: Drive, crun: nat)
    requires Sound(d) && !Working(d) && d.media.None? && d.oper == ST_NO_MEDIA
    ensures var e := Went(d, crun);
      e.pending == None && e.oper == ST_NO_MEDIA && e.errcode == d.errcode && e.mem == d.mem && e.sent == d.sent
    decreases if d.nrun < crun then crun - d.nrun else 0
  {
    if d.nrun < crun {
      IdleWithout(Turned(d), crun);
    }
  }
}
