/** The Mackapar M35FD drive of hardware/floppy_m35.cpp, over a disk in a file. Seen from outside,
    drive and disk are an array of 1440 sectors and at most one operation under way. */
module Floppy {
  import opened Words
  import opened Ram
  import opened Wrappers
  import opened Disk
  import opened FloppySpec

  /** Sector s of a disk: a quarter of a block. */
  function SectorOf(c: Cache, s: nat): Sector {
    Contents(c, s / 4)[SECTOR_WORDS * (s % 4)..SECTOR_WORDS * (s % 4) + SECTOR_WORDS]
  }

  function SectorsOf(c: Cache): Surface {
    seq(SECTORS, (s: nat) => SectorOf(c, s))
  }

  function MediaOf(c: Cache): Media {
    Media(SectorsOf(c), c.wrprotect)
  }

  // ----- the drive -----

  class M35fd {
    var track: Word
    var sector: Word
    var seektrack: Word
    var seeksector: Word
    var rwaddr: Word
    var iword: Word
    var oper: Word
    var errcode: Word
    const svbuf: array<Word>
    var nrun: nat
    var media: IsiDisk?
    const mem: Memory16
    var sent: seq<Word> // the interrupts raised, oldest first

    /** A drive after Reset, with no disk. */
    constructor (memory: Memory16)
      requires memory.cells.Length == SIZE
      ensures mem == memory && media == null && fresh(svbuf) && Consistent() && !Busy()
    {
      mem, media, nrun, sent := memory, null, 0, [];
      svbuf := new Word[SECTOR_WORDS](i => 0);
      errcode, iword, oper, seektrack, seeksector, track, sector := 0, 0, 0, 0, 0, 400, 0;
      rwaddr := 0;
    }

    ghost predicate Valid()
      reads this
    {
      svbuf.Length == SECTOR_WORDS && mem.cells.Length == SIZE && svbuf != mem.cells &&
      (media != null ==>
         media.Valid() && media.block != svbuf && media.block != mem.cells &&
         media.dblock != svbuf && media.dblock != mem.cells)
    }

    predicate Busy()
      reads this
    {
      oper == ST_BUSYREAD || oper == ST_BUSYWRITE
    }

    ghost function Repr(): set<object>
      reads this
    {
      {this, svbuf, mem.cells} + if media == null then {} else media.Repr()
    }

    /** The disk is in step with its file and with the operation under way. */
    ghost predicate Suits(d: IsiDisk)
      reads this, d.Repr()
    {
      d.Valid() && d.block != svbuf && d.block != mem.cells && d.dblock != svbuf && d.dblock != mem.cells &&
      Synced(d.View()) && (d.wrprotect ==> d.block[..] == d.dblock[..]) &&
      (Busy() ==> d.index == seeksector / 4) && (oper == ST_BUSYWRITE ==> !d.wrprotect)
    }

    /** What holds between any two calls, as long as a disk is not exchanged under the head while an
        operation is under way. */
    ghost predicate Consistent()
      reads this, Repr()
    {
      Valid() && sector < TRACK_SECTORS && oper <= ST_BUSYWRITE &&
      (Busy() ==> seeksector < SECTORS && seektrack == seeksector / TRACK_SECTORS) &&
      (media != null ==> Suits(media))
    }

    ghost function Pending(): Option<Operation>
      requires Valid()
      reads this, svbuf
    {
      if oper == ST_BUSYREAD then Some(Read(seeksector, rwaddr))
      else if oper == ST_BUSYWRITE then Some(Write(seeksector, svbuf[..]))
      else None
    }

    ghost function State(): Store
      requires Valid() && media != null
      reads this, Repr()
    {
      Store(SectorsOf(media.View()), mem.cells[..], Pending())
    }

    /** The drive as a value. */
    ghost function View(): Drive
      requires Valid()
      reads this, Repr()
    {
      Drive(track, sector, seektrack, seeksector, oper, errcode, iword, nrun, sent, Pending(),
            if media == null then None else Some(MediaOf(media.View())), mem.cells[..])
    }

    function Left(): nat
      reads this
    {
      TimeLeft(track, sector, seektrack, seeksector)
    }

    method Reset()
      requires Consistent()
      modifies this`errcode, this`iword, this`oper, this`seektrack, this`seeksector, this`track, this`sector
      ensures Consistent() && Pending() == None && track == 400 && sector == 0
      ensures errcode == ERR_NONE && iword == 0 && oper == ST_NO_MEDIA && seektrack == 0 && seeksector == 0
      ensures View() == Restarted(old(View()))
    {
      errcode, iword, oper, seektrack, seeksector := 0, 0, 0, 0, 0;
      track, sector := 400, 0;
    }

    /** statechange */
    method StateChange()
      modifies this`sent
      ensures sent == old(sent) + if iword != 0 then [iword] else []
    {
      if iword != 0 {
        sent := sent + [iword];
      }
    }

    // ----- commands -----

    /** Why a read or write command is refused, 0 if it is accepted. */
    function Refusal(write: bool, n: Word): Word
      reads this
    {
      if Busy() then ERR_BUSY
      else if media == null then ERR_NO_MEDIA
      else if n >= SECTORS then ERR_SECTOR
      else if write && media.wrprotect then ERR_PROTECT
      else ERR_NONE
    }

    /** The disk is sent to the block of the sector wanted. */
    method StartSeek(n: Word)
      requires Consistent() && !Busy() && media != null && n < SECTORS
      modifies this`seeksector, this`seektrack, media, media.file, media.block, media.dblock
      ensures Consistent() && media.index == n / 4 && seeksector == n && seektrack == n / TRACK_SECTORS
      ensures SectorsOf(media.View()) == old(SectorsOf(media.View()))
    {
      seeksector := n;
      seektrack := seeksector / TRACK_SECTORS;
      ghost var c := media.View();
      SeekKeepsContents(c, n / 4);
      media.SeekBlock(n / 4);
      SameSectors(c, media.View());
    }

    method CopyOut(addr: Word)
      requires Valid()
      modifies svbuf
      ensures svbuf[..] == Snapshot(mem.cells[..], addr)
    {
      var mc := addr;
      for i := 0 to SECTOR_WORDS
        invariant mc == Offset(addr, i)
        invariant forall k | 0 <= k < i :: svbuf[k] == mem.cells[Offset(addr, k)]
      {
        svbuf[i] := mem.Read(mc);
        mc := Offset(mc, 1);
      }
    }

    method Accept(write: bool, n: Word, addr: Word)
      requires Consistent() && Refusal(write, n) == 0
      modifies Repr()
      ensures Consistent() && media == old(media) && mem.cells[..] == old(mem.cells[..])
      ensures SectorsOf(media.View()) == old(SectorsOf(media.View()))
      ensures Pending() == Some(if write then Write(n, Snapshot(mem.cells[..], addr)) else Read(n, addr))
      ensures (track, sector, nrun, iword, errcode, sent) == old((track, sector, nrun, iword, errcode, sent))
      ensures View() == Accepted(old(View()), write, n, addr)
    {
      hide SectorsOf, Snapshot;
      StartSeek(n);
      rwaddr := addr;
      if write {
        CopyOut(addr);
        oper := ST_BUSYWRITE;
      } else {
        oper := ST_BUSYREAD;
      }
    }

    /** Commands 2 and 3. A refused command leaves the operation under way alone. */
    method Transfer(write: bool, n: Word, addr: Word) returns (accepted: bool)
      requires Consistent()
      modifies Repr()
      ensures Consistent() && media == old(media) && mem.cells[..] == old(mem.cells[..])
      ensures accepted == (old(Refusal(write, n)) == 0)
      ensures media != null ==> SectorsOf(media.View()) == old(SectorsOf(media.View()))
      ensures Pending() ==
        if !accepted then old(Pending())
        else Some(if write then Write(n, Snapshot(mem.cells[..], addr)) else Read(n, addr))
      ensures (track, sector, nrun, iword) == old((track, sector, nrun, iword))
      ensures !accepted ==> (seektrack, seeksector) == old((seektrack, seeksector))
      ensures errcode == if accepted then old(errcode) else old(Refusal(write, n))
      ensures sent == old(sent) +
        if iword != 0 && (accepted || errcode != old(errcode)) then [iword] else []
      ensures View() == Transferred(old(View()), write, n, addr)
    {
      hide SectorsOf, Snapshot;
      var lerr := errcode;
      accepted := false;
      var refusal := Refusal(write, n);
      if refusal != ERR_NONE {
        errcode := refusal;
      } else {
        Accept(write, n, addr);
        accepted := true;
        StateChange();
      }
      if lerr != errcode {
        StateChange();
      }
    }

    /** The status word of command 0. */
    function Status(): Word
      reads this
    {
      if media == null then 0 else if oper >= ST_BUSYREAD then ST_BUSYREAD else oper
    }

    /** Disk_M35FD::HWI. The message holds the registers A, B, C, X, Y, ... of the processor. */
    method HWI(msg: seq<Word>) returns (r: nat, out: seq<Word>)
      requires Consistent() && |msg| == 8
      modifies Repr()
      ensures Consistent() && media == old(media) && mem.cells[..] == old(mem.cells[..])
      ensures media != null ==> SectorsOf(media.View()) == old(SectorsOf(media.View()))
      ensures msg[0] == 0 ==>
        out == msg[1 := old(Status())][2 := old(errcode)] && errcode == ERR_NONE &&
        sent == old(sent) + if iword != 0 && old(errcode) != 0 then [iword] else []
      ensures msg[0] == 1 ==> iword == msg[3] && out == msg && errcode == old(errcode) && sent == old(sent)
      ensures msg[0] != 1 ==> iword == old(iword)
      ensures msg[0] == 2 || msg[0] == 3 ==>
        var refusal := old(Refusal(msg[0] == 3, msg[3]));
        out == msg[1 := if refusal == 0 then 1 else 0] &&
        errcode == (if refusal == 0 then old(errcode) else refusal) &&
        sent == old(sent) + if iword != 0 && (refusal == 0 || errcode != old(errcode)) then [iword] else []
      ensures Pending() ==
        if (msg[0] == 2 || msg[0] == 3) && old(Refusal(msg[0] == 3, msg[3])) == 0 then
          Some(if msg[0] == 3 then Write(msg[3], Snapshot(mem.cells[..], msg[4])) else Read(msg[3], msg[4]))
        else old(Pending())
      ensures (track, sector, nrun) == old((track, sector, nrun))
      ensures old(Busy()) ==> Left() == old(Left())
      ensures r == if msg[0] == 3 && out[1] == 1 then 512 else 0
      ensures View() == Commanded(old(View()), msg) && out == Replied(old(View()), msg)
    {
      hide SectorsOf, Snapshot;
      r, out := 0, msg;
      if msg[0] == 0 {
        out := out[1 := Status()];
        out := out[2 := errcode];
        if errcode != 0 {
          StateChange();
        }
        errcode := ERR_NONE;
      } else if msg[0] == 1 {
        iword := msg[3];
      } else if msg[0] == 2 || msg[0] == 3 {
        var accepted := Transfer(msg[0] == 3, msg[3], msg[4]);
        out := msg[1 := if accepted then 1 else 0];
        r := if accepted && msg[0] == 3 then 512 else 0;
      }
    }

    // ----- time -----

    /** The head moves one track. */
    method SeekStep()
      requires Consistent() && Busy() && track != seektrack
      modifies this`nrun, this`track, this`sector
      ensures Consistent()
      ensures nrun == old(nrun) + TRACK_TIME && Left() + TRACK_TIME == old(Left())
      ensures View() == SeekTurn(old(View()))
    {
      SeekTakesTime(track, sector, seektrack, seeksector);
      nrun := nrun + TRACK_TIME;
      track := if seektrack < track then track - 1 else track + 1;
      sector := (sector + 73) % TRACK_SECTORS;
    }

    /** The disk turns one sector further; the result says that the one wanted has gone by. */
    method Rotate() returns (reached: bool)
      requires Consistent() && Busy() && track == seektrack
      modifies this`nrun, this`sector
      ensures Consistent() && nrun == old(nrun) + SECTOR_TIME
      ensures reached ==> old(Left()) == SECTOR_TIME
      ensures !reached ==> Left() + SECTOR_TIME == old(Left())
      ensures View() == RotateTurn(old(View())) && reached == Reached(View())
    {
      RotationTakesTime(track, sector, seeksector);
      sector := (sector + 1) % TRACK_SECTORS;
      nrun := nrun + SECTOR_TIME;
      reached := (seeksector + 1) % TRACK_SECTORS == sector;
    }

    method StoreWords(addr: Word, data: Sector)
      requires mem.cells.Length == SIZE
      modifies mem.cells
      ensures mem.cells[..] == Loaded(old(mem.cells[..]), addr, data)
    {
      hide LoadedWords;
      ghost var before := mem.cells[..];
      var mc := addr;
      LoadNone(before, addr, data);
      for i := 0 to SECTOR_WORDS
        invariant mc == Offset(addr, i)
        invariant mem.cells[..] == LoadedWords(before, addr, data, i)
      {
        LoadOne(before, addr, data, i);
        mem.Write(mc, data[i]);
        mc := Offset(mc, 1);
      }
    }

    /** The words of the block that belong to the sector are stored to memory. */
    method CopyIn()
      requires Consistent() && media != null && Busy()
      modifies mem.cells
      ensures Consistent() && media.View() == old(media.View())
      ensures mem.cells[..] == Loaded(old(mem.cells[..]), rwaddr, SectorOf(media.View(), seeksector))
    {
      hide Loaded;
      var dr := SECTOR_WORDS * (seeksector % 4);
      StoreWords(rwaddr, media.block[dr..dr + SECTOR_WORDS]);
    }

    /** The buffer is stored to the words of the block that belong to the sector. */
    method CopyToBlock()
      requires Consistent() && media != null && oper == ST_BUSYWRITE
      modifies media.block
      ensures Consistent() && svbuf[..] == old(svbuf[..])
      ensures SectorsOf(media.View()) == old(SectorsOf(media.View()))[seeksector := svbuf[..]]
    {
      var dr := SECTOR_WORDS * (seeksector % 4);
      ghost var c := media.View();
      for i := 0 to SECTOR_WORDS
        invariant svbuf[..] == old(svbuf[..])
        invariant forall k | 0 <= k < BLOCK_WORDS ::
          media.block[k] == if dr <= k < dr + i then svbuf[k - dr] else c.block[k]
      {
        media.block[dr + i] := svbuf[i];
      }
      SectorReplaced(c, media.block[..], seeksector, svbuf[..]);
    }

    /** The transfer at the end of an operation. */
    method Finish()
      requires Consistent() && media != null && Busy()
      modifies this`oper, this`sent, mem.cells, media.block
      ensures Consistent() && State() == Completed(old(State())) && !Busy() && oper != ST_NO_MEDIA
      ensures sent == old(sent) + if iword != 0 then [iword] else []
      ensures View() == Delivered(old(View()))
    {
      if oper == ST_BUSYREAD {
        CopyIn();
      } else {
        CopyToBlock();
      }
      oper := if media.wrprotect then ST_IDLEP else ST_IDLE;
      StateChange();
    }

    method Idle()
      requires Consistent() && !Busy()
      modifies this`oper, this`sent, this`nrun, this`sector
      ensures Consistent() && !Busy() && nrun == old(nrun) + IDLE_TIME
      ensures sector == (old(sector) + 1535) % TRACK_SECTORS
      ensures oper ==
        if media == null then ST_NO_MEDIA
        else if old(oper) != ST_NO_MEDIA then old(oper)
        else if media.wrprotect then ST_IDLEP else ST_IDLE
      ensures sent == old(sent) + if oper != old(oper) && iword != 0 then [iword] else []
      ensures View() == IdleTurn(old(View()))
    {
      if media == null {
        if oper != ST_NO_MEDIA {
          oper := ST_NO_MEDIA;
          StateChange();
        }
      } else if oper == ST_NO_MEDIA {
        oper := if media.wrprotect then ST_IDLEP else ST_IDLE;
        StateChange();
      }
      nrun := nrun + IDLE_TIME;
      sector := (sector + 1535) % TRACK_SECTORS;
    }

    /** The disk has been taken out during an operation. No time passes. */
    method Abort()
      requires Consistent() && Busy() && media == null
      modifies this`errcode, this`oper, this`sent
      ensures Consistent() && errcode == ERR_EJECT && oper == ST_NO_MEDIA
      ensures sent == old(sent) + if iword != 0 then [iword] else []
      ensures View() == Aborted(old(View()))
    {
      errcode := ERR_EJECT;
      oper := ST_NO_MEDIA;
      StateChange();
    }

    /** The time at which the drive's clock stands when Run is called at time crun. */
    function Start(crun: nat): nat
      reads this
    {
      if nrun == 0 then crun else nrun
    }

    /** When the last sector of the operation begins to pass under the head. */
    function Due(crun: nat): int
      reads this
    {
      Start(crun) + Left() - SECTOR_TIME
    }

    /** Disk_M35FD::Run. An operation under way is completed by this call if and only if it is due
        before crun; otherwise exactly the time passed is taken off what it still needs. */
    method Run(crun: nat)
      requires Consistent()
      modifies Repr()
      ensures Consistent() && media == old(media) && nrun >= crun
      ensures media != null && old(Busy()) && old(Due(crun)) < crun ==> State() == Completed(old(State()))
      ensures media != null && old(Busy()) && old(Due(crun)) >= crun ==>
        State() == old(State()) && nrun + Left() == old(Start(crun)) + old(Left())
      ensures media != null && old(Busy()) &&
        old(Start(crun) + Distance(track, seektrack) * TRACK_TIME) + TRACK_SECTORS * SECTOR_TIME <= crun
        ==> !Busy()
      ensures media != null && !old(Busy()) ==> State() == old(State())
      ensures media != null && old(Busy()) ==>
        sent == old(sent) + if old(Due(crun)) < crun && iword != 0 then [iword] else []
      ensures media != null ==> errcode == old(errcode)
      ensures media == null && old(Busy()) && old(Start(crun)) < crun ==>
        Pending() == None && errcode == ERR_EJECT && oper == ST_NO_MEDIA
      ensures media == null && old(Busy()) && old(Start(crun)) < crun ==>
        sent == old(sent) + if iword != 0 then [iword] else []
      ensures iword == old(iword)
      ensures old(Start(crun)) >= crun ==> (oper, errcode, sent) == old((oper, errcode, sent))
      ensures View() == RanTo(old(View()), crun)
    {
      hide Completed, TimeLeft, Distance, Turned, SectorsOf, Snapshot;
      ghost var before := View();
      if nrun == 0 {
        nrun := crun;
      }
      ghost var start := View();
      assert start == Started(before, crun);
      while nrun < crun
        invariant Consistent() && media == old(media)
        invariant Went(View(), crun) == Went(start, crun)
        decreases crun - nrun, Busy()
      {
        TurnedIsSound(View());
        Turn();
      }
      WentKeeps(start, crun);
      TimeBound(start.track, start.sector, start.seektrack, start.seeksector);
      if Working(start) && start.media.Some? {
        WentWorking(start, crun);
      } else if Working(start) && start.nrun < crun {
        WentWithout(start, crun);
      }
    }

    /** One turn of the loop. */
    method Turn()
      requires Consistent()
      modifies Repr()
      ensures Consistent() && media == old(media) && View() == Turned(old(View()))
    {
      hide Completed, TimeLeft, Distance, SectorsOf, Snapshot, Reached, Delivered, SeekTurn, RotateTurn, IdleTurn,
        Aborted;
      if Busy() {
        if media == null {
          Abort();
          return;
        }
        if seektrack != track {
          SeekStep();
        } else {
          var reached := Rotate();
          var seekblock := media.index;
          if reached && seekblock == seeksector / 4 {
            Finish();
          }
        }
      } else {
        Idle();
      }
    }
  }

  /** Replacing a quarter of the block in memory replaces one sector of the disk. */
  lemma SectorReplaced(c: Cache, block: Block, n: Word, data: Sector)
    requires n < SECTORS && c.index == n / 4
    requires forall k | 0 <= k < BLOCK_WORDS ::
      block[k] == if SECTOR_WORDS * (n % 4) <= k < SECTOR_WORDS * (n % 4) + SECTOR_WORDS
                  then data[k - SECTOR_WORDS * (n % 4)] else c.block[k]
    ensures SectorsOf(c.(block := block)) == SectorsOf(c)[n := data]
  {
    var d := c.(block := block);
    forall s: nat | s < SECTORS
      ensures SectorsOf(d)[s] == SectorsOf(c)[n := data][s]
    {
      if s == n {
        assert SectorOf(d, s) == data;
      } else if s / 4 == n / 4 {
        assert s % 4 != n % 4;
        assert SectorOf(d, s) == SectorOf(c, s);
      }
    }
  }

  lemma SameSectors(c: Cache, d: Cache)
    requires SameContents(c, d)
    ensures SectorsOf(c) == SectorsOf(d)
  {
    forall s: nat | s < SECTORS
      ensures SectorOf(c, s) == SectorOf(d, s)
    {
      assert Contents(c, s / 4) == Contents(d, s / 4);
    }
  }
}
