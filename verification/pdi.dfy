/** The word queue of hardware/pdi.cpp: up to three words, the oldest of which are ready to be taken.
    Both counts and two flags are packed into one word (hardware/pdi.h). */
module Pdi {
  import opened Words
  import opened Wrappers

  const LIMIT := 3
  const IBUSY := 0x1000
  const OVFLAG := 0x2000

  // ----- the packed status word -----

  function GetC(stat: Word): nat {
    stat % 16
  }

  function GetR(stat: Word): nat {
    stat / 16 % 16
  }

  predicate Has(stat: Word, flag: Word)
    requires flag > 0
  {
    stat / flag % 2 == 1
  }

  /** stat | flag */
  function With(stat: Word, flag: Word): int
    requires flag > 0
  {
    if Has(stat, flag) then stat else stat + flag
  }

  /** stat & ~flag */
  function Without(stat: Word, flag: Word): int
    requires flag > 0
  {
    if Has(stat, flag) then stat - flag else stat
  }

  /** (stat & ~PDI_MASKC) | PDI_SETC(c) */
  function WithC(stat: Word, c: nat): int {
    stat - stat % 16 + c % 16
  }

  /** (stat & ~(PDI_MASKC | PDI_MASKR)) | PDI_SETR(r) | PDI_SETC(c) */
  function WithCounts(stat: Word, c: nat, r: nat): int {
    stat - stat % 256 + r % 16 * 16 + c % 16
  }

  /** The status word as flags and two counts. */
  lemma Packed(h: nat, r: nat, c: nat)
    requires h < 256 && r < 16 && c < 16
    ensures var stat := h * 256 + r * 16 + c;
      GetC(stat) == c && GetR(stat) == r && stat % 256 == r * 16 + c &&
      Has(stat, IBUSY) == (h / 16 % 2 == 1) && Has(stat, OVFLAG) == (h / 32 % 2 == 1)
  {
    var stat := h * 256 + r * 16 + c;
    DivBetween(stat, 16, h * 16 + r);
    DivBetween(stat, IBUSY, h / 16);
    DivBetween(stat, OVFLAG, h / 32);
  }

  lemma Unpacked(stat: Word)
    ensures stat / 256 < 256 && stat == stat / 256 * 256 + GetR(stat) * 16 + GetC(stat)
  {
  }

  /** The packed fields do not disturb one another: setting or clearing a flag ... */
  lemma FlagFields(stat: Word, flag: Word)
    requires flag == IBUSY || flag == OVFLAG
    ensures 0 <= With(stat, flag) < 0x1_0000 && 0 <= Without(stat, flag) < 0x1_0000
    ensures Has(With(stat, flag), flag) && !Has(Without(stat, flag), flag)
    ensures GetC(With(stat, flag)) == GetC(Without(stat, flag)) == GetC(stat)
    ensures GetR(With(stat, flag)) == GetR(Without(stat, flag)) == GetR(stat)
    ensures flag == IBUSY ==>
      Has(With(stat, flag), OVFLAG) == Has(Without(stat, flag), OVFLAG) == Has(stat, OVFLAG)
    ensures flag == OVFLAG ==>
      Has(With(stat, flag), IBUSY) == Has(Without(stat, flag), IBUSY) == Has(stat, IBUSY)
  {
    hide GetC, GetR, Has, With, Without;
    Switched(stat, flag);
    var h, bit := stat / 256, if flag == IBUSY then 16 else 32;
    Unpacked(stat);
    Fields(stat);
    Flipped(h, bit);
    Packed(h, GetR(stat), GetC(stat));
    if h / bit % 2 == 1 {
      Packed(h - bit, GetR(stat), GetC(stat));
    } else {
      Packed(h + bit, GetR(stat), GetC(stat));
    }
    if flag == OVFLAG {
      BusyKept(h);
    }
  }

  /** A flag adds its value if it was clear and takes it away if it was set. */
  lemma Switched(stat: Word, flag: Word)
    requires flag == IBUSY || flag == OVFLAG
    ensures With(stat, flag) == (if Has(stat, flag) then stat as int else stat + flag)
    ensures Without(stat, flag) == (if Has(stat, flag) then stat - flag else stat as int)
  {
  }

  lemma BusyKept(h: nat)
    ensures (h + 32) / 16 % 2 == h / 16 % 2 && (h >= 32 ==> (h - 32) / 16 % 2 == h / 16 % 2)
  {
    assert (h + 32) / 16 == h / 16 + 2 && (h >= 32 ==> (h - 32) / 16 == h / 16 - 2);
  }

  lemma Flipped(h: nat, bit: nat)
    requires h < 256 && (bit == 16 || bit == 32)
    ensures h / bit % 2 == 1 ==> h >= bit && (h - bit) / bit % 2 == 0 && (bit == 16 ==> (h - 16) / 32 == h / 32)
    ensures h / bit % 2 != 1 ==> h + bit < 256 && (h + bit) / bit % 2 == 1 && (bit == 16 ==> (h + 16) / 32 == h / 32)
  {
    if bit == 16 {
      assert h / 32 == h / 16 / 2;
      assert (h + 16) / 16 == h / 16 + 1;
    } else {
      assert (h + 32) / 32 == h / 32 + 1;
    }
  }

  lemma Fields(stat: Word)
    ensures 0 <= GetC(stat) < 16 && 0 <= GetR(stat) < 16
  {
  }

  /** ... and replacing a count. */
  lemma CountFields(stat: Word, c: nat, r: nat)
    requires c < 16 && r < 16
    ensures 0 <= WithC(stat, c) < 0x1_0000 && 0 <= WithCounts(stat, c, r) < 0x1_0000
    ensures GetC(WithC(stat, c)) == GetC(WithCounts(stat, c, r)) == c
    ensures GetR(WithC(stat, c)) == GetR(stat) && GetR(WithCounts(stat, c, r)) == r
    ensures Has(WithC(stat, c), OVFLAG) == Has(WithCounts(stat, c, r), OVFLAG) == Has(stat, OVFLAG)
    ensures Has(WithC(stat, c), IBUSY) == Has(WithCounts(stat, c, r), IBUSY) == Has(stat, IBUSY)
  {
    hide GetC, GetR, Has, WithC, WithCounts;
    var h := stat / 256;
    Unpacked(stat);
    NewCounts(stat, c, r);
    Packed(h, GetR(stat), GetC(stat));
    Packed(h, GetR(stat), c);
    Packed(h, r, c);
  }

  lemma NewCounts(stat: Word, c: nat, r: nat)
    requires c < 16 && r < 16
    ensures WithC(stat, c) == stat / 256 * 256 + GetR(stat) * 16 + c
    ensures WithCounts(stat, c, r) == stat / 256 * 256 + r * 16 + c
    ensures GetR(stat) < 16 && GetC(stat) < 16
  {
    Unpacked(stat);
  }

  // ----- the queue -----

  /** The words stored, how many of them are ready, and whether one has been lost. */
  datatype Queue = Queue(words: seq<Word>, ready: nat, overflow: bool) {
    predicate Ok() {
      ready <= |words| <= LIMIT
    }
  }

  function AddedRx(q: Queue, w: Word): Queue {
    if |q.words| < LIMIT then q.(words := q.words + [w]) else q.(overflow := true)
  }

  function AddedTx(q: Queue, w: Word): Queue {
    if |q.words| < LIMIT then q.(words := q.words + [w]) else q
  }

  function Taken(q: Queue): Queue {
    if q.ready > 0 && |q.words| > 0 then q.(words := q.words[1..], ready := q.ready - 1) else q
  }

  function Processed(q: Queue): Queue {
    if q.ready < |q.words| then q.(ready := q.ready + 1) else q
  }

  class Port {
    var stat: Word
    const dat: array<Word>

    constructor ()
      ensures Valid() && fresh(dat) && View() == Queue([], 0, false)
    {
      stat := 0;
      dat := new Word[LIMIT](i => 0);
    }

    ghost predicate Valid()
      reads this
    {
      dat.Length == LIMIT && GetR(stat) <= GetC(stat) <= LIMIT
    }

    ghost function View(): Queue
      requires Valid()
      reads this, dat
    {
      Queue(dat[..GetC(stat)], GetR(stat), Has(stat, OVFLAG))
    }

    /** stat = 0, as the resets of the devices do */
    method Clear()
      requires Valid()
      modifies this
      ensures Valid() && View() == Queue([], 0, false)
    {
      stat := 0;
    }

    /** The end of pdi_addrxword and pdi_addtxword. */
    method Append(w: Word)
      requires Valid() && GetC(stat) < LIMIT
      modifies this, dat
      ensures Valid() && View() == AddedTx(old(View()), w)
    {
      var dc := GetC(stat);
      dat[dc] := w;
      dc := dc + 1;
      CountFields(stat, dc, 0);
      FlagFields(WithC(stat, dc), IBUSY);
      stat := With(WithC(stat, dc), IBUSY);
      assert dat[..dc] == old(dat[..GetC(stat)]) + [w];
    }

    /** pdi_addrxword */
    method AddRx(w: Word) returns (r: int)
      requires Valid()
      modifies this, dat
      ensures Valid() && View() == AddedRx(old(View()), w)
      ensures r == if |old(View()).words| < LIMIT then 0 else -1
    {
      if GetC(stat) < LIMIT {
        Append(w);
        return 0;
      } else {
        FlagFields(stat, OVFLAG);
        stat := With(stat, OVFLAG);
        return -1;
      }
    }

    /** pdi_addtxword */
    method AddTx(w: Word) returns (r: int)
      requires Valid()
      modifies this, dat
      ensures Valid() && View() == AddedTx(old(View()), w)
      ensures r == if |old(View()).words| < LIMIT then 0 else -1
    {
      if GetC(stat) < LIMIT {
        Append(w);
        return 0;
      } else {
        return -1;
      }
    }

    /** pdi_getword */
    method GetWord() returns (word: Option<Word>)
      requires Valid()
      modifies this, dat
      ensures Valid() && View() == Taken(old(View()))
      ensures word == if old(View()).ready > 0 then Some(old(View()).words[0]) else None
    {
      var dc, rc := GetC(stat), GetR(stat);
      if dc == 0 || rc == 0 {
        return None;
      }
      ghost var words := dat[..dc];
      word := Some(dat[0]);
      dc, rc := dc - 1, rc - 1;
      for i := 0 to dc
        invariant dat[..i] == words[1..][..i] && dat[i..dc + 1] == words[i..]
        invariant stat == old(stat)
      {
        assert dat[i + 1] == dat[i..dc + 1][1] == words[i + 1];
        dat[i] := dat[i + 1];
      }
      CountFields(stat, dc, rc);
      stat := WithCounts(stat, dc, rc);
      assert dat[..dc] == words[1..];
    }

    /** pdi_getrxoverflow */
    method GetOverflow() returns (f: bool)
      requires Valid()
      modifies this
      ensures Valid() && f == old(View()).overflow && View() == old(View()).(overflow := false)
    {
      f := Has(stat, OVFLAG);
      FlagFields(stat, OVFLAG);
      stat := Without(stat, OVFLAG);
    }

    /** pdi_isbusy, pdi_hasdata and pdi_hasfree */
    method IsBusy() returns (r: bool)
      requires Valid()
      ensures r == (View().ready < |View().words|)
    {
      r := GetR(stat) < GetC(stat);
    }

    method HasData() returns (r: bool)
      requires Valid()
      ensures r == (View().ready > 0)
    {
      r := GetR(stat) > 0;
    }

    method HasFree() returns (r: bool)
      requires Valid()
      ensures r == (|View().words| < LIMIT)
    {
      r := GetC(stat) < LIMIT;
    }

    /** pdi_process */
    method Process() returns (r: bool)
      requires Valid()
      modifies this
      ensures Valid() && View() == Processed(old(View())) && r == (old(View()).ready < |old(View()).words|)
    {
      var dc, rc := GetC(stat), GetR(stat);
      r := rc < dc;
      if r {
        rc := rc + 1;
        FlagFields(stat, IBUSY);
        CountFields(Without(stat, IBUSY), dc, rc);
        stat := WithCounts(Without(stat, IBUSY), dc, rc);
      }
    }
  }

  /** A queue stores three words; a fourth is lost, and only the receiving side notes it. Taking gives up
      the oldest word, and one turn makes one more word ready. */
  lemma QueueSteps(q: Queue, w: Word)
    ensures |q.words| < 3 ==> AddedRx(q, w) == AddedTx(q, w) == q.(words := q.words + [w])
    ensures |q.words| >= 3 ==> AddedRx(q, w) == q.(overflow := true) && AddedTx(q, w) == q
    ensures q.ready > 0 && |q.words| > 0 ==> Taken(q) == q.(words := q.words[1..], ready := q.ready - 1)
    ensures q.ready == 0 ==> Taken(q) == q
    ensures Processed(q) == if q.ready < |q.words| then q.(ready := q.ready + 1) else q
  {
  }
}
