/** The 64k x 16 memory of memory.cpp. No part of the repository ever sets the read-only flag, and
    the synchronisation flags do not influence what is stored; both are left out. */
module Ram {
  import opened Words

  const SIZE := 0x1_0000

  type Memory = s: seq<Word> | |s| == SIZE witness seq(SIZE, (i: nat) => 0)

  function BlankMemory(): Memory {
    seq(SIZE, (i: nat) => 0)
  }

  class Memory16 {
    const cells: array<Word>

    constructor ()
      ensures cells.Length == SIZE && fresh(cells)
      ensures forall i | 0 <= i < SIZE :: cells[i] == 0
    {
      cells := new Word[SIZE](i => 0);
    }

    method Read(a: int) returns (v: Word)
      requires cells.Length == SIZE
      ensures v == cells[Wrap(a)]
    {
      v := cells[Wrap(a)];
    }

    method Write(a: int, v: int)
      requires cells.Length == SIZE
      modifies cells
      ensures cells[..] == old(cells[..])[Wrap(a) := Wrap(v)]
    {
      cells[Wrap(a)] := Wrap(v);
    }

    /** What a processor reset does to the memory, one word at a time. */
    method Clear()
      requires cells.Length == SIZE
      modifies cells
      ensures cells[..] == BlankMemory()
    {
      for a := 0 to SIZE
        invariant forall k | 0 <= k < a :: cells[k] == 0
      {
        cells[a] := 0;
      }
    }
  }
}
