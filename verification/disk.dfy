/** A disk of disk.cpp: one block of a file is kept in memory and written back when the disk seeks
    elsewhere. Reads and writes of the file always succeed; the disk is one kept in a file. */
module Disk {
  import opened Words

  const BLOCK_WORDS := 2048

  type Block = s: seq<Word> | |s| == BLOCK_WORDS witness seq(2048, (i: nat) => 0)

  function BlankBlock(): Block {
    seq(BLOCK_WORDS, (i: nat) => 0)
  }

  /** A file: what was never written reads as zero. */
  type File = map<nat, Block>

  function At(file: File, n: nat): Block {
    if n in file then file[n] else BlankBlock()
  }

  /** The cache: the block in memory, and a copy of it as it was read. */
  datatype Cache = Cache(file: File, index: nat, block: Block, dblock: Block, wrprotect: bool)

  /** What block n of the disk holds, wherever it is kept. */
  function Contents(c: Cache, n: nat): Block {
    if n == c.index then c.block else At(c.file, n)
  }

  predicate Synced(c: Cache) {
    c.dblock == At(c.file, c.index)
  }

  ghost predicate SameContents(c: Cache, d: Cache) {
    forall n: nat :: Contents(c, n) == Contents(d, n)
  }

  /** The file after a dirty block has been written back. */
  function Flushed(c: Cache): File {
    if !c.wrprotect && c.block != c.dblock then c.file[c.index := c.block] else c.file
  }

  function Seek(c: Cache, n: nat): Cache {
    if n == c.index then c else Cache(Flushed(c), n, At(Flushed(c), n), At(Flushed(c), n), c.wrprotect)
  }

  /** Seeking to any block keeps the copy in step with the file, and keeps the contents of the disk
      if and only if the disk is writable, or the block was not edited, or is not left. */
  lemma SeekKeepsContents(c: Cache, n: nat)
    requires Synced(c)
    ensures Synced(Seek(c, n)) && Seek(c, n).index == n
    ensures SameContents(c, Seek(c, n)) <==> !c.wrprotect || c.block == c.dblock || n == c.index
  {
    if c.wrprotect && c.block != c.dblock && n != c.index {
      assert Contents(c, c.index) != Contents(Seek(c, n), c.index);
    }
  }

  /** Unloading a writable disk leaves everything in the file. */
  lemma UnloadKeepsContents(c: Cache)
    requires Synced(c)
    ensures (forall n: nat :: At(Flushed(c), n) == Contents(c, n)) <==> !c.wrprotect || c.block == c.dblock
  {
    if c.wrprotect && c.block != c.dblock {
      assert At(Flushed(c), c.index) != Contents(c, c.index);
    }
  }

  // ----- runs -----

  /** Seeks, and changes made in place to the block in memory. */
  datatype Access = SeekTo(n: nat) | Edit(block: Block)

  function Apply(c: Cache, a: Access): Cache {
    match a
    case SeekTo(n) => Seek(c, n)
    case Edit(block) => c.(block := block)
  }

  function ApplyAll(c: Cache, accesses: seq<Access>): Cache {
    if |accesses| == 0 then c
    else Apply(ApplyAll(c, accesses[..|accesses| - 1]), accesses[|accesses| - 1])
  }

  /** The same accesses on a plain array of blocks with a position. */
  datatype Plain = Plain(blocks: nat -> Block, at: nat)

  function PlainAll(p: Plain, accesses: seq<Access>): Plain {
    if |accesses| == 0 then p
    else
      var q := PlainAll(p, accesses[..|accesses| - 1]);
      match accesses[|accesses| - 1]
      case SeekTo(n) => q.(at := n)
      case Edit(block) => q.(blocks := (n: nat) => if n == q.at then block else q.blocks(n))
  }

  ghost predicate Agrees(c: Cache, p: Plain) {
    p.at == c.index && forall n: nat :: Contents(c, n) == p.blocks(n)
  }

  /** The cached disk is a plain array of blocks through every sequence of seeks and edits, and
      after unloading the file alone holds that array. */
  lemma {:induction false} CacheIsTransparent(c: Cache, p: Plain, accesses: seq<Access>)
    requires Synced(c) && !c.wrprotect && Agrees(c, p)
    ensures var d := ApplyAll(c, accesses);
      Synced(d) && !d.wrprotect && Agrees(d, PlainAll(p, accesses)) &&
      forall n: nat :: At(Flushed(d), n) == PlainAll(p, accesses).blocks(n)
  {
    if |accesses| > 0 {
      var before := ApplyAll(c, accesses[..|accesses| - 1]);
      CacheIsTransparent(c, p, accesses[..|accesses| - 1]);
      match accesses[|accesses| - 1] {
        case SeekTo(n) => SeekKeepsContents(before, n);
        case Edit(_) =>
      }
    }
    UnloadKeepsContents(ApplyAll(c, accesses));
  }

  // ----- the disk object -----

  class BlockFile {
    var blocks: File

    constructor ()
      ensures blocks == map[]
    {
      blocks := map[];
    }
  }

  class IsiDisk {
    const file: BlockFile
    var index: nat
    const block: array<Word>
    const dblock: array<Word>
    const wrprotect: bool

    ghost predicate Valid()
    {
      block.Length == BLOCK_WORDS && dblock.Length == BLOCK_WORDS && block != dblock
    }

    ghost function Repr(): set<object> {
      {this, file, block, dblock}
    }

    ghost function View(): Cache
      requires Valid()
      reads this, file, block, dblock
    {
      Cache(file.blocks, index, block[..], dblock[..], wrprotect)
    }

    /** isiDisk::Init: the first block is read. */
    constructor (f: BlockFile, protect: bool)
      ensures Valid() && fresh(block) && fresh(dblock) && file == f && wrprotect == protect
      ensures Synced(View()) && index == 0 && forall n: nat :: Contents(View(), n) == At(f.blocks, n)
    {
      file, wrprotect, index := f, protect, 0;
      block, dblock := new Word[BLOCK_WORDS](i => 0), new Word[BLOCK_WORDS](i => 0);
      new;
      ReadFile(0);
    }

    /** isi_test_disk: the two buffers are compared 32 bits at a time. */
    method TestDisk() returns (dirty: bool)
      requires Valid()
      ensures dirty <==> block[..] != dblock[..]
    {
      var a := 0;
      while a < 1024
        invariant 0 <= a <= 1024
        invariant forall k | 0 <= k < 2 * a :: block[k] == dblock[k]
      {
        if block[2 * a] != dblock[2 * a] || block[2 * a + 1] != dblock[2 * a + 1] {
          assert block[..][2 * a] != dblock[..][2 * a] || block[..][2 * a + 1] != dblock[..][2 * a + 1];
          return true;
        }
        a := a + 1;
      }
      return false;
    }

    method CopyBlock(values: Block, target: array<Word>)
      requires target.Length == BLOCK_WORDS
      modifies target
      ensures target[..] == values
    {
      for i := 0 to BLOCK_WORDS
        invariant forall k | 0 <= k < i :: target[k] == values[k]
      {
        target[i] := values[i];
      }
    }

    /** isi_read_disk_file */
    method ReadFile(n: nat)
      requires Valid()
      modifies this, block, dblock
      ensures View() == Cache(file.blocks, n, At(file.blocks, n), At(file.blocks, n), wrprotect)
    {
      CopyBlock(At(file.blocks, n), block);
      index := n;
      CopyBlock(block[..], dblock);
    }

    /** isi_write_disk_file */
    method WriteFile()
      requires Valid()
      modifies file
      ensures file.blocks == old(file.blocks)[index := block[..]]
    {
      file.blocks := file.blocks[index := block[..]];
    }

    /** The ISE_DISKSEEK branch of isiDisk::MsgIn. */
    method SeekBlock(n: nat)
      requires Valid()
      modifies this, file, block, dblock
      ensures View() == Seek(old(View()), n)
    {
      if n != index {
        var dirty := TestDisk();
        if !wrprotect && dirty {
          WriteFile();
          ReadFile(n);
        } else {
          ReadFile(n);
        }
      }
    }

    /** isiDisk::Unload */
    method Unload()
      requires Valid()
      modifies file
      ensures file.blocks == Flushed(old(View()))
    {
      var dirty := TestDisk();
      if !wrprotect && dirty {
        WriteFile();
      }
    }
  }
}
