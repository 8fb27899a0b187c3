/** Parameter lists (isi_write_parameter and isi_fetch_parameter of object.cpp): entries of a tag, a
    length and data, up to a zero tag or the end of the buffer. */
module ParamList {
  import opened Words

  type Tag = x: int | 1 <= x < 0x100 witness 1

  type Data = s: seq<Byte> | |s| < 0x100

  datatype Entry = Entry(tag: Tag, data: Data)

  function Bytes(e: Entry): seq<Byte> {
    [e.tag as Byte, |e.data| as Byte] + e.data
  }

  function Encode(es: seq<Entry>): seq<Byte> {
    if |es| == 0 then [] else Encode(es[..|es| - 1]) + Bytes(es[|es| - 1])
  }

  /** Where entry m begins. */
  function Pos(es: seq<Entry>, m: nat): nat
    requires m <= |es|
  {
    |Encode(es[..m])|
  }

  /** The buffer holds exactly the list. */
  predicate Holds(buffer: seq<Byte>, es: seq<Entry>) {
    var k := |Encode(es)|;
    k <= |buffer| && buffer[..k] == Encode(es) && (k < |buffer| ==> buffer[k] == 0)
  }

  lemma {:induction false} EntryAt(es: seq<Entry>, m: nat)
    requires m < |es|
    ensures Pos(es, m + 1) == Pos(es, m) + 2 + |es[m].data| <= |Encode(es)|
    ensures Encode(es)[Pos(es, m)..Pos(es, m + 1)] == Bytes(es[m])
  {
    var n := |es| - 1;
    assert es[..|es|] == es;
    if m == n {
      assert es[..m + 1] == es;
    } else {
      var shorter := es[..n];
      EntryAt(shorter, m);
      assert shorter[..m] == es[..m] && shorter[..m + 1] == es[..m + 1];
      assert Encode(es)[..|Encode(shorter)|] == Encode(shorter);
      assert Encode(es)[Pos(es, m)..Pos(es, m + 1)] == Encode(shorter)[Pos(es, m)..Pos(es, m + 1)];
    }
  }

  /** The same, read from a buffer that holds the list. */
  lemma BufferAt(buffer: seq<Byte>, es: seq<Entry>, m: nat)
    requires Holds(buffer, es) && m < |es|
    ensures Pos(es, m + 1) == Pos(es, m) + 2 + |es[m].data| <= |buffer|
    ensures buffer[Pos(es, m)] == es[m].tag && buffer[Pos(es, m) + 1] == |es[m].data|
    ensures buffer[Pos(es, m) + 2..Pos(es, m + 1)] == es[m].data
  {
    hide Encode;
    EntryAt(es, m);
    var k, i, j := |Encode(es)|, Pos(es, m), Pos(es, m + 1);
    assert buffer[..k][i..j] == buffer[i..j];
    assert buffer[i..j][0] == buffer[i] && buffer[i..j][1] == buffer[i + 1] && buffer[i..j][2..] == buffer[i + 2..j];
  }

  lemma EncodeMore(es: seq<Entry>, e: Entry)
    ensures Encode(es + [e]) == Encode(es) + Bytes(e)
  {
    assert (es + [e])[..|es|] == es;
  }

  // ----- scanning -----

  /** Where a scan stands: the state variable `found` of the routines while they pass over entries,
      at byte j, in entry m, with `flen` bytes of its data to go. */
  predicate Scanning(es: seq<Entry>, j: nat, m: nat, found: int, flen: int) {
    m <= |es| &&
    match found
    case 0 => j == Pos(es, m)
    case 2 => m < |es| && j == Pos(es, m) + 1
    case 4 => m < |es| && 0 < flen <= |es[m].data| && j == Pos(es, m) + 2 + |es[m].data| - flen
    case _ => false
  }

  /** One byte of the scan, other than at the end of the list. */
  lemma ScanStep(buffer: seq<Byte>, es: seq<Entry>, j: nat, m: nat, found: int, flen: int)
    requires Holds(buffer, es) && Scanning(es, j, m, found, flen) && j < |buffer|
    requires found == 0 ==> m < |es|
    ensures found == 0 ==> buffer[j] == es[m].tag && Scanning(es, j + 1, m, 2, flen)
    ensures found == 2 ==> buffer[j] == |es[m].data|
    ensures found == 2 && buffer[j] != 0 ==> Scanning(es, j + 1, m, 4, buffer[j])
    ensures found == 2 && buffer[j] == 0 ==> Scanning(es, j + 1, m + 1, 0, 0)
    ensures found == 4 ==>
      if flen == 1 then Scanning(es, j + 1, m + 1, 0, 0) else Scanning(es, j + 1, m, 4, flen - 1)
  {
    hide Encode;
    if m < |es| {
      BufferAt(buffer, es, m);
    }
  }

  lemma EndOfList(buffer: seq<Byte>, es: seq<Entry>)
    requires Holds(buffer, es)
    ensures Pos(es, |es|) == |Encode(es)|
  {
    assert es[..|es|] == es;
  }

  lemma {:induction false} PosBound(es: seq<Entry>, m: nat)
    requires m <= |es|
    ensures Pos(es, m) <= |Encode(es)|
    decreases |es| - m
  {
    hide Encode;
    if m < |es| {
      EntryAt(es, m);
    } else {
      assert es[..m] == es;
    }
  }

  /** A byte passed over: of a tag that is not wanted, of a length, or of data. */
  method PassByte(b: Byte, found: int, flen: nat,
                  ghost buffer: seq<Byte>, ghost es: seq<Entry>, ghost j: nat, ghost m: nat)
    returns (found': int, flen': nat, ghost m': nat)
    requires found in {0, 2, 4} && Holds(buffer, es) && Scanning(es, j, m, found, flen)
    requires j < |buffer| && b == buffer[j] && (found == 0 ==> m < |es|)
    ensures found' in {0, 2, 4} && Scanning(es, j + 1, m', found', flen')
    ensures if found == 0 then found' == 2 && m' == m
      else m' == m + (if found' == 0 then 1 else 0) && found' != 2 && m < |es|
  {
    hide Encode, Holds, Scanning, Bytes;
    ScanBound(es, j, m, found, flen);
    ScanStep(buffer, es, j, m, found, flen);
    found', flen', m' := found, flen, m;
    if found == 0 {
      found' := 2;
    } else if found == 2 {
      flen' := b;
      found' := if b != 0 then 4 else 0;
    } else {
      flen' := flen - 1;
      if flen' == 0 {
        found' := 0;
      }
    }
    if found' == 0 {
      m' := m + 1;
      AtTag(es, j + 1, m', flen');
    }
  }

  lemma AtTag(es: seq<Entry>, j: nat, m: nat, flen: int)
    ensures Scanning(es, j, m, 0, 0) ==> Scanning(es, j, m, 0, flen)
  {
  }

  // ----- writing -----

  /** How far an entry has been written behind a list: its tag is there (found is 1), or its tag, its
      length and `uo` bytes of data (found is 3). */
  predicate Writing(j: nat, k: nat, found: int, uo: nat, limit: int, flen: int, size: nat) {
    uo + limit == size &&
    match found
    case 1 => j == k + 1 && uo == 0
    case 3 => j == k + 2 + uo && flen == limit && size > 0 && limit >= 0
    case _ => false
  }

  /** The entry to be written, as a part of the new list. */
  predicate ImageHas(image: seq<Byte>, k: nat, data: Data) {
    |image| == k + 2 + |data| && image[k + 1] == |data| && forall u | 0 <= u < |data| :: image[k + 2 + u] == data[u]
  }

  /** One byte of the entry behind its tag, or of the end of the list. */
  method WriteByte(p: array<Byte>, plen: nat, j: nat, data: Data, found: int, flen: nat, limit: nat, uo: nat,
                   ghost k: nat, ghost image: seq<Byte>, ghost before: seq<Byte>)
    returns (found': int, flen': nat, limit': nat, uo': nat, done: bool)
    requires (found == 1 || found == 3) && Writing(j, k, found, uo, limit, flen, |data|)
    requires j < plen <= p.Length == |before| && ImageHas(image, k, data)
    requires j <= |image| && p[..] == image[..j] + before[j..]
    modifies p
    ensures done ==> |image| <= plen && p[..] == Appended(before, plen, image, |data| > 0)
    ensures !done ==>
      found' == 3 && Writing(j + 1, k, 3, uo', limit', flen', |data|) && j + 1 <= |image| &&
      p[..] == image[..j + 1] + before[j + 1..] && (limit' == 0 ==> j + 1 < plen)
  {
    hide Appended;
    found', flen', limit', uo', done := found, flen, limit, uo, false;
    if found == 1 {
      flen' := limit;
      Put(p, j, limit, image, before);
      if flen' == 0 {
        Closing(image, before, plen);
        done := true;
        return;
      }
      found' := 3;
    } else if limit != 0 && flen != 0 {
      Put(p, j, data[uo], image, before);
      uo', limit', flen' := uo + 1, limit - 1, flen - 1;
      if limit' == 0 && j + 1 == plen {
        Closing(image, before, plen);
        done := true;
      }
    } else {
      Closing(image, before, plen);
      p[j] := 0;
      done := true;
    }
  }

  /** isi_write_parameter on a buffer that holds the list `es`. The entry is appended if it fits, and
      a zero byte follows it if there is room, except after an entry without data. An entry that does
      not fit is written as far as the buffer goes. */
  method WriteParameter(p: array<Byte>, plen: nat, code: Byte, data: Data, ghost es: seq<Entry>) returns (r: int)
    requires plen <= p.Length && Holds(p[..plen], es)
    modifies p
    ensures r == if plen < 1 || code == 0 then -1 else if |Encode(es)| + 2 + |data| <= plen then 0 else 1
    ensures r == -1 ==> p[..] == old(p[..])
    ensures r == 0 ==>
      p[..] == Appended(old(p[..]), plen, Encode(es) + Bytes(Entry(code, data)), |data| > 0)
    ensures r == 0 && |data| > 0 ==> Holds(p[..plen], es + [Entry(code, data)])
    ensures r == 1 ==> p[..] == (Encode(es) + Bytes(Entry(code, data)))[..plen] + old(p[plen..])
    ensures r == 1 ==> (Holds(p[..plen], es) <==> |Encode(es)| == plen)
  {
    hide Encode, Holds, Scanning, Bytes, Appended;
    if plen < 1 || code == 0 {
      return -1;
    }
    ghost var k, m: nat := |Encode(es)|, 0;
    ghost var image, before := Encode(es) + Bytes(Entry(code, data)), p[..];
    var found, flen: nat, limit: nat, uo: nat, j := 0, 0, |data|, 0, 0;
    ImageAt(Encode(es), Entry(code, data));
    NothingPut(before, plen, es, image);
    StartScan(es);
    while j < plen
      invariant 0 <= j <= plen && found in {0, 1, 2, 3, 4}
      invariant found in {0, 2, 4} ==> Scanning(es, j, m, found, flen) && p[..] == before && limit == |data| && uo == 0
      invariant found == 1 || found == 3 ==> Writing(j, k, found, uo, limit, flen, |data|)
      invariant found == 1 || found == 3 ==> j <= |image| && p[..] == image[..j] + before[j..]
      invariant found == 3 && limit == 0 ==> j < plen
    {
      if found == 0 && p[j] == 0 {
        EndReached(p[..plen], es, j, m, flen);
        Put(p, j, code, image, before);
        found := 1;
      } else if found == 1 || found == 3 {
        var done: bool;
        found, flen, limit, uo, done := WriteByte(p, plen, j, data, found, flen, limit, uo, k, image, before);
        if done {
          if |data| > 0 {
            NewList(before, p[..], plen, es, code, data);
          }
          return 0;
        }
      } else {
        if found == 0 {
          NotAtEnd(p[..plen], es, j, m, flen);
        }
        found, flen, m := PassByte(p[j], found, flen, p[..plen], es, j, m);
      }
      j := j + 1;
    }
    if found in {0, 2, 4} {
      OutOfRoom(p[..plen], es, j, m, found, flen);
    }
    BrokenList(p[..plen], es, code, data);
    return 1;
  }

  /** A tag without its whole entry spoils the list; with no room for the tag the list stays. */
  lemma BrokenList(after: seq<Byte>, es: seq<Entry>, code: Byte, data: Data)
    requires code != 0 && |Encode(es)| <= |after| <= |Encode(es) + Bytes(Entry(code, data))|
    requires after == (Encode(es) + Bytes(Entry(code, data)))[..|after|]
    ensures Holds(after, es) <==> |Encode(es)| == |after|
  {
    hide Encode;
  }

  /** What the last store leaves. */
  lemma Closing(image: seq<Byte>, before: seq<Byte>, plen: nat)
    requires |image| <= plen <= |before|
    ensures var p := image[..|image|] + before[|image|..];
      p == Appended(before, plen, image, false) &&
      (|image| == plen ==> p == Appended(before, plen, image, true)) &&
      (|image| < plen ==> p[|image| := 0] == Appended(before, plen, image, true))
  {
  }

  lemma ImageAt(encoded: seq<Byte>, e: Entry)
    ensures var k, image := |encoded|, encoded + Bytes(e);
      |image| == k + 2 + |e.data| && image[..k] == encoded && image[k] == e.tag && image[k + 1] == |e.data| &&
      forall u | 0 <= u < |e.data| :: image[k + 2 + u] == e.data[u]
  {
  }

  /** One more byte of the new list. */
  method Put(p: array<Byte>, j: nat, b: Byte, ghost image: seq<Byte>, ghost before: seq<Byte>)
    requires j < |image| && j < p.Length == |before| && b == image[j]
    requires p[..] == image[..j] + before[j..]
    modifies p
    ensures p[..] == image[..j + 1] + before[j + 1..]
  {
    p[j] := b;
  }

  /** Up to the end of the list nothing changes. */
  lemma NothingPut(before: seq<Byte>, plen: nat, es: seq<Entry>, image: seq<Byte>)
    requires plen <= |before| && Holds(before[..plen], es) && Encode(es) <= image
    ensures |Encode(es)| <= plen && before == image[..|Encode(es)|] + before[|Encode(es)|..]
  {
    hide Encode;
    var k := |Encode(es)|;
    assert before[..plen][..k] == before[..k];
  }

  /** A buffer with a list written over its beginning, and a zero byte behind it if there is room. */
  function Appended(before: seq<Byte>, plen: nat, image: seq<Byte>, closed: bool): seq<Byte>
    requires |image| <= plen <= |before|
  {
    if closed && |image| < plen then image + [0] + before[|image| + 1..] else image + before[|image|..]
  }

  lemma StartScan(es: seq<Entry>)
    ensures Scanning(es, 0, 0, 0, 0)
  {
  }

  /** A zero tag is met only at the end of the list, and there always, unless the buffer is full. */
  lemma EndReached(buffer: seq<Byte>, es: seq<Entry>, j: nat, m: nat, flen: int)
    requires Holds(buffer, es) && Scanning(es, j, m, 0, flen) && j < |buffer| && buffer[j] == 0
    ensures j == |Encode(es)| && m == |es|
  {
    hide Encode;
    EndOfList(buffer, es);
    if m < |es| {
      BufferAt(buffer, es, m);
    }
  }

  lemma NotAtEnd(buffer: seq<Byte>, es: seq<Entry>, j: nat, m: nat, flen: int)
    requires Holds(buffer, es) && Scanning(es, j, m, 0, flen) && j < |buffer| && buffer[j] != 0
    ensures m < |es|
  {
    hide Encode;
    EndOfList(buffer, es);
  }

  lemma ScanBound(es: seq<Entry>, j: nat, m: nat, found: int, flen: int)
    requires Scanning(es, j, m, found, flen)
    ensures found == 2 || found == 4 ==> m < |es|
    ensures found == 4 ==> flen > 0
  {
  }

  /** A scan that runs off the buffer has passed the whole list, and there is no byte left. */
  lemma OutOfRoom(buffer: seq<Byte>, es: seq<Entry>, j: nat, m: nat, found: int, flen: int)
    requires Holds(buffer, es) && Scanning(es, j, m, found, flen) && j == |buffer|
    ensures |Encode(es)| == |buffer| && m == |es| && found == 0
  {
    hide Encode;
    EndOfList(buffer, es);
    if m < |es| {
      BufferAt(buffer, es, m);
    }
  }

  lemma NewList(before: seq<Byte>, after: seq<Byte>, plen: nat, es: seq<Entry>, code: Byte, data: Data)
    requires code != 0 && |data| > 0 && plen <= |before|
    requires var image := Encode(es) + Bytes(Entry(code, data));
      |image| <= plen && after == Appended(before, plen, image, true)
    ensures plen <= |after| && Holds(after[..plen], es + [Entry(code, data)])
  {
    EncodeMore(es, Entry(code, data));
  }

  /** An entry without data gets no terminator: the list is intact afterwards if and only if it ends
      with the buffer or what lies behind it happens to be zero. */
  lemma FlagWritten(before: seq<Byte>, es: seq<Entry>, code: Byte)
    requires code != 0 && Holds(before, es) && |Encode(es)| + 2 <= |before|
    ensures var image := Encode(es) + Bytes(Entry(code, []));
      Holds(Appended(before, |before|, image, false), es + [Entry(code, [])]) <==>
      |image| == |before| || before[|image|] == 0
  {
    EncodeMore(es, Entry(code, []));
  }

  // ----- fetching -----

  /** The first entry with a tag, |es| if there is none. */
  function First(es: seq<Entry>, code: Byte): (m: nat)
    ensures m <= |es| && (forall i | 0 <= i < m :: es[i].tag != code) && (m < |es| ==> es[m].tag == code)
  {
    if |es| == 0 then 0
    else
      var m := First(es[..|es| - 1], code);
      if m < |es| - 1 || es[|es| - 1].tag == code then m else |es|
  }

  /** How much of the entry found is copied. */
  function Copied(es: seq<Entry>, code: Byte, limit: nat): nat {
    var m := First(es, code);
    if m == |es| then 0 else if |es[m].data| < limit then |es[m].data| else limit
  }

  /** Whether isi_fetch_parameter reports success: the entry is there, and it either fills the room
      given for it or is followed by another byte of the buffer. */
  predicate Fetches(plen: nat, es: seq<Entry>, code: Byte, limit: nat) {
    var m := First(es, code);
    m < |es| && (limit <= |es[m].data| || |es[m].data| == 0 || Pos(es, m + 1) < plen)
  }

  /** isi_fetch_parameter on a buffer that holds the list `es`. */
  method FetchParameter(p: seq<Byte>, plen: nat, code: Byte, out: array<Byte>, room: nat, ghost es: seq<Entry>)
    returns (r: int)
    requires plen <= |p| && Holds(p[..plen], es) && room <= out.Length
    modifies out
    ensures r == if plen < 1 || code == 0 then -1 else if Fetches(plen, es, code, room) then 0 else 1
    ensures r >= 0 ==>
      var c := Copied(es, code, room);
      (c > 0 ==> out[..c] == es[First(es, code)].data[..c]) && out[c..] == old(out[c..])
    ensures r < 0 ==> out[..] == old(out[..])
  {
    hide Encode, Holds, Scanning, First;
    if plen < 1 || code == 0 {
      return -1;
    }
    ghost var buffer, first, m: nat := p[..plen], First(es, code), 0;
    var found, flen: nat, limit, uo, j := 0, 0, room, 0, 0;
    StartScan(es);
    while j < plen
      invariant 0 <= j <= plen && found in {0, 1, 2, 3, 4}
      invariant found in {0, 2, 4} ==> Scanning(es, j, m, found, flen) && m <= first
      invariant found == 2 || found == 4 ==> m < first
      invariant found == 1 || found == 3 ==> first < |es|
      invariant found == 1 ==> j == Pos(es, first) + 1
      invariant found == 3 ==> j == Pos(es, first) + 2 + uo && 0 < |es[first].data| == uo + flen
      invariant found == 3 ==> uo + limit == room && (uo == 0 || limit > 0) && out[..uo] == es[first].data[..uo]
      invariant found != 3 ==> uo == 0 && limit == room
      invariant out[uo..] == old(out[uo..])
      decreases plen - j
    {
      if found == 0 {
        if p[j] == 0 {
          EndReached(buffer, es, j, m, flen);
          return 1;
        }
        NotAtEnd(buffer, es, j, m, flen);
        ScanStep(buffer, es, j, m, found, flen);
        if p[j] == code {
          AtEntry(es, j, m, flen);
          found := 1;
        } else {
          found, flen, m := PassByte(p[j], found, flen, buffer, es, j, m);
        }
      } else if found == 1 {
        BufferAt(buffer, es, first);
        flen := p[j];
        if flen == 0 {
          return 0;
        }
        found := 3;
      } else if found == 3 {
        BufferAt(buffer, es, first);
        if limit != 0 && flen != 0 {
          assert p[j] == buffer[Pos(es, first) + 2..Pos(es, first + 1)][uo];
          out[uo] := p[j];
          assert out[uo + 1..] == old(out[uo + 1..]);
          uo, limit, flen := uo + 1, limit - 1, flen - 1;
          if limit == 0 {
            return 0;
          }
        } else {
          return 0;
        }
      } else {
        found, flen, m := PassByte(p[j], found, flen, buffer, es, j, m);
      }
      j := j + 1;
    }
    if found in {0, 2, 4} {
      OutOfRoom(buffer, es, j, m, found, flen);
    } else {
      BufferAt(buffer, es, first);
    }
    return 1;
  }

  lemma AtEntry(es: seq<Entry>, j: nat, m: nat, flen: int)
    requires Scanning(es, j, m, 0, flen)
    ensures j == Pos(es, m)
  {
  }

  // ----- lists of several entries -----

  predicate DistinctTags(es: seq<Entry>) {
    forall i, j | 0 <= i < j < |es| :: es[i].tag != es[j].tag
  }

  /** A whole list written into an empty buffer, entry by entry. */
  method WriteAll(p: array<Byte>, plen: nat, es: seq<Entry>)
    requires 1 <= plen <= p.Length && p[0] == 0 && |Encode(es)| <= plen
    requires forall e | e in es :: |e.data| > 0
    modifies p
    ensures Holds(p[..plen], es)
  {
    hide Encode, Appended;
    NoEntries(p[..plen]);
    for m := 0 to |es|
      invariant Holds(p[..plen], es[..m])
    {
      assert es[..m + 1] == es[..m] + [es[m]] && es[m] in es;
      PosBound(es, m + 1);
      EncodeMore(es[..m], es[m]);
      var r := WriteParameter(p, plen, es[m].tag, es[m].data, es[..m]);
    }
    assert es[..|es|] == es;
  }

  lemma NoEntries(buffer: seq<Byte>)
    requires |buffer| > 0 && buffer[0] == 0
    ensures Holds(buffer, [])
  {
  }

  /** With distinct tags every entry is fetched, whole, by its own tag and length, wherever the list
      ends, and a tag that was not written is reported absent. */
  lemma EntriesFetched(es: seq<Entry>, plen: nat, code: Byte)
    requires DistinctTags(es)
    ensures forall m | 0 <= m < |es| ::
      First(es, es[m].tag) == m && Fetches(plen, es, es[m].tag, |es[m].data|) &&
      Copied(es, es[m].tag, |es[m].data|) == |es[m].data|
    ensures (forall i | 0 <= i < |es| :: es[i].tag != code) ==> forall limit :: !Fetches(plen, es, code, limit)
  {
    forall m | 0 <= m < |es|
      ensures First(es, es[m].tag) == m
    {
      var f := First(es, es[m].tag);
      assert f <= m;
    }
  }

  /** Appending an entry disturbs none that can be fetched already. */
  lemma AppendKeepsEntries(es: seq<Entry>, e: Entry, code: Byte)
    requires First(es, code) < |es|
    ensures First(es + [e], code) == First(es, code)
    ensures (es + [e])[First(es + [e], code)] == es[First(es, code)]
  {
    assert (es + [e])[..|es|] == es;
  }

  /** A flag written into an empty list in a buffer that is not clear: what lies behind it has become
      an entry. */
  lemma FlagExposes()
    ensures Holds([0, 0, 5, 0], [])
    ensures Appended([0, 0, 5, 0], 4, Bytes(Entry(1, [])), false) == [1, 0, 5, 0]
    ensures Holds([1, 0, 5, 0], [Entry(1, []), Entry(5, [])]) && !Holds([1, 0, 5, 0], [Entry(1, [])])
  {
    hide Encode;
    var e, f := Entry(1, []), Entry(5, []);
    OneEncoded(e);
    EncodeMore([e], f);
    assert [e] + [f] == [e, f];
    assert Bytes(e) == [1, 0] && Bytes(f) == [5, 0];
  }

  /** An entry of one byte that ends with the buffer, fetched into room for two: the byte is copied and
      failure is reported. */
  lemma LastEntryShort()
    ensures var es := [Entry(1, [7])];
      Holds([1, 1, 7], es) && First(es, 1) == 0 && Copied(es, 1, 2) == 1 && !Fetches(3, es, 1, 2)
  {
    hide Encode, First;
    var e := Entry(1, [7]);
    OneEncoded(e);
    assert [e][..1] == [e] && [1, 1, 7][..3] == [1, 1, 7];
    OneFound(e);
  }

  lemma OneFound(e: Entry)
    ensures First([e], e.tag) == 0
  {
    assert [e][0].tag == e.tag;
  }

  lemma OneEncoded(e: Entry)
    ensures Encode([]) == [] && Encode([e]) == Bytes(e)
  {
    EncodeMore([], e);
    assert [] + [e] == [e];
  }

  /** Entries with data and different tags, written one after the other into an empty buffer that has
      room, and then one of them fetched by its tag: its data come back. */
  method WriteThenFetch(p: array<Byte>, plen: nat, es: seq<Entry>, m: nat, out: array<Byte>) returns (r: int)
    requires 1 <= plen <= p.Length && p[0] == 0 && |Encode(es)| <= plen && p != out
    requires (forall e | e in es :: |e.data| > 0) && DistinctTags(es)
    requires m < |es| && |es[m].data| <= out.Length
    modifies p, out
    ensures r == 0 && out[..|es[m].data|] == es[m].data
  {
    hide Encode, Holds, First, DistinctTags, Fetches;
    WriteAll(p, plen, es);
    EntriesFetched(es, plen, es[m].tag);
    FirstIsEntry(es, m);
    r := FetchParameter(p[..], plen, es[m].tag, out, |es[m].data|, es);
  }

  lemma FirstIsEntry(es: seq<Entry>, m: nat)
    requires DistinctTags(es) && m < |es|
    ensures First(es, es[m].tag) == m
  {
    EntriesFetched(es, 0, es[m].tag);
  }

  /** An entry that is longer than the room is copied as far as there is room, and success is reported. */
  lemma LongerThanRoom(es: seq<Entry>, plen: nat, m: nat, room: nat)
    requires m < |es| && First(es, es[m].tag) == m && room <= |es[m].data|
    ensures Copied(es, es[m].tag, room) == room && Fetches(plen, es, es[m].tag, room)
  {
  }
}
