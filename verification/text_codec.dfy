/** The names of disks: isi_text_enc and isi_text_dec of disk.cpp. This is base64url without padding,
    section 5 of RFC 4648, with a limit on the number of characters. */
module TextCodec {
  import opened Words
  import opened Wrappers

  type Sextet = x: int | 0 <= x < 64

  /** The alphabet: A to Z, a to z, 0 to 9, '-' and '_'. */
  function Char(v: Sextet): Byte {
    if v < 26 then 65 + v
    else if v < 52 then 97 + v - 26
    else if v < 62 then 48 + v - 52
    else if v == 62 then 45 else 95
  }

  function ValueOf(c: Byte): Option<Sextet> {
    if 65 <= c <= 90 then Some(c - 65)
    else if 97 <= c <= 122 then Some(26 + c - 97)
    else if 48 <= c <= 57 then Some(52 + c - 48)
    else if c == 45 then Some(62)
    else if c == 95 then Some(63)
    else None
  }

  /** Characters and their values belong together one to one. */
  lemma Alphabet(v: Sextet, c: Byte)
    ensures ValueOf(Char(v)) == Some(v)
    ensures ValueOf(c).Some? ==> Char(ValueOf(c).value) == c
  {
  }

  // ----- three bytes and four sextets -----

  function Triple(a: Byte, b: Byte, c: Byte): nat {
    a * 65536 + b * 256 + c
  }

  function Quad(p: Sextet, q: Sextet, r: Sextet, s: Sextet): nat {
    p * 262144 + q * 4096 + r * 64 + s
  }

  function SextetAt(ce: nat, k: nat): Sextet
    requires k < 4
  {
    if k == 0 then ce / 262144 % 64 else if k == 1 then ce / 4096 % 64 else if k == 2 then ce / 64 % 64 else ce % 64
  }

  function ByteAt(ce: nat, k: nat): Byte
    requires k < 3
  {
    if k == 0 then ce / 65536 % 256 else if k == 1 then ce / 256 % 256 else ce % 256
  }

  lemma SplitQuad(p: Sextet, q: Sextet, r: Sextet, s: Sextet)
    ensures var ce := Quad(p, q, r, s);
      ce < 0x100_0000 && SextetAt(ce, 0) == p && SextetAt(ce, 1) == q && SextetAt(ce, 2) == r && SextetAt(ce, 3) == s
  {
    var ce := Quad(p, q, r, s);
    assert ce / 64 == p * 4096 + q * 64 + r;
    assert ce / 4096 == p * 64 + q;
    assert ce / 262144 == p;
  }

  lemma SplitTriple(a: Byte, b: Byte, c: Byte)
    ensures var ce := Triple(a, b, c);
      ce < 0x100_0000 && ByteAt(ce, 0) == a && ByteAt(ce, 1) == b && ByteAt(ce, 2) == c
  {
    var ce := Triple(a, b, c);
    assert ce / 256 == a * 256 + b;
    assert ce / 65536 == a;
  }

  /** A number in terms of its quotients, one digit at a time. */
  lemma Digits64(ce: nat)
    requires ce < 0x100_0000
    ensures SextetAt(ce, 0) == ce / 64 / 64 / 64 && SextetAt(ce, 1) == ce / 64 / 64 % 64
    ensures SextetAt(ce, 2) == ce / 64 % 64 && SextetAt(ce, 3) == ce % 64
  {
  }

  lemma QuadRegrouped(ce: nat)
    requires ce < 0x100_0000
    ensures Quad(SextetAt(ce, 0), SextetAt(ce, 1), SextetAt(ce, 2), SextetAt(ce, 3)) == ce
  {
    hide SextetAt;
    Digits64(ce);
    var a, d := ce / 64, ce % 64;
    var b, c := a / 64, a % 64;
    assert ce == a * 64 + d && a == b * 64 + c && b == b / 64 * 64 + b % 64;
  }

  // ----- whole strings -----

  /** Byte k of x, zero behind its end. */
  function At(x: seq<Byte>, k: nat): Byte {
    if k < |x| then x[k] else 0
  }

  function SextetOf(vs: seq<Sextet>, k: nat): Sextet {
    if k < |vs| then vs[k] else 0
  }

  function GroupOfBytes(x: seq<Byte>, g: nat): nat {
    Triple(At(x, 3 * g), At(x, 3 * g + 1), At(x, 3 * g + 2))
  }

  function GroupOfSextets(vs: seq<Sextet>, g: nat): nat {
    Quad(SextetOf(vs, 4 * g), SextetOf(vs, 4 * g + 1), SextetOf(vs, 4 * g + 2), SextetOf(vs, 4 * g + 3))
  }

  /** The first `limit` sextets of x. */
  function Sextets(x: seq<Byte>, limit: nat): seq<Sextet> {
    seq(limit, (i: nat) => SextetAt(GroupOfBytes(x, i / 4), i % 4))
  }

  function Encoded(x: seq<Byte>, limit: nat): seq<Byte> {
    seq(limit, (i: nat) requires i < limit => Char(Sextets(x, limit)[i]))
  }

  predicate Readable(text: seq<Byte>) {
    forall i | 0 <= i < |text| :: ValueOf(text[i]).Some?
  }

  function Values(text: seq<Byte>): seq<Sextet>
    requires Readable(text)
  {
    seq(|text|, (i: nat) requires i < |text| => ValueOf(text[i]).value)
  }

  function DecodedByte(vs: seq<Sextet>, k: nat): Byte {
    ByteAt(GroupOfSextets(vs, k / 3), k % 3)
  }

  /** What `sextets` values write over a buffer: three bytes for every group begun. */
  function Decoded(vs: seq<Sextet>, buffer: seq<Byte>): seq<Byte> {
    seq(|buffer|, (k: nat) requires k < |buffer| => if k / 3 < (|vs| + 3) / 4 then DecodedByte(vs, k) else buffer[k])
  }

  // ----- decoding what was encoded -----

  lemma EncodedIsReadable(x: seq<Byte>, limit: nat)
    ensures Readable(Encoded(x, limit)) && Values(Encoded(x, limit)) == Sextets(x, limit)
  {
    forall i | 0 <= i < limit
      ensures ValueOf(Encoded(x, limit)[i]) == Some(Sextets(x, limit)[i])
    {
      Alphabet(Sextets(x, limit)[i], 0);
    }
  }

  lemma Multiple64(x: nat)
    ensures x * 64 % 64 == 0
  {
  }

  /** With no third or second byte in a group, the sextets that only they fill are zero. */
  lemma ShortGroup(a: Byte, b: Byte)
    ensures SextetAt(Triple(a, 0, 0), 2) == 0 && SextetAt(Triple(a, 0, 0), 3) == 0
    ensures SextetAt(Triple(a, b, 0), 3) == 0
  {
    Multiple64(a * 16);
    Multiple64(a * 1024 + b * 4);
    Multiple64(a * 1024);
    assert Triple(a, 0, 0) == (a * 1024) * 64 && Triple(a, 0, 0) / 64 == (a * 16) * 64;
    assert Triple(a, b, 0) == (a * 1024 + b * 4) * 64;
  }

  lemma Limits(n: nat, limit: nat, g: nat)
    requires limit == (8 * n + 5) / 6 && 3 * g < n
    ensures n == 3 * g + 1 ==> limit == 4 * g + 2
    ensures n == 3 * g + 2 ==> limit == 4 * g + 3
    ensures n >= 3 * g + 3 ==> limit >= 4 * g + 4
  {
  }

  lemma SextetSurvives(x: seq<Byte>, limit: nat, g: nat, k: nat)
    requires limit == (8 * |x| + 5) / 6 && 3 * g < |x| && k < 4
    ensures SextetOf(Sextets(x, limit), 4 * g + k) == SextetAt(GroupOfBytes(x, g), k)
  {
    hide SextetAt, Triple;
    Limits(|x|, limit, g);
    if 4 * g + k < limit {
      assert (4 * g + k) / 4 == g && (4 * g + k) % 4 == k;
    } else {
      ShortGroup(At(x, 3 * g), At(x, 3 * g + 1));
    }
  }

  lemma GroupSurvives(x: seq<Byte>, limit: nat, g: nat)
    requires limit == (8 * |x| + 5) / 6 && 3 * g < |x|
    ensures GroupOfSextets(Sextets(x, limit), g) == GroupOfBytes(x, g)
  {
    SplitTriple(At(x, 3 * g), At(x, 3 * g + 1), At(x, 3 * g + 2));
    QuadRegrouped(GroupOfBytes(x, g));
    hide SextetAt, Triple, Sextets, SextetOf, Quad;
    SextetSurvives(x, limit, g, 0);
    SextetSurvives(x, limit, g, 1);
    SextetSurvives(x, limit, g, 2);
    SextetSurvives(x, limit, g, 3);
  }

  /** Decoding the ceil(8n / 6) characters of an encoded string of n bytes gives the string. */
  lemma DecodeEncode(x: seq<Byte>, limit: nat, buffer: seq<Byte>)
    requires limit == (8 * |x| + 5) / 6 && |buffer| == |x|
    ensures Readable(Encoded(x, limit)) && Decoded(Values(Encoded(x, limit)), buffer) == x
  {
    hide Triple, ByteAt, SextetAt, GroupOfSextets;
    EncodedIsReadable(x, limit);
    forall k: nat | k < |x|
      ensures DecodedByte(Sextets(x, limit), k) == x[k]
    {
      var g := k / 3;
      GroupSurvives(x, limit, g);
      SplitTriple(At(x, 3 * g), At(x, 3 * g + 1), At(x, 3 * g + 2));
      assert k % 3 == 0 || k % 3 == 1 || k % 3 == 2;
    }
  }

  // ----- encoding what was decoded -----

  /** The character at i without the bits that no whole byte takes: only the last has any. */
  function Kept(vs: seq<Sextet>, i: nat): Sextet
    requires i < |vs|
  {
    if i < |vs| - 1 || |vs| % 4 == 0 then vs[i]
    else if |vs| % 4 == 1 then 0
    else if |vs| % 4 == 2 then Trim(vs[i], 16)
    else Trim(vs[i], 4)
  }

  /** The last character has no such bits. */
  predicate Canonical(vs: seq<Sextet>) {
    |vs| % 4 == 0 || Kept(vs, |vs| - 1) == vs[|vs| - 1]
  }

  /** The whole bytes of a text. */
  function Bytes(vs: seq<Sextet>): seq<Byte> {
    seq(6 * |vs| / 8, (k: nat) => DecodedByte(vs, k))
  }

  /** A sextet without its low bits. */
  function Trim(v: Sextet, unit: nat): Sextet
    requires unit == 4 || unit == 16
  {
    v / unit * unit
  }

  /** How four sextets lie in three bytes. */
  lemma QuadAsTriple(p: Sextet, q: Sextet, r: Sextet, s: Sextet)
    ensures Quad(p, q, r, s) == Triple(p * 4 + q / 16, q % 16 * 16 + r / 4, r % 4 * 64 + s)
  {
  }

  /** The first bytes of a group keep all but the loose bits of its sextets. */
  lemma Truncated(p: Sextet, q: Sextet, r: Sextet, s: Sextet)
    ensures var ce := Quad(p, q, r, s);
      Triple(ByteAt(ce, 0), 0, 0) == Quad(p, Trim(q, 16), 0, 0) &&
      Triple(ByteAt(ce, 0), ByteAt(ce, 1), 0) == Quad(p, q, Trim(r, 4), 0) &&
      Triple(ByteAt(ce, 0), ByteAt(ce, 1), ByteAt(ce, 2)) == ce
  {
    hide ByteAt;
    QuadAsTriple(p, q, r, s);
    SplitTriple(p * 4 + q / 16, q % 16 * 16 + r / 4, r % 4 * 64 + s);
    QuadAsTriple(p, Trim(q, 16), 0, 0);
    QuadAsTriple(p, q, Trim(r, 4), 0);
  }

  /** The bytes that the encoder finds in a group of decoded bytes. */
  lemma GroupBytes(vs: seq<Sextet>, g: nat, k: nat)
    requires 4 * g < |vs| && k < 3
    ensures At(Bytes(vs), 3 * g + k) ==
      if 4 * g + k + 1 < |vs| then ByteAt(GroupOfSextets(vs, g), k) else 0
  {
    hide ByteAt, GroupOfSextets;
    assert (3 * g + k) / 3 == g && (3 * g + k) % 3 == k;
    assert 3 * g + k < 6 * |vs| / 8 <==> 4 * g + k + 1 < |vs|;
  }

  lemma AllGroupBytes(vs: seq<Sextet>, g: nat)
    requires 4 * g < |vs|
    ensures var ce := GroupOfSextets(vs, g);
      GroupOfBytes(Bytes(vs), g) ==
        Triple(if 4 * g + 1 < |vs| then ByteAt(ce, 0) else 0,
               if 4 * g + 2 < |vs| then ByteAt(ce, 1) else 0,
               if 4 * g + 3 < |vs| then ByteAt(ce, 2) else 0)
  {
    hide ByteAt, Triple, GroupOfSextets, Bytes, At;
    GroupBytes(vs, g, 0);
    GroupBytes(vs, g, 1);
    GroupBytes(vs, g, 2);
  }

  lemma GroupBack(vs: seq<Sextet>, g: nat)
    requires 4 * g < |vs|
    ensures
      var p, q := SextetOf(vs, 4 * g), SextetOf(vs, 4 * g + 1);
      var r, s := SextetOf(vs, 4 * g + 2), SextetOf(vs, 4 * g + 3);
      GroupOfBytes(Bytes(vs), g) ==
        (if |vs| == 4 * g + 1 then Quad(0, 0, 0, 0)
         else if |vs| == 4 * g + 2 then Quad(p, Trim(q, 16), 0, 0)
         else if |vs| == 4 * g + 3 then Quad(p, q, Trim(r, 4), 0)
         else Quad(p, q, r, s))
  {
    hide ByteAt, Triple, Quad, Bytes, Trim, GroupOfBytes, SextetOf;
    AllGroupBytes(vs, g);
    Nothing();
    Truncated(SextetOf(vs, 4 * g), SextetOf(vs, 4 * g + 1), SextetOf(vs, 4 * g + 2), SextetOf(vs, 4 * g + 3));
  }

  lemma Nothing()
    ensures Triple(0, 0, 0) == Quad(0, 0, 0, 0)
  {
  }

  lemma SextetBackAt(vs: seq<Sextet>, g: nat, k: nat)
    requires k < 4 && 4 * g + k < |vs|
    ensures SextetAt(GroupOfBytes(Bytes(vs), g), k) == Kept(vs, 4 * g + k)
  {
    hide SextetAt, Quad, GroupOfBytes, Bytes, Trim;
    var p, q, r, s := SextetOf(vs, 4 * g), SextetOf(vs, 4 * g + 1), SextetOf(vs, 4 * g + 2), SextetOf(vs, 4 * g + 3);
    GroupBack(vs, g);
    LastPlace(|vs|, g);
    if |vs| == 4 * g + 1 {
      SplitQuad(0, 0, 0, 0);
    } else if |vs| == 4 * g + 2 {
      SplitQuad(p, Trim(q, 16), 0, 0);
    } else if |vs| == 4 * g + 3 {
      SplitQuad(p, q, Trim(r, 4), 0);
    } else {
      SplitQuad(p, q, r, s);
    }
  }

  /** Every character comes back, the last one without its loose bits. */
  lemma SextetBack(vs: seq<Sextet>, i: nat)
    requires i < |vs|
    ensures SextetAt(GroupOfBytes(Bytes(vs), i / 4), i % 4) == Kept(vs, i)
  {
    hide SextetAt, GroupOfBytes, Bytes, Kept;
    SextetBackAt(vs, i / 4, i % 4);
  }

  lemma LastPlace(n: nat, g: nat)
    ensures n == 4 * g + 1 ==> n % 4 == 1
    ensures n == 4 * g + 2 ==> n % 4 == 2
    ensures n == 4 * g + 3 ==> n % 4 == 3
    ensures n == 4 * g + 4 ==> n % 4 == 0
  {
  }

  /** Encoding the whole bytes of a readable text gives the text back if and only if its last
      character has no bits that no byte takes. */
  lemma EncodeDecode(text: seq<Byte>)
    requires Readable(text)
    ensures Encoded(Bytes(Values(text)), |text|) == text <==> Canonical(Values(text))
  {
    hide Bytes, SextetAt, GroupOfBytes, Char, ValueOf, Trim;
    var vs := Values(text);
    var t := Encoded(Bytes(vs), |text|);
    forall i: nat | i < |text|
      ensures t[i] == text[i] <==> Kept(vs, i) == vs[i]
    {
      SextetBack(vs, i);
      Alphabet(Sextets(Bytes(vs), |text|)[i], text[i]);
      Alphabet(vs[i], text[i]);
    }
    if !Canonical(vs) {
      assert t[|text| - 1] != text[|text| - 1];
    }
  }

  // ----- short names -----

  function As(m: nat): seq<Byte> {
    seq(m, (i: nat) => Char(0))
  }

  function Zeros(n: nat): seq<Byte> {
    seq(n, (i: nat) => 0)
  }

  /** A name has the same groups as the name with any number of A behind it, and behind the name all
      groups are zero. */
  lemma PaddingIsA(text: seq<Byte>, m: nat, g: nat)
    requires Readable(text)
    ensures Readable(text + As(m))
    ensures GroupOfSextets(Values(text + As(m)), g) == GroupOfSextets(Values(text), g)
    ensures 4 * g >= |text| ==> GroupOfSextets(Values(text), g) == 0
  {
    hide Quad, Char, ValueOf;
    Alphabet(0, 0);
    ZeroQuad();
    forall k: nat
      ensures SextetOf(Values(text + As(m)), k) == SextetOf(Values(text), k)
    {
    }
  }

  lemma Behind(n: nat, g: nat)
    ensures g < (n + 3) / 4 <==> 4 * g < n
  {
  }

  lemma ZeroQuad()
    ensures Quad(0, 0, 0, 0) == 0
  {
  }

  lemma ZeroBytes(k: nat)
    requires k < 3
    ensures ByteAt(0, k) == 0
  {
  }

  // ----- the two routines -----

  /** How many bytes the first g groups take of n. */
  function TakenBy(n: nat, g: nat): nat {
    if 3 * g < n then 3 * g else n
  }

  lemma GroupOf(i: nat)
    ensures i % 4 == 0 ==> (i + 3) / 4 == i / 4
    ensures (i + 4) / 4 == i / 4 + 1
    ensures i % 4 != 0 ==> (i + 3) / 4 == i / 4 + 1
    ensures (i + 1) % 4 != 0 ==> (i + 1) / 4 == i / 4
  {
  }

  /** isi_text_enc */
  method TextEnc(text: array<Byte>, limit: nat, x: seq<Byte>)
    requires limit < text.Length
    modifies text
    ensures text[..limit] == Encoded(x, limit) && text[limit] == 0
    ensures text[limit + 1..] == old(text[limit + 1..])
  {
    hide SextetAt, Char, GroupOfBytes, TakenBy;
    var ce, s := 0, 0;
    NothingTaken(|x|);
    for i := 0 to limit
      invariant s == TakenBy(|x|, (i + 3) / 4)
      invariant i % 4 != 0 ==> ce == GroupOfBytes(x, i / 4)
      invariant text[..i] == Encoded(x, limit)[..i]
      invariant text[limit + 1..] == old(text[limit + 1..])
    {
      GroupOf(i);
      if i % 4 == 0 {
        ce, s := TakeThree(x, s, i / 4);
      }
      text[i] := Char(SextetAt(ce, i % 4));
      assert text[..i + 1] == text[..i] + [Encoded(x, limit)[i]];
    }
    text[limit] := 0;
  }

  lemma NothingTaken(n: nat)
    ensures TakenBy(n, 0) == 0
  {
  }

  method TakeThree(x: seq<Byte>, start: nat, g: nat) returns (ce: nat, s: nat)
    requires start == TakenBy(|x|, g)
    ensures ce == GroupOfBytes(x, g) && s == TakenBy(|x|, g + 1)
  {
    ce, s := 0, start;
    if s < |x| {
      ce := ce + 65536 * (x[s] as int);
      s := s + 1;
    }
    if s < |x| {
      ce := ce + 256 * (x[s] as int);
      s := s + 1;
    }
    if s < |x| {
      ce := ce + (x[s] as int);
      s := s + 1;
    }
  }

  function ValueOrZero(c: Byte): Sextet {
    if ValueOf(c).Some? then ValueOf(c).value else 0
  }

  /** What the accumulator holds after i characters: those of the group begun. */
  function Begun(vs: seq<Sextet>, i: nat): nat {
    match i % 4
    case 0 => 0
    case 1 => SextetOf(vs, i - 1)
    case 2 => SextetOf(vs, i - 2) * 64 + SextetOf(vs, i - 1)
    case _ => SextetOf(vs, i - 3) * 4096 + SextetOf(vs, i - 2) * 64 + SextetOf(vs, i - 1)
  }

  lemma BeginMore(vs: seq<Sextet>, i: nat)
    ensures Begun(vs, i) * 64 + SextetOf(vs, i) ==
      if i % 4 == 3 then GroupOfSextets(vs, i / 4) else Begun(vs, i + 1)
  {
    hide SextetOf;
    var k := i % 4;
    assert i == 4 * (i / 4) + k;
    assert k == 3 || (i + 1) % 4 == k + 1;
  }

  predicate PartlyDecoded(vs: seq<Sextet>, before: seq<Byte>, after: seq<Byte>, groups: nat) {
    |after| == |before| &&
    forall k | 0 <= k < |before| :: after[k] == if k / 3 < groups then DecodedByte(vs, k) else before[k]
  }

  /** The three stores at the end of a group. */
  method StoreGroup(out: array<Byte>, olen: nat, s: nat, ce: nat, ghost vs: seq<Sextet>, ghost before: seq<Byte>)
    requires olen <= out.Length && s % 3 == 0 && ce == GroupOfSextets(vs, s / 3)
    requires PartlyDecoded(vs, before, out[..olen], s / 3)
    modifies out
    ensures PartlyDecoded(vs, before, out[..olen], s / 3 + 1) && out[olen..] == old(out[olen..])
  {
    hide ByteAt, GroupOfSextets;
    ghost var start := out[..olen];
    if s < olen {
      out[s] := ByteAt(ce, 0);
    }
    if s + 1 < olen {
      out[s + 1] := ByteAt(ce, 1);
    }
    if s + 2 < olen {
      out[s + 2] := ByteAt(ce, 2);
    }
    assert forall k | 0 <= k < olen :: out[k] == if s <= k < s + 3 then ByteAt(ce, k - s) else start[k];
  }

  /** isi_text_dec */
  method TextDec(text: seq<Byte>, length: nat, limit: nat, out: array<Byte>, olen: nat) returns (r: int)
    requires length <= |text| && olen <= out.Length
    modifies out
    ensures var n := if length > limit then limit else length;
      r == (if Readable(text[..n]) then 0 else -1) &&
      (Readable(text[..n]) ==> out[..olen] == Decoded(Values(text[..n]), old(out[..olen])))
    ensures out[olen..] == old(out[olen..])
  {
    hide ValueOf, GroupOfSextets, DecodedByte, Begun;
    var len := if length > limit then limit else length;
    ghost var vs: seq<Sextet> := seq(len, (k: nat) requires k < len => ValueOrZero(text[k]));
    ghost var before := out[..olen];
    var i: nat, s: nat, ce: nat := 0, 0, 0;
    NothingBegun(vs);
    while i < len
      invariant s == 3 * (i / 4) && (i > len ==> i % 4 == 0 && i < len + 4)
      invariant i <= len ==> ce == Begun(vs, i)
      invariant forall k | 0 <= k < i && k < len :: ValueOf(text[k]).Some?
      invariant PartlyDecoded(vs, before, out[..olen], i / 4) && out[olen..] == old(out[olen..])
      invariant i == len ==> i % 4 == 0
      decreases len - i
    {
      var v := ValueOf(text[i]);
      if v.None? {
        assert ValueOf(text[..len][i]).None?;
        return -1;
      }
      BeginMore(vs, i);
      ce := ce * 64 + (v.value as int);
      if i + 1 == len {
        ce, i := FillGroup(ce, i, vs);
      }
      if i % 4 == 3 {
        StoreGroup(out, olen, s, ce, vs, before);
        s := s + 3;
        ce := 0;
        NothingBegunAt(vs, i + 1);
      }
      i := i + 1;
    }
    assert Values(text[..len]) == vs;
    assert (i + 3) / 4 == i / 4;
    return 0;
  }

  lemma NothingBegun(vs: seq<Sextet>)
    ensures Begun(vs, 0) == 0
  {
  }

  lemma NothingBegunAt(vs: seq<Sextet>, i: nat)
    requires i % 4 == 0
    ensures Begun(vs, i) == 0
  {
  }

  /** The padding loop: a group that the text does not fill is filled with zeros. */
  method FillGroup(start: nat, at: nat, ghost vs: seq<Sextet>) returns (ce: nat, i: nat)
    requires at + 1 == |vs|
    requires start == if at % 4 == 3 then GroupOfSextets(vs, at / 4) else Begun(vs, at + 1)
    ensures at <= i < at + 4 && i % 4 == 3 && i / 4 == at / 4 && ce == GroupOfSextets(vs, i / 4)
  {
    hide Begun, GroupOfSextets;
    ce, i := start, at;
    while i % 4 != 3
      invariant at <= i < at + 4 && i / 4 == at / 4
      invariant ce == if i % 4 == 3 then GroupOfSextets(vs, i / 4) else Begun(vs, i + 1)
      decreases 4 - i % 4
    {
      BeginMore(vs, i + 1);
      ce := ce * 64;
      i := i + 1;
    }
  }

  /** A name and the same name with m times A behind it, both decoded into zeroed buffers: both are
      rejected or both give the same bytes. */
  method DecodeShort(name: seq<Byte>, m: nat, olen: nat)
    returns (ok: bool, ok': bool, plain: seq<Byte>, padded: seq<Byte>)
    ensures ok <==> Readable(name)
    ensures ok' == ok && |plain| == olen && (ok ==> plain == padded)
  {
    hide ByteAt, GroupOfSextets, ValueOf, Char;
    var a, b := new Byte[olen](i => 0), new Byte[olen](i => 0);
    var longer := name + As(m);
    assert name[..|name|] == name && longer[..|longer|] == longer;
    var r := TextDec(name, |name|, |name|, a, olen);
    var r' := TextDec(longer, |longer|, |longer|, b, olen);
    ok, ok', plain, padded := r == 0, r' == 0, a[..], b[..];
    if Readable(name) {
      PaddingIsA(name, m, 0);
      forall k: nat | k < olen
        ensures plain[k] == padded[k]
      {
        PaddingIsA(name, m, k / 3);
        ZeroBytes(k % 3);
        Behind(|name|, k / 3);
      }
    } else {
      ghost var i :| 0 <= i < |name| && ValueOf(name[i]).None?;
      assert ValueOf(longer[i]).None?;
    }
  }

  // ----- the text itself -----

  /** The alphabet in characters: A to Z, a to z, 0 to 9, - and _, in this order. */
  lemma AlphabetInOrder(v: Sextet)
    ensures v < 26 ==> Char(v) == 'A' as int + v
    ensures 26 <= v < 52 ==> Char(v) == 'a' as int + v - 26
    ensures 52 <= v < 62 ==> Char(v) == '0' as int + v - 52
    ensures v == 62 ==> Char(v) == '-' as int
    ensures v == 63 ==> Char(v) == '_' as int
  {
  }

  /** Three bytes as four sextets, the highest bits first: "foo" is "Zm9v", "fo" is "Zm8" and "f" is "Zg",
      as in section 10 of RFC 4648. */
  lemma FirstBitsFirst()
    ensures Quad(25, 38, 61, 47) == Triple(102, 111, 111)
    ensures Quad(25, 38, 60, 0) == Triple(102, 111, 0)
    ensures Quad(25, 32, 0, 0) == Triple(102, 0, 0)
    ensures [Char(25), Char(38), Char(61), Char(47)] == [90, 109, 57, 118]
    ensures [Char(60), Char(32)] == [56, 103]
  {
  }

  /** The characters of a group, by the numbers its bytes make. */
  lemma CharactersOf(x: seq<Byte>, limit: nat, i: nat, p: Sextet, q: Sextet, r: Sextet, s: Sextet)
    requires i < limit && GroupOfBytes(x, i / 4) == Quad(p, q, r, s)
    ensures Encoded(x, limit)[i] == Char([p, q, r, s][i % 4])
  {
    hide Quad, SextetAt, Char, GroupOfBytes;
    SplitQuad(p, q, r, s);
    assert i % 4 in {0, 1, 2, 3};
  }

  /** Three letters. */
  lemma Foo()
    ensures Encoded([102, 111, 111], 4) == [90, 109, 57, 118]
  {
    var x: seq<Byte> := [102, 111, 111];
    FirstBitsFirst();
    assert GroupOfBytes(x, 0) == Quad(25, 38, 61, 47);
    hide GroupOfBytes, Quad, Char;
    forall i: nat | i < 4
      ensures Encoded(x, 4)[i] == [90, 109, 57, 118][i]
    {
      assert i / 4 == 0 && i % 4 == i;
      CharactersOf(x, 4, i, 25, 38, 61, 47);
      assert i in {0, 1, 2, 3};
    }
  }
}
