/** The token encoder, and a decoder for section 5 of RFC 4648 without padding.
  *
  * Shifts and masks of the program are divisions and remainders here: the parts joined by `|` do
  * not overlap.
  */
module Base64Url {
  import opened Machine
  import opened Text

  type Sextet = v: nat | v < 64

  const ALPHABET := "ABCDEFGHIJKLMNOPQRSTUVWXYZ" + "abcdefghijklmnopqrstuvwxyz" + "0123456789" + "-_"

  // --- the encoder -----------------------------------------------------------

  // Three bytes as one number.
  function Joined(b0: Byte, b1: Byte, b2: Byte): (n: nat)
    ensures n < 0x100_0000
  {
    b0 * 0x1_0000 + b1 * 0x100 + b2
  }

  // The `k`-th of its four sextets.
  function SextetOf(n: nat, k: nat): Sextet
    requires k < 4
  {
    (match k case 0 => n / 0x4_0000 case 1 => n / 0x1000 case 2 => n / 0x40 case _ => n) % 64
  }

  // Why sums, quotients and remainders stand for `|`, `>>` and `&` here.
  lemma BitsAsArithmetic(b0: bv32, b1: bv32, b2: bv32, n: bv32)
    requires b0 < 256 && b1 < 256 && b2 < 256
    ensures (b0 << 16) | (b1 << 8) | b2 == b0 * 0x1_0000 + b1 * 0x100 + b2
    ensures (n >> 18) & 63 == n / 0x4_0000 % 64 && (n >> 12) & 63 == n / 0x1000 % 64
    ensures (n >> 6) & 63 == n / 0x40 % 64 && n & 63 == n % 64
  {
  }

  function Letter(v: Sextet): char {
    ALPHABET[v]
  }

  function Letters(n: nat, count: nat): (s: string)
    requires count <= 4
    ensures |s| == count
  {
    seq(count, k requires 0 <= k < count => Letter(SextetOf(n, k)))
  }

  // A chunk is three bytes, or what is left.
  function ChunkSize(bytes: seq<Byte>): nat {
    if |bytes| < 3 then |bytes| else 3
  }

  // `chunk.get(k).copied().unwrap_or(0)`
  function ByteAt(chunk: seq<Byte>, k: nat): Byte {
    if k < |chunk| then chunk[k] else 0
  }

  function ChunkText(chunk: seq<Byte>): string
    requires 1 <= |chunk| <= 3
  {
    Letters(Joined(ByteAt(chunk, 0), ByteAt(chunk, 1), ByteAt(chunk, 2)), |chunk| + 1)
  }

  function Encode(bytes: seq<Byte>): string
    decreases |bytes|
  {
    if bytes == [] then "" else
    var size := ChunkSize(bytes);
    ChunkText(bytes[..size]) + Encode(bytes[size..])
  }

  method EncodeBytes(bytes: seq<Byte>) returns (out: string)
    ensures out == Encode(bytes)
    ensures Decode(out) == Some(bytes)
  {
    hide SextetOf, Joined, Decode, Letter, ChunkText;
    out := "";
    var i := 0;
    while i < |bytes|
      invariant 0 <= i <= |bytes|
      invariant out + Encode(bytes[i..]) == Encode(bytes)
    {
      ghost var before, rest := out, bytes[i..];
      var chunk := bytes[i..i + ChunkSize(bytes[i..])];
      var n := Joined(chunk[0], ByteAt(chunk, 1), ByteAt(chunk, 2));
      out := out + [Letter(SextetOf(n, 0))];
      out := out + [Letter(SextetOf(n, 1))];
      if |chunk| > 1 {
        out := out + [Letter(SextetOf(n, 2))];
      }
      if |chunk| > 2 {
        out := out + [Letter(SextetOf(n, 3))];
      }
      assert out == before + ChunkText(chunk) by { ChunkTextIs(chunk, n); }
      assert chunk == rest[..ChunkSize(rest)];
      i := i + |chunk|;
      assert rest[|chunk|..] == bytes[i..];
    }
    RoundTrip(bytes);
  }

  lemma ChunkTextIs(chunk: seq<Byte>, n: nat)
    requires 1 <= |chunk| <= 3 && n == Joined(chunk[0], ByteAt(chunk, 1), ByteAt(chunk, 2))
    ensures ChunkText(chunk) == [Letter(SextetOf(n, 0)), Letter(SextetOf(n, 1))]
            + (if |chunk| > 1 then [Letter(SextetOf(n, 2))] else [])
            + (if |chunk| > 2 then [Letter(SextetOf(n, 3))] else [])
  {
    hide Letter, SextetOf, Joined;
  }

  // --- the decoder -----------------------------------------------------------

  // The value of a letter, after table 2 of RFC 4648.
  function Value(c: char): (v: Option<Sextet>) {
    if 'A' <= c <= 'Z' then Some(c as int - 'A' as int)
    else if 'a' <= c <= 'z' then Some(c as int - 'a' as int + 26)
    else if '0' <= c <= '9' then Some(c as int - '0' as int + 52)
    else if c == '-' then Some(62)
    else if c == '_' then Some(63)
    else None
  }

  // Four sextets as one number.
  function JoinedSextets(v0: Sextet, v1: Sextet, v2: Sextet, v3: Sextet): (n: nat)
    ensures n < 0x100_0000
  {
    v0 * 0x4_0000 + v1 * 0x1000 + v2 * 0x40 + v3
  }

  // The first `count` of its three bytes.
  function BytesOf(n: nat, count: nat): seq<Byte>
    requires n < 0x100_0000 && count <= 3
  {
    [n / 0x1_0000, n / 0x100 % 0x100, n % 0x100][..count]
  }

  // The values of up to four letters; missing ones are zero, bad ones nothing.
  function Quad(s: string): (r: Option<nat>)
    requires |s| <= 4
    ensures r.Some? ==> r.value < 0x100_0000
  {
    if exists c <- s :: Value(c).None? then None else
    Some(JoinedSextets(ValueAt(s, 0), ValueAt(s, 1), ValueAt(s, 2), ValueAt(s, 3)))
  }

  function ValueAt(s: string, k: nat): Sextet {
    if k < |s| && Value(s[k]).Some? then Value(s[k]).value else 0
  }

  // One group of two to four letters; the bits that belong to no byte must be zero.
  function DecodeGroup(s: string): Option<seq<Byte>>
    requires 2 <= |s| <= 4
  {
    var n := Quad(s);
    if n.None? then None
    else if |s| == 2 && n.value % 0x1_0000 != 0 then None
    else if |s| == 3 && n.value % 0x100 != 0 then None
    else Some(BytesOf(n.value, |s| - 1))
  }

  function Decode(s: string): Option<seq<Byte>>
    decreases |s|
  {
    if s == "" then Some([])
    else if |s| == 1 then None
    else if |s| < 4 then DecodeGroup(s)
    else match DecodeGroup(s[..4])
      case None => None
      case Some(group) =>
        match Decode(s[4..]) case None => None case Some(more) => Some(group + more)
  }

  // --- the alphabet ----------------------------------------------------------

  lemma UpperAt(v: Sextet)
    requires v < 26
    ensures Letter(v) as int == 'A' as int + v
  {
  }

  lemma LowerAt(v: Sextet)
    requires 26 <= v < 52
    ensures Letter(v) as int == 'a' as int + v - 26
  {
  }

  lemma DigitAt(v: Sextet)
    requires 52 <= v < 62
    ensures Letter(v) as int == '0' as int + v - 52
  {
  }

  lemma AlphabetIsTable(v: Sextet)
    ensures Value(Letter(v)) == Some(v)
  {
    assert v == 62 ==> Letter(v) == '-';
    assert v == 63 ==> Letter(v) == '_';
    hide Letter;
    if v < 26 { UpperAt(v); } else if v < 52 { LowerAt(v); } else if v < 62 { DigitAt(v); }
  }

  lemma TableIsAlphabet(c: char)
    requires Value(c).Some?
    ensures Letter(Value(c).value) == c
  {
    var v := Value(c).value;
    assert Letter(62) == '-' && Letter(63) == '_';
    hide Letter;
    if v < 26 { UpperAt(v); } else if v < 52 { LowerAt(v); } else if v < 62 { DigitAt(v); }
  }

  lemma {:induction false} EncodedIsInAlphabet(bytes: seq<Byte>)
    ensures forall c <- Encode(bytes) :: c in ALPHABET
    decreases |bytes|
  {
    if bytes != [] {
      LettersInAlphabet(bytes[..ChunkSize(bytes)]);
      hide ChunkText;
      EncodedIsInAlphabet(bytes[ChunkSize(bytes)..]);
    }
  }

  lemma LettersInAlphabet(chunk: seq<Byte>)
    requires 1 <= |chunk| <= 3
    ensures forall c <- ChunkText(chunk) :: c in ALPHABET
  {
    hide SextetOf, Joined;
  }

  lemma {:induction false} EncodedLength(bytes: seq<Byte>)
    ensures |Encode(bytes)| == 4 * (|bytes| / 3) + (match |bytes| % 3 case 0 => 0 case 1 => 2 case _ => 3)
    decreases |bytes|
  {
    hide SextetOf, Joined, Letter;
    if bytes != [] {
      EncodedLength(bytes[ChunkSize(bytes)..]);
    }
  }

  // --- one group -------------------------------------------------------------

  lemma SextetsRejoin(n: nat)
    requires n < 0x100_0000
    ensures JoinedSextets(SextetOf(n, 0), SextetOf(n, 1), SextetOf(n, 2), SextetOf(n, 3)) == n
  {
    assert n / 0x1000 / 64 == n / 0x4_0000;
    assert n / 0x40 / 64 == n / 0x1000;
  }

  lemma JoinedSplits(v0: Sextet, v1: Sextet, v2: Sextet, v3: Sextet)
    ensures var n := JoinedSextets(v0, v1, v2, v3);
            SextetOf(n, 0) == v0 && SextetOf(n, 1) == v1 && SextetOf(n, 2) == v2 && SextetOf(n, 3) == v3
  {
    var n := JoinedSextets(v0, v1, v2, v3);
    assert n / 0x40 == v0 * 0x1000 + v1 * 0x40 + v2;
    assert n / 0x1000 == v0 * 0x40 + v1;
    assert n / 0x4_0000 == v0;
  }

  lemma BytesRejoin(n: nat)
    requires n < 0x100_0000
    ensures Joined(n / 0x1_0000, n / 0x100 % 0x100, n % 0x100) == n
  {
    assert n / 0x100 / 0x100 == n / 0x1_0000;
  }

  lemma JoinedBytes(b0: Byte, b1: Byte, b2: Byte)
    ensures BytesOf(Joined(b0, b1, b2), 3) == [b0, b1, b2]
  {
    var n := Joined(b0, b1, b2);
    assert n / 0x100 == b0 * 0x100 + b1;
    assert n / 0x1_0000 == b0;
  }

  lemma TrailingZeros(b0: Byte, b1: Byte)
    ensures SextetOf(Joined(b0, 0, 0), 2) == 0 && SextetOf(Joined(b0, 0, 0), 3) == 0
    ensures SextetOf(Joined(b0, b1, 0), 3) == 0
  {
    hide SextetOf;
    JoinedSplits(b0 / 4, b0 % 4 * 16, 0, 0);
    JoinedSplits(b0 / 4, b0 % 4 * 16 + b1 / 16, b1 % 16 * 4, 0);
    assert Joined(b0, 0, 0) == JoinedSextets(b0 / 4, b0 % 4 * 16, 0, 0);
    assert Joined(b0, b1, 0) == JoinedSextets(b0 / 4, b0 % 4 * 16 + b1 / 16, b1 % 16 * 4, 0);
  }

  lemma LettersQuad(n: nat, count: nat)
    requires n < 0x100_0000 && 2 <= count <= 4
    requires forall k: nat :: count <= k < 4 ==> SextetOf(n, k) == 0
    ensures Quad(Letters(n, count)) == Some(n)
  {
    SextetsRejoin(n);
    var s := Letters(n, count);
    hide SextetOf, Value, JoinedSextets, Letter;
    forall k: nat | k < count ensures Value(s[k]) == Some(SextetOf(n, k)) {
      AlphabetIsTable(SextetOf(n, k));
    }
    assert forall c <- s :: Value(c).Some?;
    assert ValueAt(s, 0) == SextetOf(n, 0) && ValueAt(s, 1) == SextetOf(n, 1);
    assert ValueAt(s, 2) == SextetOf(n, 2) && ValueAt(s, 3) == SextetOf(n, 3);
  }

  function ChunkNumber(chunk: seq<Byte>): (n: nat)
    ensures n < 0x100_0000
  {
    Joined(ByteAt(chunk, 0), ByteAt(chunk, 1), ByteAt(chunk, 2))
  }

  lemma ZerosAfter(chunk: seq<Byte>)
    requires 1 <= |chunk| <= 3
    ensures forall k: nat :: |chunk| < k < 4 ==> SextetOf(ChunkNumber(chunk), k) == 0
    ensures |chunk| == 1 ==> ChunkNumber(chunk) % 0x1_0000 == 0
    ensures |chunk| == 2 ==> ChunkNumber(chunk) % 0x100 == 0
  {
    hide SextetOf, Joined;
    TrailingZeros(ByteAt(chunk, 0), ByteAt(chunk, 1));
    JoinedRest(ByteAt(chunk, 0), ByteAt(chunk, 1));
  }

  lemma JoinedRest(b0: Byte, b1: Byte)
    ensures Joined(b0, 0, 0) % 0x1_0000 == 0 && Joined(b0, b1, 0) % 0x100 == 0
  {
    assert Joined(b0, 0, 0) == 0x1_0000 * b0;
    assert Joined(b0, b1, 0) == 0x100 * (b0 * 0x100 + b1);
    MultipleOf0x100(b0 * 0x100 + b1);
    MultipleOf0x10000(b0);
    hide Joined;
  }

  lemma MultipleOf0x100(x: nat)
    ensures 0x100 * x % 0x100 == 0
  {
  }

  lemma MultipleOf0x10000(x: nat)
    ensures 0x1_0000 * x % 0x1_0000 == 0
  {
  }

  lemma NumberBytes(chunk: seq<Byte>)
    requires 1 <= |chunk| <= 3
    ensures BytesOf(ChunkNumber(chunk), |chunk|) == chunk
  {
    var (b0, b1, b2) := (ByteAt(chunk, 0), ByteAt(chunk, 1), ByteAt(chunk, 2));
    JoinedBytes(b0, b1, b2);
    var n := ChunkNumber(chunk);
    assert BytesOf(n, |chunk|) == BytesOf(n, 3)[..|chunk|];
    hide BytesOf, Joined;
    assert chunk == [b0, b1, b2][..|chunk|];
  }

  lemma BytesNumber(n: nat, size: nat)
    requires n < 0x100_0000 && 1 <= size <= 3
    requires (size == 1 ==> n % 0x1_0000 == 0) && (size == 2 ==> n % 0x100 == 0)
    ensures ChunkNumber(BytesOf(n, size)) == n
  {
    BytesRejoin(n);
    var chunk := BytesOf(n, size);
    assert ByteAt(chunk, 0) == n / 0x1_0000;
    assert ByteAt(chunk, 1) == n / 0x100 % 0x100;
    assert ByteAt(chunk, 2) == n % 0x100;
  }

  // A chunk decodes from its letters.
  lemma GroupReads(chunk: seq<Byte>)
    requires 1 <= |chunk| <= 3
    ensures |ChunkText(chunk)| == |chunk| + 1 && DecodeGroup(ChunkText(chunk)) == Some(chunk)
  {
    hide SextetOf, Letters, Quad, BytesOf, ChunkNumber, ChunkText, ByteAt;
    ZerosAfter(chunk);
    NumberBytes(chunk);
    ChunkTextOf(chunk);
    LettersQuad(ChunkNumber(chunk), |chunk| + 1);
  }

  lemma ChunkTextOf(chunk: seq<Byte>)
    requires 1 <= |chunk| <= 3
    ensures ChunkText(chunk) == Letters(ChunkNumber(chunk), |chunk| + 1)
  {
  }

  /** Every byte sequence decodes from its encoding. */
  lemma {:induction false} RoundTrip(bytes: seq<Byte>)
    ensures Decode(Encode(bytes)) == Some(bytes)
    decreases |bytes|
  {
    hide DecodeGroup, ChunkText;
    if bytes != [] {
      var size := ChunkSize(bytes);
      var chunk, rest := bytes[..size], bytes[size..];
      var group, more := ChunkText(chunk), Encode(rest);
      GroupReads(chunk);
      assert bytes == chunk + rest;
      if size == 3 {
        RoundTrip(rest);
        assert (group + more)[..4] == group && (group + more)[4..] == more;
      } else {
        assert rest == [] && group + more == group && chunk == bytes;
      }
    }
  }

  lemma {:induction false} EncodeIsInjective(a: seq<Byte>, b: seq<Byte>)
    requires Encode(a) == Encode(b)
    ensures a == b
  {
    RoundTrip(a);
    RoundTrip(b);
  }

  // --- and back --------------------------------------------------------------

  lemma QuadLetters(s: string)
    requires 2 <= |s| <= 4 && Quad(s).Some?
    ensures s == Letters(Quad(s).value, |s|)
  {
    var n := Quad(s).value;
    JoinedSplits(ValueAt(s, 0), ValueAt(s, 1), ValueAt(s, 2), ValueAt(s, 3));
    hide SextetOf, Value, JoinedSextets, Letter;
    forall k: nat | k < |s| ensures s[k] == Letter(SextetOf(n, k)) {
      assert Value(s[k]).Some?;
      TableIsAlphabet(s[k]);
      assert ValueAt(s, k) == Value(s[k]).value;
      assert k == 0 || k == 1 || k == 2 || k == 3;
    }
  }

  lemma GroupPrints(s: string)
    requires 2 <= |s| <= 4 && DecodeGroup(s).Some?
    ensures |DecodeGroup(s).value| == |s| - 1 && Encode(DecodeGroup(s).value) == s
  {
    var n := Quad(s).value;
    var chunk := BytesOf(n, |s| - 1);
    QuadLetters(s);
    BytesNumber(n, |s| - 1);
    ChunkTextOf(chunk);
    hide Quad, Letters, SextetOf, BytesOf, ChunkText, ChunkNumber;
    assert chunk[..|chunk|] == chunk && chunk[|chunk|..] == [];
  }

  /** The decoder accepts nothing else: what it reads encodes to just what was read. */
  lemma {:induction false} DecodedEncodesBack(s: string)
    requires Decode(s).Some?
    ensures Encode(Decode(s).value) == s
    decreases |s|
  {
    hide DecodeGroup, Encode;
    if s == "" {
      assert Encode([]) == "" by { EncodeNothing(); }
    } else if |s| < 4 {
      GroupPrints(s);
    } else {
      var group, more := DecodeGroup(s[..4]).value, Decode(s[4..]).value;
      GroupPrints(s[..4]);
      DecodedEncodesBack(s[4..]);
      EncodeAppends(group, more);
      assert s == s[..4] + s[4..];
    }
  }

  lemma EncodeAppends(group: seq<Byte>, more: seq<Byte>)
    requires |group| == 3
    ensures Encode(group + more) == Encode(group) + Encode(more)
  {
    hide ChunkText;
    assert (group + more)[3..] == more && group[3..] == [];
    assert (group + more)[..3] == group[..3];
  }

  lemma EncodeNothing()
    ensures Encode([]) == ""
  {
  }
}
