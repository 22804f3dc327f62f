/** The base64 encoding of section 4 of RFC 4648, as the image tool ships raster bytes. */
module Base64 {
  import opened Basics
  import opened Model

  /** Unicode white space, which trimming removes. */
  predicate IsSpace(c: char) {
    var n := c as int;
    9 <= n <= 13 || n in {0x20, 0x85, 0xA0, 0x1680, 0x2028, 0x2029, 0x202F, 0x205F, 0x3000} || 0x2000 <= n <= 0x200A
  }

  /** The letter of a six-bit value. */
  function Letter(d: nat): char
    requires d < 64
  {
    if d < 26 then ('A' as int + d) as char
    else if d < 52 then ('a' as int + d - 26) as char
    else if d < 62 then ('0' as int + d - 52) as char
    else if d == 62 then '+' else '/'
  }

  const PAD: Byte := 61

  /** The six bits of a letter's byte. */
  function Val(b: Byte): Result<nat, Byte> {
    if 65 <= b <= 90 then Ok(b - 65)
    else if 97 <= b <= 122 then Ok(b - 97 + 26)
    else if 48 <= b <= 57 then Ok(b - 48 + 52)
    else if b == 43 then Ok(62)
    else if b == 47 then Ok(63)
    else Err(b)
  }

  // ---- encoding ----

  /** The 24-bit group of up to three bytes, missing ones read as zero. */
  function Group(chunk: seq<Byte>): (n: nat)
    requires 1 <= |chunk| <= 3
    ensures n < 0x100_0000
  {
    var b0: int, b1: int, b2: int :=
      chunk[0], if |chunk| > 1 then chunk[1] else 0, if |chunk| > 2 then chunk[2] else 0;
    b0 * 0x1_0000 + b1 * 0x100 + b2
  }

  function EncodeChunk(chunk: seq<Byte>): (r: string)
    requires 1 <= |chunk| <= 3
    ensures |r| == 4
  {
    var n := Group(chunk);
    [Letter(n / 0x4_0000 % 64), Letter(n / 0x1000 % 64),
     if |chunk| > 1 then Letter(n / 64 % 64) else '=',
     if |chunk| > 2 then Letter(n % 64) else '=']
  }

  function ChunkLength(bytes: seq<Byte>): nat {
    if |bytes| < 3 then |bytes| else 3
  }

  function Encode(bytes: seq<Byte>): string {
    if bytes == [] then ""
    else EncodeChunk(bytes[..ChunkLength(bytes)]) + Encode(bytes[ChunkLength(bytes)..])
  }

  method EncodeBytes(bytes: seq<Byte>) returns (out: string)
    ensures out == Encode(bytes)
  {
    out := "";
    var rest := bytes;
    while rest != []
      invariant out + Encode(rest) == Encode(bytes)
      decreases |rest|
    {
      var k := ChunkLength(rest);
      out := out + EncodeChunk(rest[..k]);
      rest := rest[k..];
    }
  }

  // ---- decoding ----

  /** Leading and trailing white space removed. */
  function Trim(s: string): string {
    if s != "" && IsSpace(s[0]) then Trim(s[1..])
    else if s != "" && IsSpace(s[|s| - 1]) then Trim(s[..|s| - 1])
    else s
  }

  /** The UTF-8 bytes of a character. */
  function CharBytes(c: char): (r: seq<Byte>)
    ensures |r| > 0
  {
    var n := c as int;
    if n < 0x80 then [n]
    else if n < 0x800 then [0xC0 + n / 0x40, 0x80 + n % 0x40]
    else if n < 0x1_0000 then [0xE0 + n / 0x1000, 0x80 + n / 0x40 % 0x40, 0x80 + n % 0x40]
    else [0xF0 + n / 0x4_0000, 0x80 + n / 0x1000 % 0x40, 0x80 + n / 0x40 % 0x40, 0x80 + n % 0x40]
  }

  function Utf8(s: string): seq<Byte> {
    if s == "" then [] else CharBytes(s[0]) + Utf8(s[1..])
  }

  /** Shift the letters of a chunk into a number; a pad shifts in zero. */
  function Shifted(chunk: seq<Byte>): Result<nat, Byte> {
    if chunk == [] then Ok(0)
    else
      match Shifted(chunk[..|chunk| - 1])
      case Err(b) => Err(b)
      case Ok(n) =>
        var b := chunk[|chunk| - 1];
        if b == PAD then Ok(n * 64)
        else match Val(b) case Ok(d) => Ok(n * 64 + d) case Err(e) => Err(e)
  }

  function Pads(chunk: seq<Byte>): nat {
    if chunk == [] then 0 else Pads(chunk[..|chunk| - 1]) + if chunk[|chunk| - 1] == PAD then 1 else 0
  }

  /** The bytes of one group: three less the number of pads, but at least one. */
  function Bytes(n: nat, pad: nat): seq<Byte> {
    [n / 0x1_0000 % 256] + (if pad < 2 then [n / 0x100 % 256] else []) + (if pad < 1 then [n % 256] else [])
  }

  function DecodeChunks(s: seq<Byte>): Result<seq<Byte>, Byte>
    requires |s| % 4 == 0
  {
    if s == [] then Ok([])
    else
      match Shifted(s[..4])
      case Err(b) => Err(b)
      case Ok(n) => After(Bytes(n, Pads(s[..4])), DecodeChunks(s[4..]))
  }

  /** What decoding amounts to once the bytes `out` have been written. */
  function After(out: seq<Byte>, r: Result<seq<Byte>, Byte>): Result<seq<Byte>, Byte> {
    match r case Ok(b) => Ok(out + b) case Err(c) => Err(c)
  }

  lemma AfterNothing(r: Result<seq<Byte>, Byte>)
    ensures After([], r) == r
    ensures r.Ok? ==> After(r.value, Ok([])) == r
  {
    if r.Ok? {
      assert [] + r.value == r.value == r.value + [];
    }
  }

  lemma AfterMore(out: seq<Byte>, more: seq<Byte>, r: Result<seq<Byte>, Byte>)
    ensures After(out, After(more, r)) == After(out + more, r)
  {
    if r.Ok? {
      assert out + (more + r.value) == out + more + r.value;
    }
  }

  datatype DecodeError = BadLength | BadByte(b: Byte)

  function Decode(text: string): Result<seq<Byte>, DecodeError> {
    var s := Utf8(Trim(text));
    if |s| % 4 != 0 then Err(BadLength)
    else match DecodeChunks(s) case Ok(b) => Ok(b) case Err(b) => Err(BadByte(b))
  }

  method DecodeText(text: string) returns (r: Result<seq<Byte>, DecodeError>)
    ensures r == Decode(text)
  {
    var s := Utf8(Trim(text));
    if |s| % 4 != 0 {
      return Err(BadLength);
    }
    var out: seq<Byte> := [];
    var rest := s;
    AfterNothing(DecodeChunks(s));
    while rest != []
      invariant |rest| % 4 == 0
      invariant DecodeChunks(s) == After(out, DecodeChunks(rest))
      decreases |rest|
    {
      var chunk := rest[..4];
      var pad, n := 0, 0;
      for i := 0 to 4
        invariant pad == Pads(chunk[..i]) && Shifted(chunk[..i]) == Ok(n)
      {
        assert chunk[..i + 1][..i] == chunk[..i];
        if chunk[i] == PAD {
          pad, n := pad + 1, n * 64;
        } else {
          var d := Val(chunk[i]);
          if d.Err? {
            ShiftedFails(chunk, i);
            return Err(BadByte(d.error));
          }
          n := n * 64 + d.value;
        }
      }
      assert chunk[..4] == chunk;
      AfterMore(out, Bytes(n, pad), DecodeChunks(rest[4..]));
      out := out + Bytes(n, pad);
      rest := rest[4..];
    }
    AfterNothing(Ok(out));
    return Ok(out);
  }

  lemma {:induction false} ShiftedFails(chunk: seq<Byte>, i: nat)
    requires i < |chunk| && Shifted(chunk[..i]).Ok? && chunk[i] != PAD && Val(chunk[i]).Err?
    ensures Shifted(chunk) == Err(Val(chunk[i]).error)
  {
    if i == |chunk| - 1 {
    } else {
      var front := chunk[..|chunk| - 1];
      assert front[..i] == chunk[..i];
      ShiftedFails(front, i);
    }
  }

  // ---- text and bytes ----

  lemma {:induction false} Utf8Append(a: string, b: string)
    ensures Utf8(a + b) == Utf8(a) + Utf8(b)
  {
    hide CharBytes;
    if a == "" {
      assert a + b == b;
    } else {
      assert (a + b)[1..] == a[1..] + b;
      Utf8Append(a[1..], b);
    }
  }

  /** A text is its own bytes if every character is one of them. */
  predicate Ascii(s: string) {
    forall c <- s :: c as int < 0x80
  }

  lemma {:induction false} AsciiBytes(s: string)
    requires Ascii(s)
    ensures |Utf8(s)| == |s| && forall i :: 0 <= i < |s| ==> Utf8(s)[i] == s[i] as int
  {
    if s != "" {
      assert s[0] in s && forall c <- s[1..] :: c in s;
      AsciiBytes(s[1..]);
    }
  }

  predicate IsCode(b: Byte) {
    b == PAD || Val(b).Ok?
  }

  predicate IsCodeChar(c: char) {
    c as int < 0x80 && IsCode(c as int)
  }

  lemma CharIsCode(c: char)
    ensures (forall b <- CharBytes(c) :: IsCode(b)) <==> IsCodeChar(c)
  {
    assert CharBytes(c)[0] in CharBytes(c);
  }

  /** All bytes of a text are letters or pads exactly when all its characters are. */
  lemma {:induction false} TextIsCode(s: string)
    ensures (forall b <- Utf8(s) :: IsCode(b)) <==> (forall c <- s :: IsCodeChar(c))
    ensures (forall c <- s :: IsCodeChar(c)) ==> |Utf8(s)| == |s|
  {
    hide CharBytes, IsCode, IsCodeChar;
    if s != "" {
      var head, rest := CharBytes(s[0]), Utf8(s[1..]);
      TextIsCode(s[1..]);
      CharIsCode(s[0]);
      CodeCharLength(s[0]);
      assert forall b :: b in head + rest <==> b in head || b in rest;
      assert s == [s[0]] + s[1..];
      assert forall c :: c in s <==> c == s[0] || c in s[1..];
    }
  }

  lemma CodeCharLength(c: char)
    ensures IsCodeChar(c) ==> |CharBytes(c)| == 1
  {
  }

  // ---- properties ----

  lemma LetterValue(d: nat)
    requires d < 64
    ensures Letter(d) as int < 0x80 && Val(Letter(d) as int) == Ok(d) && Letter(d) != '=' && !IsSpace(Letter(d))
  {
  }

  /** One more letter or pad shifts in one more base-64 digit. */
  lemma ShiftOne(chunk: seq<Byte>, b: Byte, d: nat)
    requires Shifted(chunk).Ok? && (Val(b) == Ok(d) || (b == PAD && d == 0))
    ensures Shifted(chunk + [b]) == Ok(Shifted(chunk).value * 64 + d)
    ensures Pads(chunk + [b]) == Pads(chunk) + if b == PAD then 1 else 0
  {
    assert (chunk + [b])[..|chunk|] == chunk;
  }

  /** Four letters or pads shift in as base-64 digits. */
  lemma Shifted4(r: seq<Byte>, a: nat, b: nat, c: nat, d: nat)
    requires |r| == 4 && Val(r[0]) == Ok(a) && Val(r[1]) == Ok(b)
    requires Val(r[2]) == Ok(c) || (r[2] == PAD && c == 0)
    requires Val(r[3]) == Ok(d) || (r[3] == PAD && d == 0)
    ensures Shifted(r) == Ok(((a * 64 + b) * 64 + c) * 64 + d)
    ensures Pads(r) == (if r[2] == PAD then 1 else 0) + if r[3] == PAD then 1 else 0
  {
    assert r[0] != PAD && r[1] != PAD;
    assert Shifted([]) == Ok(0) && Pads([]) == 0;
    hide Shifted, Pads, Val;
    ShiftOne([], r[0], a);
    ShiftOne([] + [r[0]], r[1], b);
    ShiftOne([] + [r[0]] + [r[1]], r[2], c);
    ShiftOne([] + [r[0]] + [r[1]] + [r[2]], r[3], d);
    assert r == [] + [r[0]] + [r[1]] + [r[2]] + [r[3]];
  }

  /** The letters of a chunk, read back as six-bit digits, are the 24-bit group. */
  lemma ChunkRoundTrip(chunk: seq<Byte>)
    requires 1 <= |chunk| <= 3
    ensures Ascii(EncodeChunk(chunk)) && forall c <- EncodeChunk(chunk) :: !IsSpace(c)
    ensures |Utf8(EncodeChunk(chunk))| == 4 && Shifted(Utf8(EncodeChunk(chunk))) == Ok(Group(chunk))
    ensures Pads(Utf8(EncodeChunk(chunk))) == 3 - |chunk|
  {
    hide Letter, Shifted, Pads, Group, Val, IsSpace, Utf8;
    var n, r := Group(chunk), EncodeChunk(chunk);
    Digits(n);
    LowDigits(chunk);
    LetterValue(n / 0x4_0000 % 64);
    LetterValue(n / 0x1000 % 64);
    LetterValue(n / 64 % 64);
    LetterValue(n % 64);
    PadChar();
    AsciiBytes(r);
    var u := Utf8(r);
    assert u[0] == r[0] as int && u[1] == r[1] as int && u[2] == r[2] as int && u[3] == r[3] as int;
    Shifted4(u, n / 0x4_0000 % 64, n / 0x1000 % 64, n / 64 % 64, n % 64);
  }

  lemma PadChar()
    ensures !IsSpace('=') && '=' as int == PAD && Val(PAD).Err?
  {
  }

  lemma Digits(n: nat)
    requires n < 0x100_0000
    ensures ((n / 0x4_0000 % 64 * 64 + n / 0x1000 % 64) * 64 + n / 64 % 64) * 64 + n % 64 == n
  {
    var q1 := n / 64;
    var q2 := q1 / 64;
    var q3 := q2 / 64;
    assert n / 0x1000 == q2 && n / 0x4_0000 == q3;
  }

  /** A missing byte leaves the digits below it zero. */
  lemma LowDigits(chunk: seq<Byte>)
    requires 1 <= |chunk| <= 3
    ensures |chunk| < 3 ==> Group(chunk) % 64 == 0
    ensures |chunk| < 2 ==> Group(chunk) / 64 % 64 == 0
  {
    var b0: int := chunk[0];
    if |chunk| == 1 {
      assert Group(chunk) == 64 * (64 * (16 * b0));
    } else if |chunk| == 2 {
      var b1: int := chunk[1];
      assert Group(chunk) == 64 * (1024 * b0 + 4 * b1);
    }
  }

  lemma GroupBytes(chunk: seq<Byte>)
    requires 1 <= |chunk| <= 3
    ensures Bytes(Group(chunk), 3 - |chunk|) == chunk
  {
    var n := Group(chunk);
    assert n / 0x1_0000 % 256 == chunk[0];
    assert |chunk| > 1 ==> n / 0x100 % 256 == chunk[1];
    assert |chunk| > 2 ==> n % 256 == chunk[2];
  }

  lemma {:induction false} EncodedLength(bytes: seq<Byte>)
    ensures |Encode(bytes)| == 4 * ((|bytes| + 2) / 3)
  {
    hide EncodeChunk;
    if bytes != [] {
      EncodedLength(bytes[ChunkLength(bytes)..]);
    }
  }

  lemma DecodeStep(a: seq<Byte>, b: seq<Byte>)
    requires |a| == 4 && |b| % 4 == 0 && Shifted(a).Ok? && DecodeChunks(b).Ok?
    ensures |a + b| % 4 == 0
    ensures DecodeChunks(a + b) == Ok(Bytes(Shifted(a).value, Pads(a)) + DecodeChunks(b).value)
  {
    hide Shifted, Pads, Bytes;
    assert (a + b)[..4] == a && (a + b)[4..] == b;
  }

  lemma {:induction false} ChunksRoundTrip(bytes: seq<Byte>)
    ensures |Utf8(Encode(bytes))| % 4 == 0 && DecodeChunks(Utf8(Encode(bytes))) == Ok(bytes)
    ensures forall c <- Encode(bytes) :: !IsSpace(c)
  {
    if bytes != [] {
      hide EncodeChunk, Utf8, Shifted, Pads, Bytes, Group, IsSpace;
      var k := ChunkLength(bytes);
      var chunk, rest := bytes[..k], bytes[k..];
      hide *;
      EncodeStep(bytes);
      ChunkRoundTrip(chunk);
      GroupBytes(chunk);
      ChunksRoundTrip(rest);
      Utf8Append(EncodeChunk(chunk), Encode(rest));
      DecodeStep(Utf8(EncodeChunk(chunk)), Utf8(Encode(rest)));
      assert chunk + rest == bytes;
    }
  }

  lemma EncodeStep(bytes: seq<Byte>)
    requires bytes != []
    ensures Encode(bytes) == EncodeChunk(bytes[..ChunkLength(bytes)]) + Encode(bytes[ChunkLength(bytes)..])
  {
  }

  /** Decoding undoes encoding for every byte sequence, and the encoding takes four letters for every
      three bytes begun. */
  lemma RoundTrip(bytes: seq<Byte>)
    ensures Decode(Encode(bytes)) == Ok(bytes)
    ensures |Encode(bytes)| == 4 * ((|bytes| + 2) / 3)
  {
    hide IsSpace, Encode, DecodeChunks, Utf8;
    EncodedLength(bytes);
    ChunksRoundTrip(bytes);
    var s := Encode(bytes);
    if s != "" {
      assert s[0] in s && s[|s| - 1] in s;
    }
    assert Trim(s) == s;
  }

  // ---- what decodes ----

  lemma {:induction false} ShiftedOk(chunk: seq<Byte>)
    ensures Shifted(chunk).Ok? <==> forall b <- chunk :: IsCode(b)
  {
    if chunk != [] {
      var front, last := chunk[..|chunk| - 1], chunk[|chunk| - 1];
      ShiftedOk(front);
      assert chunk == front + [last];
      assert last in chunk && forall b :: b in chunk <==> b in front || b == last;
      assert (forall b <- chunk :: IsCode(b)) <==> (forall b <- front :: IsCode(b)) && IsCode(last);
    }
  }

  lemma {:induction false} ChunksOk(s: seq<Byte>)
    requires |s| % 4 == 0
    ensures DecodeChunks(s).Ok? <==> forall b <- s :: IsCode(b)
  {
    hide IsCode, Shifted, Bytes, Pads;
    if s != [] {
      ShiftedOk(s[..4]);
      ChunksOk(s[4..]);
      assert s == s[..4] + s[4..];
    }
  }

  /** Text decodes exactly when, trimmed, it is a multiple of four letters or pads long. */
  lemma DecodesWhen(text: string)
    ensures Decode(text).Ok? <==> |Trim(text)| % 4 == 0 && forall c <- Trim(text) :: IsCodeChar(c)
  {
    hide Utf8, DecodeChunks, IsCodeChar, IsCode, Trim;
    TextIsCode(Trim(text));
    if |Utf8(Trim(text))| % 4 == 0 {
      ChunksOk(Utf8(Trim(text)));
    }
  }

  // ---- the letters and the bits ----

  const UPPER := "ABCDEFGHIJKLMNOPQRSTUVWXYZ"
  const LOWER := "abcdefghijklmnopqrstuvwxyz"
  const NUMERALS := "0123456789"

  /** Table 1 of section 4 of RFC 4648. */
  const ALPHABET := UPPER + LOWER + NUMERALS + "+/"

  lemma LettersAre(d: nat)
    requires d < 64
    ensures |ALPHABET| == 64 && Letter(d) == ALPHABET[d]
  {
    Runs();
    hide UPPER, LOWER, NUMERALS;
    if d < 26 {
      assert ALPHABET[d] == UPPER[d];
    } else if d < 52 {
      assert ALPHABET[d] == LOWER[d - 26];
    } else if d < 62 {
      assert ALPHABET[d] == NUMERALS[d - 52];
    } else {
      assert ALPHABET[d] == "+/"[d - 62];
    }
  }

  /** The three runs of the table. */
  lemma Runs()
    ensures |UPPER| == 26 && |LOWER| == 26 && |NUMERALS| == 10
    ensures forall i :: 0 <= i < 26 ==> UPPER[i] as int == 'A' as int + i && LOWER[i] as int == 'a' as int + i
    ensures forall i :: 0 <= i < 10 ==> NUMERALS[i] as int == '0' as int + i
  {
  }

  /** The letters of one group: six bits each, from the top bit of the first byte down, pads for what is
      missing. */
  predicate Spells(bytes: seq<Byte>, letters: string)
    requires |ALPHABET| == 64
  {
    && 1 <= |bytes| <= 3 && |letters| == 4
    && (var a: int := bytes[0];
        var b: int := if |bytes| > 1 then bytes[1] else 0;
        var c: int := if |bytes| > 2 then bytes[2] else 0;
        && letters[0] == ALPHABET[a / 4] && letters[1] == ALPHABET[a % 4 * 16 + b / 16]
        && letters[2] == (if |bytes| > 1 then ALPHABET[b % 16 * 4 + c / 64] else '=')
        && letters[3] == (if |bytes| > 2 then ALPHABET[c % 64] else '='))
  }

  lemma ChunkSpells(chunk: seq<Byte>)
    requires 1 <= |chunk| <= 3 && |ALPHABET| == 64
    ensures Spells(chunk, EncodeChunk(chunk))
  {
    hide Letter, ALPHABET;
    var a: int := chunk[0];
    var b: int := if |chunk| > 1 then chunk[1] else 0;
    var c: int := if |chunk| > 2 then chunk[2] else 0;
    GroupSpells(chunk, a, b, c);
    LettersAre(a / 4);
    LettersAre(a % 4 * 16 + b / 16);
    LettersAre(b % 16 * 4 + c / 64);
    LettersAre(c % 64);
  }

  lemma GroupSpells(chunk: seq<Byte>, a: int, b: int, c: int)
    requires 1 <= |chunk| <= 3 && chunk[0] == a
    requires b == (if |chunk| > 1 then chunk[1] else 0) && c == if |chunk| > 2 then chunk[2] else 0
    ensures 0 <= a / 4 < 64 && 0 <= a % 4 * 16 + b / 16 < 64 && 0 <= b % 16 * 4 + c / 64 < 64
    ensures EncodeChunk(chunk) ==
      [Letter(a / 4), Letter(a % 4 * 16 + b / 16),
       if |chunk| > 1 then Letter(b % 16 * 4 + c / 64) else '=', if |chunk| > 2 then Letter(c % 64) else '=']
  {
    hide Letter;
    assert Group(chunk) == a * 0x1_0000 + b * 0x100 + c;
    SixBits(a, b, c);
  }

  lemma Divides(n: int, q: int, r: int)
    requires n == q * 64 + r && 0 <= r < 64
    ensures n / 64 == q && n % 64 == r
  {
  }

  lemma SixBits(a: int, b: int, c: int)
    requires 0 <= a < 256 && 0 <= b < 256 && 0 <= c < 256
    ensures var n := a * 0x1_0000 + b * 0x100 + c;
      && n / 0x4_0000 % 64 == a / 4 && n / 0x1000 % 64 == a % 4 * 16 + b / 16
      && n / 64 % 64 == b % 16 * 4 + c / 64 && n % 64 == c % 64
  {
    var n := a * 0x1_0000 + b * 0x100 + c;
    Divides(n, a * 1024 + b * 4 + c / 64, c % 64);
    Divides(n / 64, a * 16 + b / 16, b % 16 * 4 + c / 64);
    Divides(n / 64 / 64, a / 4, a % 4 * 16 + b / 16);
    Thrice(n);
  }

  lemma Thrice(n: nat)
    ensures n / 0x1000 == n / 64 / 64 && n / 0x4_0000 == n / 64 / 64 / 64
  {
  }

  /** The q-th group of three bytes, or what is left of it, is spelt by the q-th four letters. */
  lemma {:induction false} EncodedGroups(bytes: seq<Byte>, q: nat)
    requires 3 * q < |bytes|
    ensures |ALPHABET| == 64 && 4 * q + 4 <= |Encode(bytes)|
    ensures Spells(bytes[3 * q..][..ChunkLength(bytes[3 * q..])], Encode(bytes)[4 * q..4 * q + 4])
  {
    hide EncodeChunk, Spells;
    EncodedLength(bytes);
    LettersAre(0);
    var k := ChunkLength(bytes);
    var rest := Encode(bytes[k..]);
    if q == 0 {
      ChunkSpells(bytes[..k]);
      assert Encode(bytes)[..4] == EncodeChunk(bytes[..k]);
      assert bytes[0..] == bytes;
    } else {
      EncodedGroups(bytes[k..], q - 1);
      assert bytes[k..][3 * (q - 1)..] == bytes[3 * q..];
      assert Encode(bytes)[4 * q..4 * q + 4] == rest[4 * (q - 1)..4 * (q - 1) + 4];
    }
  }

  /** `part` is `whole` without spaces at its ends. */
  ghost predicate TrimmedAt(whole: string, part: string, i: nat) {
    && i + |part| <= |whole| && whole[i..i + |part|] == part
    && (forall k :: 0 <= k < i || i + |part| <= k < |whole| ==> IsSpace(whole[k]))
    && (part != "" ==> !IsSpace(part[0]) && !IsSpace(part[|part| - 1]))
  }

  lemma {:induction false} TrimIs(s: string) returns (i: nat)
    ensures TrimmedAt(s, Trim(s), i)
  {
    hide IsSpace;
    if s != "" && IsSpace(s[0]) {
      i := TrimIs(s[1..]);
      i := i + 1;
      assert s[i..i + |Trim(s)|] == s[1..][i - 1..i - 1 + |Trim(s)|];
      forall k | 0 <= k < i || i + |Trim(s)| <= k < |s| ensures IsSpace(s[k]) {
        assert k > 0 ==> s[k] == s[1..][k - 1];
      }
    } else if s != "" && IsSpace(s[|s| - 1]) {
      i := TrimIs(s[..|s| - 1]);
      assert s[i..i + |Trim(s)|] == s[..|s| - 1][i..i + |Trim(s)|];
      forall k | 0 <= k < i || i + |Trim(s)| <= k < |s| ensures IsSpace(s[k]) {
        assert k < |s| - 1 ==> s[k] == s[..|s| - 1][k];
      }
    } else {
      i := 0;
    }
  }
}
