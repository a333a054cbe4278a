/**
The page cursor of the notification inbox (internal/adapters/http/notifications.go:274-288):
unpadded base64url, section 5 of RFC 4648, over "notification:" and a decimal sequence.
*/
module NotificationCursor {
  import opened Wrappers
  import opened Numerals

  type Byte = b: int | 0 <= b < 256

  type Sextet = v: int | 0 <= v < 64

  // The URL and filename safe alphabet.
  function Letter(v: Sextet): char {
    if v < 26 then ('A' as int + v) as char
    else if v < 52 then ('a' as int + v - 26) as char
    else if v < 62 then ('0' as int + v - 52) as char
    else if v == 62 then '-' else '_'
  }

  function SextetOf(c: char): Option<Sextet> {
    if 'A' <= c <= 'Z' then Some(c as int - 'A' as int)
    else if 'a' <= c <= 'z' then Some(c as int - 'a' as int + 26)
    else if '0' <= c <= '9' then Some(c as int - '0' as int + 52)
    else if c == '-' then Some(62)
    else if c == '_' then Some(63)
    else None
  }

  // Three bytes are four sextets.
  function S0(x: Byte): Sextet { x as int / 4 }
  function S1(x: Byte, y: Byte): Sextet { x as int % 4 * 16 + y as int / 16 }
  function S2(y: Byte, z: Byte): Sextet { y as int % 16 * 4 + z as int / 64 }
  function S3(z: Byte): Sextet { z as int % 64 }
  function B0(a: Sextet, b: Sextet): Byte { a as int * 4 + b as int / 16 }
  function B1(b: Sextet, c: Sextet): Byte { b as int % 16 * 16 + c as int / 4 }
  function B2(c: Sextet, d: Sextet): Byte { c as int % 4 * 64 + d as int }

  // The sextets the encoder writes; a short last group is filled with zero bits.
  function Groups(bytes: seq<Byte>): seq<Sextet>
    decreases |bytes|
  {
    if |bytes| == 0 then []
    else if |bytes| == 1 then [S0(bytes[0]), S1(bytes[0], 0)]
    else if |bytes| == 2 then [S0(bytes[0]), S1(bytes[0], bytes[1]), S2(bytes[1], 0)]
    else [S0(bytes[0]), S1(bytes[0], bytes[1]), S2(bytes[1], bytes[2]), S3(bytes[2])] + Groups(bytes[3..])
  }

  function Letters(v: seq<Sextet>): string { if v == [] then "" else [Letter(v[0])] + Letters(v[1..]) }

  function Encode(bytes: seq<Byte>): string { Letters(Groups(bytes)) }

  // The decoder skips carriage returns and line feeds wherever they stand.
  function WithoutBreaks(text: string): string {
    if text == "" then ""
    else if text[0] == '\r' || text[0] == '\n' then WithoutBreaks(text[1..])
    else [text[0]] + WithoutBreaks(text[1..])
  }

  function Sextets(text: string): Option<seq<Sextet>> {
    if text == "" then Some([])
    else if SextetOf(text[0]).None? || Sextets(text[1..]).None? then None
    else Some([SextetOf(text[0]).value] + Sextets(text[1..]).value)
  }

  // Trailing bits of a short last group are dropped unchecked, as the non-strict decoder does.
  function Bytes(v: seq<Sextet>): Option<seq<Byte>>
    decreases |v|
  {
    if |v| == 0 then Some([])
    else if |v| == 1 then None
    else if |v| == 2 then Some([B0(v[0], v[1])])
    else if |v| == 3 then Some([B0(v[0], v[1]), B1(v[1], v[2])])
    else
      match Bytes(v[4..])
      case None => None
      case Some(rest) => Some([B0(v[0], v[1]), B1(v[1], v[2]), B2(v[2], v[3])] + rest)
  }

  function Decode(text: string): Option<seq<Byte>> {
    match Sextets(WithoutBreaks(text))
    case None => None
    case Some(v) => Bytes(v)
  }

  // A group of four sextets is the same 24-bit number as its three bytes.
  lemma GroupIsOneNumber(x: Byte, y: Byte, z: Byte)
    ensures S0(x) * 0x4_0000 + S1(x, y) * 0x1000 + S2(y, z) * 0x40 + S3(z) == x * 0x1_0000 + y * 0x100 + z
  { }

  lemma LetterBack(v: Sextet)
    ensures SextetOf(Letter(v)) == Some(v) && Letter(v) != '\r' && Letter(v) != '\n'
  {
  }

  lemma {:induction false} LettersRead(v: seq<Sextet>)
    ensures WithoutBreaks(Letters(v)) == Letters(v) && Sextets(Letters(v)) == Some(v)
    decreases |v|
  {
    if v != [] {
      LettersRead(v[1..]);
      LetterBack(v[0]);
      assert Letters(v)[1..] == Letters(v[1..]);
      assert [v[0]] + v[1..] == v;
    }
  }

  lemma FirstBack(x: Byte, y: Byte)
    ensures B0(S0(x), S1(x, y)) == x
  {
  }

  lemma GroupBack(x: Byte, y: Byte, z: Byte)
    ensures B0(S0(x), S1(x, y)) == x && B1(S1(x, y), S2(y, z)) == y && B2(S2(y, z), S3(z)) == z
  {
  }

  lemma BytesOfGroup(a: Sextet, b: Sextet, c: Sextet, d: Sextet, rest: seq<Sextet>, tail: seq<Byte>)
    requires Bytes(rest) == Some(tail)
    ensures Bytes([a, b, c, d] + rest) == Some([B0(a, b), B1(b, c), B2(c, d)] + tail)
  {
    assert ([a, b, c, d] + rest)[4..] == rest;
  }

  lemma {:induction false} GroupsRead(bytes: seq<Byte>)
    ensures Bytes(Groups(bytes)) == Some(bytes)
    decreases |bytes|
  {
    if |bytes| >= 3 {
      var x, y, z, rest := bytes[0], bytes[1], bytes[2], bytes[3..];
      GroupsRead(rest);
      BytesOfGroup(S0(x), S1(x, y), S2(y, z), S3(z), Groups(rest), rest);
      GroupBack(x, y, z);
      assert bytes == [x, y, z] + rest;
    } else if |bytes| == 2 {
      TwoBytesRead(bytes[0], bytes[1]);
      assert bytes == [bytes[0], bytes[1]];
    } else if |bytes| == 1 {
      OneByteRead(bytes[0]);
      assert bytes == [bytes[0]];
    }
  }

  lemma OneByteRead(x: Byte)
    ensures Bytes([S0(x), S1(x, 0)]) == Some([x])
  {
    var zero: Byte := 0;
    FirstBack(x, zero);
  }

  lemma TwoBytesRead(x: Byte, y: Byte)
    ensures Bytes([S0(x), S1(x, y), S2(y, 0)]) == Some([x, y])
  {
    GroupBack(x, y, 0);
  }

  // Every byte string survives the encoding.
  lemma Base64RoundTrip(bytes: seq<Byte>)
    ensures Decode(Encode(bytes)) == Some(bytes)
  {
    LettersRead(Groups(bytes));
    GroupsRead(bytes);
  }

  predicate Ascii(s: string) { forall i | 0 <= i < |s| :: s[i] < 128 as char }

  function AsBytes(s: string): (b: seq<Byte>)
    requires Ascii(s)
    ensures |b| == |s| && forall i | 0 <= i < |s| :: b[i] == s[i] as int
  {
    if s == "" then [] else [s[0] as int] + AsBytes(s[1..])
  }

  function AsText(b: seq<Byte>): (s: string)
    ensures |s| == |b| && forall i | 0 <= i < |b| :: s[i] as int == b[i]
  {
    if b == [] then "" else [b[0] as char] + AsText(b[1..])
  }

  const Prefix := "notification:"

  const Limit: nat := 0x8000_0000_0000_0000

  // strconv.ParseUint(s, 10, 63)
  function ParseUint63(s: string): Option<nat> {
    if s == "" || !AllDigits(s, 10) || Value(s, 10) >= Limit then None else Some(Value(s, 10))
  }

  function EncodeCursor(sequence: nat): string {
    var text := Prefix + Decimal(sequence);
    assert Ascii(text) by { assert AllDigits(Decimal(sequence), 10); }
    Encode(AsBytes(text))
  }

  function DecodeCursor(cursor: string): Option<nat> {
    match Decode(cursor)
    case None => None
    case Some(bytes) => SequenceIn(AsText(bytes))
  }

  function SequenceIn(text: string): Option<nat> {
    if !(Prefix <= text) then None
    else
      match ParseUint63(text[|Prefix|..])
      case Some(n) => if n == 0 then None else Some(n)
      case None => None
  }

  lemma SequenceOfText(sequence: nat)
    ensures SequenceIn(Prefix + Decimal(sequence)) == (if 1 <= sequence < Limit then Some(sequence) else None)
  {
    PrefixedText(Decimal(sequence));
    ValueOfNumeral(sequence, 10);
  }

  lemma PrefixedText(digits: string)
    requires AllDigits(digits, 10)
    ensures AsText(AsBytes(Prefix + digits)) == Prefix + digits
    ensures (Prefix + digits)[..|Prefix|] == Prefix && (Prefix + digits)[|Prefix|..] == digits
  { }

  // A cursor decodes back to its sequence exactly for the sequences the store can issue.
  lemma CursorRoundTrip(sequence: nat)
    ensures DecodeCursor(EncodeCursor(sequence)) == (if 1 <= sequence < Limit then Some(sequence) else None)
  {
    var text := Prefix + Decimal(sequence);
    PrefixedText(Decimal(sequence));
    Base64RoundTrip(AsBytes(text));
    SequenceOfText(sequence);
  }

  // Different pages have different cursors.
  lemma CursorsDiffer(m: nat, n: nat)
    requires EncodeCursor(m) == EncodeCursor(n)
    ensures m == n
  {
    var s, t := Prefix + Decimal(m), Prefix + Decimal(n);
    assert AllDigits(Decimal(m), 10) && AllDigits(Decimal(n), 10);
    Base64RoundTrip(AsBytes(s));
    Base64RoundTrip(AsBytes(t));
    assert AsText(AsBytes(s)) == s && AsText(AsBytes(t)) == t;
    assert s[|Prefix|..] == Decimal(m) && t[|Prefix|..] == Decimal(n);
    DecimalInjective(m, n);
  }
}
