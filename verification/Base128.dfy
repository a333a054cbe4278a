/**
UIntBase128 of W3C WOFF 2.0 (Data types), as read by internal/adapters/fontvalidate/font.go:208-225.
*/
module Base128 {
  import opened Wrappers
  import opened Records

  type Byte = b: int | 0 <= b < 256

  const Limit: nat := 0x1_0000_0000

  // value & 0xfe000000 != 0: one of bits 25 to 31 is set
  predicate HighBits(value: nat) { (value / 0x200_0000) % 128 != 0 }

  // The reader with `i` bytes behind it and `value` read so far.
  function ReadFrom(data: seq<Byte>, pos: nat, i: nat, value: nat): Option<(nat, nat)>
    decreases 5 - i
  {
    if i >= 5 || pos >= |data| then None
    else
      var b := data[pos];
      if (i == 0 && b == 0x80) || HighBits(value) then None
      else if b < 128 then Some((value * 128 + b, pos + 1))
      else ReadFrom(data, pos + 1, i + 1, value * 128 + (b - 128))
  }

  method Read(data: seq<Byte>, pos: nat) returns (r: Option<nat>, next: nat)
    ensures r.Some? <==> ReadFrom(data, pos, 0, 0).Some?
    ensures r.Some? ==> ReadFrom(data, pos, 0, 0) == Some((r.value, next))
  {
    var value: nat := 0;
    next := pos;
    for i := 0 to 5
      invariant ReadFrom(data, pos, 0, 0) == ReadFrom(data, next, i, value)
    {
      if next >= |data| { return None, next; }
      var b := data[next];
      next := next + 1;
      if (i == 0 && b == 0x80) || HighBits(value) { return None, next; }
      value := value * 128 + b % 128;
      if b < 128 { return Some(value), next; }
    }
    return None, next;
  }

  // ---- the encoding: base-128 digits, the highest first, all but the last marked ----

  function Marked(w: nat): seq<Byte> {
    if w < 128 then [128 + w] else Marked(w / 128) + [128 + w % 128]
  }

  function Encode(v: nat): seq<Byte> {
    if v < 128 then [v] else Marked(v / 128) + [v % 128]
  }

  lemma {:induction false} MarkedLength(w: nat)
    requires w < 0x200_0000
    ensures 1 <= |Marked(w)| <= 4
    ensures w < 128 ==> |Marked(w)| == 1
    ensures w < 0x4000 ==> |Marked(w)| <= 2
    ensures w < 0x20_0000 ==> |Marked(w)| <= 3
  {
    if w >= 128 { MarkedLength(w / 128); }
  }

  // Reading the marked digits of w brings the reader to value w.
  lemma {:induction false} ReadsMarked(data: seq<Byte>, pos: nat, w: nat)
    requires 1 <= w < 0x200_0000 && StandsAt(data, pos, Marked(w))
    ensures ReadFrom(data, pos, 0, 0) == ReadFrom(data, pos + |Marked(w)|, |Marked(w)|, w)
  {
    MarkedLength(w);
    var code := Marked(w);
    if w >= 128 {
      var front := Marked(w / 128);
      assert data[pos..pos + |front|] == code[..|front|];
      ReadsMarked(data, pos, w / 128);
      assert data[pos + |front|] == code[|front|];
    } else {
      assert data[pos] == code[0];
    }
  }

  lemma ReadsEncoded(data: seq<Byte>, pos: nat, v: nat)
    requires v < Limit && StandsAt(data, pos, Encode(v))
    ensures ReadFrom(data, pos, 0, 0) == Some((v, pos + |Encode(v)|))
  {
    var code := Encode(v);
    if v >= 128 {
      var front := Marked(v / 128);
      assert data[pos..pos + |front|] == code[..|front|];
      MarkedLength(v / 128);
      ReadsMarked(data, pos, v / 128);
      assert data[pos + |front|] == code[|front|];
    } else {
      assert data[pos] == code[0];
    }
  }

  lemma AppendDigit(value: nat, b: Byte)
    requires value >= 1
    ensures b >= 128 ==> Marked(value * 128 + (b - 128)) == Marked(value) + [b]
    ensures b < 128 ==> Encode(value * 128 + b) == Marked(value) + [b]
  {
    var w := value * 128 + b % 128;
    assert w / 128 == value && w % 128 == b % 128;
  }

  lemma LowValue(value: nat)
    requires value < Limit && !HighBits(value)
    ensures value < 0x200_0000
  { }

  lemma NextByte(data: seq<Byte>, start: nat, pos: nat, i: nat, value: nat)
    requires start <= pos < |data| && value < Limit && !HighBits(value) && !(i == 0 && data[pos] == 0x80)
    requires if i == 0 then value == 0 && pos == start else value >= 1 && data[start..pos] == Marked(value)
    ensures var v := value * 128 + data[pos] % 128;
            && v < Limit
            && if data[pos] < 128 then data[start..pos + 1] == Encode(v)
               else v >= 1 && data[start..pos + 1] == Marked(v)
  {
    LowValue(value);
    assert data[start..pos + 1] == data[start..pos] + [data[pos]];
    if i > 0 { AppendDigit(value, data[pos]); }
  }

  predicate Encoded(data: seq<Byte>, start: nat, r: Option<(nat, nat)>) {
    r.Some? ==> r.value.0 < Limit && start < r.value.1 <= |data| && data[start..r.value.1] == Encode(r.value.0)
  }

  // Whatever is accepted from a state that has read the marked digits of `value` is an encoding.
  lemma {:induction false} AcceptedIsEncoded(data: seq<Byte>, start: nat, pos: nat, i: nat, value: nat)
    requires start <= pos <= |data| && value < Limit
    requires if i == 0 then value == 0 && pos == start else value >= 1 && data[start..pos] == Marked(value)
    ensures Encoded(data, start, ReadFrom(data, pos, i, value))
    decreases 5 - i
  {
    if ReadFrom(data, pos, i, value).Some? {
      ReadStep(data, pos, i, value);
      NextByte(data, start, pos, i, value);
      if data[pos] >= 128 { AcceptedIsEncoded(data, start, pos + 1, i + 1, value * 128 + data[pos] % 128); }
    }
  }

  lemma ReadStep(data: seq<Byte>, pos: nat, i: nat, value: nat)
    requires ReadFrom(data, pos, i, value).Some?
    ensures i < 5 && pos < |data| && !HighBits(value) && !(i == 0 && data[pos] == 0x80)
    ensures var v := value * 128 + data[pos] % 128;
            ReadFrom(data, pos, i, value) == if data[pos] < 128 then Some((v, pos + 1)) else ReadFrom(data, pos + 1, i + 1, v)
  { }

  // The reader accepts exactly the encodings of values below 2^32, advances by their length,
  // and gives the value back.
  lemma ReadsExactlyEncodings(data: seq<Byte>, pos: nat, v: nat, next: nat)
    requires pos <= |data|
    ensures ReadFrom(data, pos, 0, 0) == Some((v, next)) <==>
              v < Limit && StandsAt(data, pos, Encode(v)) && next == pos + |Encode(v)|
  {
    if ReadFrom(data, pos, 0, 0) == Some((v, next)) {
      AcceptedIsEncoded(data, pos, pos, 0, 0);
      assert |data[pos..next]| == next - pos;
    }
    if v < Limit && StandsAt(data, pos, Encode(v)) { ReadsEncoded(data, pos, v); }
  }

  // Every value below 2^32 has one encoding, of one to five bytes.
  lemma EncodingIsUnique(v: nat, code: seq<Byte>)
    requires v < Limit
    ensures 1 <= |Encode(v)| <= 5
    ensures ReadFrom(code, 0, 0, 0) == Some((v, |code|)) <==> code == Encode(v)
  {
    if v >= 128 { MarkedLength(v / 128); }
    ReadsExactlyEncodings(code, 0, v, |code|);
    assert code[0..|code|] == code;
  }

  // ---- the number a code stands for ----

  // The highest digit comes first; the mark of a byte is not part of its digit.
  function Positional(code: seq<Byte>): nat {
    if code == [] then 0 else Positional(code[..|code| - 1]) * 128 + code[|code| - 1] % 128
  }

  predicate AllMarked(code: seq<Byte>) { forall b <- code :: b >= 128 }

  lemma {:induction false} MarkedIsPositional(w: nat)
    ensures Positional(Marked(w)) == w && AllMarked(Marked(w)) && |Marked(w)| > 0
    ensures w > 0 ==> Marked(w)[0] != 0x80
  {
    if w >= 128 {
      MarkedIsPositional(w / 128);
      OneMorePlace(Marked(w / 128), 128 + w % 128);
    } else {
      OneMorePlace([], 128 + w);
      assert [] + [128 + w] == Marked(w);
    }
  }

  lemma OneMorePlace(code: seq<Byte>, b: Byte)
    ensures Positional(code + [b]) == Positional(code) * 128 + b % 128
  {
    assert (code + [b])[..|code|] == code;
  }

  // An encoding is the number in base 128 without a leading zero, every byte but the last marked.
  lemma EncodingIsPositional(v: nat)
    ensures var code := Encode(v);
            && |code| > 0 && Positional(code) == v && code[0] != 0x80
            && AllMarked(code[..|code| - 1]) && code[|code| - 1] < 128
  {
    if v >= 128 {
      MarkedIsPositional(v / 128);
      OneMorePlace(Marked(v / 128), v % 128);
      assert Encode(v)[..|Encode(v)| - 1] == Marked(v / 128);
    } else {
      OneMorePlace([], v);
      assert [] + [v] == Encode(v);
    }
  }
}
