/** Unpadded Base64url (section 5 of RFC 4648) with the trailing-bit rule of its section 3.5. */
module Base64url {
  import opened Outcomes

  type Byte = x: int | 0 <= x < 256

  const MAX_BASE64URL_CHARS: nat := 16_384
  const ALPHABET := "ABCDEFGHIJKLMNOPQRSTUVWXYZ" + "abcdefghijklmnopqrstuvwxyz" + "0123456789-_"

  /** The value of a character, when it is in the alphabet. */
  function Index(c: char): Option<nat> {
    if 'A' <= c <= 'Z' then Some(c as int - 'A' as int)
    else if 'a' <= c <= 'z' then Some(c as int - 'a' as int + 26)
    else if '0' <= c <= '9' then Some(c as int - '0' as int + 52)
    else if c == '-' then Some(62)
    else if c == '_' then Some(63)
    else None
  }

  function Symbol(i: nat): (c: char)
    requires i < 64
  {
    ALPHABET[i]
  }

  /** The characters of one chunk of one to three bytes. */
  function EncodeChunk(chunk: seq<Byte>): string
    requires 1 <= |chunk| <= 3
  {
    var second := if 1 < |chunk| then chunk[1] else 0;
    var third := if 2 < |chunk| then chunk[2] else 0;
    [Symbol(chunk[0] / 4), Symbol(chunk[0] % 4 * 16 + second / 16)]
    + (if 1 < |chunk| then [Symbol(second % 16 * 4 + third / 64)] else [])
    + (if 2 < |chunk| then [Symbol(third % 64)] else [])
  }

  function Encode(bytes: seq<Byte>): string {
    if bytes == [] then ""
    else if |bytes| <= 3 then EncodeChunk(bytes)
    else EncodeChunk(bytes[..3]) + Encode(bytes[3..])
  }

  /** The encoder's loop over chunks of three. */
  method EncodeBytes(bytes: seq<Byte>) returns (encoded: string)
    ensures encoded == Encode(bytes)
  {
    hide Symbol, Encode, EncodeChunk;
    encoded := "";
    var i := 0;
    assert bytes[0..] == bytes && "" + Encode(bytes) == Encode(bytes);
    while i < |bytes|
      invariant i <= |bytes| && encoded + Encode(bytes[i..]) == Encode(bytes)
    {
      var end := if i + 3 <= |bytes| then i + 3 else |bytes|;
      var chunk := bytes[i..end];
      NextChunk(bytes, i, end);
      var text := Spell(chunk);
      assert encoded + (text + Encode(bytes[end..])) == (encoded + text) + Encode(bytes[end..]);
      encoded := encoded + text;
      i := end;
    }
    NothingLeft(bytes);
  }

  /** The characters pushed for one chunk. */
  method Spell(chunk: seq<Byte>) returns (text: string)
    requires 1 <= |chunk| <= 3
    ensures text == EncodeChunk(chunk)
  {
    hide Symbol;
    var first := chunk[0];
    text := [Symbol(first / 4)];
    text := text + [Symbol(first % 4 * 16 + (if 1 < |chunk| then chunk[1] else 0) / 16)];
    if 1 < |chunk| {
      text := text + [Symbol(chunk[1] % 16 * 4 + (if 2 < |chunk| then chunk[2] else 0) / 64)];
    }
    if 2 < |chunk| {
      text := text + [Symbol(chunk[2] % 64)];
    }
  }

  lemma NothingLeft(bytes: seq<Byte>)
    ensures Encode(bytes[|bytes|..]) == "" && forall s: string :: s + "" == s
  {}

  lemma NextChunk(bytes: seq<Byte>, i: nat, end: nat)
    requires i < |bytes| && end == if i + 3 <= |bytes| then i + 3 else |bytes|
    ensures Encode(bytes[i..]) == EncodeChunk(bytes[i..end]) + Encode(bytes[end..])
  {
    var rest := bytes[i..];
    assert rest[..end - i] == bytes[i..end] && rest[end - i..] == bytes[end..];
    if |rest| <= 3 { assert rest == bytes[i..end] && bytes[end..] == []; }
  }

  // ---------- acceptance ----------

  predicate InAlphabet(s: string) { forall i | 0 <= i < |s| :: Index(s[i]).Some? }

  predicate TrailingBitsZero(s: string)
    requires InAlphabet(s)
  {
    match |s| % 4
    case 0 => true
    case 2 => Index(s[|s| - 1]).value % 16 == 0
    case 3 => Index(s[|s| - 1]).value % 4 == 0
    case _ => false
  }

  predicate Accepted(s: string) {
    |s| <= MAX_BASE64URL_CHARS && |s| % 4 != 1 && InAlphabet(s) && TrailingBitsZero(s)
  }

  // ---------- the inverse ----------

  function Digit(c: char): (d: nat)
    ensures d < 64
  {
    if Index(c).Some? then Index(c).value else 0
  }

  function DecodeChunk(s: string): (bytes: seq<Byte>)
    requires 2 <= |s| <= 4
    ensures |bytes| == |s| - 1
  {
    var a, b := Digit(s[0]), Digit(s[1]);
    var c := if 2 < |s| then Digit(s[2]) else 0;
    var d := if 3 < |s| then Digit(s[3]) else 0;
    [a * 4 + b / 16]
    + (if 2 < |s| then [b % 16 * 16 + c / 4] else [])
    + (if 3 < |s| then [c % 4 * 64 + d] else [])
  }

  /** The bytes an accepted text spells. */
  function Decode(s: string): seq<Byte> {
    if |s| < 2 then [] else if |s| <= 4 then DecodeChunk(s) else DecodeChunk(s[..4]) + Decode(s[4..])
  }

  lemma SymbolIndex(i: nat)
    requires i < 64
    ensures Index(Symbol(i)) == Some(i)
  {
    if i < 26 { UpperSymbol(i); } else if i < 52 { LowerSymbol(i); }
  }

  lemma UpperSymbol(i: nat)
    requires i < 26
    ensures Symbol(i) as int == 'A' as int + i
  {}

  lemma LowerSymbol(i: nat)
    requires 26 <= i < 52
    ensures Symbol(i) as int == 'a' as int + i - 26
  {}

  lemma IndexSymbol(c: char)
    requires Index(c).Some?
    ensures Index(c).value < 64 && Symbol(Index(c).value) == c
  {
    var i := Index(c).value;
    if i < 26 { UpperSymbol(i); } else if i < 52 { LowerSymbol(i); }
  }

  lemma ChunkRoundTrip(chunk: seq<Byte>)
    requires 1 <= |chunk| <= 3
    ensures |EncodeChunk(chunk)| == |chunk| + 1 && DecodeChunk(EncodeChunk(chunk)) == chunk
    ensures InAlphabet(EncodeChunk(chunk)) && TrailingBitsZero(EncodeChunk(chunk))
  {
    hide Symbol, Index;
    var second := if 1 < |chunk| then chunk[1] else 0;
    var third := if 2 < |chunk| then chunk[2] else 0;
    SymbolIndex(chunk[0] / 4);
    SymbolIndex(chunk[0] % 4 * 16 + second / 16);
    SymbolIndex(second % 16 * 4 + third / 64);
    SymbolIndex(third % 64);
  }

  /** Splitting four digits into three bytes and back loses nothing. */
  lemma Regroups(a: nat, b: nat, c: nat, d: nat)
    requires a < 64 && b < 64 && c < 64 && d < 64
    ensures (a * 4 + b / 16) / 4 == a && (a * 4 + b / 16) % 4 == b / 16
    ensures (b % 16 * 16 + c / 4) / 16 == b % 16 && (b % 16 * 16 + c / 4) % 16 == c / 4
    ensures (c % 4 * 64 + d) / 64 == c % 4 && (c % 4 * 64 + d) % 64 == d
    ensures b / 16 * 16 + b % 16 == b && c / 4 * 4 + c % 4 == c
  {}

  lemma SpellTwo(a: nat, b: nat)
    requires a < 64 && b < 64 && b % 16 == 0
    ensures EncodeChunk([a * 4 + b / 16]) == [Symbol(a), Symbol(b)]
  {
    hide Symbol;
    Regroups(a, b, 0, 0);
  }

  lemma SpellThree(a: nat, b: nat, c: nat)
    requires a < 64 && b < 64 && c < 64 && c % 4 == 0
    ensures EncodeChunk([a * 4 + b / 16, b % 16 * 16 + c / 4]) == [Symbol(a), Symbol(b), Symbol(c)]
  {
    hide Symbol;
    Regroups(a, b, c, 0);
  }

  lemma SpellFour(a: nat, b: nat, c: nat, d: nat)
    requires a < 64 && b < 64 && c < 64 && d < 64
    ensures EncodeChunk([a * 4 + b / 16, b % 16 * 16 + c / 4, c % 4 * 64 + d]) == [Symbol(a), Symbol(b), Symbol(c), Symbol(d)]
  {
    hide Symbol;
    Regroups(a, b, c, d);
  }

  lemma ChunkSpelling(s: string)
    requires 2 <= |s| <= 4 && InAlphabet(s) && TrailingBitsZero(s)
    ensures EncodeChunk(DecodeChunk(s)) == s
  {
    hide Symbol, Index, Digit, TrailingBitsZero, InAlphabet, EncodeChunk;
    LastDigit(s);
    var a, b := Digit(s[0]), Digit(s[1]);
    SymbolAt(s, 0);
    SymbolAt(s, 1);
    if |s| == 2 {
      SpellTwo(a, b);
      assert DecodeChunk(s) == [a * 4 + b / 16];
    } else if |s| == 3 {
      SymbolAt(s, 2);
      SpellThree(a, b, Digit(s[2]));
      assert DecodeChunk(s) == [a * 4 + b / 16, b % 16 * 16 + Digit(s[2]) / 4];
    } else {
      SymbolAt(s, 2);
      SymbolAt(s, 3);
      SpellFour(a, b, Digit(s[2]), Digit(s[3]));
      assert DecodeChunk(s) == [a * 4 + b / 16, b % 16 * 16 + Digit(s[2]) / 4, Digit(s[2]) % 4 * 64 + Digit(s[3])];
    }
  }

  lemma SymbolAt(s: string, i: nat)
    requires InAlphabet(s) && i < |s|
    ensures Symbol(Digit(s[i])) == s[i]
  {
    hide Symbol;
    IndexSymbol(s[i]);
  }

  lemma LastDigit(s: string)
    requires 2 <= |s| <= 4 && InAlphabet(s) && TrailingBitsZero(s)
    ensures |s| == 2 ==> Digit(s[1]) % 16 == 0
    ensures |s| == 3 ==> Digit(s[2]) % 4 == 0
  {}

  /** Every encoding has the accepted shape. */
  lemma {:induction false} EncodedShape(bytes: seq<Byte>)
    ensures InAlphabet(Encode(bytes)) && TrailingBitsZero(Encode(bytes)) && |Encode(bytes)| % 4 != 1
    ensures |Encode(bytes)| == (4 * |bytes| + 2) / 3
  {
    hide EncodeChunk, DecodeChunk, Index;
    if bytes == [] {
    } else if |bytes| <= 3 {
      ChunkRoundTrip(bytes);
    } else {
      ChunkRoundTrip(bytes[..3]);
      EncodedShape(bytes[3..]);
      hide InAlphabet, TrailingBitsZero;
      ShapeBehind(EncodeChunk(bytes[..3]), Encode(bytes[3..]));
    }
  }

  /** Whole chunks in front leave the shape of a text alone. */
  lemma ShapeBehind(head: string, tail: string)
    requires InAlphabet(head) && InAlphabet(tail) && |head| % 4 == 0 && tail != "" && TrailingBitsZero(tail)
    ensures InAlphabet(head + tail) && TrailingBitsZero(head + tail) && |head + tail| % 4 == |tail| % 4
  {
    hide Index;
    assert (head + tail)[|head + tail| - 1] == tail[|tail| - 1];
  }

  /** Decoding undoes encoding. */
  lemma {:induction false} EncodeDecodes(bytes: seq<Byte>)
    ensures Decode(Encode(bytes)) == bytes
  {
    hide EncodeChunk, DecodeChunk, Index, InAlphabet, TrailingBitsZero;
    if bytes == [] {
    } else if |bytes| <= 3 {
      ChunkRoundTrip(bytes);
    } else {
      ChunkRoundTrip(bytes[..3]);
      EncodedShape(bytes[3..]);
      EncodeDecodes(bytes[3..]);
      var head, tail := EncodeChunk(bytes[..3]), Encode(bytes[3..]);
      assert (head + tail)[..4] == head && (head + tail)[4..] == tail;
      assert bytes == bytes[..3] + bytes[3..];
    }
  }

  /** Encoding undoes decoding on every text of the accepted shape. */
  lemma {:induction false} DecodeEncodes(s: string)
    requires InAlphabet(s) && |s| % 4 != 1 && TrailingBitsZero(s)
    ensures Encode(Decode(s)) == s
    decreases |s|
  {
    hide EncodeChunk, DecodeChunk, Index;
    if |s| < 2 {
      assert s == "";
    } else if |s| <= 4 {
      ChunkSpelling(s);
    } else {
      var head, tail := s[..4], s[4..];
      assert tail[|tail| - 1] == s[|s| - 1];
      ChunkSpelling(head);
      DecodeEncodes(tail);
      var bytes := DecodeChunk(head) + Decode(tail);
      assert bytes[..3] == DecodeChunk(head) && bytes[3..] == Decode(tail);
      assert Decode(tail) != [];
      assert s == head + tail;
    }
  }

  /** The accepted texts are exactly the encodings within the length bound. */
  lemma AcceptedIffEncoded(s: string)
    ensures Accepted(s) <==> |s| <= MAX_BASE64URL_CHARS && exists bytes :: Encode(bytes) == s
  {
    hide Encode, Decode, Index;
    if Accepted(s) { DecodeEncodes(s); }
    if bytes :| Encode(bytes) == s { EncodedShape(bytes); }
  }

  /** One spelling per byte string. */
  lemma EncodeInjective(a: seq<Byte>, b: seq<Byte>)
    requires Encode(a) == Encode(b)
    ensures a == b
  {
    EncodeDecodes(a);
    EncodeDecodes(b);
  }

  /** The encoder's own limit: texts stay within bounds exactly for at most 12288 bytes. */
  lemma EncodedWithinBound(bytes: seq<Byte>)
    ensures Accepted(Encode(bytes)) <==> |bytes| <= 12_288
  {
    EncodedShape(bytes);
  }

  // ---------- what the text denotes ----------

  function Power(base: nat, k: nat): nat { if k == 0 then 1 else base * Power(base, k - 1) }

  /** Bytes read as one big-endian number. */
  function ByteNumber(bytes: seq<Byte>): nat {
    if bytes == [] then 0 else ByteNumber(bytes[..|bytes| - 1]) * 256 + bytes[|bytes| - 1]
  }

  /** Characters read as one big-endian number in base 64. */
  function TextNumber(s: string): nat { if s == "" then 0 else TextNumber(s[..|s| - 1]) * 64 + Digit(s[|s| - 1]) }

  /** The zero bits appended to reach a multiple of six. */
  function Padding(n: nat): nat { if n % 3 == 0 then 1 else if n % 3 == 1 then 16 else 4 }

  lemma {:induction false} ByteNumberSplit(a: seq<Byte>, b: seq<Byte>)
    ensures ByteNumber(a + b) == ByteNumber(a) * Power(256, |b|) + ByteNumber(b)
  {
    if b == [] {
      assert a + b == a;
    } else {
      var front := b[..|b| - 1];
      ByteNumberSplit(a, front);
      assert (a + b)[..|a + b| - 1] == a + front;
      Regroup(ByteNumber(a), 256, Power(256, |front|));
    }
  }

  lemma {:induction false} TextNumberSplit(s: string, t: string)
    ensures TextNumber(s + t) == TextNumber(s) * Power(64, |t|) + TextNumber(t)
  {
    hide Digit;
    if t == "" {
      assert s + t == s;
    } else {
      var front := t[..|t| - 1];
      TextNumberSplit(s, front);
      assert (s + t)[..|s + t| - 1] == s + front;
      Regroup(TextNumber(s), 64, Power(64, |front|));
    }
  }

  lemma Regroup(a: nat, p: nat, q: nat)
    ensures a * (p * q) == a * q * p
  {}

  lemma {:induction false} PowersMatch(k: nat)
    ensures Power(64, (4 * k + 2) / 3) == Power(256, k) * Padding(k)
  {
    if k < 3 {
      SmallPowers();
    } else {
      hide Power;
      PowersMatch(k - 3);
      var n := (4 * (k - 3) + 2) / 3;
      FourMore(n);
      ThreeMore(k - 3);
      Scaled(16777216, Power(256, k - 3), Padding(k));
    }
  }

  lemma Scaled(c: nat, p: nat, q: nat)
    ensures c * (p * q) == (c * p) * q
  {}

  lemma SmallPowers()
    ensures Power(64, 0) == 1 && Power(64, 2) == 4096 && Power(64, 3) == 262144
    ensures Power(256, 0) == 1 && Power(256, 1) == 256 && Power(256, 2) == 65536
  {
    assert Power(64, 1) == 64 && Power(64, 2) == 64 * Power(64, 1) && Power(64, 3) == 64 * Power(64, 2);
    assert Power(256, 2) == 256 * Power(256, 1);
  }

  lemma FourMore(n: nat)
    ensures Power(64, n + 4) == 16777216 * Power(64, n)
  {
    assert Power(64, n + 4) == 64 * Power(64, n + 3) && Power(64, n + 3) == 64 * Power(64, n + 2);
    assert Power(64, n + 2) == 64 * Power(64, n + 1) && Power(64, n + 1) == 64 * Power(64, n);
  }

  lemma ThreeMore(n: nat)
    ensures Power(256, n + 3) == 16777216 * Power(256, n)
  {
    assert Power(256, n + 3) == 256 * Power(256, n + 2) && Power(256, n + 2) == 256 * Power(256, n + 1);
    assert Power(256, n + 1) == 256 * Power(256, n);
  }

  lemma ChunkNumber(chunk: seq<Byte>)
    requires 1 <= |chunk| <= 3
    ensures TextNumber(EncodeChunk(chunk)) == ByteNumber(chunk) * Padding(|chunk|)
  {
    hide EncodeChunk, Digit, TextNumber, ByteNumber;
    ChunkDigits(chunk);
    TextDigits(EncodeChunk(chunk));
    ByteDigits(chunk);
    var y := if 1 < |chunk| then chunk[1] else 0;
    var z := if 2 < |chunk| then chunk[2] else 0;
    Regrouped(chunk[0], y, z);
  }

  /** Four groups of six bits hold the same number as three of eight. */
  lemma Regrouped(x: Byte, y: Byte, z: Byte)
    ensures (x / 4) * 262144 + (x % 4 * 16 + y / 16) * 4096 + (y % 16 * 4 + z / 64) * 64 + z % 64 == (x as int) * 65536 + (y as int) * 256 + z
  {}

  lemma ChunkDigits(chunk: seq<Byte>)
    requires 1 <= |chunk| <= 3
    ensures var s := EncodeChunk(chunk);
            && |s| == |chunk| + 1
            && Digit(s[0]) == chunk[0] / 4
            && Digit(s[1]) == chunk[0] % 4 * 16 + (if 1 < |chunk| then chunk[1] else 0) / 16
            && (1 < |chunk| ==> Digit(s[2]) == chunk[1] % 16 * 4 + (if 2 < |chunk| then chunk[2] else 0) / 64)
            && (2 < |chunk| ==> Digit(s[3]) == chunk[2] % 64)
  {
    hide Symbol, Index;
    var second := if 1 < |chunk| then chunk[1] else 0;
    var third := if 2 < |chunk| then chunk[2] else 0;
    SymbolIndex(chunk[0] / 4);
    SymbolIndex(chunk[0] % 4 * 16 + second / 16);
    SymbolIndex(second % 16 * 4 + third / 64);
    SymbolIndex(third % 64);
  }

  lemma TextDigits(s: string)
    requires 2 <= |s| <= 4
    ensures |s| == 2 ==> TextNumber(s) == Digit(s[0]) * 64 + Digit(s[1])
    ensures |s| == 3 ==> TextNumber(s) == Digit(s[0]) * 4096 + Digit(s[1]) * 64 + Digit(s[2])
    ensures |s| == 4 ==> TextNumber(s) == Digit(s[0]) * 262144 + Digit(s[1]) * 4096 + Digit(s[2]) * 64 + Digit(s[3])
  {
    hide Digit;
    assert TextNumber(s[..1]) == Digit(s[0]) by { assert s[..1][..0] == ""; }
    assert s[..2][..1] == s[..1] && TextNumber(s[..2]) == Digit(s[0]) * 64 + Digit(s[1]);
    if |s| == 2 {
      assert s[..2] == s;
    } else {
      assert s[..3][..2] == s[..2];
      assert TextNumber(s[..3]) == TextNumber(s[..2]) * 64 + Digit(s[2]);
      if |s| == 3 { assert s[..3] == s; }
    }
  }

  lemma ByteDigits(b: seq<Byte>)
    requires 1 <= |b| <= 3
    ensures |b| == 1 ==> ByteNumber(b) == b[0]
    ensures |b| == 2 ==> ByteNumber(b) == (b[0] as int) * 256 + b[1]
    ensures |b| == 3 ==> ByteNumber(b) == (b[0] as int) * 65536 + (b[1] as int) * 256 + b[2]
  {
    assert ByteNumber(b[..1]) == b[0] by { assert b[..1][..0] == []; }
    if |b| == 1 {
      assert b[..1] == b;
    } else {
      assert b[..2][..1] == b[..1] && ByteNumber(b[..2]) == (b[0] as int) * 256 + b[1];
      if |b| == 2 { assert b[..2] == b; }
    }
  }

  /** The text is the base-64 numeral of the bytes' number, padded with zero bits to a multiple of six. */
  lemma {:induction false} EncodesNumber(bytes: seq<Byte>)
    ensures TextNumber(Encode(bytes)) == ByteNumber(bytes) * Padding(|bytes|)
  {
    hide EncodeChunk, TextNumber, ByteNumber;
    if bytes == [] {
      Zero();
    } else if |bytes| <= 3 {
      ChunkNumber(bytes);
    } else {
      var head, tail := bytes[..3], bytes[3..];
      ChunkNumber(head);
      EncodesNumber(tail);
      assert bytes == head + tail;
      JoinNumbers(head, tail);
    }
  }

  lemma JoinNumbers(head: seq<Byte>, tail: seq<Byte>)
    requires |head| == 3 && TextNumber(EncodeChunk(head)) == ByteNumber(head) * 1
    requires TextNumber(Encode(tail)) == ByteNumber(tail) * Padding(|tail|)
    ensures TextNumber(EncodeChunk(head) + Encode(tail)) == ByteNumber(head + tail) * Padding(|tail|)
  {
    hide EncodeChunk, Encode, Decode, InAlphabet, TrailingBitsZero, TextNumber, ByteNumber, Power, Padding;
    EncodedShape(tail);
    TextNumberSplit(EncodeChunk(head), Encode(tail));
    ByteNumberSplit(head, tail);
    PowersMatch(|tail|);
    Combine(ByteNumber(head), Power(256, |tail|), ByteNumber(tail), Padding(|tail|));
  }

  lemma Combine(h: nat, p: nat, t: nat, pad: nat)
    ensures h * (p * pad) + t * pad == (h * p + t) * pad
  {}

  lemma Zero()
    ensures TextNumber("") == 0 && ByteNumber([]) == 0
  {}
}
