/** The standard base64 encoding with padding, section 4 of RFC 4648, as Go's
    base64.StdEncoding encodes and decodes it. */
module Base64 {
  import opened Wrappers

  type Byte = x: int | 0 <= x < 256
  type Sextet = x: int | 0 <= x < 64
  type Bytes = seq<Byte>

  function EncodeSextet(n: Sextet): (c: char)
    ensures c != '=' && c != '\n' && c != '\r'
  {
    if n < 26 then ('A' as int + n) as char
    else if n < 52 then ('a' as int + (n - 26)) as char
    else if n < 62 then ('0' as int + (n - 52)) as char
    else if n == 62 then '+' else '/'
  }

  function DecodeSextet(c: char): Option<Sextet> {
    if 'A' <= c <= 'Z' then Some(c as int - 'A' as int)
    else if 'a' <= c <= 'z' then Some(c as int - 'a' as int + 26)
    else if '0' <= c <= '9' then Some(c as int - '0' as int + 52)
    else if c == '+' then Some(62)
    else if c == '/' then Some(63)
    else None
  }

  /** The alphabet, in order: capital letters, small letters, digits, plus and slash. */
  lemma Alphabet(n: Sextet)
    ensures n < 26 <==> 'A' <= EncodeSextet(n) <= 'Z'
    ensures 26 <= n < 52 <==> 'a' <= EncodeSextet(n) <= 'z'
    ensures 52 <= n < 62 <==> '0' <= EncodeSextet(n) <= '9'
    ensures n == 62 <==> EncodeSextet(n) == '+'
    ensures n == 63 <==> EncodeSextet(n) == '/'
    ensures n in {0, 26, 52} ==> EncodeSextet(n) == (if n == 0 then 'A' else if n == 26 then 'a' else '0')
    ensures n < 61 && n !in {25, 51} ==> EncodeSextet(n + 1) as int == EncodeSextet(n) as int + 1
  {}

  lemma SextetRead(n: Sextet)
    ensures DecodeSextet(EncodeSextet(n)) == Some(n)
  {}

  function Quantum(b0: Byte, b1: Byte, b2: Byte): string {
    [EncodeSextet(b0 / 4), EncodeSextet(b0 % 4 * 16 + b1 / 16), EncodeSextet(b1 % 16 * 4 + b2 / 64), EncodeSextet(b2 % 64)]
  }

  function Quantum2(b0: Byte, b1: Byte): string {
    [EncodeSextet(b0 / 4), EncodeSextet(b0 % 4 * 16 + b1 / 16), EncodeSextet(b1 % 16 * 4), '=']
  }

  function Quantum1(b0: Byte): string {
    [EncodeSextet(b0 / 4), EncodeSextet(b0 % 4 * 16), '=', '=']
  }

  /** EncodeToString */
  function Encode(b: Bytes): string {
    if b == [] then ""
    else if |b| == 1 then Quantum1(b[0])
    else if |b| == 2 then Quantum2(b[0], b[1])
    else Quantum(b[0], b[1], b[2]) + Encode(b[3..])
  }

  /** Line breaks are skipped wherever they are. */
  function StripNewlines(s: string): string {
    if s == "" then ""
    else if s[0] == '\n' || s[0] == '\r' then StripNewlines(s[1..])
    else [s[0]] + StripNewlines(s[1..])
  }

  /** One quantum of four characters; the last one may be padded. */
  function DecodeQuantum(c0: char, c1: char, c2: char, c3: char, last: bool): Option<Bytes> {
    match (DecodeSextet(c0), DecodeSextet(c1))
    case (Some(v0), Some(v1)) =>
      var b0: Byte := v0 * 4 + v1 / 16;
      if last && c2 == '=' && c3 == '=' then Some([b0])
      else (match DecodeSextet(c2)
            case None => None
            case Some(v2) =>
              var b1: Byte := v1 % 16 * 16 + v2 / 4;
              if last && c3 == '=' then Some([b0, b1])
              else (match DecodeSextet(c3)
                    case None => None
                    case Some(v3) =>
                      var b2: Byte := v2 % 4 * 64 + v3;
                      Some([b0, b1, b2])))
    case _ => None
  }

  function DecodeStripped(s: string): Option<Bytes> {
    if s == "" then Some([])
    else if |s| < 4 then None
    else
      match (DecodeQuantum(s[0], s[1], s[2], s[3], |s| == 4), DecodeStripped(s[4..]))
      case (Some(x), Some(rest)) => Some(x + rest)
      case _ => None
  }

  /** DecodeString */
  function Decode(s: string): Option<Bytes> { DecodeStripped(StripNewlines(s)) }

  function BytesValue(b0: nat, b1: nat, b2: nat): nat { (b0 * 256 + b1) * 256 + b2 }

  function Digits4(v0: nat, v1: nat, v2: nat, v3: nat): nat { ((v0 * 64 + v1) * 64 + v2) * 64 + v3 }

  /** The characters of the alphabet as a number of four digits to base 64. */
  function Value(q: string): Option<nat>
    requires |q| == 4
  {
    match (DecodeSextet(q[0]), DecodeSextet(q[1]), DecodeSextet(q[2]), DecodeSextet(q[3]))
    case (Some(v0), Some(v1), Some(v2), Some(v3)) => Some(Digits4(v0, v1, v2, v3))
    case _ => None
  }

  /** Three bytes are encoded as the four characters of the same number, and fewer as three with zeros,
      with a padding character for each that is missing. */
  lemma EncodedValue(b0: Byte, b1: Byte, b2: Byte)
    ensures Value(Encode([b0, b1, b2])[..4]) == Some(BytesValue(b0, b1, b2))
    ensures |Encode([b0, b1, b2])| == 4
    ensures Encode([b0, b1]) == Encode([b0, b1, 0])[..3] + "="
    ensures Encode([b0]) == Encode([b0, 0, 0])[..2] + "=="
  {
    EncodedQuantum(b0, b1, b2);
    EncodedQuantum(b0, b1, 0);
    EncodedQuantum(b0, 0, 0);
    QuantumValue(b0, b1, b2);
    assert Quantum(b0, b1, b2)[..4] == Quantum(b0, b1, b2);
  }

  lemma QuantumValue(b0: Byte, b1: Byte, b2: Byte)
    ensures Value(Quantum(b0, b1, b2)) == Some(BytesValue(b0, b1, b2))
  {
    var v1, v2 := b0 % 4 * 16 + b1 / 16, b1 % 16 * 4 + b2 / 64;
    SextetRead(b0 / 4); SextetRead(v1); SextetRead(v2); SextetRead(b2 % 64);
    assert Digits4(b0 / 4, v1, v2, b2 % 64) == BytesValue(b0, b1, b2) by {
      assert b0 == b0 / 4 * 4 + b0 % 4 && b1 == b1 / 16 * 16 + b1 % 16 && b2 == b2 / 64 * 64 + b2 % 64;
    }
  }

  lemma EncodedQuantum(b0: Byte, b1: Byte, b2: Byte)
    ensures Encode([b0, b1, b2]) == Quantum(b0, b1, b2)
  {
    assert [b0, b1, b2][3..] == [];
    assert Quantum(b0, b1, b2) + "" == Quantum(b0, b1, b2);
  }

  /** Longer byte strings are encoded three bytes at a time. */
  lemma {:induction false} EncodeAppend(a: Bytes, b: Bytes)
    requires |a| % 3 == 0
    ensures Encode(a + b) == Encode(a) + Encode(b)
    decreases |a|
  {
    if a == [] {
      assert a + b == b;
    } else {
      assert (a + b)[3..] == a[3..] + b;
      EncodeAppend(a[3..], b);
      var q := Quantum(a[0], a[1], a[2]);
      assert q + (Encode(a[3..]) + Encode(b)) == q + Encode(a[3..]) + Encode(b);
    }
  }

  /** Line breaks, and only they, are left out wherever they stand. */
  lemma {:induction false} StripAppend(a: string, b: string)
    ensures StripNewlines(a + b) == StripNewlines(a) + StripNewlines(b)
    ensures a == "\n" || a == "\r" ==> StripNewlines(a) == ""
    ensures |a| == 1 && a != "\n" && a != "\r" ==> StripNewlines(a) == a
  {
    if a == "" {
      assert a + b == b;
    } else {
      assert (a + b)[1..] == a[1..] + b && (a + b)[0] == a[0];
      StripAppend(a[1..], b);
      assert [a[0]] + (StripNewlines(a[1..]) + StripNewlines(b)) == [a[0]] + StripNewlines(a[1..]) + StripNewlines(b);
      if |a| == 1 { assert a[1..] == ""; }
    }
  }

  /** Characters of the alphabet in groups of four, the last two of which may be padding. */
  predicate WellFormed(s: string) { |s| % 4 == 0 && forall i | 0 <= i < |s| :: WellFormedAt(s, i) }

  predicate WellFormedAt(s: string, i: nat)
    requires i < |s|
  {
    DecodeSextet(s[i]).Some? || (s[i] == '=' && (i == |s| - 1 || (i == |s| - 2 && s[|s| - 1] == '=')))
  }

  /** What can be decoded at all. */
  lemma {:induction false} DecodeDefined(s: string)
    ensures DecodeStripped(s).Some? <==> WellFormed(s)
  {
    if |s| >= 4 {
      DecodeDefined(s[4..]);
      if |s| % 4 == 0 { QuantumDefined(s); }
      RestWellFormed(s);
    }
  }

  lemma QuantumDefined(s: string)
    requires |s| >= 4 && |s| % 4 == 0
    ensures DecodeQuantum(s[0], s[1], s[2], s[3], |s| == 4).Some? <==>
            WellFormedAt(s, 0) && WellFormedAt(s, 1) && WellFormedAt(s, 2) && WellFormedAt(s, 3)
  {}

  lemma RestWellFormed(s: string)
    requires |s| >= 4
    ensures |s| % 4 != 0 ==> !WellFormed(s[4..]) && !WellFormed(s)
    ensures WellFormed(s) <==> WellFormed(s[4..]) && WellFormedAt(s, 0) && WellFormedAt(s, 1) && WellFormedAt(s, 2) && WellFormedAt(s, 3)
  {
    var r := s[4..];
    forall i | 0 <= i < |r| ensures WellFormedAt(s, i + 4) <==> WellFormedAt(r, i) {}
    if WellFormed(r) && WellFormedAt(s, 0) && WellFormedAt(s, 1) && WellFormedAt(s, 2) && WellFormedAt(s, 3) {
      forall i | 0 <= i < |s| ensures WellFormedAt(s, i) { if i >= 4 { assert WellFormedAt(r, i - 4); } }
    }
    if WellFormed(s) { forall i | 0 <= i < |r| ensures WellFormedAt(r, i) { assert WellFormedAt(s, i + 4); } }
  }

  lemma {:induction false} EncodedHasNoNewline(b: Bytes)
    ensures StripNewlines(Encode(b)) == Encode(b)
  {
    if |b| >= 3 {
      EncodedHasNoNewline(b[3..]);
      NoNewline(Quantum(b[0], b[1], b[2]), Encode(b[3..]));
    } else if b != [] {
      NoNewline(Encode(b), "");
      assert Encode(b) + "" == Encode(b);
    }
  }

  lemma {:induction false} NoNewline(x: string, s: string)
    requires forall i | 0 <= i < |x| :: x[i] != '\n' && x[i] != '\r'
    ensures StripNewlines(x + s) == x + StripNewlines(s)
  {
    if x == "" {
      assert x + s == s;
    } else {
      assert (x + s)[1..] == x[1..] + s && (x + s)[0] == x[0];
      NoNewline(x[1..], s);
      assert [x[0]] + (x[1..] + StripNewlines(s)) == x + StripNewlines(s);
    }
  }

  lemma Pack(a: int, c: int)
    ensures 0 <= c < 16 ==> (a * 16 + c) / 16 == a && (a * 16 + c) % 16 == c
    ensures 0 <= c < 4 ==> (a * 4 + c) / 4 == a && (a * 4 + c) % 4 == c
  {}

  lemma Sextets(b0: Byte, b1: Byte, b2: Byte)
    ensures var v1, v2 := b0 % 4 * 16 + b1 / 16, b1 % 16 * 4 + b2 / 64;
            && b0 / 4 * 4 + v1 / 16 == b0
            && v1 % 16 * 16 + v2 / 4 == b1
            && v2 % 4 * 64 + b2 % 64 == b2
  {
    Pack(b0 % 4, b1 / 16);
    Pack(b1 % 16, b2 / 64);
  }

  lemma QuantumOf(v0: Sextet, v1: Sextet, v2: Sextet, v3: Sextet, last: bool)
    ensures DecodeQuantum(EncodeSextet(v0), EncodeSextet(v1), EncodeSextet(v2), EncodeSextet(v3), last)
            == Some([v0 * 4 + v1 / 16, v1 % 16 * 16 + v2 / 4, v2 % 4 * 64 + v3])
  {
    SextetRead(v0); SextetRead(v1); SextetRead(v2); SextetRead(v3);
  }

  lemma QuantumRead(b0: Byte, b1: Byte, b2: Byte, last: bool)
    ensures DecodeQuantum(EncodeSextet(b0 / 4), EncodeSextet(b0 % 4 * 16 + b1 / 16),
                          EncodeSextet(b1 % 16 * 4 + b2 / 64), EncodeSextet(b2 % 64), last) == Some([b0, b1, b2])
  {
    Sextets(b0, b1, b2);
    QuantumOf(b0 / 4, b0 % 4 * 16 + b1 / 16, b1 % 16 * 4 + b2 / 64, b2 % 64, last);
  }

  lemma PaddedRead(b0: Byte, b1: Byte)
    ensures DecodeQuantum(EncodeSextet(b0 / 4), EncodeSextet(b0 % 4 * 16 + b1 / 16), EncodeSextet(b1 % 16 * 4), '=', true) == Some([b0, b1])
    ensures DecodeQuantum(EncodeSextet(b0 / 4), EncodeSextet(b0 % 4 * 16), '=', '=', true) == Some([b0])
  {
    Sextets(b0, b1, 0);
    Sextets(b0, 0, 0);
    SextetRead(b0 / 4);
    SextetRead(b0 % 4 * 16 + b1 / 16);
    SextetRead(b0 % 4 * 16);
    SextetRead(b1 % 16 * 4);
  }

  lemma QuantumFirst(q: string, s: string, x: Bytes, rest: Bytes)
    requires |q| == 4 && DecodeQuantum(q[0], q[1], q[2], q[3], s == "") == Some(x) && DecodeStripped(s) == Some(rest)
    ensures DecodeStripped(q + s) == Some(x + rest)
  {
    assert (q + s)[4..] == s;
  }

  lemma {:induction false} StrippedRead(b: Bytes)
    ensures DecodeStripped(Encode(b)) == Some(b)
  {
    if |b| >= 3 {
      StrippedRead(b[3..]);
      FullRead(b[0], b[1], b[2], Encode(b[3..]), b[3..]);
      ThreeAndRest(b);
    } else if |b| == 2 {
      LastRead(b[0], b[1]);
      assert b == [b[0], b[1]];
    } else if |b| == 1 {
      LastRead(b[0], 0);
      assert b == [b[0]];
    }
  }

  lemma ThreeAndRest(b: Bytes)
    requires |b| >= 3
    ensures [b[0], b[1], b[2]] + b[3..] == b
  {}

  lemma FullRead(b0: Byte, b1: Byte, b2: Byte, s: string, rest: Bytes)
    requires DecodeStripped(s) == Some(rest)
    ensures DecodeStripped(Quantum(b0, b1, b2) + s) == Some([b0, b1, b2] + rest)
  {
    QuantumRead(b0, b1, b2, s == "");
    QuantumFirst(Quantum(b0, b1, b2), s, [b0, b1, b2], rest);
  }

  lemma LastRead(b0: Byte, b1: Byte)
    ensures DecodeStripped(Quantum2(b0, b1)) == Some([b0, b1])
    ensures DecodeStripped(Quantum1(b0)) == Some([b0])
  {
    PaddedRead(b0, b1);
    QuantumFirst(Quantum2(b0, b1), "", [b0, b1], []);
    QuantumFirst(Quantum1(b0), "", [b0], []);
    assert Quantum2(b0, b1) + "" == Quantum2(b0, b1) && Quantum1(b0) + "" == Quantum1(b0);
    assert [b0, b1] + [] == [b0, b1] && [b0] + [] == [b0];
  }

  /** Decoding gives back every encoded byte string. */
  lemma RoundTrip(b: Bytes)
    ensures Decode(Encode(b)) == Some(b)
    ensures Encode(b) == "" <==> b == []
  {
    EncodedHasNoNewline(b);
    StrippedRead(b);
  }
}
