/** The printable forms that go into signed text and configuration: hex client ids,
    decimal integers and base64 byte strings. */
module TextEncodings {
  import opened Types

  predicate NewlineFree(s: string) {
    forall i :: 0 <= i < |s| ==> s[i] != '\n'
  }

  // ----- Hex client ids -----

  function HexDigit(n: nat): (c: char)
    requires n < 16
    ensures c != '\n'
  {
    if n < 10 then ('0' as int + n) as char else ('a' as int + n - 10) as char
  }

  /** `char::to_digit` in radix 16: both letter cases are digits. */
  function HexValue(c: char): (v: Option<nat>)
    ensures v.Some? ==> v.value < 16
  {
    if '0' <= c <= '9' then Some(c as int - '0' as int)
    else if 'a' <= c <= 'f' then Some(c as int - 'a' as int + 10)
    else if 'A' <= c <= 'F' then Some(c as int - 'A' as int + 10)
    else None
  }

  function Hex(b: Bytes): (s: string)
    ensures |s| == 2 * |b| && NewlineFree(s)
  {
    if b == [] then "" else [HexDigit(b[0] / 16), HexDigit(b[0] % 16)] + Hex(b[1..])
  }

  /** `u8::from_str_radix` on two characters, which also takes a leading plus sign. */
  function PairValue(c0: char, c1: char): Option<byte> {
    if c0 == '+' then HexValue(c1)
    else if HexValue(c0).None? || HexValue(c1).None? then None
    else Some(16 * HexValue(c0).value + HexValue(c1).value)
  }

  function Unhex(s: string): Option<Bytes>
    requires |s| % 2 == 0
  {
    if s == "" then Some([])
    else
      var first, rest := PairValue(s[0], s[1]), Unhex(s[2..]);
      if first.None? || rest.None? then None else Some([first.value] + rest.value)
  }

  predicate IsSpace(c: char) {
    c == ' ' || '\t' <= c <= '\r'
  }

  function TrimStart(s: string): string {
    if s != "" && IsSpace(s[0]) then TrimStart(s[1..]) else s
  }

  function TrimEnd(s: string): string {
    if s != "" && IsSpace(s[|s| - 1]) then TrimEnd(s[..|s| - 1]) else s
  }

  function Trim(s: string): string {
    TrimEnd(TrimStart(s))
  }

  /** The id a configured string stands for: trimmed, 64 characters, 32 valid pairs. */
  function ParsedId(s: string): Option<Bytes> {
    var t := Trim(s);
    if |t| != 64 then None else Unhex(t)
  }

  lemma Regroup(s: string, x: char, y: char, rest: string)
    ensures s + [x] + [y] + rest == s + ([x, y] + rest)
  {
    assert s + [x] + [y] == s + [x, y];
  }

  /** One more byte of the hex form. */
  lemma HexExtend(b: Bytes, i: nat, s: string)
    requires i < |b| && s + Hex(b[i..]) == Hex(b)
    ensures s + [HexDigit(b[i] / 16)] + [HexDigit(b[i] % 16)] + Hex(b[i + 1..]) == Hex(b)
  {
    Regroup(s, HexDigit(b[i] / 16), HexDigit(b[i] % 16), Hex(b[i + 1..]));
    var rest := b[i..];
    assert rest[0] == b[i] && rest[1..] == b[i + 1..];
    assert Hex(rest) == [HexDigit(rest[0] / 16), HexDigit(rest[0] % 16)] + Hex(rest[1..]);
  }

  method ToHex(id: Bytes) returns (s: string)
    ensures s == Hex(id)
  {
    s := "";
    assert id[0..] == id;
    for i := 0 to |id|
      invariant s + Hex(id[i..]) == Hex(id)
    {
      HexExtend(id, i, s);
      s := s + [HexDigit(id[i] / 16)];
      s := s + [HexDigit(id[i] % 16)];
    }
    assert id[|id|..] == [];
  }

  function Joined(front: Bytes, rest: Option<Bytes>): Option<Bytes> {
    if rest.None? then None else Some(front + rest.value)
  }

  method FromHex(text: string) returns (r: Option<Bytes>)
    ensures r == ParsedId(text)
  {
    var s := Trim(text);
    if |s| != 64 {
      return None;
    }
    var out: Bytes := [];
    assert s[2 * 0..] == s && (Unhex(s).Some? ==> out + Unhex(s).value == Unhex(s).value);
    for i := 0 to 32
      invariant |out| == i
      invariant Unhex(s) == Joined(out, Unhex(s[2 * i..]))
    {
      ghost var rest := s[2 * i..];
      assert rest[0] == s[2 * i] && rest[1] == s[2 * i + 1] && rest[2..] == s[2 * (i + 1)..];
      var v := PairValue(s[2 * i], s[2 * i + 1]);
      if v.None? {
        return None;
      }
      ghost var tail := Unhex(s[2 * (i + 1)..]);
      assert tail.Some? ==> out + ([v.value] + tail.value) == (out + [v.value]) + tail.value;
      out := out + [v.value];
    }
    assert s[64..] == "" && out + [] == out;
    r := Some(out);
  }

  lemma DigitsReadBack(v: byte)
    ensures PairValue(HexDigit(v / 16), HexDigit(v % 16)) == Some(v)
  {
  }

  lemma {:induction false} UnhexHex(b: Bytes)
    ensures Unhex(Hex(b)) == Some(b)
  {
    if b != [] {
      UnhexHex(b[1..]);
      DigitsReadBack(b[0]);
      var s := Hex(b);
      assert s[2..] == Hex(b[1..]) && s[0] == HexDigit(b[0] / 16) && s[1] == HexDigit(b[0] % 16);
      assert [b[0]] + b[1..] == b;
    }
  }

  lemma HexHasNoSpace(b: Bytes, i: nat)
    requires i < |Hex(b)|
    ensures !IsSpace(Hex(b)[i]) && HexValue(Hex(b)[i]).Some?
    decreases |b|
  {
    if i >= 2 {
      assert Hex(b)[i] == Hex(b[1..])[i - 2];
      HexHasNoSpace(b[1..], i - 2);
    }
  }

  /** The hex form of every 256-bit id parses back to that id. */
  lemma ParsedIdOfHex(id: Bytes)
    requires |id| == 32
    ensures ParsedId(Hex(id)) == Some(id)
  {
    UnhexHex(id);
    HexHasNoSpace(id, 0);
    HexHasNoSpace(id, 63);
  }

  /** Hex keys identify clients: different ids have different keys. */
  lemma HexInjective(a: Bytes, b: Bytes)
    requires Hex(a) == Hex(b)
    ensures a == b
  {
    UnhexHex(a);
    UnhexHex(b);
  }

  /** Byte `i` of an id is the two digits from 2i on, the high one first. */
  lemma {:induction false} HexAt(b: Bytes, i: nat)
    requires i < |b|
    ensures Hex(b)[2 * i] == "0123456789abcdef"[b[i] / 16] && Hex(b)[2 * i + 1] == "0123456789abcdef"[b[i] % 16]
    decreases i
  {
    if i > 0 {
      HexAt(b[1..], i - 1);
      assert Hex(b)[2..] == Hex(b[1..]);
    }
  }

  predicate AnyHexDigit(c: char) {
    '0' <= c <= '9' || 'a' <= c <= 'f' || 'A' <= c <= 'F'
  }

  /** Which texts parse: pairs of hex digits of either case, the first of which may be a plus sign. */
  lemma {:induction false} UnhexAcceptsIff(s: string)
    requires |s| % 2 == 0
    ensures Unhex(s).Some? <==>
              forall i :: 0 <= i < |s| ==> AnyHexDigit(s[i]) || (i % 2 == 0 && s[i] == '+')
    decreases |s|
  {
    if s != "" {
      var rest := s[2..];
      UnhexAcceptsIff(rest);
      assert forall i :: 2 <= i < |s| ==> s[i] == rest[i - 2];
      if Unhex(s).Some? {
        forall i | 0 <= i < |s| ensures AnyHexDigit(s[i]) || (i % 2 == 0 && s[i] == '+') {
          if i >= 2 {
            assert AnyHexDigit(rest[i - 2]) || (i % 2 == 0 && rest[i - 2] == '+');
          }
        }
      }
      if forall i :: 0 <= i < |s| ==> AnyHexDigit(s[i]) || (i % 2 == 0 && s[i] == '+') {
        assert AnyHexDigit(s[1]);
        forall i | 0 <= i < |rest| ensures AnyHexDigit(rest[i]) || (i % 2 == 0 && rest[i] == '+') {
          assert rest[i] == s[i + 2];
        }
      }
    }
  }

  predicate IsDigitOf(c: char, v: nat)
    requires v < 16
  {
    c == "0123456789abcdef"[v] || c == "0123456789ABCDEF"[v]
  }

  lemma PairIs(c0: char, c1: char)
    requires PairValue(c0, c1).Some?
    ensures var v := PairValue(c0, c1).value;
            && IsDigitOf(c1, v % 16)
            && if c0 == '+' then v < 16 else IsDigitOf(c0, v / 16)
  {
    DigitIs(c1);
    if c0 == '+' {
      assert PairValue(c0, c1) == HexValue(c1);
    } else {
      DigitIs(c0);
      SplitPair(HexValue(c0).value, HexValue(c1).value, PairValue(c0, c1).value);
    }
  }

  lemma SplitPair(h0: nat, h1: nat, v: nat)
    requires h1 < 16 && v == 16 * h0 + h1
    ensures v / 16 == h0 && v % 16 == h1
  {
  }

  lemma DigitIs(c: char)
    requires HexValue(c).Some?
    ensures IsDigitOf(c, HexValue(c).value)
  {
  }

  /** The bytes an accepted text stands for: each pair of digits is one byte, the high digit first,
      and a plus sign in its place counts as zero. */
  lemma {:induction false} UnhexAt(s: string, i: nat)
    requires |s| % 2 == 0 && Unhex(s).Some? && 2 * i < |s|
    ensures i < |Unhex(s).value| == |s| / 2
    ensures var v := Unhex(s).value[i];
            && IsDigitOf(s[2 * i + 1], v % 16)
            && if s[2 * i] == '+' then v < 16 else IsDigitOf(s[2 * i], v / 16)
    decreases |s|
  {
    UnhexLength(s);
    if i == 0 {
      PairIs(s[0], s[1]);
    } else {
      UnhexAt(s[2..], i - 1);
      assert Unhex(s).value[1..] == Unhex(s[2..]).value;
    }
  }

  lemma {:induction false} UnhexLength(s: string)
    requires |s| % 2 == 0 && Unhex(s).Some?
    ensures |Unhex(s).value| == |s| / 2
    decreases |s|
  {
    if s != "" {
      UnhexLength(s[2..]);
    }
  }

  /** A blank, or one of the five control characters from tab to carriage return. */
  predicate Blank(s: string) {
    forall i :: 0 <= i < |s| ==> s[i] == ' ' || 9 <= s[i] as int <= 13
  }

  lemma {:induction false} TrimStartCuts(s: string) returns (i: nat)
    ensures i <= |s| && TrimStart(s) == s[i..] && Blank(s[..i])
    ensures i < |s| ==> !Blank([s[i]])
    decreases |s|
  {
    if s != "" && IsSpace(s[0]) {
      i := TrimStartCuts(s[1..]);
      assert s[1..][i..] == s[i + 1..];
      assert s[..i + 1] == [s[0]] + s[1..][..i];
      i := i + 1;
    } else {
      i := 0;
      if s != "" {
        assert [s[0]][0] == s[0];
      }
    }
  }

  lemma {:induction false} TrimEndCuts(s: string) returns (j: nat)
    ensures j <= |s| && TrimEnd(s) == s[..j] && Blank(s[j..])
    ensures j > 0 ==> !Blank([s[j - 1]])
    decreases |s|
  {
    var n := |s|;
    if s != "" && IsSpace(s[n - 1]) {
      j := TrimEndCuts(s[..n - 1]);
      assert s[..n - 1][..j] == s[..j];
      assert s[j..] == s[..n - 1][j..] + [s[n - 1]];
    } else {
      j := n;
      if s != "" {
        assert [s[n - 1]][0] == s[n - 1];
      }
    }
  }

  /** Trimming cuts off all blanks at both ends, and nothing else. */
  lemma TrimCuts(s: string) returns (i: nat, j: nat)
    ensures i <= j <= |s| && Trim(s) == s[i..j] && Blank(s[..i]) && Blank(s[j..])
    ensures i < j ==> !Blank([s[i]]) && !Blank([s[j - 1]])
  {
    i := TrimStartCuts(s);
    var k := TrimEndCuts(s[i..]);
    j := i + k;
    assert s[i..][..k] == s[i..j] && s[i..][k..] == s[j..];
    if k > 0 {
      assert s[i..][k - 1] == s[j - 1];
    }
  }

  // ----- Which texts stand for one id -----

  predicate CanonicalDigit(c: char) {
    '0' <= c <= '9' || 'a' <= c <= 'f'
  }

  /** The digit a character stands for: letters in lower case, and a plus sign as a zero. */
  function NormalDigit(c: char): char {
    if c == '+' then '0' else if 'A' <= c <= 'F' then (c as int - 'A' as int + 'a' as int) as char else c
  }

  function Normal(s: string): (n: string)
    ensures |n| == |s| && forall i :: 0 <= i < |s| ==> n[i] == NormalDigit(s[i])
  {
    if s == "" then "" else [NormalDigit(s[0])] + Normal(s[1..])
  }

  lemma NormalPair(c0: char, c1: char)
    requires PairValue(c0, c1).Some?
    ensures var v := PairValue(c0, c1).value;
            HexDigit(v / 16) == NormalDigit(c0) && HexDigit(v % 16) == NormalDigit(c1)
  {
  }

  /** The normal form of an accepted text is the hex form of what it parses to. */
  lemma {:induction false} NormalIsHex(s: string)
    requires |s| % 2 == 0 && Unhex(s).Some?
    ensures Normal(s) == Hex(Unhex(s).value)
    decreases |s|
  {
    if s != "" {
      NormalIsHex(s[2..]);
      NormalPair(s[0], s[1]);
      var b := Unhex(s).value;
      assert b[1..] == Unhex(s[2..]).value;
      assert Normal(s) == [NormalDigit(s[0]), NormalDigit(s[1])] + Normal(s[2..]);
    }
  }

  lemma {:induction false} HexIsCanonical(b: Bytes)
    ensures forall i :: 0 <= i < |Hex(b)| ==> CanonicalDigit(Hex(b)[i])
  {
    if b != [] {
      HexIsCanonical(b[1..]);
    }
  }

  lemma {:induction false} CanonicalParses(s: string)
    requires |s| % 2 == 0 && forall i :: 0 <= i < |s| ==> CanonicalDigit(s[i])
    ensures Unhex(s).Some?
    decreases |s|
  {
    if s != "" {
      CanonicalParses(s[2..]);
    }
  }

  /** A text is the hex form of what it parses to if and only if it consists of digits and
      lower-case letters. */
  lemma {:induction false} HexUnhexIff(s: string)
    requires |s| % 2 == 0
    ensures Unhex(s).Some? && Hex(Unhex(s).value) == s <==> forall i :: 0 <= i < |s| ==> CanonicalDigit(s[i])
  {
    if Unhex(s).Some? && Hex(Unhex(s).value) == s {
      HexIsCanonical(Unhex(s).value);
    }
    if forall i :: 0 <= i < |s| ==> CanonicalDigit(s[i]) {
      CanonicalParses(s);
      NormalIsHex(s);
      assert Normal(s) == s;
    }
  }

  /** Two accepted texts stand for one id if and only if their normal forms are equal. */
  lemma SameBytesIff(s: string, t: string)
    requires |s| % 2 == 0 && |t| % 2 == 0 && Unhex(s).Some? && Unhex(t).Some?
    ensures Unhex(s) == Unhex(t) <==> Normal(s) == Normal(t)
  {
    NormalIsHex(s);
    NormalIsHex(t);
    if Normal(s) == Normal(t) {
      HexInjective(Unhex(s).value, Unhex(t).value);
    }
  }

  /** The same for configured texts, which are trimmed first. */
  lemma SameIdIff(s: string, t: string)
    requires ParsedId(s).Some? && ParsedId(t).Some?
    ensures ParsedId(s) == ParsedId(t) <==> Normal(Trim(s)) == Normal(Trim(t))
  {
    SameBytesIff(Trim(s), Trim(t));
  }

  /** `str::to_lowercase` on ASCII text: what the configuration compares to find duplicates. */
  function Lower(s: string): (l: string)
    ensures |l| == |s|
  {
    if s == "" then ""
    else [if 'A' <= s[0] <= 'Z' then (s[0] as int - 'A' as int + 'a' as int) as char else s[0]] + Lower(s[1..])
  }

  /** The duplicate check misses two texts for one id, when one writes a leading zero of a pair
      as a plus sign: whatever the other 31 bytes are, both texts are accepted, as one id. */
  lemma PlusTextsCollide(rest: Bytes)
    requires |rest| == 31
    ensures var s, t := "+1" + Hex(rest), "01" + Hex(rest);
            && |s| == |t| == 64 && Lower(s) != Lower(t)
            && ParsedId(s) == ParsedId(t) == Some([1] + rest)
  {
    var h := Hex(rest);
    var s, t := "+1" + h, "01" + h;
    UnhexHex(rest);
    HexHasNoSpace(rest, 61);
    assert s[2..] == h && t[2..] == h;
    assert s[63] == h[61] && t[63] == h[61];
    assert TrimStart(s) == s && TrimStart(t) == t;
    assert Lower(s)[0] == '+' && Lower(t)[0] == '0';
  }

  /** Two concrete texts: a one and 62 more zeros, the first zero written as a plus sign. */
  lemma TwoTextsOneId()
    ensures exists s, t :: |s| == |t| == 64 && Lower(s) != Lower(t) && ParsedId(s).Some? && ParsedId(s) == ParsedId(t)
  {
    var rest := seq(31, _ => 0);
    PlusTextsCollide(rest);
    var s, t := "+1" + Hex(rest), "01" + Hex(rest);
    assert |s| == |t| == 64 && Lower(s) != Lower(t) && ParsedId(s).Some? && ParsedId(s) == ParsedId(t);
  }

  // ----- Decimal integers -----

  function Digits(n: nat): (s: string)
    ensures s != "" && forall i :: 0 <= i < |s| ==> '0' <= s[i] <= '9'
    ensures n > 0 ==> s[0] != '0'
  {
    if n < 10 then [('0' as int + n) as char] else Digits(n / 10) + [('0' as int + n % 10) as char]
  }

  function Decimal(n: int): (s: string)
    ensures NewlineFree(s)
  {
    if n < 0 then ['-'] + Digits(-n) else Digits(n)
  }

  function DigitsValue(s: string): int {
    if s == "" then 0 else 10 * DigitsValue(s[..|s| - 1]) + (s[|s| - 1] as int - '0' as int)
  }

  lemma {:induction false} DigitsValueOf(n: nat)
    ensures DigitsValue(Digits(n)) == n
  {
    var s := Digits(n);
    if n >= 10 {
      DigitsValueOf(n / 10);
      assert s[..|s| - 1] == Digits(n / 10);
    } else {
      assert s[..|s| - 1] == "";
    }
  }

  /** What a decimal text says in powers of ten, most significant digit first: no leading zero,
      and a minus sign in front of a negative integer only. */
  lemma DecimalSays(n: int)
    ensures var s := Decimal(n);
            if n < 0 then s[0] == '-' && s[1] != '0' && DigitsValue(s[1..]) == -n
            else s[0] != '-' && (n > 0 ==> s[0] != '0') && DigitsValue(s) == n
  {
    DigitsValueOf(if n < 0 then -n else n);
    if n < 0 {
      assert Decimal(n)[1..] == Digits(-n);
    }
  }

  lemma DecimalInjective(m: int, n: int)
    requires Decimal(m) == Decimal(n)
    ensures m == n
  {
    DigitsValueOf(if m < 0 then -m else m);
    DigitsValueOf(if n < 0 then -n else n);
    assert m < 0 <==> Decimal(m)[0] == '-';
    assert n < 0 <==> Decimal(n)[0] == '-';
    if m < 0 {
      assert Decimal(m)[1..] == Digits(-m) && Decimal(n)[1..] == Digits(-n);
    }
  }

  // ----- Base64 with padding, section 4 of RFC 4648 -----

  function Sextet(n: nat): (c: char)
    requires n < 64
    ensures c != '=' && c != '\n'
  {
    if n < 26 then ('A' as int + n) as char
    else if n < 52 then ('a' as int + n - 26) as char
    else if n < 62 then ('0' as int + n - 52) as char
    else if n == 62 then '+' else '/'
  }

  function Group(b0: byte, b1: byte, b2: byte): (s: string)
    ensures |s| == 4
  {
    [Sextet(b0 / 4), Sextet((b0 % 4) * 16 + b1 / 16), Sextet((b1 % 16) * 4 + b2 / 64), Sextet(b2 % 64)]
  }

  function Base64(b: Bytes): (s: string)
    ensures NewlineFree(s)
    ensures |b| > 0 ==> |s| >= 4
    ensures b == [] ==> s == ""
  {
    if |b| == 0 then ""
    else if |b| == 1 then Group(b[0], 0, 0)[..2] + "=="
    else if |b| == 2 then Group(b[0], b[1], 0)[..3] + "="
    else Group(b[0], b[1], b[2]) + Base64(b[3..])
  }

  /** The alphabet: capitals, small letters, digits, plus and slash. */
  lemma SextetIs(n: nat)
    requires n < 64
    ensures n < 26 ==> Sextet(n) == "ABCDEFGHIJKLMNOPQRSTUVWXYZ"[n]
    ensures 26 <= n < 52 ==> Sextet(n) == "abcdefghijklmnopqrstuvwxyz"[n - 26]
    ensures 52 <= n ==> Sextet(n) == "0123456789+/"[n - 52]
  {
  }

  /** The four digits of a group are those of one number of 24 bits, the most significant first. */
  lemma GroupIs(b0: byte, b1: byte, b2: byte) returns (d0: nat, d1: nat, d2: nat, d3: nat)
    ensures d0 < 64 && d1 < 64 && d2 < 64 && d3 < 64
    ensures 0x4_0000 * d0 + 0x1000 * d1 + 64 * d2 + d3
         == 0x1_0000 * (b0 as int) + 0x100 * (b1 as int) + (b2 as int)
    ensures Group(b0, b1, b2) == [Sextet(d0), Sextet(d1), Sextet(d2), Sextet(d3)]
  {
    d0, d1, d2, d3 := b0 / 4, (b0 % 4) * 16 + b1 / 16, (b1 % 16) * 4 + b2 / 64, b2 % 64;
  }

  /** Byte `i` of a byte string, or zero behind its end. */
  function ByteOr0(b: Bytes, i: nat): byte {
    if i < |b| then b[i] else 0
  }

  /** Three bytes are written as the four digits of their group; what is missing of the last
      three bytes is zero, and the digits that say nothing are equals signs. */
  lemma {:induction false} Base64At(b: Bytes, k: nat)
    requires 3 * k < |b|
    ensures var s, g := Base64(b), Group(b[3 * k], ByteOr0(b, 3 * k + 1), ByteOr0(b, 3 * k + 2));
            && 4 * k + 4 <= |s| && s[4 * k] == g[0] && s[4 * k + 1] == g[1]
            && s[4 * k + 2] == (if 3 * k + 1 < |b| then g[2] else '=')
            && s[4 * k + 3] == (if 3 * k + 2 < |b| then g[3] else '=')
    decreases k
  {
    if k == 0 {
      FirstGroup(b);
    } else {
      var rest, s, j := b[3..], Base64(b), k - 1;
      Base64At(rest, j);
      assert s[4..] == Base64(rest);
      assert s[4 * k] == s[4..][4 * j] && s[4 * k + 1] == s[4..][4 * j + 1];
      assert s[4 * k + 2] == s[4..][4 * j + 2] && s[4 * k + 3] == s[4..][4 * j + 3];
      assert b[3 * k] == rest[3 * j];
    }
  }

  lemma {:induction false} Base64Length(b: Bytes)
    ensures |Base64(b)| == 4 * ((|b| + 2) / 3)
    decreases |b|
  {
    if |b| > 2 {
      var rest := b[3..];
      Base64Length(rest);
      assert |Base64(b)| == 4 + |Base64(rest)|;
      assert (|b| + 2) / 3 == (|rest| + 2) / 3 + 1;
    } else {
      assert |Base64(b)| == if b == [] then 0 else 4;
    }
  }

  lemma SextetInjective(m: nat, n: nat)
    requires m < 64 && n < 64 && Sextet(m) == Sextet(n)
    ensures m == n
  {
  }

  lemma GroupInjective(a0: byte, a1: byte, a2: byte, b0: byte, b1: byte, b2: byte)
    requires Group(a0, a1, a2) == Group(b0, b1, b2)
    ensures a0 == b0 && a1 == b1 && a2 == b2
  {
    var s, t := Group(a0, a1, a2), Group(b0, b1, b2);
    assert s[0] == t[0] && s[1] == t[1] && s[2] == t[2] && s[3] == t[3];
    SextetInjective(a0 / 4, b0 / 4);
    SextetInjective((a0 % 4) * 16 + a1 / 16, (b0 % 4) * 16 + b1 / 16);
    SextetInjective((a1 % 16) * 4 + a2 / 64, (b1 % 16) * 4 + b2 / 64);
    SextetInjective(a2 % 64, b2 % 64);
  }

  /** The first four characters: a full group, or a short one padded with equals signs. */
  lemma FirstGroup(b: Bytes)
    requires b != []
    ensures var s, g := Base64(b), Group(b[0], if |b| > 1 then b[1] else 0, if |b| > 2 then b[2] else 0);
            && s[0] == g[0] && s[1] == g[1]
            && s[2] == (if |b| > 1 then g[2] else '=') && s[3] == (if |b| > 2 then g[3] else '=')
  {
  }

  lemma {:induction false} Base64Injective(a: Bytes, b: Bytes)
    requires Base64(a) == Base64(b)
    ensures a == b
  {
    if a == [] || b == [] {
      assert |Base64(a)| == |Base64(b)|;
    } else {
      FirstGroup(a);
      FirstGroup(b);
      var s := Base64(a);
      assert |a| > 2 <==> s[3] != '=';
      assert |b| > 2 <==> s[3] != '=';
      assert |a| > 1 <==> s[2] != '=';
      assert |b| > 1 <==> s[2] != '=';
      var g := Group(a[0], if |a| > 1 then a[1] else 0, if |a| > 2 then a[2] else 0);
      var h := Group(b[0], if |b| > 1 then b[1] else 0, if |b| > 2 then b[2] else 0);
      assert g[0] == h[0] && g[1] == h[1];
      assert g[2] == h[2] && g[3] == h[3];
      assert g == h;
      GroupInjective(a[0], if |a| > 1 then a[1] else 0, if |a| > 2 then a[2] else 0,
                     b[0], if |b| > 1 then b[1] else 0, if |b| > 2 then b[2] else 0);
      if |a| > 2 {
        assert Base64(a)[4..] == Base64(a[3..]) && Base64(b)[4..] == Base64(b[3..]);
        Base64Injective(a[3..], b[3..]);
        assert a == [a[0], a[1], a[2]] + a[3..] && b == [b[0], b[1], b[2]] + b[3..];
      }
    }
  }
}
