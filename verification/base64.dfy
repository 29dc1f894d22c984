/** The base64 and hex texts of a key, and the key type at the head of its blob. */
module Base64 {
  import opened Text

  type byte = b: int | 0 <= b < 256

  predicate IsDigit64(c: char) {
    'A' <= c <= 'Z' || 'a' <= c <= 'z' || '0' <= c <= '9' || c == '+' || c == '/'
  }

  /** The base64 digit for a six-bit number. */
  function Digit64(n: int): (c: char)
    requires 0 <= n < 64
    ensures IsDigit64(c) && Number64(c) == n
  {
    if n < 26 then 'A' + n as char
    else if n < 52 then 'a' + (n - 26) as char
    else if n < 62 then '0' + (n - 52) as char
    else if n == 62 then '+' else '/'
  }

  function Number64(c: char): int
    requires IsDigit64(c)
  {
    if 'A' <= c <= 'Z' then c as int - 'A' as int
    else if 'a' <= c <= 'z' then c as int - 'a' as int + 26
    else if '0' <= c <= '9' then c as int - '0' as int + 52
    else if c == '+' then 62 else 63
  }

  function EncodeThree(a: byte, b: byte, c: byte): (s: string)
    ensures |s| == 4
  {
    [Digit64(a / 4), Digit64(a % 4 * 16 + b / 16), Digit64(b % 16 * 4 + c / 64), Digit64(c % 64)]
  }

  /** `key.toString('base64')`. */
  function Encode(bs: seq<byte>): string {
    if |bs| == 0 then ""
    else if |bs| == 1 then EncodeThree(bs[0], 0, 0)[..2] + "=="
    else if |bs| == 2 then EncodeThree(bs[0], bs[1], 0)[..3] + "="
    else EncodeThree(bs[0], bs[1], bs[2]) + Encode(bs[3..])
  }

  lemma {:induction false} EncodeShape(bs: seq<byte>)
    ensures |Encode(bs)| == (|bs| + 2) / 3 * 4
    ensures forall i :: 0 <= i < |Encode(bs)| ==> IsDigit64(Encode(bs)[i]) || Encode(bs)[i] == '='
  {
    hide Digit64, IsDigit64;
    if |bs| > 2 { EncodeShape(bs[3..]); }
  }

  /** The digits run from `A`, from `a` and from `0`, and end in `+` and `/` (section 4 of RFC 4648). */
  lemma AlphabetExactly()
    ensures Digit64(0) == 'A' && Digit64(25) == 'Z' && Digit64(26) == 'a' && Digit64(51) == 'z'
    ensures Digit64(52) == '0' && Digit64(61) == '9' && Digit64(62) == '+' && Digit64(63) == '/'
    ensures forall n :: 0 <= n < 62 && n != 25 && n != 51 && n != 61 ==>
      Digit64(n + 1) as int == Digit64(n) as int + 1
  {
  }

  /** Four digits are the 24 bits of three bytes, most significant first. */
  lemma ThreeBytesExactly(a: byte, b: byte, c: byte)
    ensures var s := EncodeThree(a, b, c);
      && (forall i :: 0 <= i < 4 ==> IsDigit64(s[i]))
      && Number64(s[0]) * 0x4_0000 + Number64(s[1]) * 0x1000 + Number64(s[2]) * 0x40 + Number64(s[3])
         == a * 0x1_0000 + b * 0x100 + c
  {
    hide Digit64, Number64;
    assert a == a / 4 * 4 + a % 4 && b == b / 16 * 16 + b % 16 && c == c / 64 * 64 + c % 64;
  }

  /** Each three bytes give the four digits in their place; one or two left over are padded. */
  lemma {:induction false} BlocksExactly(bs: seq<byte>, i: nat)
    requires 3 * i < |bs|
    ensures |Encode(bs)| >= 4 * i + 4
    ensures var block := Encode(bs)[4 * i..4 * i + 4];
      if |bs| == 3 * i + 1 then block == EncodeThree(bs[3 * i], 0, 0)[..2] + "=="
      else if |bs| == 3 * i + 2 then block == EncodeThree(bs[3 * i], bs[3 * i + 1], 0)[..3] + "="
      else block == EncodeThree(bs[3 * i], bs[3 * i + 1], bs[3 * i + 2])
  {
    hide EncodeThree;
    if i > 0 {
      BlocksExactly(bs[3..], i - 1);
      var first, rest := EncodeThree(bs[0], bs[1], bs[2]), Encode(bs[3..]);
      assert Encode(bs) == first + rest;
      assert (first + rest)[4 * i..4 * i + 4] == rest[4 * (i - 1)..4 * (i - 1) + 4];
    }
  }

  lemma DigitInjective(m: int, n: int)
    requires 0 <= m < 64 && 0 <= n < 64 && Digit64(m) == Digit64(n)
    ensures m == n
  {
    assert Number64(Digit64(m)) == m && Number64(Digit64(n)) == n;
  }

  lemma PairsEqual(hi: int, lo: int, hi': int, lo': int, base: int)
    requires base in {4, 16} && 0 <= lo < base && 0 <= lo' < base && hi * base + lo == hi' * base + lo'
    ensures hi == hi' && lo == lo'
  {
  }

  lemma FirstTwo(a: byte, b: byte, c: byte, x: byte, y: byte, z: byte)
    requires EncodeThree(a, b, c)[0] == EncodeThree(x, y, z)[0] && EncodeThree(a, b, c)[1] == EncodeThree(x, y, z)[1]
    ensures a == x && b / 16 == y / 16
  {
    hide Digit64;
    DigitInjective(a / 4, x / 4);
    DigitInjective(a % 4 * 16 + b / 16, x % 4 * 16 + y / 16);
    PairsEqual(a % 4, b / 16, x % 4, y / 16, 16);
  }

  lemma FirstThree(a: byte, b: byte, c: byte, x: byte, y: byte, z: byte)
    requires EncodeThree(a, b, c)[0] == EncodeThree(x, y, z)[0] && EncodeThree(a, b, c)[1] == EncodeThree(x, y, z)[1]
    requires EncodeThree(a, b, c)[2] == EncodeThree(x, y, z)[2]
    ensures a == x && b == y && c / 64 == z / 64
  {
    hide Digit64;
    FirstTwo(a, b, c, x, y, z);
    DigitInjective(b % 16 * 4 + c / 64, y % 16 * 4 + z / 64);
    PairsEqual(b % 16, c / 64, y % 16, z / 64, 4);
  }

  lemma AllFour(a: byte, b: byte, c: byte, x: byte, y: byte, z: byte)
    requires EncodeThree(a, b, c) == EncodeThree(x, y, z)
    ensures a == x && b == y && c == z
  {
    hide Digit64;
    FirstThree(a, b, c, x, y, z);
    DigitInjective(c % 64, z % 64);
  }

  /** Two keys with the same base64 text are the same key. */
  lemma {:induction false} EncodeInjective(a: seq<byte>, b: seq<byte>)
    requires Encode(a) == Encode(b)
    ensures a == b
  {
    EncodeShape(a);
    EncodeShape(b);
    var s, t := Encode(a), Encode(b);
    if |a| == 0 || |b| == 0 {
    } else if |a| > 2 && |b| > 2 {
      assert s[..4] == EncodeThree(a[0], a[1], a[2]) && t[..4] == EncodeThree(b[0], b[1], b[2]);
      AllFour(a[0], a[1], a[2], b[0], b[1], b[2]);
      assert s[4..] == Encode(a[3..]) && t[4..] == Encode(b[3..]);
      EncodeInjective(a[3..], b[3..]);
      assert a == [a[0], a[1], a[2]] + a[3..] && b == [b[0], b[1], b[2]] + b[3..];
    } else {
      EncodeTail(a, b);
    }
  }

  /** The padding says how many bytes the last block holds. */
  lemma PaddingTells(a: seq<byte>)
    requires 1 <= |a| <= 3
    ensures |Encode(a)| == 4
    ensures Encode(a)[3] == '=' <==> |a| <= 2
    ensures Encode(a)[2] == '=' <==> |a| == 1
    ensures Encode(a)[..2] == EncodeThree(a[0], if |a| >= 2 then a[1] else 0, if |a| == 3 then a[2] else 0)[..2]
    ensures |a| >= 2 ==> Encode(a)[..3] == EncodeThree(a[0], a[1], if |a| == 3 then a[2] else 0)[..3]
  {
    hide Digit64;
    assert !IsDigit64('=');
    if |a| == 3 { assert a[3..] == []; }
  }

  lemma EncodeTail(a: seq<byte>, b: seq<byte>)
    requires Encode(a) == Encode(b) && 0 < |a| && 0 < |b| && (|a| <= 2 || |b| <= 2)
    ensures a == b
  {
    EncodeShape(a);
    EncodeShape(b);
    PaddingTells(a);
    PaddingTells(b);
    assert |a| == |b|;
    if |a| == 1 { OneByte(a, b); } else { TwoBytes(a, b); }
  }

  lemma OneByte(a: seq<byte>, b: seq<byte>)
    requires |a| == |b| == 1 && Encode(a) == Encode(b)
    ensures a == b
  {
    hide EncodeThree, IsDigit64;
    var s, t := Encode(a), Encode(b);
    assert s[0] == EncodeThree(a[0], 0, 0)[0] && s[1] == EncodeThree(a[0], 0, 0)[1];
    assert t[0] == EncodeThree(b[0], 0, 0)[0] && t[1] == EncodeThree(b[0], 0, 0)[1];
    FirstTwo(a[0], 0, 0, b[0], 0, 0);
  }

  lemma TwoBytes(a: seq<byte>, b: seq<byte>)
    requires |a| == |b| == 2 && Encode(a) == Encode(b)
    ensures a == b
  {
    hide EncodeThree, IsDigit64;
    var s, t := Encode(a), Encode(b);
    var p, q := EncodeThree(a[0], a[1], 0), EncodeThree(b[0], b[1], 0);
    assert s[0] == p[0] && s[1] == p[1] && s[2] == p[2];
    assert t[0] == q[0] && t[1] == q[1] && t[2] == q[2];
    FirstThree(a[0], a[1], 0, b[0], b[1], 0);
  }

  /** The text of a key is one shell word: not empty and without white space. */
  lemma EncodeIsOneWord(bs: seq<byte>)
    requires bs != []
    ensures Encode(bs) != "" && forall c :: c in Encode(bs) ==> !IsSpace(c)
  {
    EncodeShape(bs);
  }

  function HexChar(n: int): char
    requires 0 <= n < 16
  {
    if n < 10 then '0' + n as char else 'a' + (n - 10) as char
  }

  /** `key.toString('hex')`. */
  function Hex(bs: seq<byte>): (s: string)
    ensures |s| == 2 * |bs|
  {
    if bs == [] then "" else [HexChar(bs[0] / 16), HexChar(bs[0] % 16)] + Hex(bs[1..])
  }

  /** The number a hexadecimal digit stands for, in either case. */
  function Nibble(c: char): Option<int> {
    if '0' <= c <= '9' then Some(c as int - '0' as int)
    else if 'a' <= c <= 'f' then Some(c as int - 'a' as int + 10)
    else if 'A' <= c <= 'F' then Some(c as int - 'A' as int + 10)
    else None
  }

  /** The text is two hexadecimal digits for each byte. */
  ghost predicate SpellsInHex(hex: string, bs: seq<byte>) {
    |hex| == 2 * |bs| && forall i :: 0 <= i < |bs| ==>
      Nibble(hex[2 * i]) == Some(bs[i] / 16) && Nibble(hex[2 * i + 1]) == Some(bs[i] % 16)
  }

  lemma HexCharExactly(c: char, n: int)
    requires 0 <= n < 16
    ensures ToLowerChar(c) == HexChar(n) <==> Nibble(c) == Some(n)
  {
  }

  lemma {:induction false} HexAt(bs: seq<byte>, i: nat)
    requires i < |bs|
    ensures Hex(bs)[2 * i] == HexChar(bs[i] / 16) && Hex(bs)[2 * i + 1] == HexChar(bs[i] % 16)
  {
    hide HexChar;
    if i > 0 {
      HexAt(bs[1..], i - 1);
      assert Hex(bs)[2..] == Hex(bs[1..]);
      assert Hex(bs)[2 * i] == Hex(bs)[2..][2 * (i - 1)] && Hex(bs)[2 * i + 1] == Hex(bs)[2..][2 * (i - 1) + 1];
    }
  }

  /** A text is a key's in hexadecimal, in either case, exactly when it spells its bytes. */
  lemma HexExactly(hex: string, bs: seq<byte>)
    ensures ToLower(hex) == Hex(bs) <==> SpellsInHex(hex, bs)
  {
    var low, all := ToLower(hex), Hex(bs);
    hide Hex, HexChar, Nibble, ToLower, ToLowerChar;
    if |hex| == 2 * |bs| {
      forall i | 0 <= i < |bs|
        ensures low[2 * i] == all[2 * i] <==> Nibble(hex[2 * i]) == Some(bs[i] / 16)
        ensures low[2 * i + 1] == all[2 * i + 1] <==> Nibble(hex[2 * i + 1]) == Some(bs[i] % 16)
      {
        HexAt(bs, i);
        HexCharExactly(hex[2 * i], bs[i] / 16);
        HexCharExactly(hex[2 * i + 1], bs[i] % 16);
      }
      if SpellsInHex(hex, bs) {
        forall k | 0 <= k < |low| ensures low[k] == all[k] {
          var i := k / 2;
          assert Nibble(hex[2 * i]) == Some(bs[i] / 16) && Nibble(hex[2 * i + 1]) == Some(bs[i] % 16);
          assert k == 2 * i || k == 2 * i + 1;
        }
      }
    }
  }

  /** `keyTypeFromBlob`: the length-prefixed string at the head, if it is printable ASCII. */
  function KeyTypeFromBlob(key: seq<byte>): (t: Option<string>)
    ensures t.Some? ==> 1 <= |t.value| <= 64 && |key| >= 4 + |t.value|
    ensures t.Some? ==> forall c :: c in t.value ==> ' ' <= c <= '~'
  {
    if |key| < 4 then None else
      var len: int := (key[0] as int) * 0x100_0000 + (key[1] as int) * 0x1_0000 + (key[2] as int) * 0x100
        + key[3] as int;
      if len == 0 || len > 64 || |key| < 4 + len then None
      else if forall i :: 4 <= i < 4 + len ==> 0x20 <= key[i] <= 0x7E
      then Some(seq(len, i requires 0 <= i < len => key[4 + i] as char))
      else None
  }

  predicate Printable(t: string) { forall c :: c in t ==> ' ' <= c <= '~' }

  function Bytes(t: string): (bs: seq<byte>)
    requires Printable(t)
    ensures |bs| == |t| && forall i :: 0 <= i < |t| ==> bs[i] as int == t[i] as int
  {
    if t == "" then [] else
      assert t[0] in t && forall c :: c in t[1..] ==> c in t;
      var b: byte := t[0] as int;
      [b] + Bytes(t[1..])
  }

  /** A text as SSH writes it: four bytes of length, most significant first, and its bytes (section 5 of RFC 4251). */
  function WireString(t: string): seq<byte>
    requires |t| < 256 && Printable(t)
  {
    var len: byte := |t|;
    [0, 0, 0, len] + Bytes(t)
  }

  lemma ReadsAs(key: seq<byte>, t: string)
    requires 1 <= |t| <= 64 && Printable(t) && |key| >= 4 + |t|
    requires key[0] == 0 && key[1] == 0 && key[2] == 0 && key[3] == |t|
    requires forall i :: 0 <= i < |t| ==> t[i] as int == key[4 + i] as int
    ensures KeyTypeFromBlob(key) == Some(t)
  {
    forall i | 4 <= i < 4 + |t| ensures 0x20 <= key[i] <= 0x7E {
      assert t[i - 4] in t && t[i - 4] as int == key[4 + (i - 4)] as int;
    }
    assert KeyTypeFromBlob(key).value == t;
  }

  /** A type is read exactly when the blob begins with it as SSH writes a text of 1 to 64 printable characters. */
  lemma KeyTypeExactly(key: seq<byte>, t: string)
    ensures KeyTypeFromBlob(key) == Some(t) <==> 1 <= |t| <= 64 && Printable(t) && WireString(t) <= key
  {
    if KeyTypeFromBlob(key) == Some(t) {
      var w := WireString(t);
      assert key[0] == 0 && key[1] == 0 && key[2] == 0 && key[3] == |t|;
      forall i | 0 <= i < |w| ensures w[i] == key[i] {
        if i >= 4 { assert t[i - 4] == key[4 + (i - 4)] as char; }
      }
    }
    if 1 <= |t| <= 64 && Printable(t) && WireString(t) <= key {
      var w := WireString(t);
      assert forall i :: 0 <= i < |w| ==> key[i] == w[i];
      forall i | 0 <= i < |t| ensures t[i] as int == key[4 + i] as int {
        assert w[4 + i] == key[4 + i] && w[4 + i] == Bytes(t)[i];
      }
      ReadsAs(key, t);
    }
  }
}
