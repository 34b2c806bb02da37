/** Encodings of text as code units. A `char` is a Unicode scalar value, so a `string` is valid text. */
module Unicode {
  /** No code word is a prefix of another's. */
  ghost predicate PrefixCode<T(!new)>(code: char -> seq<T>) {
    && (forall c :: code(c) != [])
    && forall c, d :: code(c) <= code(d) ==> c == d
  }

  function Encode<T>(code: char -> seq<T>, s: string): seq<T> {
    if s == [] then [] else code(s[0]) + Encode(code, s[1..])
  }

  lemma EncodeOne<T>(code: char -> seq<T>, c: char)
    ensures Encode(code, [c]) == code(c)
  {
    assert Encode(code, [c][1..]) == [];
    assert code(c) + [] == code(c);
  }

  lemma PrefixesAreComparable<T>(u: seq<T>, x: seq<T>, v: seq<T>, y: seq<T>)
    requires u + x == v + y
    ensures u <= v || v <= u
  {
    assert |u| <= |v| ==> u == (v + y)[..|u|];
    assert |v| <= |u| ==> v == (u + x)[..|v|];
  }

  lemma SplitCode<T(!new)>(code: char -> seq<T>, c: char, x: seq<T>, d: char, y: seq<T>)
    requires PrefixCode(code) && code(c) + x == code(d) + y
    ensures c == d && x == y
  {
    PrefixesAreComparable(code(c), x, code(d), y);
    assert x == (code(c) + x)[|code(c)|..] == y;
  }

  lemma EncodeIsEmpty<T(!new)>(code: char -> seq<T>, s: string)
    requires PrefixCode(code)
    ensures Encode(code, s) == [] <==> s == []
  {
    if s != [] {
      assert code(s[0]) != [];
    }
  }

  /** Text is recovered from its encoding. */
  lemma {:induction false} EncodeIsInjective<T(!new)>(code: char -> seq<T>, a: string, b: string)
    requires PrefixCode(code) && Encode(code, a) == Encode(code, b)
    ensures a == b
  {
    EncodeIsEmpty(code, a);
    EncodeIsEmpty(code, b);
    if a != [] {
      SplitCode(code, a[0], Encode(code, a[1..]), b[0], Encode(code, b[1..]));
      EncodeIsInjective(code, a[1..], b[1..]);
    }
  }

  // ---------------------------------------------------------------------------------------------
  // UTF-16

  function Units(c: char): seq<nat> {
    var n := c as nat;
    if n < 0x10000 then [n] else [0xD800 + (n - 0x10000) / 0x400, 0xDC00 + (n - 0x10000) % 0x400]
  }

  lemma UnitsIsPrefixCode()
    ensures PrefixCode(Units)
  {
    forall c, d | Units(c) <= Units(d) ensures c == d {
      assert Units(c)[0] == Units(d)[0];
      if c as nat < 0x10000 {
        NotASurrogate(c);
      } else {
        assert Units(c)[1] == Units(d)[1];
      }
    }
  }

  /** One unit of 16 bits, or a high and a low surrogate that spell the character. */
  lemma UnitsAreUtf16(c: char)
    ensures var w := Units(c);
            || (w == [c as nat] && c as nat < 0x10000)
            || (|w| == 2 && 0xD800 <= w[0] < 0xDC00 <= w[1] < 0xE000
                && c as nat == 0x10000 + 0x400 * (w[0] - 0xD800) + (w[1] - 0xDC00))
  {
  }

  lemma NotASurrogate(c: char)
    ensures !(0xD800 <= c as nat < 0xE000)
  {
  }

  function Utf16(s: string): seq<nat> {
    Encode(Units, s)
  }

  // ---------------------------------------------------------------------------------------------
  // UTF-8

  function Octets(c: char): seq<nat> {
    var n := c as nat;
    var high := n / 0x40;
    var higher := high / 0x40;
    if n < 0x80 then [n]
    else if n < 0x800 then [0xC0 + high, 0x80 + n % 0x40]
    else if n < 0x10000 then [0xE0 + higher, 0x80 + high % 0x40, 0x80 + n % 0x40]
    else [0xF0 + higher / 0x40, 0x80 + higher % 0x40, 0x80 + high % 0x40, 0x80 + n % 0x40]
  }

  /** The number that a code word spells. */
  function Spelled(w: seq<int>): int
    requires 1 <= |w| <= 4
  {
    if |w| == 1 then w[0]
    else if |w| == 2 then (w[0] - 0xC0) * 0x40 + (w[1] - 0x80)
    else if |w| == 3 then ((w[0] - 0xE0) * 0x40 + (w[1] - 0x80)) * 0x40 + (w[2] - 0x80)
    else (((w[0] - 0xF0) * 0x40 + (w[1] - 0x80)) * 0x40 + (w[2] - 0x80)) * 0x40 + (w[3] - 0x80)
  }

  lemma SpelledOctets(c: char)
    ensures 1 <= |Octets(c)| <= 4 && Spelled(Octets(c)) == c as nat
    ensures |Octets(c)| == 1 <==> Octets(c)[0] < 0x80
    ensures |Octets(c)| == 2 <==> 0xC0 <= Octets(c)[0] < 0xE0
    ensures |Octets(c)| == 3 <==> 0xE0 <= Octets(c)[0] < 0xF0
    ensures |Octets(c)| == 4 <==> 0xF0 <= Octets(c)[0]
    ensures forall i | 1 <= i < |Octets(c)| :: 0x80 <= Octets(c)[i] < 0xC0
  {
  }

  lemma OctetsIsPrefixCode()
    ensures PrefixCode(Octets)
  {
    forall c, d | Octets(c) <= Octets(d) ensures c == d {
      SpelledOctets(c);
      SpelledOctets(d);
      assert Octets(c)[0] == Octets(d)[0];
      assert Octets(c) == Octets(d);
      assert c as nat == d as nat;
    }
  }

  function Utf8(s: string): seq<nat> {
    Encode(Octets, s)
  }

  lemma Utf8IsInjective(a: string, b: string)
    requires Utf8(a) == Utf8(b)
    ensures a == b
  {
    OctetsIsPrefixCode();
    EncodeIsInjective(Octets, a, b);
  }
}
