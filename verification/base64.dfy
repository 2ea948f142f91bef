/** The base 64 encoding of section 4 of RFC 4648 ("standard" alphabet, with
    `=` padding), as used for the HTTP Basic credentials. The encoder is what
    the tool runs; the decoder is its partner, used to state the round trip in
    both directions. */
module Base64 {
  import opened Wrappers
  import opened Bytes

  const Pad: char := '='

  /** The characters of Table 1 of RFC 4648. */
  predicate IsAlphabetChar(c: char) {
    || ('A' <= c <= 'Z')
    || ('a' <= c <= 'z')
    || ('0' <= c <= '9')
    || c == '+'
    || c == '/'
  }

  /** Table 1 of RFC 4648: values 0-25 are `A`-`Z`, 26-51 are `a`-`z`, 52-61
      are `0`-`9`, 62 is `+` and 63 is `/`. */
  function CharOf(v: int): (c: char)
    requires 0 <= v < 64
    ensures IsAlphabetChar(c)
  {
    if v < 26 then ('A' as int + v) as char
    else if v < 52 then ('a' as int + (v - 26)) as char
    else if v < 62 then ('0' as int + (v - 52)) as char
    else if v == 62 then '+'
    else '/'
  }

  /** The inverse of Table 1. */
  function ValueOf(c: char): (v: int)
    requires IsAlphabetChar(c)
    ensures 0 <= v < 64 && CharOf(v) == c
  {
    if 'A' <= c <= 'Z' then c as int - 'A' as int
    else if 'a' <= c <= 'z' then c as int - 'a' as int + 26
    else if '0' <= c <= '9' then c as int - '0' as int + 52
    else if c == '+' then 62
    else 63
  }

  lemma ValueOfCharOf(v: int)
    requires 0 <= v < 64
    ensures ValueOf(CharOf(v)) == v
  {
  }

  /** How many `=` end the encoding of `n` octets. */
  function PadLength(n: nat): nat {
    if n % 3 == 0 then 0 else 3 - n % 3
  }

  /** The four characters for one full 24-bit group. */
  function EncodeGroup(a: byte, b: byte, c: byte): (r: string)
    ensures |r| == 4
    ensures forall i :: 0 <= i < 4 ==> IsAlphabetChar(r[i])
  {
    [CharOf(a / 4), CharOf(a % 4 * 16 + b / 16), CharOf(b % 16 * 4 + c / 64), CharOf(c % 64)]
  }

  /** Padded base 64 of `bs`: 4 characters per started 3-octet group, with a
      final group of one or two octets padded by `==` or `=`. */
  function Encode(bs: seq<byte>): (r: string)
    ensures |r| == 4 * ((|bs| + 2) / 3)
    decreases |bs|
  {
    if |bs| == 0 then []
    else if |bs| == 1 then
      [CharOf(bs[0] / 4), CharOf(bs[0] % 4 * 16), Pad, Pad]
    else if |bs| == 2 then
      [CharOf(bs[0] / 4), CharOf(bs[0] % 4 * 16 + bs[1] / 16), CharOf(bs[1] % 16 * 4), Pad]
    else
      EncodeGroup(bs[0], bs[1], bs[2]) + Encode(bs[3..])
  }

  /** The `=` characters of an encoding are exactly its last `PadLength`
      characters, and every other character is from the alphabet. */
  predicate PaddedShape(r: string, pads: nat) {
    && pads <= |r|
    && (forall i :: 0 <= i < |r| ==> (r[i] == Pad <==> i >= |r| - pads))
    && (forall i :: 0 <= i < |r| && r[i] != Pad ==> IsAlphabetChar(r[i]))
  }

  lemma {:induction false} EncodeShape(bs: seq<byte>)
    ensures PaddedShape(Encode(bs), PadLength(|bs|))
    decreases |bs|
  {
    if |bs| >= 3 {
      EncodeShape(bs[3..]);
      assert PadLength(|bs|) == PadLength(|bs| - 3);
      GroupThenShape(EncodeGroup(bs[0], bs[1], bs[2]), Encode(bs[3..]), PadLength(|bs|));
    }
  }

  /** Every character of an encoding is from the alphabet, or is one of at
      most two final `=`; all of them are printable ASCII. */
  lemma EncodeChars(bs: seq<byte>, r: string)
    requires r == Encode(bs)
    ensures forall i :: 0 <= i < |r| ==> (IsAlphabetChar(r[i]) || (r[i] == Pad && i >= |r| - 2)) && 32 <= r[i] as int < 127
  {
    EncodeShape(bs);
    assert PadLength(|bs|) <= 2;
  }

  /** A full group in front keeps the padding at the end. */
  lemma GroupThenShape(g: string, rest: string, pads: nat)
    requires |g| == 4 && forall i :: 0 <= i < 4 ==> IsAlphabetChar(g[i])
    requires PaddedShape(rest, pads)
    ensures PaddedShape(g + rest, pads)
  {
    assert forall i :: 0 <= i < 4 ==> (g + rest)[i] == g[i];
    assert forall i :: 4 <= i < |g + rest| ==> (g + rest)[i] == rest[i - 4];
  }

  /** The three octets of a full group of four alphabet characters. */
  function DecodeGroup(c0: char, c1: char, c2: char, c3: char): Option<seq<byte>> {
    if IsAlphabetChar(c0) && IsAlphabetChar(c1) && IsAlphabetChar(c2) && IsAlphabetChar(c3) then
      var x0, x1, x2, x3 := ValueOf(c0), ValueOf(c1), ValueOf(c2), ValueOf(c3);
      Some([x0 * 4 + x1 / 16, x1 % 16 * 16 + x2 / 4, x2 % 4 * 64 + x3])
    else None
  }

  /** The last group, which may be padded. Pad bits that are not zero are
      rejected, as section 3.5 of RFC 4648 allows. */
  function DecodeLast(c0: char, c1: char, c2: char, c3: char): Option<seq<byte>> {
    if c2 == Pad && c3 == Pad then
      if IsAlphabetChar(c0) && IsAlphabetChar(c1) && ValueOf(c1) % 16 == 0 then
        Some([ValueOf(c0) * 4 + ValueOf(c1) / 16])
      else None
    else if c3 == Pad then
      if IsAlphabetChar(c0) && IsAlphabetChar(c1) && IsAlphabetChar(c2) && ValueOf(c2) % 4 == 0 then
        var x0, x1, x2 := ValueOf(c0), ValueOf(c1), ValueOf(c2);
        Some([x0 * 4 + x1 / 16, x1 % 16 * 16 + x2 / 4])
      else None
    else DecodeGroup(c0, c1, c2, c3)
  }

  /** Strict decoding: a multiple of four characters, padding only in the last
      group, canonical pad bits. */
  function Decode(s: string): Option<seq<byte>>
    decreases |s|
  {
    if |s| == 0 then Some([])
    else if |s| < 4 then None
    else if |s| == 4 then DecodeLast(s[0], s[1], s[2], s[3])
    else
      var head :- DecodeGroup(s[0], s[1], s[2], s[3]);
      var tail :- Decode(s[4..]);
      Some(head + tail)
  }

  /** Division by 4, 16 and 64, stated linearly: `n` is `q` groups and `r`
      left over. */
  lemma DivMod4(n: int, q: int, r: int)
    requires n == 4 * q + r && 0 <= r < 4
    ensures n / 4 == q && n % 4 == r
  {
  }

  lemma DivMod16(n: int, q: int, r: int)
    requires n == 16 * q + r && 0 <= r < 16
    ensures n / 16 == q && n % 16 == r
  {
  }

  lemma DivMod64(n: int, q: int, r: int)
    requires n == 64 * q + r && 0 <= r < 64
    ensures n / 64 == q && n % 64 == r
  {
  }

  /** The six-bit values of a group, and back: the octets `a`, `b`, `c` and
      the sextets `x0`..`x3` carry the same 24 bits. */
  lemma SextetsOfOctets(a: byte, b: byte, c: byte)
    ensures var x1, x2 := a % 4 * 16 + b / 16, b % 16 * 4 + c / 64;
      && 0 <= x1 < 64 && 0 <= x2 < 64
      && a / 4 * 4 + x1 / 16 == a
      && x1 % 16 * 16 + x2 / 4 == b
      && x2 % 4 * 64 + c % 64 == c
  {
    var qa, ra := a / 4, a % 4;
    var qb, rb := b / 16, b % 16;
    var qc, rc := c / 64, c % 64;
    assert 0 <= qb < 16 && 0 <= qc < 4;
    DivMod16(ra * 16 + qb, ra, qb);
    DivMod4(rb * 4 + qc, rb, qc);
  }

  lemma OctetsOfSextets(x0: int, x1: int, x2: int, x3: int, a: int, b: int, c: int)
    requires 0 <= x0 < 64 && 0 <= x1 < 64 && 0 <= x2 < 64 && 0 <= x3 < 64
    requires a == x0 * 4 + x1 / 16 && b == x1 % 16 * 16 + x2 / 4 && c == x2 % 4 * 64 + x3
    ensures 0 <= a < 256 && 0 <= b < 256 && 0 <= c < 256
    ensures a / 4 == x0 && a % 4 * 16 + b / 16 == x1
    ensures b % 16 * 4 + c / 64 == x2 && c % 64 == x3
  {
    var q1, r1 := x1 / 16, x1 % 16;
    var q2, r2 := x2 / 4, x2 % 4;
    assert 0 <= q1 < 4 && 0 <= q2 < 16;
    DivMod4(a, x0, q1);
    DivMod16(b, r1, q2);
    DivMod64(c, r2, x3);
  }

  lemma GroupRoundTrip(a: byte, b: byte, c: byte)
    ensures var r := EncodeGroup(a, b, c); DecodeGroup(r[0], r[1], r[2], r[3]) == Some([a, b, c])
  {
    var x0, x1, x2, x3 := a / 4, a % 4 * 16 + b / 16, b % 16 * 4 + c / 64, c % 64;
    SextetsOfOctets(a, b, c);
    ValueOfCharOf(x0);
    ValueOfCharOf(x1);
    ValueOfCharOf(x2);
    ValueOfCharOf(x3);
  }

  lemma OneOctetRoundTrip(a: byte)
    ensures Decode(Encode([a])) == Some([a])
  {
    var x0, x1 := a / 4, a % 4 * 16;
    DivMod16(x1, a % 4, 0);
    ValueOfCharOf(x0);
    ValueOfCharOf(x1);
  }

  lemma TwoOctetRoundTrip(a: byte, b: byte)
    ensures Decode(Encode([a, b])) == Some([a, b])
  {
    var x0, x1, x2 := a / 4, a % 4 * 16 + b / 16, b % 16 * 4;
    SextetsOfOctets(a, b, 0);
    DivMod4(x2, b % 16, 0);
    ValueOfCharOf(x0);
    ValueOfCharOf(x1);
    ValueOfCharOf(x2);
  }

  /** Decoding an encoding gives back the octets. */
  lemma {:induction false} DecodeEncode(bs: seq<byte>)
    ensures Decode(Encode(bs)) == Some(bs)
    decreases |bs|
  {
    if |bs| == 1 {
      assert bs == [bs[0]];
      OneOctetRoundTrip(bs[0]);
    } else if |bs| == 2 {
      assert bs == [bs[0], bs[1]];
      TwoOctetRoundTrip(bs[0], bs[1]);
    } else if |bs| >= 3 {
      LongRoundTrip(bs);
    }
  }

  lemma {:induction false} LongRoundTrip(bs: seq<byte>)
    requires |bs| >= 3
    ensures Decode(Encode(bs)) == Some(bs)
    decreases |bs|, 0
  {
    var g := EncodeGroup(bs[0], bs[1], bs[2]);
    var rest := Encode(bs[3..]);
    assert Encode(bs) == g + rest;
    GroupRoundTrip(bs[0], bs[1], bs[2]);
    FirstThreeThenRest(bs);
    if |bs| == 3 {
      assert bs[3..] == [] && g + rest == g;
      assert g[2] != Pad && g[3] != Pad;
      assert Decode(g) == DecodeLast(g[0], g[1], g[2], g[3]) == DecodeGroup(g[0], g[1], g[2], g[3]);
      assert Encode(bs) == g;
      assert bs == [bs[0], bs[1], bs[2]];
    } else {
      DecodeEncode(bs[3..]);
      DecodeGroupThen(g, rest);
    }
  }

  lemma FirstThreeThenRest<T>(s: seq<T>)
    requires |s| >= 3
    ensures s == [s[0], s[1], s[2]] + s[3..]
  {
  }

  /** A full group followed by more characters decodes group by group. */
  lemma DecodeGroupThen(g: string, rest: string)
    requires |g| == 4 && |rest| > 0
    requires DecodeGroup(g[0], g[1], g[2], g[3]).Some? && Decode(rest).Some?
    ensures Decode(g + rest) == Some(DecodeGroup(g[0], g[1], g[2], g[3]).value + Decode(rest).value)
  {
    var s := g + rest;
    assert s[0] == g[0] && s[1] == g[1] && s[2] == g[2] && s[3] == g[3];
    assert s[4..] == rest;
  }


  /** The octets `a`, `b`, `c` that four sextets decode to encode back to
      the sextets' characters. */
  lemma EncodeOfSextets(x0: int, x1: int, x2: int, x3: int, a: byte, b: byte, c: byte)
    requires 0 <= x0 < 64 && 0 <= x1 < 64 && 0 <= x2 < 64 && 0 <= x3 < 64
    requires a == x0 * 4 + x1 / 16 && b == x1 % 16 * 16 + x2 / 4 && c == x2 % 4 * 64 + x3
    ensures EncodeGroup(a, b, c) == [CharOf(x0), CharOf(x1), CharOf(x2), CharOf(x3)]
  {
    OctetsOfSextets(x0, x1, x2, x3, a, b, c);
    var e := EncodeGroup(a, b, c);
    assert e[0] == CharOf(x0) && e[1] == CharOf(x1) && e[2] == CharOf(x2) && e[3] == CharOf(x3);
  }

  lemma GroupEncodeBack(c0: char, c1: char, c2: char, c3: char)
    requires DecodeGroup(c0, c1, c2, c3).Some?
    ensures var v := DecodeGroup(c0, c1, c2, c3).value; EncodeGroup(v[0], v[1], v[2]) == [c0, c1, c2, c3]
  {
    var v := DecodeGroup(c0, c1, c2, c3).value;
    EncodeOfSextets(ValueOf(c0), ValueOf(c1), ValueOf(c2), ValueOf(c3), v[0], v[1], v[2]);
  }

  /** One octet decoded from `x0`, `x1` (whose low four bits are zero)
      encodes back to `x0`, `x1` and two pads. */
  lemma OneOctetBack(x0: int, x1: int, a: byte)
    requires 0 <= x0 < 64 && 0 <= x1 < 64 && x1 % 16 == 0
    requires a == x0 * 4 + x1 / 16
    ensures Encode([a]) == [CharOf(x0), CharOf(x1), Pad, Pad]
  {
    OctetsOfSextets(x0, x1, 0, 0, a, x1 % 16 * 16, 0);
  }

  /** Two octets decoded from `x0`, `x1`, `x2` (whose low two bits are
      zero) encode back to those three and one pad. */
  lemma TwoOctetsBack(x0: int, x1: int, x2: int, a: byte, b: byte)
    requires 0 <= x0 < 64 && 0 <= x1 < 64 && 0 <= x2 < 64 && x2 % 4 == 0
    requires a == x0 * 4 + x1 / 16 && b == x1 % 16 * 16 + x2 / 4
    ensures Encode([a, b]) == [CharOf(x0), CharOf(x1), CharOf(x2), Pad]
  {
    OctetsOfSextets(x0, x1, x2, 0, a, b, x2 % 4 * 64);
  }

  lemma LastEncodeBack(c0: char, c1: char, c2: char, c3: char)
    requires DecodeLast(c0, c1, c2, c3).Some?
    ensures Encode(DecodeLast(c0, c1, c2, c3).value) == [c0, c1, c2, c3]
  {
    var v := DecodeLast(c0, c1, c2, c3).value;
    if c2 == Pad && c3 == Pad {
      OneOctetBack(ValueOf(c0), ValueOf(c1), v[0]);
      assert v == [v[0]];
    } else if c3 == Pad {
      TwoOctetsBack(ValueOf(c0), ValueOf(c1), ValueOf(c2), v[0], v[1]);
      assert v == [v[0], v[1]];
    } else {
      GroupEncodeBack(c0, c1, c2, c3);
      assert v[3..] == [];
    }
  }

  /** Every string the decoder accepts is the encoding of what it decodes to:
      the decoder accepts exactly the encoder's outputs. */
  lemma {:induction false} EncodeDecode(s: string)
    requires Decode(s).Some?
    ensures Encode(Decode(s).value) == s
    decreases |s|
  {
    if |s| == 4 {
      LastEncodeBack(s[0], s[1], s[2], s[3]);
      assert s == [s[0], s[1], s[2], s[3]];
    } else if |s| > 4 {
      LongEncodeDecode(s);
    }
  }

  lemma {:induction false} LongEncodeDecode(s: string)
    requires |s| > 4 && Decode(s).Some?
    ensures Encode(Decode(s).value) == s
    decreases |s|, 0
  {
    var head := DecodeGroup(s[0], s[1], s[2], s[3]).value;
    var tail := Decode(s[4..]).value;
    DecodeSplits(s);
    GroupEncodeBack(s[0], s[1], s[2], s[3]);
    EncodeDecode(s[4..]);
    EncodeSplits(head, tail);
    FirstGroupThenRest(s);
  }

  lemma FirstGroupThenRest<T>(s: seq<T>)
    requires |s| >= 4
    ensures s == [s[0], s[1], s[2], s[3]] + s[4..]
  {
  }

  /** A long accepted string decodes group by group. */
  lemma DecodeSplits(s: string)
    requires |s| > 4 && Decode(s).Some?
    ensures DecodeGroup(s[0], s[1], s[2], s[3]).Some? && Decode(s[4..]).Some?
    ensures Decode(s).value == DecodeGroup(s[0], s[1], s[2], s[3]).value + Decode(s[4..]).value
  {
  }

  /** A full group followed by a non-empty tail encodes group by group. */
  lemma EncodeSplits(head: seq<byte>, tail: seq<byte>)
    requires |head| == 3
    requires Encode(tail) != []
    ensures Encode(head + tail) == EncodeGroup(head[0], head[1], head[2]) + Encode(tail)
  {
    var bs := head + tail;
    assert bs[0] == head[0] && bs[1] == head[1] && bs[2] == head[2];
    assert bs[3..] == tail;
  }

  /** The test vectors of section 10 of RFC 4648, on the octets of "foobar". */
  lemma Rfc4648Vectors()
    ensures Encode([]) == ""
    ensures Encode([102]) == "Zg=="
    ensures Encode([102, 111]) == "Zm8="
    ensures Encode([102, 111, 111]) == "Zm9v"
    ensures Encode([102, 111, 111, 98]) == "Zm9vYg=="
    ensures Encode([102, 111, 111, 98, 97]) == "Zm9vYmE="
    ensures Encode([102, 111, 111, 98, 97, 114]) == "Zm9vYmFy"
  {
    ShortVectors();
    BarVectors();
    EncodeSplits([102, 111, 111], [98]);
    EncodeSplits([102, 111, 111], [98, 97]);
    EncodeSplits([102, 111, 111], [98, 97, 114]);
  }

  lemma ShortVectors()
    ensures Encode([102]) == "Zg=="
    ensures Encode([102, 111]) == "Zm8="
    ensures EncodeGroup(102, 111, 111) == "Zm9v"
    ensures Encode([102, 111, 111]) == "Zm9v"
  {
    assert [102, 111, 111][3..] == [];
  }

  lemma BarVectors()
    ensures Encode([98]) == "Yg=="
    ensures Encode([98, 97]) == "YmE="
    ensures Encode([98, 97, 114]) == "YmFy"
  {
    assert [98, 97, 114][3..] == [];
  }

}
