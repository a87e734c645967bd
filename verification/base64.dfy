/**
 `b64encode` against section 4 of RFC 4648. The specification regroups bytes into sextets one by one;
 the program builds a 24-bit number and cuts it. Shifting a byte by 8 or 16 bits and or-ing disjoint
 bytes is written as multiplication and addition, shifting right and masking as division and remainder.
 */
module Base64 {
  import opened Wrappers

  const UPPER: string := "ABCDEFGHIJKLMNOPQRSTUVWXYZ"
  const LOWER: string := "abcdefghijklmnopqrstuvwxyz"
  const DIGITS: string := "0123456789"
  const TABLE: string := UPPER + LOWER + DIGITS + "+/"

  // ----- the alphabet of the RFC (its table 1)

  type Sextet = v: nat | v < 64

  function Letter(v: Sextet): char {
    if v < 26 then ('A' as int + v) as char
    else if v < 52 then ('a' as int + (v - 26)) as char
    else if v < 62 then ('0' as int + (v - 52)) as char
    else if v == 62 then '+' else '/'
  }

  /** The value of an alphabet character; 64 for any other. */
  function Value(c: char): nat {
    if 'A' <= c <= 'Z' then c as int - 'A' as int
    else if 'a' <= c <= 'z' then c as int - 'a' as int + 26
    else if '0' <= c <= '9' then c as int - '0' as int + 52
    else if c == '+' then 62
    else if c == '/' then 63
    else 64
  }

  /** The program's table is the RFC's. */
  lemma TableIsAlphabet(v: nat)
    requires v < 64
    ensures |TABLE| == 64 && TABLE[v] == Letter(v)
  {
    assert v < 26 ==> UPPER[v] == Letter(v);
    assert 26 <= v < 52 ==> LOWER[v - 26] == Letter(v);
    assert 52 <= v < 62 ==> DIGITS[v - 52] == Letter(v);
  }

  /** An alphabet of 64 characters; `value` is None for any other character. */
  datatype Alphabet = Alphabet(letter: Sextet -> char, value: char -> Option<Sextet>)

  const BASE64 := Alphabet((v: Sextet) => Letter(v), (c: char) => if Value(c) < 64 then Some(Value(c)) else None)

  ghost predicate LetterReadsBack(al: Alphabet, v: Sextet) {
    al.value(al.letter(v)) == Some(v) && al.letter(v) != '='
  }

  ghost predicate ValueReadsBack(al: Alphabet, c: char) {
    al.value(c).Some? ==> al.letter(al.value(c).value) == c && c != '='
  }

  ghost predicate IsAlphabet(al: Alphabet) {
    && (forall v: Sextet {:trigger LetterReadsBack(al, v)} :: LetterReadsBack(al, v))
    && (forall c {:trigger ValueReadsBack(al, c)} :: ValueReadsBack(al, c))
  }

  lemma Base64IsAlphabet()
    ensures IsAlphabet(BASE64)
  {
    forall v: Sextet ensures LetterReadsBack(BASE64, v) {
    }
    forall c ensures ValueReadsBack(BASE64, c) {
    }
  }

  // ----- the encoding of the RFC, group by group

  type Group = (Sextet, Sextet, Sextet, Sextet)

  /** Three bytes as four sextets: 8 + 8 + 8 bits as 6 + 2, 4 + 4, 2 + 6. */
  function Sextets(a: byte, b: byte, c: byte): Group {
    var (x, y, z) := (a as nat, b as nat, c as nat);
    (x / 4, x % 4 * 16 + y / 16, y % 16 * 4 + z / 64, z % 64)
  }

  function Letters(al: Alphabet, g: Group): seq<char> {
    [al.letter(g.0), al.letter(g.1), al.letter(g.2), al.letter(g.3)]
  }

  function EncodeWith(al: Alphabet, s: Bytes): seq<char> {
    if |s| >= 3 then Letters(al, Sextets(s[0], s[1], s[2])) + EncodeWith(al, s[3..])
    else if |s| == 2 then Letters(al, Sextets(s[0], s[1], 0))[..3] + "="
    else if |s| == 1 then Letters(al, Sextets(s[0], 0, 0))[..2] + "=="
    else []
  }

  function Encode(s: Bytes): seq<char> {
    EncodeWith(BASE64, s)
  }

  // ----- the program: cutting a 24-bit number

  lemma By64(n: int, q: int, r: int)
    requires n == q * 64 + r && 0 <= r < 64
    ensures n / 64 == q && n % 64 == r
  {
  }

  /** The sextets of the 24-bit number of a group. */
  lemma CutIsRegroup(x: nat, y: nat, z: nat)
    requires x < 0x100 && y < 0x100 && z < 0x100
    ensures var n := x * 0x10000 + y * 0x100 + z;
            && n / 0x40000 % 64 == x / 4 && n / 0x1000 % 64 == x % 4 * 16 + y / 16
            && n / 0x40 % 64 == y % 16 * 4 + z / 64 && n % 64 == z % 64
  {
    var n := x * 0x10000 + y * 0x100 + z;
    var x0, x1, y0, y1, z0, z1 := x / 4, x % 4, y / 16, y % 16, z / 64, z % 64;
    var k, l := x0 * 64 + x1 * 16 + y0, x * 1024 + y * 4 + z0;
    assert n / 0x40000 == x0 by {
      assert n == x0 * 0x40000 + (x1 * 0x10000 + y * 0x100 + z);
    }
    assert n / 0x1000 == k by {
      assert n == k * 0x1000 + (y1 * 0x100 + z);
    }
    By64(k, x0, x1 * 16 + y0);
    By64(n, l, z1);
    By64(l, x * 16 + y0, y1 * 4 + z0);
  }

  method TableAt(v: nat) returns (c: char)
    requires v < 64
    ensures c == Letter(v)
  {
    TableIsAlphabet(v);
    c := TABLE[v];
  }

  /** Indexing the table with the four cuts of `n`, the number of the three bytes. */
  method Push4(a: byte, b: byte, c: byte) returns (out: seq<char>)
    ensures out == Letters(BASE64, Sextets(a, b, c))
  {
    var n := (a as nat) * 0x10000 + (b as nat) * 0x100 + c as nat;
    var i, j, k, l := n / 0x40000 % 64, n / 0x1000 % 64, n / 0x40 % 64, n % 64;
    var w := TableAt(i);
    var x := TableAt(j);
    var y := TableAt(k);
    var z := TableAt(l);
    out := [w, x, y, z];
    assert Sextets(a, b, c) == (i, j, k, l) by {
      CutIsRegroup(a as nat, b as nat, c as nat);
    }
  }

  /** The last group: one or two bytes and padding, or nothing. */
  method PushRest(rest: Bytes) returns (out: seq<char>)
    requires |rest| < 3
    ensures out == Encode(rest)
  {
    out := [];
    if |rest| == 1 {
      var next := Push4(rest[0], 0, 0);
      out := next[..2] + "==";
    } else if |rest| == 2 {
      var next := Push4(rest[0], rest[1], 0);
      out := next[..3] + "=";
    }
  }

  /** `b64encode`. */
  method B64Encode(data: Bytes) returns (out: seq<char>)
    ensures out == Encode(data)
  {
    out := [];
    var i := 0;
    while i + 3 <= |data|
      invariant 0 <= i <= |data|
      invariant out + Encode(data[i..]) == Encode(data)
    {
      var next := Push4(data[i], data[i + 1], data[i + 2]);
      assert data[i..][3..] == data[i + 3..];
      assert out + (next + Encode(data[i + 3..])) == (out + next) + Encode(data[i + 3..]);
      out := out + next;
      i := i + 3;
    }
    var rest := PushRest(data[i..]);
    out := out + rest;
  }

  // ----- a decoder written from the RFC

  /** Four sextets as three bytes. */
  function Octets(g: Group): Bytes {
    [(g.0 * 4 + g.1 / 16) as byte, (g.1 % 16 * 16 + g.2 / 4) as byte, (g.2 % 4 * 64 + g.3) as byte]
  }

  function ValueOr0(al: Alphabet, c: char): Sextet {
    if al.value(c).Some? then al.value(c).value else 0
  }

  /** The values of the first four characters; 0 for padding. */
  function GroupOf(al: Alphabet, s: seq<char>): Group
    requires |s| >= 4
  {
    (ValueOr0(al, s[0]), ValueOr0(al, s[1]), ValueOr0(al, s[2]), ValueOr0(al, s[3]))
  }

  /** A last group with padding, where section 4 puts it and with the unused bits zero. */
  function DecodePadded(al: Alphabet, s: seq<char>): Option<Bytes>
    requires |s| == 4 && s[3] == '='
  {
    var g := GroupOf(al, s);
    if al.value(s[0]).None? || al.value(s[1]).None? then None
    else if s[2] == '=' then if g.1 % 16 == 0 then Some(Octets(g)[..1]) else None
    else if al.value(s[2]).Some? && g.2 % 4 == 0 then Some(Octets(g)[..2])
    else None
  }

  predicate AllLetters(al: Alphabet, s: seq<char>)
    requires |s| >= 4
  {
    al.value(s[0]).Some? && al.value(s[1]).Some? && al.value(s[2]).Some? && al.value(s[3]).Some?
  }

  /** Strict decoding: only alphabet characters, and padding only at the very end. */
  function DecodeWith(al: Alphabet, s: seq<char>): Option<Bytes> {
    if s == [] then Some([])
    else if |s| < 4 then None
    else if s[3] == '=' then if |s| == 4 then DecodePadded(al, s) else None
    else if AllLetters(al, s) then
      match DecodeWith(al, s[4..])
      case None => None
      case Some(rest) => Some(Octets(GroupOf(al, s)) + rest)
    else None
  }

  function Decode(s: seq<char>): Option<Bytes> {
    DecodeWith(BASE64, s)
  }

  lemma OctetsOfSextets(a: byte, b: byte, c: byte)
    ensures Octets(Sextets(a, b, c)) == [a, b, c]
    ensures c == 0 ==> Sextets(a, b, c).2 % 4 == 0 && Sextets(a, b, c).3 == 0
    ensures b == c == 0 ==> Sextets(a, b, c).1 % 16 == 0 && Sextets(a, b, c).2 == 0
  {
    var (x, y, z) := (a as nat, b as nat, c as nat);
    var (s, t) := (x % 4 * 16 + y / 16, y % 16 * 4 + z / 64);
    assert s / 16 == x % 4 && s % 16 == y / 16 && t / 4 == y % 16 && t % 4 == z / 64;
  }

  lemma SextetsOfOctets(g: Group)
    ensures var b := Octets(g); Sextets(b[0], b[1], b[2]) == g
    ensures g.3 == 0 && g.2 % 4 == 0 ==> Octets(g)[2] == 0
    ensures g.3 == 0 && g.2 == 0 && g.1 % 16 == 0 ==> Octets(g)[1] == 0 && Octets(g)[2] == 0
  {
    var (x, y, z) := (g.0 * 4 + g.1 / 16, g.1 % 16 * 16 + g.2 / 4, g.2 % 4 * 64 + g.3);
    assert x / 4 == g.0 && x % 4 == g.1 / 16 && y / 16 == g.1 % 16 && y % 16 == g.2 / 4 && z / 64 == g.2 % 4 && z % 64 == g.3;
  }

  // ----- for any alphabet, decoding undoes encoding and encoding undoes decoding

  lemma GroupOfLetters(al: Alphabet, g: Group, s: seq<char>)
    requires IsAlphabet(al) && |s| >= 4
    ensures s[..4] == Letters(al, g) ==> AllLetters(al, s) && GroupOf(al, s) == g && s[3] != '='
    ensures s[..4] == Letters(al, g)[..3] + "=" ==>
              && al.value(s[0]) == Some(g.0) && al.value(s[1]) == Some(g.1) && al.value(s[2]) == Some(g.2)
              && s[2] != '=' && s[3] == '='
    ensures s[..4] == Letters(al, g)[..2] + "==" ==>
              al.value(s[0]) == Some(g.0) && al.value(s[1]) == Some(g.1) && s[2] == s[3] == '='
  {
    assert LetterReadsBack(al, g.0) && LetterReadsBack(al, g.1) && LetterReadsBack(al, g.2) && LetterReadsBack(al, g.3);
    assert s[0] == s[..4][0] && s[1] == s[..4][1] && s[2] == s[..4][2] && s[3] == s[..4][3];
  }

  lemma DecodeFull(al: Alphabet, g: Group, rest: seq<char>)
    requires IsAlphabet(al)
    ensures DecodeWith(al, Letters(al, g) + rest)
            == match DecodeWith(al, rest) case None => None case Some(b) => Some(Octets(g) + b)
  {
    var s := Letters(al, g) + rest;
    assert s[..4] == Letters(al, g) && s[4..] == rest;
    GroupOfLetters(al, g, s);
  }

  lemma DecodeTwo(al: Alphabet, g: Group)
    requires IsAlphabet(al) && g.2 % 4 == 0 && g.3 == 0
    ensures DecodeWith(al, Letters(al, g)[..3] + "=") == Some(Octets(g)[..2])
  {
    var s := Letters(al, g)[..3] + "=";
    assert s[..4] == s;
    GroupOfLetters(al, g, s);
    assert ValueReadsBack(al, '=');
    assert GroupOf(al, s) == g;
  }

  lemma DecodeOne(al: Alphabet, g: Group)
    requires IsAlphabet(al) && g.1 % 16 == 0 && g.2 == g.3 == 0
    ensures DecodeWith(al, Letters(al, g)[..2] + "==") == Some(Octets(g)[..1])
  {
    var s := Letters(al, g)[..2] + "==";
    assert s[..4] == s;
    GroupOfLetters(al, g, s);
    assert ValueReadsBack(al, '=');
    assert GroupOf(al, s) == g;
  }

  lemma {:induction false} DecodeEncodeWith(al: Alphabet, s: Bytes)
    requires IsAlphabet(al)
    ensures DecodeWith(al, EncodeWith(al, s)) == Some(s)
    decreases |s|
  {
    if |s| >= 3 {
      DecodeEncodeWith(al, s[3..]);
      var g := Sextets(s[0], s[1], s[2]);
      DecodeFull(al, g, EncodeWith(al, s[3..]));
      assert Octets(g) == [s[0], s[1], s[2]] by {
        OctetsOfSextets(s[0], s[1], s[2]);
      }
      assert s == [s[0], s[1], s[2]] + s[3..];
    } else if |s| == 2 {
      OctetsOfSextets(s[0], s[1], 0);
      DecodeTwo(al, Sextets(s[0], s[1], 0));
      assert [s[0], s[1], 0][..2] == s;
    } else if |s| == 1 {
      OctetsOfSextets(s[0], 0, 0);
      DecodeOne(al, Sextets(s[0], 0, 0));
      assert [s[0], 0, 0][..1] == s;
    }
  }

  lemma EncodeFull(al: Alphabet, g: Group, rest: Bytes)
    ensures EncodeWith(al, Octets(g) + rest) == Letters(al, g) + EncodeWith(al, rest)
  {
    SextetsOfOctets(g);
    assert (Octets(g) + rest)[3..] == rest;
  }

  lemma EncodePadded(al: Alphabet, g: Group)
    ensures g.2 % 4 == 0 && g.3 == 0 ==> EncodeWith(al, Octets(g)[..2]) == Letters(al, g)[..3] + "="
    ensures g.1 % 16 == 0 && g.2 == g.3 == 0 ==> EncodeWith(al, Octets(g)[..1]) == Letters(al, g)[..2] + "=="
  {
    SextetsOfOctets(g);
  }

  lemma LettersOfGroup(al: Alphabet, s: seq<char>)
    requires IsAlphabet(al) && |s| >= 4
    ensures forall i :: 0 <= i < 4 && al.value(s[i]).Some? ==> Letters(al, GroupOf(al, s))[i] == s[i]
  {
    assert ValueReadsBack(al, s[0]) && ValueReadsBack(al, s[1]) && ValueReadsBack(al, s[2]) && ValueReadsBack(al, s[3]);
  }

  lemma EncodeLast(al: Alphabet, s: seq<char>)
    requires IsAlphabet(al) && |s| == 4 && s[3] == '=' && DecodePadded(al, s).Some?
    ensures EncodeWith(al, DecodePadded(al, s).value) == s
  {
    var g := GroupOf(al, s);
    LettersOfGroup(al, s);
    assert ValueReadsBack(al, '=');
    EncodePadded(al, g);
    assert s == if s[2] == '=' then Letters(al, g)[..2] + "==" else Letters(al, g)[..3] + "=";
  }

  lemma {:induction false} EncodeDecodeWith(al: Alphabet, s: seq<char>)
    requires IsAlphabet(al)
    ensures DecodeWith(al, s).Some? ==> EncodeWith(al, DecodeWith(al, s).value) == s
    decreases |s|
  {
    if DecodeWith(al, s).Some? && s != [] {
      if s[3] == '=' {
        EncodeLast(al, s);
      } else {
        LettersOfGroup(al, s);
        assert s == Letters(al, GroupOf(al, s)) + s[4..];
        EncodeDecodeWith(al, s[4..]);
        EncodeFull(al, GroupOf(al, s), DecodeWith(al, s[4..]).value);
      }
    }
  }

  // ----- the program's encoding

  /** The RFC decoder returns the input of the encoder. */
  lemma DecodeEncode(s: Bytes)
    ensures Decode(Encode(s)) == Some(s)
  {
    Base64IsAlphabet();
    DecodeEncodeWith(BASE64, s);
  }

  /** Encoding is injective. */
  lemma EncodeInjective(s: Bytes, t: Bytes)
    ensures Encode(s) == Encode(t) ==> s == t
  {
    DecodeEncode(s);
    DecodeEncode(t);
  }

  /** Re-encoding what a canonical padded string decodes to gives the string back. */
  lemma EncodeDecode(s: seq<char>)
    ensures Decode(s).Some? ==> Encode(Decode(s).value) == s
  {
    Base64IsAlphabet();
    EncodeDecodeWith(BASE64, s);
  }

  /** Four characters for every started group of three bytes. */
  lemma {:induction false} EncodedLength(s: Bytes)
    ensures |Encode(s)| == 4 * ((|s| + 2) / 3)
    decreases |s|
  {
    if |s| >= 3 {
      EncodedLength(s[3..]);
      var n := |s[3..]|;
      assert |Encode(s)| == 4 + 4 * ((n + 2) / 3) && |s| == n + 3;
      assert (n + 5) / 3 == (n + 2) / 3 + 1;
    }
  }
}
