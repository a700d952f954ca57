/** base64url without padding (section 5 of RFC 4648). */
module Base64Url {
  import opened Prelude

  type Byte = n: nat | n < 256
  type Sextet = n: nat | n < 64

  function ToChar(s: Sextet): char {
    if s < 26 then ('A' as int + s as int) as char
    else if s < 52 then ('a' as int + (s as int - 26)) as char
    else if s < 62 then ('0' as int + (s as int - 52)) as char
    else if s == 62 then '-'
    else '_'
  }

  function FromChar(c: char): Option<Sextet> {
    if 'A' <= c <= 'Z' then Some(c as int - 'A' as int)
    else if 'a' <= c <= 'z' then Some(c as int - 'a' as int + 26)
    else if '0' <= c <= '9' then Some(c as int - '0' as int + 52)
    else if c == '-' then Some(62)
    else if c == '_' then Some(63)
    else None
  }

  // The pieces of a byte triple and of a sextet quadruple.

  function Six0(a: Byte): Sextet { a as int / 4 }
  function Six1(a: Byte, b: Byte): Sextet { a as int % 4 * 16 + b as int / 16 }
  function Six2(b: Byte, c: Byte): Sextet { b as int % 16 * 4 + c as int / 64 }
  function Six3(c: Byte): Sextet { c as int % 64 }

  function Last1(a: Byte): Sextet { a as int % 4 * 16 }
  function Last2(b: Byte): Sextet { b as int % 16 * 4 }

  function Eight0(p: Sextet, q: Sextet): Byte { p as int * 4 + q as int / 16 }
  function Eight1(q: Sextet, r: Sextet): Byte { q as int % 16 * 16 + r as int / 4 }
  function Eight2(r: Sextet, s: Sextet): Byte { r as int % 4 * 64 + s as int }

  function Quad(a: Byte, b: Byte, c: Byte): (r: seq<Sextet>)
    ensures |r| == 4
  {
    [Six0(a), Six1(a, b), Six2(b, c), Six3(c)]
  }

  function Triple(s: seq<Sextet>): seq<Byte>
    requires |s| == 4
  {
    [Eight0(s[0], s[1]), Eight1(s[1], s[2]), Eight2(s[2], s[3])]
  }

  function Group(bytes: seq<Byte>): (r: seq<Sextet>)
    ensures r == [] <==> bytes == []
  {
    if bytes == [] then []
    else if |bytes| == 1 then [Six0(bytes[0]), Last1(bytes[0])]
    else if |bytes| == 2 then [Six0(bytes[0]), Six1(bytes[0], bytes[1]), Last2(bytes[1])]
    else Quad(bytes[0], bytes[1], bytes[2]) + Group(bytes[3..])
  }

  /** Bits left over at the end are dropped. */
  function Ungroup(s: seq<Sextet>): seq<Byte> {
    if |s| < 2 then []
    else if |s| == 2 then [Eight0(s[0], s[1])]
    else if |s| == 3 then [Eight0(s[0], s[1]), Eight1(s[1], s[2])]
    else Triple(s[..4]) + Ungroup(s[4..])
  }

  lemma Regroup(a: Byte, b: Byte, c: Byte)
    ensures Eight0(Six0(a), Six1(a, b)) == a
    ensures Eight1(Six1(a, b), Six2(b, c)) == b
    ensures Eight2(Six2(b, c), Six3(c)) == c
    ensures Eight0(Six0(a), Last1(a)) == a && Eight1(Six1(a, b), Last2(b)) == b
  {
  }

  function Text(s: seq<Sextet>): string {
    if s == [] then "" else [ToChar(s[0])] + Text(s[1..])
  }

  /** Characters outside the alphabet carry no bits. */
  function Sextets(t: string): seq<Sextet> {
    if t == "" then []
    else
      match FromChar(t[0])
      case None => Sextets(t[1..])
      case Some(v) => [v] + Sextets(t[1..])
  }

  function Encode(bytes: seq<Byte>): string { Text(Group(bytes)) }

  function Decode(text: string): seq<Byte> { Ungroup(Sextets(text)) }

  predicate InAlphabet(t: string) {
    forall i :: 0 <= i < |t| ==> FromChar(t[i]).Some?
  }

  lemma CharRoundTrip(s: Sextet)
    ensures FromChar(ToChar(s)) == Some(s)
  {
  }

  lemma {:induction false} TextRoundTrip(s: seq<Sextet>)
    ensures Sextets(Text(s)) == s && InAlphabet(Text(s)) && |Text(s)| == |s|
  {
    if s != [] {
      CharRoundTrip(s[0]);
      TextRoundTrip(s[1..]);
      assert Text(s)[1..] == Text(s[1..]);
    }
  }

  lemma UngroupQuad(q: seq<Sextet>, rest: seq<Sextet>)
    requires |q| == 4
    ensures Ungroup(q + rest) == Triple(q) + Ungroup(rest)
  {
    assert (q + rest)[..4] == q && (q + rest)[4..] == rest;
  }

  lemma QuadBack(a: Byte, b: Byte, c: Byte)
    ensures Triple(Quad(a, b, c)) == [a, b, c]
  {
    Regroup(a, b, c);
  }

  lemma UngroupShort(s: Sextet, t: Sextet, u: Sextet)
    ensures Ungroup([s, t]) == [Eight0(s, t)]
    ensures Ungroup([s, t, u]) == [Eight0(s, t), Eight1(t, u)]
  {
  }

  lemma ShortBack(a: Byte, b: Byte)
    ensures Ungroup([Six0(a), Last1(a)]) == [a]
    ensures Ungroup([Six0(a), Six1(a, b), Last2(b)]) == [a, b]
  {
    UngroupShort(Six0(a), Last1(a), Last1(a));
    UngroupShort(Six0(a), Six1(a, b), Last2(b));
    Regroup(a, b, b);
  }

  lemma {:induction false} GroupRoundTrip(bytes: seq<Byte>)
    ensures Ungroup(Group(bytes)) == bytes
  {
    if |bytes| == 1 {
      ShortBack(bytes[0], bytes[0]);
    } else if |bytes| == 2 {
      ShortBack(bytes[0], bytes[1]);
    } else if bytes != [] {
      QuadBack(bytes[0], bytes[1], bytes[2]);
      GroupRoundTrip(bytes[3..]);
      UngroupQuad(Quad(bytes[0], bytes[1], bytes[2]), Group(bytes[3..]));
      assert bytes == [bytes[0], bytes[1], bytes[2]] + bytes[3..];
    }
  }

  /** Decoding undoes encoding on every byte string. */
  lemma RoundTrip(bytes: seq<Byte>)
    ensures Decode(Encode(bytes)) == bytes && InAlphabet(Encode(bytes))
    ensures Encode(bytes) == "" <==> bytes == []
  {
    TextRoundTrip(Group(bytes));
    GroupRoundTrip(bytes);
  }

  /** The alphabet: upper-case letters, lower-case letters, digits, then the two marks of the URL form. */
  lemma Alphabet(s: Sextet)
    ensures 0 <= s < 26 ==> ToChar(s) as int == 'A' as int + s
    ensures 26 <= s < 52 ==> ToChar(s) as int == 'a' as int + s - 26
    ensures 52 <= s < 62 ==> ToChar(s) as int == '0' as int + s - 52
    ensures s == 62 ==> ToChar(s) == '-'
    ensures s == 63 ==> ToChar(s) == '_'
  {
  }

  /** The bits of up to three bytes, high ones first, read as sextets. */
  lemma GroupIsBigEndian(a: Byte, b: Byte, c: Byte)
    ensures |Group([a, b, c])| == 4 && Number(Group([a, b, c])) == (a as int * 256 + b as int) * 256 + c as int
    ensures |Group([a, b])| == 3 && Number(Group([a, b])) == (a as int * 256 + b as int) * 4
    ensures |Group([a])| == 2 && Number(Group([a])) == a as int * 16
  {
    GroupThree(a, b, c);
    NumberOf(Six0(a), Six1(a, b), Six2(b, c), Six3(c));
    NumberOf(Six0(a), Six1(a, b), Last2(b), 0);
    NumberOf(Six0(a), Last1(a), 0, 0);
    BitsKept(a, b, c);
  }

  lemma GroupThree(a: Byte, b: Byte, c: Byte)
    ensures Group([a, b, c]) == [Six0(a), Six1(a, b), Six2(b, c), Six3(c)]
    ensures Group([a, b]) == [Six0(a), Six1(a, b), Last2(b)]
    ensures Group([a]) == [Six0(a), Last1(a)]
  {
    assert [a, b, c][3..] == [];
  }

  lemma BitsKept(a: Byte, b: Byte, c: Byte)
    ensures Six0(a) as int * 64 + Last1(a) as int == a as int * 16
    ensures (Six0(a) as int * 64 + Six1(a, b) as int) * 64 + Last2(b) as int == (a as int * 256 + b as int) * 4
    ensures ((Six0(a) as int * 64 + Six1(a, b) as int) * 64 + Six2(b, c) as int) * 64 + Six3(c) as int
      == (a as int * 256 + b as int) * 256 + c as int
  {
  }

  /** Sextets read as one number in base 64. */
  function Number(s: seq<Sextet>): int {
    if s == [] then 0 else Number(s[..|s| - 1]) * 64 + s[|s| - 1] as int
  }

  lemma NumberOf(p: Sextet, q: Sextet, r: Sextet, s: Sextet)
    ensures Number([p, q]) == p as int * 64 + q as int
    ensures Number([p, q, r]) == Number([p, q]) * 64 + r as int
    ensures Number([p, q, r, s]) == Number([p, q, r]) * 64 + s as int
  {
    assert Number([p]) == p as int;
    assert [p, q, r, s][..3] == [p, q, r] && [p, q, r][..2] == [p, q] && [p, q][..1] == [p] && [p][..0] == [];
  }
}
