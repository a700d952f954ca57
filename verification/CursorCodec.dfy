/** The opaque page cursors (postgres-adapter.ts, demo-adapter.ts). */
module CursorCodec {
  import opened Prelude
  import opened JsonText
  import opened Decimal
  import opened PageWalk
  import Base64Url

  const MAX_SAFE := 9_007_199_254_740_991

  /** What the codec takes from its host: Buffer's lenient reading of base64url, UTF-8 decoding, and
      Number.isSafeInteger on the number a token denotes (None when it is not a safe integer). */
  datatype Host = Host(clean: string -> string, utf8: seq<Base64Url.Byte> -> string, safeInteger: string -> Option<int>)

  ghost predicate Faithful(host: Host) {
    && (forall s :: Base64Url.InAlphabet(s) ==> host.clean(s) == s)
    && (forall s :: Ascii(s) ==> host.utf8(Bytes(s)) == s)
    && (forall n: nat :: n <= MAX_SAFE ==> host.safeInteger(Print10(n)) == Some(n))
  }

  predicate Ascii(s: string) {
    forall i :: 0 <= i < |s| ==> s[i] as int < 128
  }

  function Bytes(s: string): (r: seq<Base64Url.Byte>)
    requires Ascii(s)
    ensures |r| == |s|
  {
    seq(|s|, i requires 0 <= i < |s| => s[i] as int)
  }

  function CursorJson(c: Cursor): Json {
    Obj([Member("workspaceIndex", Num(Print10(c.workspaceIndex))), Member("offset", Num(Print10(c.offset)))])
  }

  /** encodeCursor */
  function EncodeCursor(c: Cursor): (r: string)
  {
    CursorAscii(c);
    Base64Url.Encode(Bytes(Print(CursorJson(c))))
  }

  function SafeCount(host: Host, j: Option<Json>): Option<nat> {
    match j
    case Some(Num(t)) =>
      (match host.safeInteger(t)
       case Some(n) => if 0 <= n <= MAX_SAFE then Some(n) else None
       case None => None)
    case _ => None
  }

  function CursorOf(host: Host, parsed: Option<Json>): Cursor {
    match parsed
    case Some(Obj(fields)) =>
      (match (SafeCount(host, Lookup(fields, "workspaceIndex")), SafeCount(host, Lookup(fields, "offset")))
       case (Some(w), Some(o)) => Cursor(w, o)
       case (_, _) => START)
    case _ => START
  }

  /** decodeCursor: total, anything unreadable is the first page. */
  function DecodeCursor(host: Host, cursor: Option<string>): (c: Cursor)
    ensures c.workspaceIndex <= MAX_SAFE && c.offset <= MAX_SAFE
  {
    if cursor.None? || cursor.value == "" then START
    else CursorOf(host, Parse(host.utf8(Base64Url.Decode(host.clean(cursor.value)))))
  }

  /** The two counts a cursor's text holds, if it is an object in which both names are last given safe counts. */
  ghost predicate Holds(host: Host, parsed: Option<Json>, w: nat, o: nat) {
    && parsed.Some? && parsed.value.Obj?
    && HoldsCount(host, Lookup(parsed.value.fields, "workspaceIndex"), w)
    && HoldsCount(host, Lookup(parsed.value.fields, "offset"), o)
  }

  ghost predicate HoldsCount(host: Host, value: Option<Json>, n: nat) {
    value.Some? && value.value.Num? && n <= 9_007_199_254_740_991 && host.safeInteger(value.value.token) == Some(n)
  }

  /** A cursor whose text holds two safe counts is that place; every other one, none and the empty one included, is
      the first page. */
  lemma DecodeCursorReads(host: Host, cursor: Option<string>, w: nat, o: nat)
    ensures cursor == None || cursor == Some("") ==> DecodeCursor(host, cursor) == Cursor(0, 0)
    ensures cursor.Some? && cursor.value != "" ==>
      var parsed := Parse(host.utf8(Base64Url.Decode(host.clean(cursor.value))));
      && (Holds(host, parsed, w, o) ==> DecodeCursor(host, cursor) == Cursor(w, o))
      && ((forall x: nat, y: nat :: !Holds(host, parsed, x, y)) ==> DecodeCursor(host, cursor) == Cursor(0, 0))
  {
    if cursor.Some? && cursor.value != "" {
      var parsed := Parse(host.utf8(Base64Url.Decode(host.clean(cursor.value))));
      var c := DecodeCursor(host, cursor);
      assert c == START || Holds(host, parsed, c.workspaceIndex, c.offset);
    }
  }

  lemma PairText(m: string, x: string, n: string, y: string)
    requires Letters(m) && Letters(n)
    ensures Print(Obj([Member(m, Num(x)), Member(n, Num(y))])) ==
      "{" + ("\"" + m + "\":" + x + ("," + ("\"" + n + "\":" + y + "}")))
  {
    var fields := [Member(m, Num(x)), Member(n, Num(y))];
    var texts := seq(|fields|, i requires 0 <= i < |fields| => PrintMember(fields[i].name, Print(fields[i].value)));
    assert texts == [PrintMember(m, x), PrintMember(n, y)];
    PairListed(PrintMember(m, x), PrintMember(n, y));
    PlainMember(m, x);
    PlainMember(n, y);
  }

  lemma PlainMember(name: string, value: string)
    requires Letters(name)
    ensures PrintMember(name, value) == "\"" + name + "\":" + value
  {
    PlainEscape(name);
    assert "\"" + (":" + value) == "\":" + value;
  }

  /** What encodeCursor encodes. */
  lemma CursorText(c: Cursor)
    ensures Print(CursorJson(c)) == "{" + ("\"" + "workspaceIndex" + "\":" + Print10(c.workspaceIndex)
      + ("," + ("\"" + "offset" + "\":" + Print10(c.offset) + "}")))
  {
    PairText("workspaceIndex", Print10(c.workspaceIndex), "offset", Print10(c.offset));
  }

  // ---- Round trip ----

  predicate Letters(s: string) {
    forall i :: 0 <= i < |s| ==> 'A' <= s[i] <= 'Z' || 'a' <= s[i] <= 'z'
  }

  lemma {:induction false} PlainEscape(s: string)
    requires Letters(s)
    ensures EscapeAll(s) == s
  {
    if s != "" {
      assert Escape(s[0]) == [s[0]];
      PlainEscape(s[1..]);
    }
  }

  lemma MemberAscii(name: string, value: string)
    requires Letters(name) && Ascii(value)
    ensures Ascii(PrintMember(name, value))
  {
    PlainEscape(name);
    assert Ascii(name);
  }

  lemma PairAscii(m: string, x: string, n: string, y: string)
    requires Letters(m) && Letters(n) && Ascii(x) && Ascii(y)
    ensures Ascii(Print(Obj([Member(m, Num(x)), Member(n, Num(y))])))
  {
    var fields := [Member(m, Num(x)), Member(n, Num(y))];
    var texts := seq(|fields|, i requires 0 <= i < |fields| => PrintMember(fields[i].name, Print(fields[i].value)));
    var a, b := PrintMember(m, x), PrintMember(n, y);
    assert texts == [a, b];
    PairListed(a, b);
    MemberAscii(m, x);
    MemberAscii(n, y);
  }

  lemma PairListed(a: string, b: string)
    ensures Listed([a, b], "}") == a + ("," + (b + "}"))
  {
    assert [a, b][1..] == [b] && [b][1..] == [];
    assert Tail([b], "}") == "," + (b + "}");
  }

  lemma DigitsAscii(s: string)
    requires AllDigits(s)
    ensures Ascii(s)
  {
  }

  lemma CursorAscii(c: Cursor)
    ensures Ascii(Print(CursorJson(c)))
  {
    DigitsAscii(Print10(c.workspaceIndex));
    DigitsAscii(Print10(c.offset));
    PairAscii("workspaceIndex", Print10(c.workspaceIndex), "offset", Print10(c.offset));
  }

  lemma PairLookup(m: string, x: Json, n: string, y: Json)
    requires m != n
    ensures Lookup([Member(m, x), Member(n, y)], n) == Some(y) && Lookup([Member(m, x), Member(n, y)], m) == Some(x)
  {
    assert [Member(m, x), Member(n, y)][..1] == [Member(m, x)];
  }

  lemma CursorJsonReads(c: Cursor)
    ensures Parse(Print(CursorJson(c))) == Some(CursorJson(c))
  {
    PrintIsNumber(c.workspaceIndex);
    PrintIsNumber(c.offset);
    assert |"workspaceIndex"| == 14 && |"offset"| == 6;
    StringifyParses(CursorJson(c));
  }

  lemma TextSurvives(host: Host, text: string)
    requires Faithful(host) && Ascii(text) && text != ""
    ensures Base64Url.Encode(Bytes(text)) != ""
    ensures host.utf8(Base64Url.Decode(host.clean(Base64Url.Encode(Bytes(text))))) == text
  {
    Base64Url.RoundTrip(Bytes(text));
  }

  lemma CursorRoundTrip(host: Host, c: Cursor)
    requires Faithful(host) && c.workspaceIndex <= MAX_SAFE && c.offset <= MAX_SAFE
    ensures EncodeCursor(c) != "" && DecodeCursor(host, Some(EncodeCursor(c))) == c
  {
    CursorAscii(c);
    CursorJsonReads(c);
    TextSurvives(host, Print(CursorJson(c)));
    CursorBack(host, c);
  }

  lemma CursorBack(host: Host, c: Cursor)
    requires Faithful(host) && c.workspaceIndex <= MAX_SAFE && c.offset <= MAX_SAFE
    ensures CursorOf(host, Some(CursorJson(c))) == c
  {
    assert |"workspaceIndex"| == 14 && |"offset"| == 6;
    PairLookup("workspaceIndex", Num(Print10(c.workspaceIndex)), "offset", Num(Print10(c.offset)));
  }

  // ---- The demo adapter's offset cursor ----

  function EncodeOffset(n: nat): string
  {
    DigitsAscii(Print10(n));
    Base64Url.Encode(Bytes(Print10(n)))
  }

  /** Number.parseInt(text, 10) || 0 on texts that start with a digit; NaN, and so 0, without one. */
  function LeadingNumber(text: string): nat { Value10(text[..Digits(text)]) }

  function DecodeOffset(host: Host, cursor: Option<string>): nat {
    if cursor.None? || cursor.value == "" then 0
    else LeadingNumber(host.utf8(Base64Url.Decode(host.clean(cursor.value))))
  }

  /** An offset cursor is the number its text starts with, and 0 when it starts with no digit. */
  lemma DecodeOffsetReads(host: Host, cursor: Option<string>, digits: string, rest: string)
    requires cursor.Some? && cursor.value != ""
    requires host.utf8(Base64Url.Decode(host.clean(cursor.value))) == digits + rest
    requires (forall i :: 0 <= i < |digits| ==> Digit(digits[i])) && (rest == "" || !Digit(rest[0]))
    ensures DecodeOffset(host, cursor) == Value10(digits)
    ensures digits == "" ==> DecodeOffset(host, cursor) == 0
  {
    DigitSpan(digits, rest);
    assert (digits + rest)[..|digits|] == digits;
  }

  lemma {:induction false} DigitSpan(digits: string, rest: string)
    requires (forall i :: 0 <= i < |digits| ==> Digit(digits[i])) && (rest == "" || !Digit(rest[0]))
    ensures Digits(digits + rest) == |digits|
  {
    if digits == "" {
      assert digits + rest == rest;
    } else {
      assert (digits + rest)[1..] == digits[1..] + rest;
      DigitSpan(digits[1..], rest);
    }
  }

  lemma OffsetRoundTrip(host: Host, n: nat)
    requires Faithful(host)
    ensures DecodeOffset(host, Some(EncodeOffset(n))) == n
  {
    var text := Print10(n);
    DigitsAscii(text);
    TextSurvives(host, text);
    AllDigitsSpan(text);
    assert text[..|text|] == text;
    PrintedValue(n);
  }
}
