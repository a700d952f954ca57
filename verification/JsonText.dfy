/** JSON text as JSON.stringify writes it and JSON.parse reads it (RFC 8259). Numbers are kept as the
    text of their token. */
module JsonText {
  import opened Prelude

  datatype Json =
    | Null
    | Bool(b: bool)
    | Num(token: string)
    | Str(text: string)
    | Arr(items: seq<Json>)
    | Obj(fields: seq<Member>)

  datatype Member = Member(name: string, value: Json)

  predicate Digit(c: char) { '0' <= c <= '9' }

  predicate NumChar(c: char) { Digit(c) || c in {'+', '-', '.', 'e', 'E'} }

  function Digits(s: string): (n: nat)
    ensures n <= |s| && forall i :: 0 <= i < n ==> Digit(s[i])
  {
    if s != "" && Digit(s[0]) then 1 + Digits(s[1..]) else 0
  }

  predicate IsExponent(s: string) {
    s == "" ||
    (s[0] in {'e', 'E'} &&
     var q := if |s| > 1 && s[1] in {'+', '-'} then s[2..] else s[1..];
     q != "" && Digits(q) == |q|)
  }

  predicate IsFraction(s: string) {
    if s != "" && s[0] == '.' then
      var d := Digits(s[1..]);
      d > 0 && IsExponent(s[1 + d..])
    else IsExponent(s)
  }

  /** The number production of RFC 8259, section 6. */
  predicate IsNumber(t: string) {
    && (forall i :: 0 <= i < |t| ==> NumChar(t[i]))
    && var u := if t != "" && t[0] == '-' then t[1..] else t;
       var d := Digits(u);
       d > 0 && (u[0] == '0' ==> d == 1) && IsFraction(u[d..])
  }

  /** Values JSON.parse can have produced: well-formed numbers, no repeated member name. */
  ghost predicate WellFormed(j: Json) {
    match j
    case Num(t) => IsNumber(t)
    case Arr(items) => forall i :: 0 <= i < |items| ==> WellFormed(items[i])
    case Obj(fields) =>
      && (forall i :: 0 <= i < |fields| ==> WellFormed(fields[i].value))
      && DistinctNames(fields)
    case _ => true
  }

  ghost predicate DistinctNames(fields: seq<Member>) {
    forall i, k :: 0 <= i < k < |fields| ==> fields[i].name != fields[k].name
  }

  // ---- JSON.stringify ----

  const HEX := "0123456789abcdef"

  function Escape(c: char): (r: string)
    ensures r != ""
  {
    match c
    case '\"' => "\\\""
    case '\\' => "\\\\"
    case '\n' => "\\n"
    case '\r' => "\\r"
    case '\t' => "\\t"
    case _ =>
      if c == '\U{8}' then "\\b"
      else if c == '\U{C}' then "\\f"
      else if c < ' ' then "\\u00" + [HEX[c as int / 16], HEX[c as int % 16]]
      else [c]
  }

  /** How a character is written inside quotes: the seven short escapes, \u00 and two lower-case hexadecimal digits for
      the other control characters, and everything else as it is. */
  lemma EscapeTable(c: char)
    ensures Escape('\"') == "\\\"" && Escape('\\') == "\\\\" && Escape('\U{8}') == "\\b" && Escape('\U{C}') == "\\f"
    ensures Escape('\n') == "\\n" && Escape('\r') == "\\r" && Escape('\t') == "\\t"
    ensures c >= ' ' && c != '\"' && c != '\\' ==> Escape(c) == [c]
    ensures c < ' ' && c !in {'\U{8}', '\t', '\n', '\U{C}', '\r'} ==>
      var e := Escape(c);
      && |e| == 6 && e[..4] == "\\u00" && (e[4] == if c < '\U{10}' then '0' else '1')
      && e[5] as int == var low := c as int % 16; if low < 10 then '0' as int + low else 'a' as int + low - 10
  {
  }

  function EscapeAll(s: string): string {
    if s == "" then "" else Escape(s[0]) + EscapeAll(s[1..])
  }

  function Quote(s: string): string { "\"" + EscapeAll(s) + "\"" }

  /** Texts separated by commas, up to and including the closing bracket. */
  function Tail(texts: seq<string>, close: string): string {
    if texts == [] then close else "," + (texts[0] + Tail(texts[1..], close))
  }

  function Listed(texts: seq<string>, close: string): string {
    if texts == [] then close else texts[0] + Tail(texts[1..], close)
  }

  /** JSON.stringify */
  function Print(j: Json): string {
    match j
    case Null => "null"
    case Bool(b) => if b then "true" else "false"
    case Num(t) => t
    case Str(s) => Quote(s)
    case Arr(items) => "[" + Listed(seq(|items|, i requires 0 <= i < |items| => Print(items[i])), "]")
    case Obj(fields) =>
      "{" + Listed(seq(|fields|, i requires 0 <= i < |fields| =>
        PrintMember(fields[i].name, Print(fields[i].value))), "}")
  }

  function PrintMember(name: string, value: string): string { Quote(name) + (":" + value) }

  // ---- JSON.parse ----

  datatype Parsed<+T> = Parsed(value: T, rest: string)

  predicate White(c: char) { c in {' ', '\t', '\n', '\r'} }

  function SkipWhite(s: string): (r: string)
    ensures |r| <= |s|
  {
    if s != "" && White(s[0]) then SkipWhite(s[1..]) else s
  }

  function HexValue(c: char): Option<nat> {
    if Digit(c) then Some(c as int - '0' as int)
    else if 'a' <= c <= 'f' then Some(c as int - 'a' as int + 10)
    else if 'A' <= c <= 'F' then Some(c as int - 'A' as int + 10)
    else None
  }

  /** The character after a backslash; surrogate escapes are outside the model's characters. */
  function Unescape(s: string): (r: Option<Parsed<char>>)
    ensures r.Some? ==> |r.value.rest| < |s|
  {
    if s == "" then None
    else
      match s[0]
      case '\"' => Some(Parsed('\"', s[1..]))
      case '\\' => Some(Parsed('\\', s[1..]))
      case '/' => Some(Parsed('/', s[1..]))
      case 'b' => Some(Parsed('\U{8}', s[1..]))
      case 'f' => Some(Parsed('\U{C}', s[1..]))
      case 'n' => Some(Parsed('\n', s[1..]))
      case 'r' => Some(Parsed('\r', s[1..]))
      case 't' => Some(Parsed('\t', s[1..]))
      case 'u' =>
        if |s| < 5 then None
        else
          var a, b, c, d := HexValue(s[1]), HexValue(s[2]), HexValue(s[3]), HexValue(s[4]);
          if a.None? || b.None? || c.None? || d.None? then None
          else
            var code := ((a.value * 16 + b.value) * 16 + c.value) * 16 + d.value;
            if code < 0xD800 || 0xE000 <= code < 0x10000 then Some(Parsed(code as char, s[5..])) else None
      case _ => None
  }

  /** The rest of a string after its opening quote. */
  function ParseChars(s: string): (r: Option<Parsed<string>>)
    ensures r.Some? ==> |r.value.rest| < |s|
    decreases |s|
  {
    if s == "" then None
    else if s[0] == '\"' then Some(Parsed("", s[1..]))
    else if s[0] == '\\' then
      match Unescape(s[1..])
      case None => None
      case Some(Parsed(c, rest)) => Prepend(c, ParseChars(rest))
    else if s[0] < ' ' then None
    else Prepend(s[0], ParseChars(s[1..]))
  }

  function Prepend<T>(x: T, p: Option<Parsed<seq<T>>>): Option<Parsed<seq<T>>> {
    if p.None? then None else Some(Parsed([x] + p.value.value, p.value.rest))
  }

  function NumSpan(s: string): (n: nat)
    ensures n <= |s|
  {
    if s != "" && NumChar(s[0]) then 1 + NumSpan(s[1..]) else 0
  }

  function ParseNumber(s: string): (r: Option<Parsed<Json>>)
    ensures r.Some? ==> |r.value.rest| < |s|
  {
    var t := s[..NumSpan(s)];
    if IsNumber(t) then Some(Parsed(Num(t), s[|t|..])) else None
  }

  function ParseText(s: string): (r: Option<Parsed<Json>>)
    ensures r.Some? ==> |r.value.rest| < |s|
  {
    match ParseChars(s)
    case None => None
    case Some(Parsed(text, rest)) => Some(Parsed(Str(text), rest))
  }

  function ParseWord(t: string): (r: Option<Parsed<Json>>)
    ensures r.Some? ==> |r.value.rest| < |t|
  {
    if "null" <= t then Some(Parsed(Null, t[4..]))
    else if "true" <= t then Some(Parsed(Bool(true), t[4..]))
    else if "false" <= t then Some(Parsed(Bool(false), t[5..]))
    else ParseNumber(t)
  }

  function ParseValue(s: string): (r: Option<Parsed<Json>>)
    ensures r.Some? ==> |r.value.rest| < |s|
    decreases |s|, 0
  {
    var t := SkipWhite(s);
    if t == "" then None
    else if t[0] == '\"' then ParseText(t[1..])
    else if t[0] == '[' then ParseList(SkipWhite(t[1..]))
    else if t[0] == '{' then ParseRecord(SkipWhite(t[1..]))
    else ParseWord(t)
  }

  /** An array after its opening bracket. */
  function ParseList(u: string): (r: Option<Parsed<Json>>)
    ensures r.Some? ==> |r.value.rest| < |u|
    decreases |u|, 2
  {
    if u != "" && u[0] == ']' then Some(Parsed(Arr([]), u[1..]))
    else
      match ParseItems(u)
      case None => None
      case Some(Parsed(items, rest)) => Some(Parsed(Arr(items), rest))
  }

  /** An object after its opening brace. */
  function ParseRecord(u: string): (r: Option<Parsed<Json>>)
    ensures r.Some? ==> |r.value.rest| < |u|
    decreases |u|, 3
  {
    if u != "" && u[0] == '}' then Some(Parsed(Obj([]), u[1..]))
    else
      match ParseMembers(u)
      case None => None
      case Some(Parsed(fields, rest)) => Some(Parsed(Obj(fields), rest))
  }

  function ParseItems(s: string): (r: Option<Parsed<seq<Json>>>)
    ensures r.Some? ==> |r.value.rest| < |s|
    decreases |s|, 1
  {
    match ParseValue(s)
    case None => None
    case Some(Parsed(item, after)) =>
      var t := SkipWhite(after);
      if t != "" && t[0] == ',' then Prepend(item, ParseItems(t[1..]))
      else if t != "" && t[0] == ']' then Some(Parsed([item], t[1..]))
      else None
  }

  function ParseMember(s: string): (r: Option<Parsed<Member>>)
    ensures r.Some? ==> |r.value.rest| < |s|
    decreases |s|, 1
  {
    var t := SkipWhite(s);
    if t == "" || t[0] != '\"' then None
    else
      match ParseChars(t[1..])
      case None => None
      case Some(Parsed(name, rest)) => ParseColonValue(name, SkipWhite(rest))
  }

  function ParseColonValue(name: string, u: string): (r: Option<Parsed<Member>>)
    ensures r.Some? ==> |r.value.rest| < |u|
    decreases |u|, 1
  {
    if u == "" || u[0] != ':' then None
    else
      match ParseValue(u[1..])
      case None => None
      case Some(Parsed(value, rest)) => Some(Parsed(Member(name, value), rest))
  }

  /** JSON.parse lets the last of several equal names win; see Lookup. */
  function ParseMembers(s: string): (r: Option<Parsed<seq<Member>>>)
    ensures r.Some? ==> |r.value.rest| < |s|
    decreases |s|, 2
  {
    match ParseMember(s)
    case None => None
    case Some(Parsed(m, after)) =>
      var t := SkipWhite(after);
      if t != "" && t[0] == ',' then Prepend(m, ParseMembers(t[1..]))
      else if t != "" && t[0] == '}' then Some(Parsed([m], t[1..]))
      else None
  }

  function Parse(s: string): Option<Json> {
    match ParseValue(s)
    case None => None
    case Some(Parsed(j, rest)) => if SkipWhite(rest) == "" then Some(j) else None
  }

  function Lookup(fields: seq<Member>, name: string): Option<Json> {
    if fields == [] then None
    else if fields[|fields| - 1].name == name then Some(fields[|fields| - 1].value)
    else Lookup(fields[..|fields| - 1], name)
  }

  // ---- Reading back what was written ----

  lemma ShortEscapeParses(c: char, rest: string)
    requires |Escape(c)| <= 2
    ensures ParseChars(Escape(c) + rest) == Prepend(c, ParseChars(rest))
  {
    var e := Escape(c) + rest;
    if |Escape(c)| == 1 {
      assert e[1..] == rest;
    } else {
      assert e[1..][1..] == rest;
    }
  }

  lemma HexDigits(d: nat)
    requires d < 16
    ensures HexValue(HEX[d]) == Some(d)
  {
  }

  lemma LongEscape(c: char, rest: string)
    requires |Escape(c)| > 2
    ensures Escape(c) == "\\u00" + [HEX[c as int / 16], HEX[c as int % 16]]
    ensures Unescape((Escape(c) + rest)[1..]) == Some(Parsed(c, rest))
  {
    var e := Escape(c) + rest;
    HexDigits(c as int / 16);
    HexDigits(c as int % 16);
    assert e[1..][5..] == rest;
  }

  lemma EscapeParses(c: char, rest: string)
    ensures ParseChars(Escape(c) + rest) == Prepend(c, ParseChars(rest))
  {
    if |Escape(c)| <= 2 {
      ShortEscapeParses(c, rest);
    } else {
      LongEscape(c, rest);
    }
  }

  lemma {:induction false} QuoteParses(s: string, rest: string)
    ensures ParseChars(EscapeAll(s) + ("\"" + rest)) == Some(Parsed(s, rest))
  {
    if s == "" {
      assert EscapeAll(s) + ("\"" + rest) == "\"" + rest;
    } else {
      QuoteParses(s[1..], rest);
      EscapeParses(s[0], EscapeAll(s[1..]) + ("\"" + rest));
      EscapeSplit(s, "\"" + rest);
      assert [s[0]] + s[1..] == s;
    }
  }

  lemma EscapeSplit(s: string, after: string)
    requires s != ""
    ensures EscapeAll(s) + after == Escape(s[0]) + (EscapeAll(s[1..]) + after)
  {
    Regroup(Escape(s[0]), EscapeAll(s[1..]), after);
  }

  predicate Delimited(rest: string) {
    rest == "" || rest[0] in {',', ']', '}'}
  }

  lemma {:induction false} NumSpanExact(t: string, rest: string)
    requires (forall i :: 0 <= i < |t| ==> NumChar(t[i])) && Delimited(rest)
    ensures NumSpan(t + rest) == |t|
  {
    if t == "" {
      assert t + rest == rest;
    } else {
      assert (t + rest)[1..] == t[1..] + rest;
      NumSpanExact(t[1..], rest);
    }
  }

  // One lemma per production, over arbitrary surrounding text.

  lemma ReadsList(u: string, items: seq<Json>, rest: string)
    requires u != "" && !White(u[0]) && u[0] != ']' && ParseItems(u) == Some(Parsed(items, rest))
    ensures ParseValue("[" + u) == Some(Parsed(Arr(items), rest))
  {
    assert ("[" + u)[1..] == u && SkipWhite("[" + u) == "[" + u && SkipWhite(u) == u;
    assert ParseList(u) == Some(Parsed(Arr(items), rest));
  }

  lemma ReadsRecord(u: string, fields: seq<Member>, rest: string)
    requires u != "" && !White(u[0]) && u[0] != '}' && ParseMembers(u) == Some(Parsed(fields, rest))
    ensures ParseValue("{" + u) == Some(Parsed(Obj(fields), rest))
  {
    assert ("{" + u)[1..] == u && SkipWhite("{" + u) == "{" + u && SkipWhite(u) == u;
    assert ParseRecord(u) == Some(Parsed(Obj(fields), rest));
  }

  lemma ReadsLastItem(s: string, item: Json, rest: string)
    requires ParseValue(s) == Some(Parsed(item, "]" + rest))
    ensures ParseItems(s) == Some(Parsed([item], rest))
  {
    assert ("]" + rest)[1..] == rest;
  }

  lemma ReadsMoreItems(s: string, item: Json, t: string, items: seq<Json>, rest: string)
    requires ParseValue(s) == Some(Parsed(item, "," + t)) && ParseItems(t) == Some(Parsed(items, rest))
    ensures ParseItems(s) == Some(Parsed([item] + items, rest))
  {
    assert ("," + t)[1..] == t;
  }

  /** The inside of a quoted text, and what follows it. */
  lemma InsideQuotes(text: string, after: string)
    ensures var s := Quote(text) + after;
      s != "" && s[0] == '\"' && SkipWhite(s) == s && ParseChars(s[1..]) == Some(Parsed(text, after))
  {
    QuoteParses(text, after);
    assert (Quote(text) + after)[1..] == EscapeAll(text) + ("\"" + after);
  }

  lemma ReadsName(name: string, after: string)
    ensures ParseMember(Quote(name) + after) == ParseColonValue(name, SkipWhite(after))
  {
    InsideQuotes(name, after);
  }

  lemma ReadsMember(name: string, u: string, value: Json, rest: string)
    requires ParseValue(u) == Some(Parsed(value, rest))
    ensures ParseMember(Quote(name) + (":" + u)) == Some(Parsed(Member(name, value), rest))
  {
    ReadsName(name, ":" + u);
    assert (":" + u)[1..] == u && SkipWhite(":" + u) == ":" + u;
  }

  lemma ReadsLastMember(s: string, m: Member, rest: string)
    requires ParseMember(s) == Some(Parsed(m, "}" + rest))
    ensures ParseMembers(s) == Some(Parsed([m], rest))
  {
    assert ("}" + rest)[1..] == rest;
  }

  lemma ReadsMoreMembers(s: string, m: Member, t: string, fields: seq<Member>, rest: string)
    requires ParseMember(s) == Some(Parsed(m, "," + t)) && ParseMembers(t) == Some(Parsed(fields, rest))
    ensures ParseMembers(s) == Some(Parsed([m] + fields, rest))
  {
    assert ("," + t)[1..] == t;
  }

  lemma ReadsWord(rest: string)
    ensures ParseValue("null" + rest) == Some(Parsed(Null, rest))
    ensures ParseValue("true" + rest) == Some(Parsed(Bool(true), rest))
    ensures ParseValue("false" + rest) == Some(Parsed(Bool(false), rest))
  {
    assert ("null" + rest)[4..] == rest && ("true" + rest)[4..] == rest && ("false" + rest)[5..] == rest;
  }

  lemma ReadsNumber(t: string, rest: string)
    requires IsNumber(t) && Delimited(rest)
    ensures ParseValue(t + rest) == Some(Parsed(Num(t), rest))
  {
    NumSpanExact(t, rest);
    assert (t + rest)[..|t|] == t && (t + rest)[|t|..] == rest;
  }

  lemma ReadsText(text: string, rest: string)
    ensures ParseValue(Quote(text) + rest) == Some(Parsed(Str(text), rest))
  {
    var s := Quote(text) + rest;
    InsideQuotes(text, rest);
    assert ParseText(s[1..]) == Some(Parsed(Str(text), rest));
  }

  lemma ReadsEmpty(rest: string)
    ensures ParseValue("[]" + rest) == Some(Parsed(Arr([]), rest))
    ensures ParseValue("{}" + rest) == Some(Parsed(Obj([]), rest))
  {
    assert ("[]" + rest)[1..] == "]" + rest && ("]" + rest)[1..] == rest;
    assert ("{}" + rest)[1..] == "}" + rest && ("}" + rest)[1..] == rest;
  }

  /** The text reads as j wherever a value may end. */
  ghost predicate Reads(text: string, j: Json) {
    && text != "" && !White(text[0]) && text[0] != ']'
    && forall rest :: Delimited(rest) ==> ParseValue(text + rest) == Some(Parsed(j, rest))
  }

  ghost predicate ReadsAsMember(text: string, m: Member) {
    && text != "" && text[0] == '\"'
    && forall rest :: Delimited(rest) ==> ParseMember(text + rest) == Some(Parsed(m, rest))
  }

  lemma ListedSplit(texts: seq<string>, close: string, rest: string)
    requires texts != [] && close in {"]", "}"}
    ensures var after := Tail(texts[1..], close) + rest;
      && Delimited(after) && Listed(texts, close) + rest == texts[0] + after
      && after == if |texts| == 1 then close + rest else "," + (Listed(texts[1..], close) + rest)
  {
  }

  lemma FirstItemReads(texts: seq<string>, items: seq<Json>, rest: string)
    requires |texts| == |items| > 0 && Reads(texts[0], items[0])
    ensures ParseValue(Listed(texts, "]") + rest) ==
      Some(Parsed(items[0], if |texts| == 1 then "]" + rest else "," + (Listed(texts[1..], "]") + rest)))
  {
    ListedSplit(texts, "]", rest);
    var after := Tail(texts[1..], "]") + rest;
    assert ParseValue(texts[0] + after) == Some(Parsed(items[0], after));
  }

  lemma ItemThenRest(texts: seq<string>, items: seq<Json>, rest: string)
    requires |texts| == |items| > 1 && Reads(texts[0], items[0])
    requires ParseItems(Listed(texts[1..], "]") + rest) == Some(Parsed(items[1..], rest))
    ensures ParseItems(Listed(texts, "]") + rest) == Some(Parsed(items, rest))
  {
    FirstItemReads(texts, items, rest);
    ReadsMoreItems(Listed(texts, "]") + rest, items[0], Listed(texts[1..], "]") + rest, items[1..], rest);
    assert [items[0]] + items[1..] == items;
  }

  lemma LastItemReads(texts: seq<string>, items: seq<Json>, rest: string)
    requires |texts| == |items| == 1 && Reads(texts[0], items[0])
    ensures ParseItems(Listed(texts, "]") + rest) == Some(Parsed(items, rest))
  {
    FirstItemReads(texts, items, rest);
    ReadsLastItem(Listed(texts, "]") + rest, items[0], rest);
    assert items == [items[0]];
  }

  lemma {:induction false} ItemsRead(texts: seq<string>, items: seq<Json>, rest: string)
    requires |texts| == |items| > 0 && forall i :: 0 <= i < |items| ==> Reads(texts[i], items[i])
    ensures ParseItems(Listed(texts, "]") + rest) == Some(Parsed(items, rest))
  {
    assert Reads(texts[0], items[0]);
    if |items| == 1 {
      LastItemReads(texts, items, rest);
    } else {
      forall i | 0 <= i < |items[1..]| ensures Reads(texts[1..][i], items[1..][i]) {
        assert Reads(texts[i + 1], items[i + 1]);
      }
      ItemsRead(texts[1..], items[1..], rest);
      ItemThenRest(texts, items, rest);
    }
  }

  lemma FirstMemberReads(texts: seq<string>, fields: seq<Member>, rest: string)
    requires |texts| == |fields| > 0 && ReadsAsMember(texts[0], fields[0])
    ensures ParseMember(Listed(texts, "}") + rest) ==
      Some(Parsed(fields[0], if |texts| == 1 then "}" + rest else "," + (Listed(texts[1..], "}") + rest)))
  {
    ListedSplit(texts, "}", rest);
    var after := Tail(texts[1..], "}") + rest;
    assert ParseMember(texts[0] + after) == Some(Parsed(fields[0], after));
  }

  lemma MemberThenRest(texts: seq<string>, fields: seq<Member>, rest: string)
    requires |texts| == |fields| > 1 && ReadsAsMember(texts[0], fields[0])
    requires ParseMembers(Listed(texts[1..], "}") + rest) == Some(Parsed(fields[1..], rest))
    ensures ParseMembers(Listed(texts, "}") + rest) == Some(Parsed(fields, rest))
  {
    FirstMemberReads(texts, fields, rest);
    ReadsMoreMembers(Listed(texts, "}") + rest, fields[0], Listed(texts[1..], "}") + rest, fields[1..], rest);
    assert [fields[0]] + fields[1..] == fields;
  }

  lemma LastMemberReads(texts: seq<string>, fields: seq<Member>, rest: string)
    requires |texts| == |fields| == 1 && ReadsAsMember(texts[0], fields[0])
    ensures ParseMembers(Listed(texts, "}") + rest) == Some(Parsed(fields, rest))
  {
    FirstMemberReads(texts, fields, rest);
    ReadsLastMember(Listed(texts, "}") + rest, fields[0], rest);
    assert fields == [fields[0]];
  }

  lemma {:induction false} MembersRead(texts: seq<string>, fields: seq<Member>, rest: string)
    requires |texts| == |fields| > 0 && forall i :: 0 <= i < |fields| ==> ReadsAsMember(texts[i], fields[i])
    ensures ParseMembers(Listed(texts, "}") + rest) == Some(Parsed(fields, rest))
  {
    assert ReadsAsMember(texts[0], fields[0]);
    if |fields| == 1 {
      LastMemberReads(texts, fields, rest);
    } else {
      forall i | 0 <= i < |fields[1..]| ensures ReadsAsMember(texts[1..][i], fields[1..][i]) {
        assert ReadsAsMember(texts[i + 1], fields[i + 1]);
      }
      MembersRead(texts[1..], fields[1..], rest);
      MemberThenRest(texts, fields, rest);
    }
  }

  lemma ListReads(texts: seq<string>, items: seq<Json>)
    requires |texts| == |items| && forall i :: 0 <= i < |items| ==> Reads(texts[i], items[i])
    ensures Reads("[" + Listed(texts, "]"), Arr(items))
  {
    var text := "[" + Listed(texts, "]");
    forall rest | Delimited(rest) ensures ParseValue(text + rest) == Some(Parsed(Arr(items), rest)) {
      if items == [] {
        ReadsEmpty(rest);
        assert text + rest == "[]" + rest;
      } else {
        var u := Listed(texts, "]") + rest;
        assert Reads(texts[0], items[0]) && u[0] == texts[0][0];
        ItemsRead(texts, items, rest);
        ReadsList(u, items, rest);
        assert text + rest == "[" + u;
      }
    }
  }

  lemma RecordReads(texts: seq<string>, fields: seq<Member>)
    requires |texts| == |fields| && forall i :: 0 <= i < |fields| ==> ReadsAsMember(texts[i], fields[i])
    ensures Reads("{" + Listed(texts, "}"), Obj(fields))
  {
    var text := "{" + Listed(texts, "}");
    forall rest | Delimited(rest) ensures ParseValue(text + rest) == Some(Parsed(Obj(fields), rest)) {
      if fields == [] {
        ReadsEmpty(rest);
        assert text + rest == "{}" + rest;
      } else {
        var u := Listed(texts, "}") + rest;
        assert ReadsAsMember(texts[0], fields[0]) && u[0] == texts[0][0];
        MembersRead(texts, fields, rest);
        ReadsRecord(u, fields, rest);
        assert text + rest == "{" + u;
      }
    }
  }

  lemma MemberReads(name: string, text: string, value: Json)
    requires Reads(text, value)
    ensures ReadsAsMember(PrintMember(name, text), Member(name, value))
  {
    var whole := PrintMember(name, text);
    forall rest | Delimited(rest) ensures ParseMember(whole + rest) == Some(Parsed(Member(name, value), rest)) {
      ReadsMember(name, text + rest, value, rest);
      MemberSplit(name, text, rest);
    }
  }

  lemma MemberSplit(name: string, text: string, rest: string)
    ensures PrintMember(name, text) + rest == Quote(name) + (":" + (text + rest))
  {
  }

  lemma LeafReads(j: Json)
    requires WellFormed(j) && !j.Arr? && !j.Obj?
    ensures Reads(Print(j), j)
  {
    forall rest | Delimited(rest) ensures ParseValue(Print(j) + rest) == Some(Parsed(j, rest)) {
      match j
      case Num(t) => ReadsNumber(t, rest);
      case Str(text) => ReadsText(text, rest);
      case _ => ReadsWord(rest);
    }
  }

  lemma {:induction false} PrintReads(j: Json)
    requires WellFormed(j)
    ensures Reads(Print(j), j)
  {
    match j
    case Arr(items) =>
      var texts := seq(|items|, i requires 0 <= i < |items| => Print(items[i]));
      forall i | 0 <= i < |items| ensures Reads(texts[i], items[i]) { PrintReads(items[i]); }
      ListReads(texts, items);
    case Obj(fields) =>
      var texts := seq(|fields|, i requires 0 <= i < |fields| => PrintMember(fields[i].name, Print(fields[i].value)));
      forall i | 0 <= i < |fields| ensures ReadsAsMember(texts[i], fields[i]) {
        PrintReads(fields[i].value);
        MemberReads(fields[i].name, Print(fields[i].value), fields[i].value);
      }
      RecordReads(texts, fields);
    case _ => LeafReads(j);
  }

  /** JSON.parse undoes JSON.stringify on every value. */
  lemma StringifyParses(j: Json)
    requires WellFormed(j)
    ensures Parse(Print(j)) == Some(j)
  {
    PrintReads(j);
    assert Delimited("") && Print(j) + "" == Print(j);
  }

  /** Hence different values never share a text. */
  lemma StringifyInjective(a: Json, b: Json)
    requires WellFormed(a) && WellFormed(b)
    ensures Print(a) == Print(b) <==> a == b
  {
    StringifyParses(a);
    StringifyParses(b);
  }
}
