/** String.prototype.trim, and keys joined with colons. */
module JsText {
  /** The characters `String.prototype.trim` removes. */
  predicate IsSpace(c: char) {
    || '\t' <= c <= '\r' || c == ' ' || c == '\U{A0}' || c == '\U{1680}'
    || '\U{2000}' <= c <= '\U{200A}' || c == '\U{2028}' || c == '\U{2029}'
    || c == '\U{202F}' || c == '\U{205F}' || c == '\U{3000}' || c == '\U{FEFF}'
  }

  /** White space and line terminators as ECMAScript lists them (sections 12.2 and 12.3). */
  lemma SpaceTable(c: char)
    ensures IsSpace(c) <==>
      || c in {'\t', '\U{B}', '\U{C}', ' ', '\U{A0}', '\U{FEFF}', '\n', '\r', '\U{2028}', '\U{2029}'}
      || c in {'\U{1680}', '\U{2000}', '\U{2001}', '\U{2002}', '\U{2003}', '\U{2004}', '\U{2005}', '\U{2006}'}
      || c in {'\U{2007}', '\U{2008}', '\U{2009}', '\U{200A}', '\U{202F}', '\U{205F}', '\U{3000}'}
  {
  }

  function TrimStart(s: string): string {
    if s != "" && IsSpace(s[0]) then TrimStart(s[1..]) else s
  }

  function TrimEnd(s: string): string {
    if s != "" && IsSpace(s[|s| - 1]) then TrimEnd(s[..|s| - 1]) else s
  }

  function Trim(s: string): string { TrimEnd(TrimStart(s)) }

  lemma TrimTight(s: string)
    requires s != "" && !IsSpace(s[0]) && !IsSpace(s[|s| - 1])
    ensures Trim(s) == s
  {
  }

  /** trim takes space characters off both ends, as many as there are, and nothing else. */
  lemma TrimSplits(s: string) returns (before: string, after: string)
    ensures s == before + Trim(s) + after
    ensures (forall i :: 0 <= i < |before| ==> IsSpace(before[i])) && forall i :: 0 <= i < |after| ==> IsSpace(after[i])
    ensures Trim(s) != "" ==> !IsSpace(Trim(s)[0]) && !IsSpace(Trim(s)[|Trim(s)| - 1])
  {
    before := StartSplits(s);
    after := EndSplits(TrimStart(s));
    assert Trim(s) <= TrimStart(s);
    assert before + (Trim(s) + after) == before + Trim(s) + after;
  }

  lemma {:induction false} StartSplits(s: string) returns (before: string)
    ensures s == before + TrimStart(s) && forall i :: 0 <= i < |before| ==> IsSpace(before[i])
    ensures TrimStart(s) != "" ==> !IsSpace(TrimStart(s)[0])
  {
    if s != "" && IsSpace(s[0]) {
      var rest := StartSplits(s[1..]);
      before := [s[0]] + rest;
    } else {
      before := "";
    }
  }

  lemma {:induction false} EndSplits(s: string) returns (after: string)
    ensures s == TrimEnd(s) + after && forall i :: 0 <= i < |after| ==> IsSpace(after[i])
    ensures TrimEnd(s) != "" ==> !IsSpace(TrimEnd(s)[|TrimEnd(s)| - 1])
  {
    if s != "" && IsSpace(s[|s| - 1]) {
      var rest := EndSplits(s[..|s| - 1]);
      after := rest + [s[|s| - 1]];
    } else {
      after := "";
    }
  }

  /** A first part without a colon makes a colon-joined key unambiguous. */
  lemma JoinInjective(head: string, tail: string, head': string, tail': string)
    requires ':' !in head && ':' !in head'
    requires head + ":" + tail == head' + ":" + tail'
    ensures head == head' && tail == tail'
  {
    FirstColonAt(head, tail);
    FirstColonAt(head', tail');
    var s := head + ":" + tail;
    assert head == s[..|head|] && tail == s[|head| + 1..];
    assert head' == s[..|head'|] && tail' == s[|head'| + 1..];
  }

  function FirstColon(s: string): nat {
    if s == "" || s[0] == ':' then 0 else 1 + FirstColon(s[1..])
  }

  lemma {:induction false} FirstColonAt(head: string, tail: string)
    requires ':' !in head
    ensures FirstColon(head + ":" + tail) == |head|
  {
    if head != "" {
      assert (head + ":" + tail)[1..] == head[1..] + ":" + tail;
      FirstColonAt(head[1..], tail);
    }
  }
}
