/** The slug normaliser of the sign-up wizard (auth-experience.tsx). */
module Slug {
  import opened JsText

  const MAX_SLUG := 80

  predicate SlugChar(c: char) {
    'a' <= c <= 'z' || '0' <= c <= '9'
  }

  predicate Hyphenated(s: string) {
    forall i :: 0 <= i < |s| ==> SlugChar(s[i]) || s[i] == '-'
  }

  /** No hyphen at either end and no two in a row. */
  predicate SingleHyphens(s: string) {
    && (s != "" ==> s[0] != '-' && s[|s| - 1] != '-')
    && NoDoubleHyphen(s)
  }

  predicate NoDoubleHyphen(s: string) {
    forall i, j :: 0 <= i < |s| && i < j < |s| && j == i + 1 ==> !(s[i] == '-' && s[j] == '-')
  }

  /** validSlug: the anchored pattern and the two length limits. */
  predicate ValidSlug(s: string) {
    s != "" && Hyphenated(s) && SingleHyphens(s) && 2 <= |s| <= MAX_SLUG
  }

  // ---- The grammar [a-z0-9]+(-[a-z0-9]+)* read as a list of words ----

  predicate Word(w: string) {
    w != "" && forall i :: 0 <= i < |w| ==> SlugChar(w[i])
  }

  predicate Words(words: seq<string>) {
    words != [] && forall i :: 0 <= i < |words| ==> Word(words[i])
  }

  function JoinWords(words: seq<string>): string
    requires words != []
  {
    if |words| == 1 then words[0] else words[0] + "-" + JoinWords(words[1..])
  }

  ghost predicate InGrammar(s: string) {
    exists words: seq<string> :: Words(words) && JoinWords(words) == s
  }

  // ---- slugFrom, pass by pass ----

  /** What is left after the longest run of characters outside [a-z0-9]. */
  function DropRun(s: string): (r: string)
    ensures |r| <= |s|
    ensures r != "" ==> SlugChar(r[0])
  {
    if s != "" && !SlugChar(s[0]) then DropRun(s[1..]) else s
  }

  /** replace(/[^a-z0-9]+/g, "-") */
  function CollapseRuns(s: string): string
    decreases |s|
  {
    if s == "" then ""
    else if SlugChar(s[0]) then [s[0]] + CollapseRuns(s[1..])
    else "-" + CollapseRuns(DropRun(s[1..]))
  }

  function StripFirst(s: string): string {
    if s != "" && s[0] == '-' then s[1..] else s
  }

  /** replace(/-$/g, "") */
  function StripLast(s: string): string {
    if s != "" && s[|s| - 1] == '-' then s[..|s| - 1] else s
  }

  function Truncate(s: string): string {
    if |s| <= MAX_SLUG then s else s[..MAX_SLUG]
  }

  /** slugFrom. `lower` is the host's toLowerCase. */
  function SlugFrom(lower: string -> string, value: string): string {
    StripLast(Truncate(StripLast(StripFirst(CollapseRuns(lower(Trim(value)))))))
  }

  /** toLowerCase leaves a text of lower-case ASCII letters, digits and hyphens alone. */
  ghost predicate KeepsSlugText(lower: string -> string) {
    forall s: string :: Hyphenated(s) ==> lower(s) == s
  }

  // ---- Lemmas about the passes ----

  lemma {:induction false} CollapseShape(s: string)
    ensures Hyphenated(CollapseRuns(s))
    ensures NoDoubleHyphen(CollapseRuns(s))
    ensures CollapseRuns(s) != "" && SlugChar(s[0]) ==> CollapseRuns(s)[0] == s[0]
    decreases |s|
  {
    if s != "" {
      if SlugChar(s[0]) {
        CollapseShape(s[1..]);
      } else {
        CollapseShape(DropRun(s[1..]));
      }
    }
  }

  lemma {:induction false} CollapseFixed(s: string)
    requires Hyphenated(s) && SingleHyphens(s)
    ensures CollapseRuns(s) == s
  {
    if s != "" {
      if |s| == 1 {
        assert s == [s[0]] + s[1..];
      } else if s[1] == '-' {
        assert |s| > 2;
        assert DropRun(s[2..]) == s[2..];
        CollapseFixed(s[2..]);
        assert CollapseRuns(s[1..]) == "-" + s[2..];
        assert s == [s[0]] + ("-" + s[2..]);
      } else {
        CollapseFixed(s[1..]);
        assert s == [s[0]] + s[1..];
      }
    }
  }

  lemma TrimFixed(s: string)
    requires Hyphenated(s)
    ensures Trim(s) == s
  {
  }

  /** The result of the two last passes is well formed whatever the collapsed text was. */
  lemma FinalPassesShape(c: string)
    requires Hyphenated(c) && NoDoubleHyphen(c)
    ensures var r := StripLast(Truncate(StripLast(StripFirst(c))));
      Hyphenated(r) && SingleHyphens(r) && |r| <= MAX_SLUG
  {
    var f := StripFirst(c);
    assert Hyphenated(f) && NoDoubleHyphen(f) && (f != "" ==> f[0] != '-');
    StripLastShape(f);
    var cut := Truncate(StripLast(f));
    assert cut != "" ==> cut[0] == StripLast(f)[0];
    StripLastShape(cut);
  }

  lemma StripLastShape(s: string)
    requires Hyphenated(s) && NoDoubleHyphen(s)
    requires s != "" ==> s[0] != '-'
    ensures Hyphenated(StripLast(s)) && SingleHyphens(StripLast(s))
  {
    if s != "" && s[|s| - 1] == '-' {
      assert |s| > 1 && s[|s| - 2] != '-';
    }
  }

  // ---- Main results ----

  /** For every input the slug is empty or a word list of the grammar, at most 80 long. */
  lemma SlugNormalForm(lower: string -> string, value: string)
    ensures var r := SlugFrom(lower, value);
      && |r| <= 80 && (r == "" || InGrammar(r))
      && forall i :: 0 <= i < |r| ==> 'a' <= r[i] <= 'z' || '0' <= r[i] <= '9' || r[i] == '-'
  {
    var c := CollapseRuns(lower(Trim(value)));
    CollapseShape(lower(Trim(value)));
    FinalPassesShape(c);
    var r := SlugFrom(lower, value);
    if r != "" { var _ := WordsOf(r); }
  }

  /** The hyphen conditions are exactly the pattern's language. */
  lemma GrammarIffShape(s: string)
    ensures InGrammar(s) <==> s != "" && Hyphenated(s) && SingleHyphens(s)
  {
    if InGrammar(s) {
      var words: seq<string> :| Words(words) && JoinWords(words) == s;
      GrammarIsShape(words);
    }
    if s != "" && Hyphenated(s) && SingleHyphens(s) { var _ := WordsOf(s); }
  }

  lemma {:induction false} GrammarIsShape(words: seq<string>)
    requires Words(words)
    ensures var s := JoinWords(words); s != "" && Hyphenated(s) && SingleHyphens(s)
  {
    if |words| > 1 {
      GrammarIsShape(words[1..]);
      var tail := JoinWords(words[1..]);
      var s := JoinWords(words);
      assert s[0] == words[0][0] && SlugChar(words[0][0]);
      assert s[|s| - 1] == tail[|tail| - 1];
    } else {
      assert SlugChar(words[0][0]) && SlugChar(words[0][|words[0]| - 1]);
    }
  }

  lemma {:induction false} WordsOf(s: string) returns (words: seq<string>)
    requires s != "" && Hyphenated(s) && SingleHyphens(s)
    ensures Words(words) && JoinWords(words) == s
    decreases |s|
  {
    if Word(s) {
      words := [s];
    } else {
      var k := FirstHyphen(s);
      var tail := s[k + 1..];
      TailShape(s, k);
      var rest := WordsOf(tail);
      words := [s[..k]] + rest;
      JoinCons(s[..k], rest);
      assert s == s[..k] + "-" + tail;
    }
  }

  lemma TailShape(s: string, k: nat)
    requires Hyphenated(s) && SingleHyphens(s) && k < |s| - 1 && s[k] == '-'
    ensures Hyphenated(s[k + 1..]) && SingleHyphens(s[k + 1..])
  {
    var tail := s[k + 1..];
    assert tail[0] == s[k + 1] && tail[|tail| - 1] == s[|s| - 1];
  }

  lemma JoinCons(w: string, rest: seq<string>)
    requires rest != []
    ensures JoinWords([w] + rest) == w + "-" + JoinWords(rest)
  {
    assert ([w] + rest)[1..] == rest;
  }

  lemma FirstHyphen(s: string) returns (k: nat)
    requires s != "" && Hyphenated(s) && SingleHyphens(s) && !Word(s)
    ensures 0 < k < |s| - 1 && s[k] == '-' && Word(s[..k])
  {
    k := 0;
    while k < |s| && s[k] != '-'
      invariant k <= |s| && forall i :: 0 <= i < k ==> SlugChar(s[i])
      decreases |s| - k
    {
      k := k + 1;
    }
  }

  /** Every slug the form accepts is a fixed point. */
  lemma ValidSlugFixed(lower: string -> string, s: string)
    requires KeepsSlugText(lower) && Hyphenated(s) && SingleHyphens(s) && |s| <= MAX_SLUG
    ensures SlugFrom(lower, s) == s
  {
    TrimFixed(s);
    CollapseFixed(s);
  }

  /** In particular every word of up to 80 lower-case ASCII letters and digits is. */
  lemma PlainWordFixed(lower: string -> string, s: string)
    requires KeepsSlugText(lower) && |s| <= 80
    requires forall i :: 0 <= i < |s| ==> 'a' <= s[i] <= 'z' || '0' <= s[i] <= '9'
    ensures SlugFrom(lower, s) == s
  {
    ValidSlugFixed(lower, s);
  }

  lemma SlugIdempotent(lower: string -> string, value: string)
    requires KeepsSlugText(lower)
    ensures SlugFrom(lower, SlugFrom(lower, value)) == SlugFrom(lower, value)
  {
    CollapseShape(lower(Trim(value)));
    FinalPassesShape(CollapseRuns(lower(Trim(value))));
    ValidSlugFixed(lower, SlugFrom(lower, value));
  }

  /** The output passes the form's check exactly when two characters are left. */
  lemma SlugAcceptedIff(lower: string -> string, value: string)
    ensures ValidSlug(SlugFrom(lower, value)) <==> |SlugFrom(lower, value)| >= 2
  {
    CollapseShape(lower(Trim(value)));
    FinalPassesShape(CollapseRuns(lower(Trim(value))));
  }

  // ---- The slug as the words of the input ----

  function TakeWord(t: string): (w: string)
    ensures w <= t && forall i :: 0 <= i < |w| ==> SlugChar(w[i])
    ensures |w| < |t| ==> !SlugChar(t[|w|])
  {
    if t != "" && SlugChar(t[0]) then [t[0]] + TakeWord(t[1..]) else ""
  }

  /** The maximal runs of letters and digits, in order. */
  function Runs(t: string): seq<string>
    decreases |t|
  {
    if t == "" then []
    else if SlugChar(t[0]) then [TakeWord(t)] + Runs(t[|TakeWord(t)|..])
    else Runs(t[1..])
  }

  lemma {:induction false} RunsAreWords(t: string)
    ensures forall i :: 0 <= i < |Runs(t)| ==> Word(Runs(t)[i])
    decreases |t|
  {
    if t != "" {
      RunsAreWords(if SlugChar(t[0]) then t[|TakeWord(t)|..] else t[1..]);
    }
  }

  lemma {:induction false} RunsSkip(t: string)
    ensures Runs(DropRun(t)) == Runs(t)
  {
    if t != "" && !SlugChar(t[0]) { RunsSkip(t[1..]); }
  }

  lemma {:induction false} CollapseWord(t: string)
    ensures CollapseRuns(t) == TakeWord(t) + CollapseRuns(t[|TakeWord(t)|..])
  {
    if t != "" && SlugChar(t[0]) {
      var w := TakeWord(t[1..]);
      var rest := CollapseRuns(t[1..][|w|..]);
      CollapseWord(t[1..]);
      assert TakeWord(t) == [t[0]] + w;
      assert t[|w| + 1..] == t[1..][|w|..];
      assert [t[0]] + (w + rest) == [t[0]] + w + rest;
    } else {
      assert t[0..] == t;
    }
  }

  /** One word of the text, the run of other characters after it, and the text from the next word on. */
  lemma WordStep(t: string) returns (w: string, next: string)
    requires t != "" && SlugChar(t[0])
    ensures w != "" && |next| < |t| && (next != "" ==> SlugChar(next[0]))
    ensures Runs(t) == [w] + Runs(next)
    ensures CollapseRuns(t) == w || CollapseRuns(t) == w + "-" + CollapseRuns(next)
    ensures next != "" ==> CollapseRuns(t) == w + "-" + CollapseRuns(next)
  {
    CollapseWord(t);
    w := TakeWord(t);
    var rest := t[|w|..];
    if rest == "" {
      next := "";
    } else {
      next := DropRun(rest[1..]);
      RunsSkip(rest[1..]);
      assert CollapseRuns(rest) == "-" + CollapseRuns(next);
    }
  }

  /** From the start of a word on, collapsing joins the words, with a hyphen left over when the text does not
      end in one. */
  lemma {:induction false} CollapseJoins(t: string)
    requires t != "" && SlugChar(t[0])
    ensures Runs(t) != []
    ensures CollapseRuns(t) == JoinWords(Runs(t)) || CollapseRuns(t) == JoinWords(Runs(t)) + "-"
    decreases |t|
  {
    var w, next := WordStep(t);
    if next == "" {
      assert Runs(t) == [w];
    } else {
      CollapseJoins(next);
      var joined := JoinWords(Runs(next));
      JoinCons(w, Runs(next));
      assert w + "-" + (joined + "-") == w + "-" + joined + "-";
    }
  }

  /** The first hyphen pass drops what stands before the first word. */
  lemma BodyOf(t: string) returns (body: string)
    ensures Runs(t) == Runs(body) && StripFirst(CollapseRuns(t)) == CollapseRuns(body)
    ensures body != "" ==> SlugChar(body[0])
  {
    if t != "" && !SlugChar(t[0]) {
      body := DropRun(t[1..]);
      RunsSkip(t[1..]);
      assert CollapseRuns(t) == "-" + CollapseRuns(body);
    } else {
      body := t;
      if t != "" { assert CollapseRuns(t)[0] == t[0]; }
    }
  }

  lemma StripJoined(joined: string, c: string)
    requires SingleHyphens(joined) && (c == joined || c == joined + "-")
    ensures StripLast(c) == joined
  {
  }

  /** The reference reading of slugFrom: the words of the lower-cased input joined by single hyphens, cut to 80
      characters, without a hyphen left at the cut. */
  lemma SlugIsJoinedWords(lower: string -> string, value: string)
    ensures var words := Runs(lower(Trim(value)));
      SlugFrom(lower, value) == if words == [] then "" else StripLast(Truncate(JoinWords(words)))
  {
    var t := lower(Trim(value));
    var body := BodyOf(t);
    if body == "" {
      assert Runs(t) == [] && SlugFrom(lower, value) == "";
    } else {
      CollapseJoins(body);
      RunsAreWords(body);
      GrammarIsShape(Runs(body));
      StripJoined(JoinWords(Runs(body)), CollapseRuns(body));
    }
  }
}
