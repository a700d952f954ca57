/** The recursive log redactor (operations.ts). */
module Redaction {
  const MAX_DEPTH := 5
  const MAX_ENTRIES := 20
  const MAX_TEXT := 1024

  /** A loggable value; Scalar stands for every value that is neither text, array nor object. */
  datatype LogValue = Text(text: string) | Scalar(id: int) | List(entries: seq<LogValue>) | Record(fields: seq<Field>)

  datatype Field = Field(key: string, value: LogValue)

  const SENSITIVE_WORDS := ["authorization", "cookie", "credential", "email", "password", "secret", "session", "token"]

  /** Simple case folding as far as it reaches the letters of the words above. */
  function Fold(c: char): char {
    if 'A' <= c <= 'Z' then c - 'A' + 'a'
    else if c == '\U{17F}' then 's'
    else if c == '\U{212A}' then 'k'
    else c
  }

  predicate FoldsTo(s: string, word: string) {
    |s| >= |word| && forall i :: 0 <= i < |word| ==> Fold(s[i]) == word[i]
  }

  /** sensitiveKey.test */
  predicate Sensitive(key: string) {
    exists at, w :: 0 <= at <= |key| && 0 <= w < |SENSITIVE_WORDS| && FoldsTo(key[at..], SENSITIVE_WORDS[w])
  }

  function Take<A>(s: seq<A>, n: nat): (r: seq<A>)
    ensures |r| <= n && |r| <= |s| && forall i :: 0 <= i < |r| ==> r[i] == s[i]
    ensures |r| == |s| || |r| == n
  {
    if |s| <= n then s else s[..n]
  }

  /** The word, in any mix of cases; under the flags i and u the long s and the Kelvin sign count as s and k. */
  predicate Spells(s: string, word: string) {
    |s| == |word| && forall i :: 0 <= i < |s| ==>
      || s[i] == word[i]
      || ('a' <= word[i] <= 'z' && s[i] as int == word[i] as int - 32)
      || (word[i] == 's' && s[i] == '\U{17F}') || (word[i] == 'k' && s[i] == '\U{212A}')
  }

  /** The key contains one of the eight words, anywhere and in any case. */
  ghost predicate NamesSecret(key: string) {
    exists before: string, word: string, after: string :: key == before + word + after && SpellsSecret(word)
  }

  predicate SpellsSecret(word: string) {
    || Spells(word, "authorization") || Spells(word, "cookie") || Spells(word, "credential") || Spells(word, "email")
    || Spells(word, "password") || Spells(word, "secret") || Spells(word, "session") || Spells(word, "token")
  }

  predicate LowerCase(word: string) { forall i :: 0 <= i < |word| ==> 'a' <= word[i] <= 'z' }

  lemma SpellsIffFolds(s: string, word: string)
    requires LowerCase(word)
    ensures Spells(s, word) <==> |s| == |word| && FoldsTo(s, word)
  {
    if |s| == |word| {
      forall i | 0 <= i < |s|
        ensures Fold(s[i]) == word[i] <==>
          || s[i] == word[i] || s[i] as int == word[i] as int - 32
          || (word[i] == 's' && s[i] == '\U{17F}') || (word[i] == 'k' && s[i] == '\U{212A}')
      {
        FoldsIff(s[i], word[i]);
      }
    }
  }

  lemma FoldsIff(c: char, letter: char)
    requires 'a' <= letter <= 'z'
    ensures Fold(c) == letter <==>
      || c == letter || c as int == letter as int - 32
      || (letter == 's' && c == '\U{17F}') || (letter == 'k' && c == '\U{212A}')
  {
  }

  lemma SecretWords()
    ensures |SENSITIVE_WORDS| == 8 && forall w :: 0 <= w < 8 ==> LowerCase(SENSITIVE_WORDS[w])
  {
    assert LowerCase("authorization") && LowerCase("cookie") && LowerCase("credential") && LowerCase("email");
    assert LowerCase("password") && LowerCase("secret") && LowerCase("session") && LowerCase("token");
  }

  lemma SpellsSecretIff(word: string)
    ensures SpellsSecret(word) <==> exists w :: 0 <= w < 8 && Spells(word, SENSITIVE_WORDS[w])
  {
    var ws := SENSITIVE_WORDS;
    assert ws[0] == "authorization" && ws[1] == "cookie" && ws[2] == "credential" && ws[3] == "email";
    assert ws[4] == "password" && ws[5] == "secret" && ws[6] == "session" && ws[7] == "token";
  }

  lemma SensitiveNames(key: string, at: nat, w: nat)
    requires at <= |key| && w < 8 && FoldsTo(key[at..], SENSITIVE_WORDS[w])
    ensures NamesSecret(key)
  {
    var n := |SENSITIVE_WORDS[w]|;
    var word := key[at..at + n];
    SecretWords();
    forall i | 0 <= i < n ensures Fold(word[i]) == SENSITIVE_WORDS[w][i] { assert word[i] == key[at..][i]; }
    SpellsIffFolds(word, SENSITIVE_WORDS[w]);
    SpellsSecretIff(word);
    assert key == key[..at] + word + key[at + n..];
  }

  lemma NamedIsSensitive(before: string, word: string, after: string)
    requires SpellsSecret(word)
    ensures Sensitive(before + word + after)
  {
    var key := before + word + after;
    SpellsSecretIff(word);
    var w :| 0 <= w < 8 && Spells(word, SENSITIVE_WORDS[w]);
    SecretWords();
    SpellsIffFolds(word, SENSITIVE_WORDS[w]);
    assert key[|before|..] == word + after;
    assert FoldsTo(key[|before|..], SENSITIVE_WORDS[w]);
  }

  lemma SensitiveIff(key: string)
    ensures Sensitive(key) <==> NamesSecret(key)
  {
    SecretWords();
    if Sensitive(key) {
      var at, w :| 0 <= at <= |key| && 0 <= w < |SENSITIVE_WORDS| && FoldsTo(key[at..], SENSITIVE_WORDS[w]);
      SensitiveNames(key, at, w);
    }
    if NamesSecret(key) {
      var before: string, word: string, after: string :| key == before + word + after && SpellsSecret(word);
      NamedIsSensitive(before, word, after);
    }
  }

  /** redactLogValue */
  function Redact(v: LogValue, key: string, depth: nat): LogValue
    decreases v, 1
  {
    if Sensitive(key) then Text("[redacted]")
    else if depth >= MAX_DEPTH then Text("[truncated]")
    else
      match v
      case List(entries) => List(RedactEntries(Take(entries, MAX_ENTRIES), depth, v))
      case Record(fields) => Record(RedactFields(fields, depth, v))
      case Text(text) => Text(Take(text, MAX_TEXT))
      case Scalar(_) => v
  }

  function RedactEntries(entries: seq<LogValue>, depth: nat, ghost whole: LogValue): (r: seq<LogValue>)
    requires forall i :: 0 <= i < |entries| ==> entries[i] < whole
    ensures |r| == |entries|
    ensures forall i :: 0 <= i < |r| ==> r[i] == Redact(entries[i], "", depth + 1)
    decreases whole, 0, |entries|
  {
    if entries == [] then []
    else [Redact(entries[0], "", depth + 1)] + RedactEntries(entries[1..], depth, whole)
  }

  function RedactFields(fields: seq<Field>, depth: nat, ghost whole: LogValue): (r: seq<Field>)
    requires forall i :: 0 <= i < |fields| ==> fields[i].value < whole
    ensures |r| == |fields|
    ensures forall i :: 0 <= i < |r| ==> r[i] == Field(fields[i].key, Redact(fields[i].value, fields[i].key, depth + 1))
    decreases whole, 0, |fields|
  {
    if fields == [] then []
    else
      [Field(fields[0].key, Redact(fields[0].value, fields[0].key, depth + 1))]
      + RedactFields(fields[1..], depth, whole)
  }

  /** At most `levels` levels of arrays and objects, 20 entries an array, 1,024 characters a text. */
  ghost predicate Bounded(v: LogValue, levels: int) {
    match v
    case Text(text) => |text| <= 1024
    case Scalar(_) => true
    case List(entries) =>
      levels > 0 && |entries| <= 20 && forall i :: 0 <= i < |entries| ==> Bounded(entries[i], levels - 1)
    case Record(fields) =>
      levels > 0 && forall i :: 0 <= i < |fields| ==> Bounded(fields[i].value, levels - 1)
  }

  lemma {:induction false} RedactedIsBounded(v: LogValue, key: string, depth: nat)
    requires depth <= 5
    ensures Bounded(Redact(v, key, depth), 5 - depth)
    decreases v, 1
  {
    if Sensitive(key) || depth == MAX_DEPTH {
      assert |"[redacted]"| == 10 && |"[truncated]"| == 11;
    } else {
      match v
      case List(entries) => ListBounded(entries, key, depth);
      case Record(fields) => RecordBounded(fields, key, depth);
      case Text(text) => assert Redact(v, key, depth) == Text(Take(text, MAX_TEXT));
      case Scalar(_) => assert Redact(v, key, depth) == v;
    }
  }

  lemma RedactedList(entries: seq<LogValue>, key: string, depth: nat)
    requires !Sensitive(key) && depth < MAX_DEPTH
    ensures var r := Redact(List(entries), key, depth);
      && r.List? && |r.entries| == |Take(entries, MAX_ENTRIES)|
      && forall i :: 0 <= i < |r.entries| ==> r.entries[i] == Redact(entries[i], "", depth + 1)
  {
  }

  lemma RedactedRecord(fields: seq<Field>, key: string, depth: nat)
    requires !Sensitive(key) && depth < MAX_DEPTH
    ensures var r := Redact(Record(fields), key, depth);
      && r.Record? && |r.fields| == |fields|
      && forall i :: 0 <= i < |r.fields| ==>
           r.fields[i] == Field(fields[i].key, Redact(fields[i].value, fields[i].key, depth + 1))
  {
  }

  lemma {:induction false} ListBounded(entries: seq<LogValue>, key: string, depth: nat)
    requires !Sensitive(key) && depth < MAX_DEPTH
    ensures Bounded(Redact(List(entries), key, depth), MAX_DEPTH - depth)
    decreases List(entries), 0
  {
    var r := Redact(List(entries), key, depth);
    RedactedList(entries, key, depth);
    forall i | 0 <= i < |r.entries| ensures Bounded(r.entries[i], MAX_DEPTH - depth - 1) {
      RedactedIsBounded(entries[i], "", depth + 1);
    }
  }

  lemma {:induction false} RecordBounded(fields: seq<Field>, key: string, depth: nat)
    requires !Sensitive(key) && depth < MAX_DEPTH
    ensures Bounded(Redact(Record(fields), key, depth), MAX_DEPTH - depth)
    decreases Record(fields), 0
  {
    var r := Redact(Record(fields), key, depth);
    RedactedRecord(fields, key, depth);
    forall i | 0 <= i < |r.fields| ensures Bounded(r.fields[i].value, MAX_DEPTH - depth - 1) {
      RedactedIsBounded(fields[i].value, fields[i].key, depth + 1);
    }
  }

  lemma {:induction false} RedactIdempotent(v: LogValue, key: string, depth: nat)
    ensures Redact(Redact(v, key, depth), key, depth) == Redact(v, key, depth)
    decreases v
  {
    if !Sensitive(key) && depth < MAX_DEPTH {
      match v
      case List(entries) =>
        forall i | 0 <= i < |entries|
          ensures Redact(Redact(entries[i], "", depth + 1), "", depth + 1) == Redact(entries[i], "", depth + 1)
        {
          RedactIdempotent(entries[i], "", depth + 1);
        }
        ListIdempotent(entries, key, depth);
      case Record(fields) =>
        var r := Redact(v, key, depth);
        forall i | 0 <= i < |r.fields|
          ensures Redact(r.fields[i].value, r.fields[i].key, depth + 1) == r.fields[i].value
        {
          RedactIdempotent(fields[i].value, fields[i].key, depth + 1);
        }
        assert Redact(r, key, depth).fields == r.fields;
      case _ =>
    }
  }

  lemma ListIdempotent(entries: seq<LogValue>, key: string, depth: nat)
    requires !Sensitive(key) && depth < MAX_DEPTH
    requires forall i :: 0 <= i < |entries| ==>
      Redact(Redact(entries[i], "", depth + 1), "", depth + 1) == Redact(entries[i], "", depth + 1)
    ensures Redact(Redact(List(entries), key, depth), key, depth) == Redact(List(entries), key, depth)
  {
    var r := Redact(List(entries), key, depth);
    assert Take(r.entries, MAX_ENTRIES) == r.entries;
    assert Redact(r, key, depth).entries == r.entries;
  }

  /** Whatever stands under a key that contains one of the eight words, anywhere and in any case, is replaced; a key
      that contains none of them is treated like no key at all. */
  lemma SecretsRedactedIff(v: LogValue, key: string, depth: nat)
    ensures NamesSecret(key) ==> Redact(v, key, depth) == Text("[redacted]")
    ensures !NamesSecret(key) ==> Redact(v, key, depth) == Redact(v, "", depth)
    ensures Redact(Scalar(0), key, 0) == Text("[redacted]") <==> NamesSecret(key)
  {
    SensitiveIff(key);
    NothingNamed();
  }

  lemma NothingNamed()
    ensures !Sensitive("")
  {
    SecretWords();
    assert forall at :: 0 <= at <= |""| ==> ""[at..] == "";
  }

  /** For instance: the word in the middle of a key. */
  lemma EmbeddedSecretRedacted(v: LogValue, before: string, word: string, after: string, depth: nat)
    requires SpellsSecret(word)
    ensures Redact(v, before + word + after, depth) == Text("[redacted]")
  {
    SecretsRedactedIff(v, before + word + after, depth);
  }

  /** Two values that differ only below sensitive keys. */
  ghost predicate SameOutside(v: LogValue, w: LogValue, key: string) {
    Sensitive(key) ||
    match (v, w)
    case (List(es), List(fs)) =>
      |es| == |fs| && forall i :: 0 <= i < |es| ==> SameOutside(es[i], fs[i], "")
    case (Record(es), Record(fs)) =>
      && |es| == |fs|
      && forall i :: 0 <= i < |es| ==> es[i].key == fs[i].key && SameOutside(es[i].value, fs[i].value, es[i].key)
    case (_, _) => v == w
  }

  /** Nothing below a sensitive key can be read off the output. */
  lemma {:induction false} SecretsDoNotShow(v: LogValue, w: LogValue, key: string, depth: nat)
    requires SameOutside(v, w, key)
    ensures Redact(v, key, depth) == Redact(w, key, depth)
    decreases v, 1
  {
    if !Sensitive(key) && depth < MAX_DEPTH {
      match (v, w)
      case (List(es), List(fs)) => ListsAgree(es, fs, key, depth);
      case (Record(es), Record(fs)) => RecordsAgree(es, fs, key, depth);
      case (_, _) => assert v == w;
    }
  }

  lemma {:induction false} ListsAgree(es: seq<LogValue>, fs: seq<LogValue>, key: string, depth: nat)
    requires !Sensitive(key) && depth < MAX_DEPTH && SameOutside(List(es), List(fs), key)
    ensures Redact(List(es), key, depth) == Redact(List(fs), key, depth)
    decreases List(es), 0
  {
    var r, r' := Redact(List(es), key, depth), Redact(List(fs), key, depth);
    RedactedList(es, key, depth);
    RedactedList(fs, key, depth);
    forall i | 0 <= i < |r.entries| ensures r.entries[i] == r'.entries[i] {
      SecretsDoNotShow(es[i], fs[i], "", depth + 1);
    }
    assert r.entries == r'.entries;
  }

  lemma {:induction false} RecordsAgree(es: seq<Field>, fs: seq<Field>, key: string, depth: nat)
    requires !Sensitive(key) && depth < MAX_DEPTH && SameOutside(Record(es), Record(fs), key)
    ensures Redact(Record(es), key, depth) == Redact(Record(fs), key, depth)
    decreases Record(es), 0
  {
    var r, r' := Redact(Record(es), key, depth), Redact(Record(fs), key, depth);
    RedactedRecord(es, key, depth);
    RedactedRecord(fs, key, depth);
    forall i | 0 <= i < |r.fields| ensures r.fields[i] == r'.fields[i] {
      SecretsDoNotShow(es[i].value, fs[i].value, es[i].key, depth + 1);
    }
    assert r.fields == r'.fields;
  }

  /** A value no part of which outside sensitive keys is cut at this depth. */
  ghost predicate Fits(v: LogValue, key: string, depth: nat) {
    Sensitive(key) ||
    (depth < 5 &&
     match v
     case Text(text) => |text| <= 1024
     case Scalar(_) => true
     case List(es) => |es| <= 20 && forall i :: 0 <= i < |es| ==> Fits(es[i], "", depth + 1)
     case Record(fs) => forall i :: 0 <= i < |fs| ==> Fits(fs[i].value, fs[i].key, depth + 1))
  }

  /** And only that is hidden: of values within the limits, the output tells everything outside sensitive keys. */
  lemma {:induction false} OnlySecretsAreHidden(v: LogValue, w: LogValue, key: string, depth: nat)
    requires Fits(v, key, depth) && Fits(w, key, depth)
    ensures Redact(v, key, depth) == Redact(w, key, depth) <==> SameOutside(v, w, key)
    decreases v
  {
    if SameOutside(v, w, key) {
      SecretsDoNotShow(v, w, key, depth);
    } else if Redact(v, key, depth) == Redact(w, key, depth) {
      var r, r' := Redact(v, key, depth), Redact(w, key, depth);
      match (v, w)
      case (List(es), List(fs)) =>
        forall i | 0 <= i < |es| ensures SameOutside(es[i], fs[i], "") {
          assert r.entries[i] == r'.entries[i];
          OnlySecretsAreHidden(es[i], fs[i], "", depth + 1);
        }
      case (Record(es), Record(fs)) =>
        forall i | 0 <= i < |es|
          ensures es[i].key == fs[i].key && SameOutside(es[i].value, fs[i].value, es[i].key)
        {
          assert r.fields[i] == r'.fields[i];
          OnlySecretsAreHidden(es[i].value, fs[i].value, es[i].key, depth + 1);
        }
      case (_, _) =>
    }
  }
}
