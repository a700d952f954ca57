/** Entity tags of versioned resources: setMutationHeaders prints them, readIfMatch reads them (app.ts). */
module VersionTag {
  import opened Prelude
  import opened JsText
  import opened Decimal

  const MAX_VERSION := 2_147_483_647

  datatype TagError = PreconditionRequired | Malformed | Unsupported

  /** The etag header of a version. */
  function Etag(version: nat): string { "\"" + Print10(version) + "\"" }

  /** readIfMatch. Number() may round a digit string, but only beyond the safe integers, where it is refused anyway. */
  function ReadIfMatch(header: Option<string>): Result<nat, TagError> {
    if header.None? || header.value == "" then Err(PreconditionRequired)
    else
      var t := Trim(header.value);
      if |t| < 2 || t[0] != '\"' || t[|t| - 1] != '\"' || !AllDigits(t[1..|t| - 1]) then Err(Malformed)
      else if Value10(t[1..|t| - 1]) > MAX_VERSION then Err(Unsupported)
      else Ok(Value10(t[1..|t| - 1]))
  }

  /** A header is accepted exactly when it is one quoted digit string, spaces aside, of a version in range. */
  lemma AcceptedIff(header: string, version: nat)
    ensures ReadIfMatch(Some(header)) == Ok(version) <==>
      version <= 2_147_483_647 &&
      exists digits :: AllDigits(digits) && Trim(header) == "\"" + digits + "\"" && Value10(digits) == version
  {
    var t := Trim(header);
    if ReadIfMatch(Some(header)) == Ok(version) {
      assert t == "\"" + t[1..|t| - 1] + "\"";
    }
  }

  /** The three refusals: no header or an empty one; not one quoted digit string; a number out of range. */
  lemma RefusedReads(header: string)
    ensures ReadIfMatch(None) == ReadIfMatch(Some("")) == Err(PreconditionRequired)
    ensures ReadIfMatch(Some(header)) == Err(Malformed) <==>
      header != "" && !exists digits :: AllDigits(digits) && Trim(header) == "\"" + digits + "\""
    ensures ReadIfMatch(Some(header)) == Err(Unsupported) <==>
      header != "" &&
      exists digits :: AllDigits(digits) && Trim(header) == "\"" + digits + "\"" && Value10(digits) > 2_147_483_647
  {
    var t := Trim(header);
    if |t| >= 2 && t[0] == '\"' && t[|t| - 1] == '\"' {
      assert t == "\"" + t[1..|t| - 1] + "\"";
    }
    forall digits | AllDigits(digits) && t == "\"" + digits + "\"" ensures t[1..|t| - 1] == digits {}
  }

  /** The printed tag reads back as its version, and beyond the supported range it is refused as such. */
  lemma EtagRoundTrip(version: nat)
    requires version <= 9_007_199_254_740_991
    ensures ReadIfMatch(Some(Etag(version))) == if version <= 2_147_483_647 then Ok(version) else Err(Unsupported)
  {
    var t := Etag(version);
    TrimTight(t);
    assert t[1..|t| - 1] == Print10(version);
    PrintedValue(version);
  }
}
