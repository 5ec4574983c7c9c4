/** Validation followed by formatting: raw tokens -> valid tokens -> lines.
    `main.py` itself formats the raw tokens without validating them; this
    module states what the two stages guarantee when they are chained. */
module Pipeline {
  import opened Processor
  import opened Generator

  /** After cleaning, a valid token holds only ASCII digits and `*`. */
  lemma CleanValidNumber(n: string)
    requires IsValid(n)
    ensures forall k :: 0 <= k < |Clean(n)| ==> '0' <= Clean(n)[k] <= '9' || Clean(n)[k] == '*'
  {
    CleanCounts(n);
    forall k | 0 <= k < |Clean(n)|
      ensures '0' <= Clean(n)[k] <= '9' || Clean(n)[k] == '*'
    {
      var c := Clean(n)[k];
      assert c in multiset(Clean(n));
      assert c != '?';
      assert c in multiset(n);
      var i :| 0 <= i < |n| && n[i] == c;
      assert IsAllowedChar(n[i]);
    }
  }

  /** Every line made from a kept token reads back, by fixed layout, as that
      token without `?` (only digits and `*`) and the destination verbatim;
      there are never more lines than raw tokens. */
  lemma ValidatedLinesReadBack(raw: seq<string>, dest: string, k: nat)
    requires k < |Filter(raw)|
    ensures |Filter(raw)| <= |raw|
    ensures var n := Filter(raw)[k];
      && ParseLine(FormatLine(n, dest)) == Some(Fields(Clean(n), dest))
      && forall j :: 0 <= j < |Clean(n)| ==> '0' <= Clean(n)[j] <= '9' || Clean(n)[j] == '*'
  {
    var n := Filter(raw)[k];
    CleanValidNumber(n);
    FormatParseRoundTrip(n, dest);
  }

  /** A mixed input: the token with letters is reported, the other is kept and
      its line carries the number without its `?`. */
  lemma MixedInputExample()
    ensures Filter(["123?456*", "abc123"]) == ["123?456*"]
    ensures Rejected(["123?456*", "abc123"]) == ["abc123"]
    ensures ParseLine(FormatLine("123?456*", "cellfsc")) == Some(Fields("123456*", "cellfsc"))
  {
    assert !IsAllowedChar("abc123"[0]);
    assert IsValid("123?456*");
    assert ["123?456*", "abc123"][1..] == ["abc123"];
    assert "123?456*" == "123" + "?456*";
    CleanConcat("123", "?456*");
    CleanIdentity("123");
    CleanIdentity("456*");
    assert "?456*"[1..] == "456*";
    assert "123" + "456*" == "123456*";
    CleanValidNumber("123?456*");
    FormatParseRoundTrip("123?456*", "cellfsc");
  }
}
