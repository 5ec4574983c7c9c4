/** The formatter of `generator.py`: turns each number into one action line
    of the SMS routing table, for a destination given once per run. */
module Generator {
  import opened Sequences

  datatype Option<T> = None | Some(value: T)

  /** The text before the number field. */
  const Prefix: string := "{ \"?.?."
  /** The text between the number field and the destination. */
  const Middle: string := "\" }  : Actions SET_DEST_LA(\""
  /** The text after the destination. */
  const Suffix: string := "\"),SET_ESME_GROUP(SAG_GROUP_1, A_ADDR)"

  /** The number with every `?` deleted (`number.replace("?", "")`). */
  function Clean(s: string): (r: string)
    ensures |r| <= |s|
    ensures forall k :: 0 <= k < |r| ==> r[k] != '?'
  {
    if s == [] then []
    else if s[0] == '?' then Clean(s[1..])
    else [s[0]] + Clean(s[1..])
  }

  /** One action line: the fixed prefix, the cleaned number, the fixed middle,
      the destination verbatim (nothing is escaped) and the fixed suffix. */
  function FormatLine(number: string, dest: string): string
  {
    Prefix + Clean(number) + Middle + dest + Suffix
  }

  /** Where each field of a line sits: a consumer that reads a line by fixed
      layout finds the prefix, the number without `?`, the middle, the
      destination and the suffix at these offsets. */
  lemma FormatLineLayout(number: string, dest: string)
    ensures var line, c := FormatLine(number, dest), Clean(number);
      && |line| == |Prefix| + |c| + |Middle| + |dest| + |Suffix|
      && line[..|Prefix|] == Prefix
      && line[|Prefix|..|Prefix| + |c|] == c
      && (forall k :: |Prefix| <= k < |Prefix| + |c| ==> line[k] != '?')
      && line[|Prefix| + |c|..|line| - |dest| - |Suffix|] == Middle
      && line[|line| - |dest| - |Suffix|..|line| - |Suffix|] == dest
      && line[|line| - |Suffix|..] == Suffix
  {
  }

  /** `generate_actions`: one pass over the numbers, appending one line per
      number, all with the same destination. */
  method GenerateActions(numbers: seq<string>, dest: string) returns (actions: seq<string>)
    ensures |actions| == |numbers|
    ensures forall i :: 0 <= i < |numbers| ==> actions[i] == FormatLine(numbers[i], dest)
  {
    actions := [];
    for i := 0 to |numbers|
      invariant |actions| == i
      invariant forall j :: 0 <= j < i ==> actions[j] == FormatLine(numbers[j], dest)
    {
      var cleanNumber := Clean(numbers[i]);
      var line := Prefix + cleanNumber + Middle + dest + Suffix;
      actions := actions + [line];
    }
  }

  /** Deleting `?` distributes over concatenation. */
  lemma {:induction false} CleanConcat(a: string, b: string)
    ensures Clean(a + b) == Clean(a) + Clean(b)
  {
    if a == [] {
      assert a + b == b;
    } else {
      assert (a + b)[0] == a[0];
      assert (a + b)[1..] == a[1..] + b;
      CleanConcat(a[1..], b);
    }
  }

  /** Cleaning keeps every character other than `?`, as often as it occurs,
      and no `?` at all. */
  lemma {:induction false} CleanCounts(s: string)
    ensures multiset(Clean(s)) == multiset(s)['?' := 0]
  {
    if s != [] {
      CleanCounts(s[1..]);
      assert s == [s[0]] + s[1..];
    }
  }

  /** In particular every `*` survives cleaning. */
  lemma CleanKeepsStars(s: string)
    ensures multiset(Clean(s))['*'] == multiset(s)['*']
  {
    CleanCounts(s);
  }

  /** Cleaning only deletes: what survives keeps its relative order. */
  lemma {:induction false} CleanSubsequence(s: string)
    ensures IsSubsequence(Clean(s), s)
  {
    if s != [] {
      CleanSubsequence(s[1..]);
    }
  }

  /** A number without `?` is left as it is. */
  lemma {:induction false} CleanIdentity(s: string)
    requires forall k :: 0 <= k < |s| ==> s[k] != '?'
    ensures Clean(s) == s
  {
    if s != [] {
      assert forall k :: 0 <= k < |s[1..]| ==> s[1..][k] == s[k + 1];
      CleanIdentity(s[1..]);
      assert s == [s[0]] + s[1..];
    }
  }

  /** Cleaning is idempotent. */
  lemma CleanIdempotent(s: string)
    ensures Clean(Clean(s)) == Clean(s)
  {
    CleanIdentity(Clean(s));
  }

  /** Index of the first `c` in `s`, or `|s|` when there is none. */
  function IndexOf(s: string, c: char): (k: nat)
    ensures k <= |s|
    ensures forall j :: 0 <= j < k ==> s[j] != c
    ensures k < |s| ==> s[k] == c
  {
    if s == [] then 0
    else if s[0] == c then 0
    else 1 + IndexOf(s[1..], c)
  }

  /** The fields of a line as a consumer reads it by fixed layout. */
  datatype Fields = Fields(number: string, dest: string)

  /** Reads a line back by layout: the fixed prefix and suffix, the number up
      to the first double quote, then the fixed middle, then the destination.
      Every line it accepts is the layout around the fields it returns. */
  function ParseLine(line: string): (f: Option<Fields>)
    ensures f.Some? ==> line == Prefix + f.value.number + Middle + f.value.dest + Suffix
    ensures f.Some? ==> forall j :: 0 <= j < |f.value.number| ==> f.value.number[j] != '"'
  {
    if |line| < |Prefix| + |Suffix| || line[..|Prefix|] != Prefix
       || line[|line| - |Suffix|..] != Suffix then None
    else
      var body := line[|Prefix|..|line| - |Suffix|];
      var k := IndexOf(body, '"');
      if |body| - k < |Middle| || body[k..k + |Middle|] != Middle then None
      else
        assert line == line[..|Prefix|] + body + line[|line| - |Suffix|..];
        assert body == body[..k] + body[k..k + |Middle|] + body[k + |Middle|..];
        Some(Fields(body[..k], body[k + |Middle|..]))
  }

  /** When the cleaned number holds no double quote, the line decodes back to
      the cleaned number and the destination, whatever the destination holds. */
  lemma FormatParseRoundTrip(number: string, dest: string)
    requires forall j :: 0 <= j < |Clean(number)| ==> Clean(number)[j] != '"'
    ensures ParseLine(FormatLine(number, dest)) == Some(Fields(Clean(number), dest))
  {
    var c := Clean(number);
    var line := FormatLine(number, dest);
    var body := line[|Prefix|..|line| - |Suffix|];
    assert body == c + Middle + dest;
    assert body[|c|] == '"';
    assert IndexOf(body, '"') == |c|;
    assert body[|c|..|c| + |Middle|] == Middle;
    assert body[..|c|] == c;
    assert body[|c| + |Middle|..] == dest;
  }

  /** The line shown in the formatter's documentation, character for character. */
  lemma DocumentedExample()
    ensures FormatLine("27840037335*", "cellfsc")
         == "{ \"?.?.27840037335*\" }  : Actions SET_DEST_LA(\"cellfsc\"),SET_ESME_GROUP(SAG_GROUP_1, A_ADDR)"
  {
    CleanIdentity("27840037335*");
    // The solver compares long literals only two pieces at a time.
    ExamplePrefix();
    ExampleMiddle();
    ExampleDest();
    ExampleSuffix();
  }

  lemma ExamplePrefix()
    ensures Prefix + "27840037335*" == "{ \"?.?.27840037335*"
  {
  }

  lemma ExampleMiddle()
    ensures "{ \"?.?.27840037335*" + Middle == "{ \"?.?.27840037335*\" }  : Actions SET_DEST_LA(\""
  {
  }

  lemma ExampleDest()
    ensures "{ \"?.?.27840037335*\" }  : Actions SET_DEST_LA(\"" + "cellfsc"
         == "{ \"?.?.27840037335*\" }  : Actions SET_DEST_LA(\"cellfsc"
  {
  }

  lemma ExampleSuffix()
    ensures "{ \"?.?.27840037335*\" }  : Actions SET_DEST_LA(\"cellfsc" + Suffix
         == "{ \"?.?.27840037335*\" }  : Actions SET_DEST_LA(\"cellfsc\"),SET_ESME_GROUP(SAG_GROUP_1, A_ADDR)"
  {
  }

  /** A number that is only a wildcard keeps it: the line reads back as `*`. */
  lemma StarOnlyExample()
    ensures Clean("*") == "*"
    ensures ParseLine(FormatLine("*", "grp2")) == Some(Fields("*", "grp2"))
  {
    CleanIdentity("*");
    FormatParseRoundTrip("*", "grp2");
  }
}
