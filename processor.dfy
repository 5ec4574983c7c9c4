/** The validator of `processor.py`: keeps the raw tokens made only of
    digits, `*` and `?`, in input order, and reports every other token. */
module Processor {
  import opened Sequences

  /** A character a phone number may contain: an ASCII digit, `*` or `?`. */
  predicate IsAllowedChar(c: char)
  {
    '0' <= c <= '9' || c == '*' || c == '?'
  }

  /** A token is valid when each of its characters is allowed; the empty
      token is valid because it has no character to object to. */
  predicate IsValid(s: string)
  {
    forall i :: 0 <= i < |s| ==> IsAllowedChar(s[i])
  }

  /** The tokens the validator keeps, in the order they arrive. */
  function Filter(xs: seq<string>): (r: seq<string>)
    ensures |r| <= |xs|
    ensures forall k :: 0 <= k < |r| ==> IsValid(r[k])
  {
    if xs == [] then []
    else if IsValid(xs[0]) then [xs[0]] + Filter(xs[1..])
    else Filter(xs[1..])
  }

  /** The tokens the validator warns about and skips, in the order they arrive. */
  function Rejected(xs: seq<string>): (r: seq<string>)
    ensures |r| <= |xs|
    ensures forall k :: 0 <= k < |r| ==> !IsValid(r[k])
  {
    if xs == [] then []
    else if IsValid(xs[0]) then Rejected(xs[1..])
    else [xs[0]] + Rejected(xs[1..])
  }

  /** `filter_valid_numbers`: one pass over the tokens, appending each valid
      one to `valid`. The warning printed for an invalid token is modelled by
      appending that token to `skipped`. */
  method FilterValidNumbers(numbers: seq<string>) returns (valid: seq<string>, skipped: seq<string>)
    ensures valid == Filter(numbers)
    ensures skipped == Rejected(numbers)
  {
    valid, skipped := [], [];
    for i := 0 to |numbers|
      invariant valid == Filter(numbers[..i])
      invariant skipped == Rejected(numbers[..i])
    {
      var num := numbers[i];
      assert numbers[..i + 1] == numbers[..i] + [num];
      FilterConcat(numbers[..i], [num]);
      RejectedConcat(numbers[..i], [num]);
      if IsValid(num) {
        valid := valid + [num];
      } else {
        skipped := skipped + [num];
      }
    }
    assert numbers[..|numbers|] == numbers;
  }

  /** Filtering distributes over concatenation. */
  lemma {:induction false} FilterConcat(a: seq<string>, b: seq<string>)
    ensures Filter(a + b) == Filter(a) + Filter(b)
  {
    if a == [] {
      assert a + b == b;
    } else {
      assert (a + b)[0] == a[0];
      assert (a + b)[1..] == a[1..] + b;
      FilterConcat(a[1..], b);
    }
  }

  /** The rejected tokens distribute over concatenation too. */
  lemma {:induction false} RejectedConcat(a: seq<string>, b: seq<string>)
    ensures Rejected(a + b) == Rejected(a) + Rejected(b)
  {
    if a == [] {
      assert a + b == b;
    } else {
      assert (a + b)[0] == a[0];
      assert (a + b)[1..] == a[1..] + b;
      RejectedConcat(a[1..], b);
    }
  }

  /** Validation only partitions its input: every token is either kept or
      reported, none is lost and none is invented. */
  lemma {:induction false} FilterPartition(xs: seq<string>)
    ensures |Filter(xs)| + |Rejected(xs)| == |xs|
    ensures multiset(Filter(xs)) + multiset(Rejected(xs)) == multiset(xs)
  {
    if xs != [] {
      FilterPartition(xs[1..]);
      assert xs == [xs[0]] + xs[1..];
    }
  }

  /** A token is kept if and only if it occurs in the input and is valid. */
  lemma {:induction false} FilterMembership(xs: seq<string>, s: string)
    ensures s in Filter(xs) <==> s in xs && IsValid(s)
  {
    if xs != [] {
      FilterMembership(xs[1..], s);
      assert xs == [xs[0]] + xs[1..];
    }
  }

  /** A token is reported if and only if it occurs in the input and is invalid. */
  lemma {:induction false} RejectedMembership(xs: seq<string>, s: string)
    ensures s in Rejected(xs) <==> s in xs && !IsValid(s)
  {
    if xs != [] {
      RejectedMembership(xs[1..], s);
      assert xs == [xs[0]] + xs[1..];
    }
  }

  /** The empty token passes validation and is kept wherever it occurs. */
  lemma {:induction false} EmptyTokenKept(xs: seq<string>)
    requires "" in xs
    ensures "" in Filter(xs)
  {
    FilterMembership(xs, "");
  }

  /** The kept tokens are the input with some tokens deleted, in their
      original order. */
  lemma {:induction false} FilterSubsequence(xs: seq<string>)
    ensures IsSubsequence(Filter(xs), xs)
  {
    if xs != [] {
      FilterSubsequence(xs[1..]);
      if !IsValid(xs[0]) && Filter(xs) != [] {
        assert IsValid(Filter(xs)[0]);
      }
    }
  }

  /** A valid token at index `i` lands in the output right after the tokens
      kept from before it. */
  lemma {:induction false} FilterPosition(xs: seq<string>, i: nat)
    requires i < |xs| && IsValid(xs[i])
    ensures |Filter(xs[..i])| < |Filter(xs)|
    ensures Filter(xs)[|Filter(xs[..i])|] == xs[i]
  {
    SplitAt(xs, i);
    FilterConcat(xs[..i], [xs[i]] + xs[i + 1..]);
    FilterConcat([xs[i]], xs[i + 1..]);
    assert Filter([xs[i]]) == [xs[i]];
  }

  /** An invalid token at index `i` contributes nothing to the output. */
  lemma {:induction false} FilterSkipsInvalid(xs: seq<string>, i: nat)
    requires i < |xs| && !IsValid(xs[i])
    ensures Filter(xs) == Filter(xs[..i]) + Filter(xs[i + 1..])
  {
    SplitAt(xs, i);
    FilterConcat(xs[..i], [xs[i]] + xs[i + 1..]);
    FilterConcat([xs[i]], xs[i + 1..]);
    assert Filter([xs[i]]) == [];
  }

  lemma SplitAt(xs: seq<string>, i: nat)
    requires i < |xs|
    ensures xs == xs[..i] + ([xs[i]] + xs[i + 1..])
  {
    assert xs == xs[..i] + xs[i..];
    assert xs[i..] == [xs[i]] + xs[i + 1..];
  }

  /** Filtering leaves a list unchanged exactly when every token in it is valid. */
  lemma {:induction false} FilterFixedPoint(xs: seq<string>)
    ensures Filter(xs) == xs <==> forall k :: 0 <= k < |xs| ==> IsValid(xs[k])
  {
    if xs != [] {
      FilterFixedPoint(xs[1..]);
      if forall k :: 0 <= k < |xs| ==> IsValid(xs[k]) {
        assert forall k :: 0 <= k < |xs[1..]| ==> IsValid(xs[1..][k]) by {
          forall k | 0 <= k < |xs[1..]| ensures IsValid(xs[1..][k]) {
            assert xs[1..][k] == xs[k + 1];
          }
        }
        assert xs == [xs[0]] + xs[1..];
      }
    }
  }

  /** Filtering is idempotent. */
  lemma FilterIdempotent(xs: seq<string>)
    ensures Filter(Filter(xs)) == Filter(xs)
  {
    FilterFixedPoint(Filter(xs));
  }
}
