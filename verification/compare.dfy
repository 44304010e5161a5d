/** The comparison step of `runAndCompare` in src/extension.ts: the
    program's output and the expected output are normalised independently
    and compared as strings; on a mismatch the user sees both normalised
    texts in one message. */
module Compare {

  import opened Wrappers
  import opened Text
  import opened Normalizer

  datatype Verdict = Passed | Failed(message: string)

  const PassedMessage: string := "Test case passed!"
  const ExpectedHeading: string := "Test case failed.\nExpected:\n"
  const ReceivedHeading: string := "\n\nReceived:\n"

  /** The text shown when the outputs differ. */
  function FailureMessage(expected: string, received: string): string {
    ExpectedHeading + expected + ReceivedHeading + received
  }

  /** The verdict on one run: it passes exactly when the two normalised
      texts agree, and a failure quotes the expected text first. */
  function Judge(actual: string, expected: string): (v: Verdict)
    ensures v.Passed? <==> Normalize(actual) == Normalize(expected)
    ensures v.Failed? ==> v.message == FailureMessage(Normalize(expected), Normalize(actual))
  {
    var output := Normalize(actual);
    var expectedOutput := Normalize(expected);
    if output == expectedOutput then Passed
    else Failed(FailureMessage(expectedOutput, output))
  }

  /** `pat` occurs in `s` at position `i`. */
  predicate OccursAt(s: string, pat: string, i: nat) {
    i + |pat| <= |s| && s[i..i + |pat|] == pat
  }

  /** The first occurrence of `pat` in `s` at or after `i`. */
  function FindFrom(s: string, pat: string, i: nat): (r: Option<nat>)
    ensures r.Some? ==> i <= r.value && OccursAt(s, pat, r.value)
    ensures r.Some? ==> forall j :: i <= j < r.value ==> !OccursAt(s, pat, j)
    ensures r.None? ==> forall j :: i <= j ==> !OccursAt(s, pat, j)
    decreases |s| - i
  {
    if i + |pat| > |s| then None
    else if s[i..i + |pat|] == pat then Some(i)
    else FindFrom(s, pat, i + 1)
  }

  /** Reads a failure message back into the expected and received texts,
      splitting at the first received heading. */
  function ParseFailureMessage(m: string): (r: Option<(string, string)>)
    ensures r.Some? ==> m == FailureMessage(r.value.0, r.value.1)
  {
    if !StartsWith(m, ExpectedHeading) then None
    else
      var body := m[|ExpectedHeading|..];
      match FindFrom(body, ReceivedHeading, 0)
      case None => None
      case Some(k) =>
        assert body == body[..k] + ReceivedHeading + body[k + |ReceivedHeading|..];
        assert m == ExpectedHeading + body;
        Some((body[..k], body[k + |ReceivedHeading|..]))
  }

  /** The received heading cannot start where the text has no two line
      feeds in a row. */
  lemma NoHeadingAt(s: string, j: nat)
    requires j + 1 < |s| && !(s[j] == '\n' && s[j + 1] == '\n')
    ensures !OccursAt(s, ReceivedHeading, j)
  {
    if j + |ReceivedHeading| <= |s| {
      assert s[j..j + |ReceivedHeading|][0] == s[j];
      assert s[j..j + |ReceivedHeading|][1] == s[j + 1];
    }
  }

  /** Any position before the end of `expected` cannot start the received
      heading, because that would need two line feeds in a row there or a
      line feed at the end of `expected`. */
  lemma HeadingNotEarlier(expected: string, rest: string, j: nat)
    requires NoEmptyLine(expected)
    requires expected == [] || expected[|expected| - 1] != '\n'
    requires j < |expected|
    ensures !OccursAt(expected + rest, ReceivedHeading, j)
  {
    var s := expected + rest;
    assert s[j] == expected[j];
    if j + 1 < |expected| {
      assert s[j + 1] == expected[j + 1];
    }
    if j + 1 < |s| {
      NoHeadingAt(s, j);
    }
  }

  /** The failure message separates the two texts unambiguously whenever the
      expected text has no empty line and no trailing line feed. */
  lemma {:induction false} FailureMessageRoundTrip(expected: string, received: string)
    requires NoEmptyLine(expected)
    requires expected == [] || expected[|expected| - 1] != '\n'
    ensures ParseFailureMessage(FailureMessage(expected, received)) == Some((expected, received))
  {
    var m := FailureMessage(expected, received);
    var body := expected + (ReceivedHeading + received);
    assert m == ExpectedHeading + body;
    assert m[|ExpectedHeading|..] == body;
    assert body[|expected|..|expected| + |ReceivedHeading|] == ReceivedHeading;
    assert OccursAt(body, ReceivedHeading, |expected|);
    forall j | 0 <= j < |expected|
      ensures !OccursAt(body, ReceivedHeading, j)
    {
      HeadingNotEarlier(expected, ReceivedHeading + received, j);
    }
    var r := FindFrom(body, ReceivedHeading, 0);
    assert r == Some(|expected|);
    assert body[..|expected|] == expected;
    assert body[|expected| + |ReceivedHeading|..] == received;
  }

  /** Every failure the judge reports can be read back into exactly the two
      normalised texts it compared. */
  lemma JudgeFailureReadable(actual: string, expected: string)
    requires Judge(actual, expected).Failed?
    ensures ParseFailureMessage(Judge(actual, expected).message)
      == Some((Normalize(expected), Normalize(actual)))
  {
    NormalizeNoEmptyLine(expected);
    FailureMessageRoundTrip(Normalize(expected), Normalize(actual));
  }

  /** Two outputs with the same normalised form are judged alike, on either
      side of the comparison. */
  lemma JudgeAlike(x: string, y: string, other: string)
    requires Normalize(x) == Normalize(y)
    ensures Judge(x, other) == Judge(y, other)
    ensures Judge(other, x) == Judge(other, y)
  {
  }

  /** The verdict depends on the two outputs only through their normalised
      forms: normalising either beforehand changes nothing. */
  lemma JudgeNormalizedInputs(actual: string, expected: string)
    ensures Judge(Normalize(actual), expected) == Judge(actual, expected)
    ensures Judge(actual, Normalize(expected)) == Judge(actual, expected)
  {
    NormalizeIdempotent(actual);
    JudgeAlike(Normalize(actual), actual, expected);
    NormalizeIdempotent(expected);
    JudgeAlike(Normalize(expected), expected, actual);
  }

  /** Swapping the two outputs does not change whether the test passes. */
  lemma JudgePassSymmetric(actual: string, expected: string)
    ensures Judge(actual, expected).Passed? <==> Judge(expected, actual).Passed?
  {
  }

  /** Trimming the program's output, as the runner does, never changes the
      verdict. */
  lemma JudgeTrimmedOutput(actual: string, expected: string)
    ensures Judge(Trim(actual), expected) == Judge(actual, expected)
  {
    NormalizeTrimmed(actual);
    JudgeAlike(Trim(actual), actual, expected);
  }

  /** Windows and Unix line endings in the output are judged alike. */
  lemma JudgeLineEndings(a: string, b: string, expected: string)
    ensures Judge(a + "\r\n" + b, expected) == Judge(a + "\n" + b, expected)
  {
    NormalizeCrLf(a, b);
    JudgeAlike(a + "\r\n" + b, a + "\n" + b, expected);
  }

  /** Output that is nothing but whitespace passes exactly against expected
      output that is nothing but whitespace. */
  lemma JudgeBlankOutput(actual: string, expected: string)
    requires AllSpace(actual)
    ensures Judge(actual, expected).Passed? <==> AllSpace(expected)
  {
    NormalizeEmptyIff(actual);
    NormalizeEmptyIff(expected);
  }
}
