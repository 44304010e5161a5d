/** The output normaliser `normalizeOutput` of src/extension.ts: split the
    text into lines on "\r\n" or "\n", trim every line, drop the lines that
    are then empty and join the rest with "\n". It is applied to the
    program's output and to the expected output before they are compared. */
module Normalizer {

  import opened Lists
  import opened Text

  /** `lines.map(line => line.trim())`. */
  function TrimEach(lines: seq<string>): (r: seq<string>)
    ensures |r| == |lines|
    ensures forall i :: 0 <= i < |r| ==> r[i] == Trim(lines[i])
  {
    if lines == [] then [] else [Trim(lines[0])] + TrimEach(lines[1..])
  }

  /** `r` keeps some of the elements of `s`, in their original order. */
  ghost predicate SubsequenceOf<T>(r: seq<T>, s: seq<T>)
    decreases |s|
  {
    if r == [] then true
    else if s == [] then false
    else (r[0] == s[0] && SubsequenceOf(r[1..], s[1..])) || SubsequenceOf(r, s[1..])
  }

  /** `lines.filter(line => line !== "")`: exactly the non-empty lines, each
      as often as it occurs, in their original order. */
  function DropBlank(lines: seq<string>): (r: seq<string>)
    ensures forall i :: 0 <= i < |r| ==> r[i] != [] && r[i] in lines
    ensures forall l :: l != [] ==> multiset(r)[l] == multiset(lines)[l]
    ensures SubsequenceOf(r, lines)
  {
    if lines == [] then []
    else
      assert lines == [lines[0]] + lines[1..];
      var rest := DropBlank(lines[1..]);
      if lines[0] == [] then rest else [lines[0]] + rest
  }

  /** A line after trimming: no line feed inside and no whitespace at
      either end (so in particular it does not end in "\r"). */
  predicate TrimmedLine(line: string) {
    '\n' !in line && (line == [] || (!IsSpace(line[0]) && !IsSpace(line[|line| - 1])))
  }

  /** A line that survives normalisation: trimmed and non-empty. */
  predicate GoodLine(line: string) {
    line != [] && TrimmedLine(line)
  }

  /** The lines of the normalised text. */
  function NormalLines(s: string): (lines: seq<string>)
    ensures forall i :: 0 <= i < |lines| ==> GoodLine(lines[i])
  {
    SplitLinesShape(s);
    TrimEachTrimmed(SplitLines(s));
    DropBlankGood(TrimEach(SplitLines(s)));
    DropBlank(TrimEach(SplitLines(s)))
  }

  /** `normalizeOutput(s)`: the text neither starts nor ends with whitespace,
      so in particular not with a line break. */
  function Normalize(s: string): (r: string)
    ensures r == [] || (!IsSpace(r[0]) && !IsSpace(r[|r| - 1]))
  {
    var lines := NormalLines(s);
    if lines == [] then []
    else
      JoinEnds(lines);
      Join(lines)
  }

  lemma TrimNoLineFeed(s: string)
    requires '\n' !in s
    ensures '\n' !in Trim(s)
  {
    var t := TrimStart(s);
    assert t == s[|s| - |t|..];
    assert Trim(s) == t[..|Trim(s)|];
  }

  lemma TrimmedOfTrim(line: string)
    requires '\n' !in line
    ensures TrimmedLine(Trim(line))
  {
    TrimNoLineFeed(line);
  }

  lemma TrimEachTrimmed(lines: seq<string>)
    requires forall i :: 0 <= i < |lines| ==> '\n' !in lines[i]
    ensures forall i :: 0 <= i < |lines| ==> TrimmedLine(TrimEach(lines)[i])
  {
    forall i | 0 <= i < |lines| ensures TrimmedLine(TrimEach(lines)[i]) {
      TrimmedOfTrim(lines[i]);
    }
  }

  lemma {:induction false} DropBlankGood(lines: seq<string>)
    requires forall i :: 0 <= i < |lines| ==> TrimmedLine(lines[i])
    ensures forall i :: 0 <= i < |DropBlank(lines)| ==> GoodLine(DropBlank(lines)[i])
    decreases |lines|
  {
    if lines != [] {
      DropBlankGood(lines[1..]);
    }
  }

  lemma {:induction false} TrimEachAppend(a: seq<string>, b: seq<string>)
    ensures TrimEach(a + b) == TrimEach(a) + TrimEach(b)
    decreases |a|
  {
    if a == [] {
      assert a + b == b;
    } else {
      assert (a + b)[1..] == a[1..] + b;
      TrimEachAppend(a[1..], b);
      ConsAppend(Trim(a[0]), TrimEach(a[1..]), TrimEach(b));
    }
  }

  lemma {:induction false} DropBlankAppend(a: seq<string>, b: seq<string>)
    ensures DropBlank(a + b) == DropBlank(a) + DropBlank(b)
    decreases |a|
  {
    if a == [] {
      assert a + b == b;
    } else {
      assert (a + b)[1..] == a[1..] + b;
      DropBlankAppend(a[1..], b);
      if a[0] != [] {
        ConsAppend(a[0], DropBlank(a[1..]), DropBlank(b));
      }
    }
  }

  /** The lines of a text that is already normal are left as they are. */
  lemma {:induction false} NormalFixpoint(lines: seq<string>)
    requires forall i :: 0 <= i < |lines| ==> GoodLine(lines[i])
    ensures DropBlank(TrimEach(lines)) == lines
    decreases |lines|
  {
    if lines != [] {
      TrimFixpoint(lines[0]);
      NormalFixpoint(lines[1..]);
      var trimmed := TrimEach(lines);
      assert trimmed[0] == lines[0];
      assert trimmed[1..] == TrimEach(lines[1..]);
      SplitFirst(lines);
    }
  }

  /** The lines of the normalised text are exactly the surviving lines:
      splitting the result gives them back, and the result is empty exactly
      when no line survives. */
  lemma NormalizeLines(s: string)
    ensures Normalize(s) == [] <==> NormalLines(s) == []
    ensures NormalLines(s) != [] ==> SplitLines(Normalize(s)) == NormalLines(s)
  {
    var lines := NormalLines(s);
    if lines != [] {
      SplitJoin(lines);
    }
  }

  /** Normalising twice gives the same text as normalising once. */
  lemma NormalizeIdempotent(s: string)
    ensures Normalize(Normalize(s)) == Normalize(s)
  {
    var lines, r := NormalLines(s), Normalize(s);
    if lines == [] {
      assert r == [];
      NormalLinesEmpty();
    } else {
      assert r == Join(lines);
      SplitJoin(lines);
      NormalFixpoint(lines);
      assert NormalLines(r) == lines;
    }
  }

  lemma NormalLinesEmpty()
    ensures NormalLines([]) == []
  {
    assert SplitLines([]) == [[]];
    assert TrimEach([[]]) == [[]];
  }

  /** Whitespace at the front of a text does not change its lines. */
  lemma NormalLinesSpacePrefix(c: char, t: string)
    requires IsSpace(c)
    ensures NormalLines([c] + t) == NormalLines(t)
  {
    SplitLinesCons(c, t);
    if c == '\r' && t != [] && t[0] == '\n' {
      SplitFirst(t);
      SplitLinesCons('\n', t[1..]);
    } else if c != '\n' {
      var rest := SplitLines(t);
      TrimSpacePrefix(c, rest[0]);
      SplitFirst(rest);
      TrimEachAppend([[c] + rest[0]], rest[1..]);
      TrimEachAppend([rest[0]], rest[1..]);
    }
  }

  /** Whitespace other than a line feed at the end of a text does not change its lines. */
  lemma NormalLinesSpaceSuffixInline(x: string, c: char)
    requires IsSpace(c) && c != '\n'
    ensures NormalLines(x + [c]) == NormalLines(x)
  {
    SplitLinesSnoc(x, c);
    var lines := SplitLines(x);
    var k := |lines| - 1;
    SplitLast(lines);
    TrimSpaceSuffix(lines[k], c);
    TrimEachAppend(lines[..k], [lines[k] + [c]]);
    TrimEachAppend(lines[..k], [lines[k]]);
  }

  /** Normalisation works line by line: the lines of two texts joined by a
      line feed are the lines of the first followed by those of the second. */
  lemma NormalLinesConcat(a: string, b: string)
    ensures NormalLines(a + "\n" + b) == NormalLines(a) + NormalLines(b)
  {
    if a == [] || a[|a| - 1] != '\r' {
      SplitLinesAppendLf(a, b);
      TrimEachAppend(SplitLines(a), SplitLines(b));
      DropBlankAppend(TrimEach(SplitLines(a)), TrimEach(SplitLines(b)));
    } else {
      var a0 := a[..|a| - 1];
      SplitLast(a);
      assert a + "\n" + b == a0 + "\r\n" + b;
      SplitLinesAppendCrLf(a0, b);
      TrimEachAppend(SplitLines(a0), SplitLines(b));
      DropBlankAppend(TrimEach(SplitLines(a0)), TrimEach(SplitLines(b)));
      NormalLinesSpaceSuffixInline(a0, '\r');
    }
  }

  lemma NormalLinesBreakSuffix(x: string)
    ensures NormalLines(x + ['\n']) == NormalLines(x)
  {
    var e: string := [];
    assert x + "\n" + e == x + ['\n'];
    NormalLinesConcat(x, e);
    NormalLinesEmpty();
    AppendEmpty(NormalLines(x));
  }

  /** Any whitespace at the end of a text does not change its lines. */
  lemma NormalLinesSpaceSuffix(x: string, c: char)
    requires IsSpace(c)
    ensures NormalLines(x + [c]) == NormalLines(x)
  {
    if c == '\n' {
      NormalLinesBreakSuffix(x);
    } else {
      NormalLinesSpaceSuffixInline(x, c);
    }
  }

  lemma AllSpaceCons(c: char, t: string)
    ensures AllSpace([c] + t) <==> IsSpace(c) && AllSpace(t)
  {
    var s := [c] + t;
    if IsSpace(c) && AllSpace(t) {
      forall i | 0 <= i < |s| ensures IsSpace(s[i]) {
        if i > 0 { assert s[i] == t[i - 1]; }
      }
    }
    if AllSpace(s) {
      assert s[0] == c;
      forall i | 0 <= i < |t| ensures IsSpace(t[i]) {
        assert t[i] == s[i + 1];
      }
    }
  }

  lemma DropBlankKeepsHead(lines: seq<string>)
    requires lines != [] && lines[0] != []
    ensures DropBlank(lines) != []
  {
  }

  /** No line survives exactly when the text consists of whitespace only. */
  lemma {:induction false} NormalLinesEmptyIff(s: string)
    ensures NormalLines(s) == [] <==> AllSpace(s)
    decreases |s|
  {
    if s == [] {
      NormalLinesEmpty();
    } else {
      var c, t := s[0], s[1..];
      SplitFirst(s);
      AllSpaceCons(c, t);
      if IsSpace(c) {
        NormalLinesSpacePrefix(c, t);
        NormalLinesEmptyIff(t);
      } else {
        SplitLinesCons(c, t);
        var first := [c] + SplitLines(t)[0];
        AllSpaceCons(c, SplitLines(t)[0]);
        DropBlankKeepsHead(TrimEach(SplitLines(s)));
      }
    }
  }

  /** A text normalises to "" exactly when it consists of whitespace only. */
  lemma NormalizeEmptyIff(s: string)
    ensures Normalize(s) == [] <==> AllSpace(s)
  {
    NormalLinesEmptyIff(s);
    NormalizeLines(s);
  }

  /** A "\r\n" line ending normalises exactly like a "\n" line ending. */
  lemma NormalizeCrLf(a: string, b: string)
    ensures Normalize(a + "\r\n" + b) == Normalize(a + "\n" + b)
  {
    SplitLinesAppendCrLf(a, b);
    TrimEachAppend(SplitLines(a), SplitLines(b));
    DropBlankAppend(TrimEach(SplitLines(a)), TrimEach(SplitLines(b)));
    NormalLinesConcat(a, b);
  }

  /** A line holding only whitespace disappears from the normalised text. */
  lemma NormalizeDropsBlankLine(a: string, w: string, b: string)
    requires AllSpace(w)
    ensures Normalize(a + "\n" + w + "\n" + b) == Normalize(a + "\n" + b)
  {
    var tail := w + "\n" + b;
    Regroup(a, "\n", w, b);
    NormalLinesConcat(a, tail);
    NormalLinesConcat(w, b);
    NormalLinesEmptyIff(w);
    NormalLinesConcat(a, b);
    AppendEmptyMiddle(NormalLines(a), NormalLines(w), NormalLines(b));
  }

  lemma {:induction false} NormalLinesTrimStart(s: string)
    ensures NormalLines(TrimStart(s)) == NormalLines(s)
    decreases |s|
  {
    if s != [] && IsSpace(s[0]) {
      SplitFirst(s);
      NormalLinesSpacePrefix(s[0], s[1..]);
      NormalLinesTrimStart(s[1..]);
    }
  }

  lemma {:induction false} NormalLinesTrimEnd(s: string)
    ensures NormalLines(TrimEnd(s)) == NormalLines(s)
    decreases |s|
  {
    if s != [] && IsSpace(s[|s| - 1]) {
      SplitLast(s);
      NormalLinesSpaceSuffix(s[..|s| - 1], s[|s| - 1]);
      NormalLinesTrimEnd(s[..|s| - 1]);
    }
  }

  /** Trimming the whole text first (as the runner does with the program's
      standard output) does not change its normalised form. */
  lemma NormalizeTrimmed(s: string)
    ensures Normalize(Trim(s)) == Normalize(s)
  {
    NormalLinesTrimStart(s);
    NormalLinesTrimEnd(TrimStart(s));
  }

  /** A single line with nothing to trim normalises to itself. */
  lemma NormalLinesOfGoodLine(line: string)
    requires GoodLine(line)
    ensures NormalLines(line) == [line]
  {
    SplitLinesSingle(line);
    NormalFixpoint([line]);
  }

  /** A "\r\n" line ending reads like a "\n" one. */
  lemma NormalizeExampleCrLf()
    ensures Normalize("a\r\nb\n") == Normalize("a\nb\n")
  {
    var a, b := "a", "b\n";
    assert "a\r\nb\n" == a + "\r\n" + b;
    assert "a\nb\n" == a + "\n" + b;
    NormalizeCrLf(a, b);
  }

  /** A whitespace-only line between two clean lines vanishes, and what
      remains is the two lines joined by a single "\n". */
  lemma NormalizeBlankBetween(a: string, w: string, b: string)
    requires GoodLine(a) && GoodLine(b) && AllSpace(w)
    ensures Normalize(a + "\n" + w + "\n" + b) == a + "\n" + b
  {
    NormalizeDropsBlankLine(a, w, b);
    NormalLinesConcat(a, b);
    NormalLinesOfGoodLine(a);
    NormalLinesOfGoodLine(b);
    assert Join([a, b]) == a + "\n" + Join([b]);
  }

  /** No two line feeds in a row: the text holds no empty line. */
  predicate NoEmptyLine(s: string) {
    forall j :: 0 <= j < |s| - 1 ==> !(s[j] == '\n' && s[j + 1] == '\n')
  }

  lemma GlueNoEmptyLine(head: string, rest: string)
    requires '\n' !in head && rest != [] && rest[0] != '\n' && NoEmptyLine(rest)
    ensures NoEmptyLine(head + "\n" + rest)
  {
    var s := head + "\n" + rest;
    forall j | 0 <= j < |s| - 1
      ensures !(s[j] == '\n' && s[j + 1] == '\n')
    {
      if j < |head| {
        assert s[j] == head[j];
      } else if j > |head| {
        assert s[j] == rest[j - |head| - 1] && s[j + 1] == rest[j - |head|];
      }
    }
  }

  lemma {:induction false} JoinNoEmptyLine(lines: seq<string>)
    requires forall i :: 0 <= i < |lines| ==> GoodLine(lines[i])
    ensures NoEmptyLine(Join(lines))
  {
    if |lines| >= 2 {
      JoinNoEmptyLine(lines[1..]);
      assert StartsWith(Join(lines[1..]), lines[1]);
      GlueNoEmptyLine(lines[0], Join(lines[1..]));
    }
  }

  /** The normalised text holds no empty line and does not end with a line
      feed, so a reader can tell where it stops inside a longer message. */
  lemma NormalizeNoEmptyLine(s: string)
    ensures NoEmptyLine(Normalize(s))
    ensures Normalize(s) == [] || Normalize(s)[|Normalize(s)| - 1] != '\n'
  {
    if NormalLines(s) != [] {
      JoinNoEmptyLine(NormalLines(s));
    }
  }
}
