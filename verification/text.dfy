/** Text primitives behind the output normaliser: the whitespace set that
    JavaScript's `String.prototype.trim` strips, trimming, splitting on the
    regular expression /\r?\n/ and joining with "\n".
    Strings are sequences of Unicode scalar values. */
module Text {

  import opened Lists

  /** A character that `String.prototype.trim` removes: ECMAScript WhiteSpace
      (TAB, VT, FF, ZWNBSP and the Zs space separators) and LineTerminator
      (LF, CR, LS, PS). */
  predicate IsSpace(c: char) {
    c in Whitespace
  }

  const Whitespace: set<char> := {
    '\t', '\n', '\U{B}', '\U{C}', '\r', ' ', '\U{A0}', '\U{1680}',
    '\U{2000}', '\U{2001}', '\U{2002}', '\U{2003}', '\U{2004}', '\U{2005}',
    '\U{2006}', '\U{2007}', '\U{2008}', '\U{2009}', '\U{200A}',
    '\U{2028}', '\U{2029}', '\U{202F}', '\U{205F}', '\U{3000}', '\U{FEFF}'
  }

  /** A character the regular-expression `.` does not match (ECMAScript LineTerminator). */
  predicate IsLineTerminator(c: char) {
    c == '\n' || c == '\r' || c == '\U{2028}' || c == '\U{2029}'
  }

  predicate AllSpace(s: string) {
    forall i :: 0 <= i < |s| ==> IsSpace(s[i])
  }

  predicate StartsWith(s: string, prefix: string) {
    |prefix| <= |s| && s[..|prefix|] == prefix
  }

  predicate EndsWith(s: string, suffix: string) {
    |suffix| <= |s| && s[|s| - |suffix|..] == suffix
  }

  /** Strips leading whitespace: the result is a suffix of `s`, what was cut
      off is all whitespace, and the result does not start with whitespace. */
  function TrimStart(s: string): (r: string)
    ensures |r| <= |s| && r == s[|s| - |r|..]
    ensures forall i :: 0 <= i < |s| - |r| ==> IsSpace(s[i])
    ensures r == [] || !IsSpace(r[0])
  {
    if s != [] && IsSpace(s[0]) then
      var r := TrimStart(s[1..]);
      assert s[1..][|s| - 1 - |r|..] == s[|s| - |r|..];
      r
    else s
  }

  /** Strips trailing whitespace: the result is a prefix of `s`, what was cut
      off is all whitespace, and the result does not end with whitespace. */
  function TrimEnd(s: string): (r: string)
    ensures |r| <= |s| && r == s[..|r|]
    ensures forall i :: |r| <= i < |s| ==> IsSpace(s[i])
    ensures r == [] || !IsSpace(r[|r| - 1])
  {
    if s != [] && IsSpace(s[|s| - 1]) then TrimEnd(s[..|s| - 1]) else s
  }

  /** `s.trim()`: the unique infix of `s` that leaves only whitespace on
      either side and neither starts nor ends with whitespace. */
  function Trim(s: string): (r: string)
    ensures r == [] <==> AllSpace(s)
    ensures r != [] ==> !IsSpace(r[0]) && !IsSpace(r[|r| - 1])
  {
    var t := TrimStart(s);
    var r := TrimEnd(t);
    assert r != [] ==> r[0] == t[0];
    r
  }

  /** `s.split(/\r?\n/)`: the pieces between line breaks, where a break is
      "\r\n" or a lone "\n"; a lone "\r" stays inside its line. */
  function SplitLines(s: string): (lines: seq<string>)
    ensures |lines| >= 1
    decreases |s|
  {
    if s == [] then [[]]
    else if s[0] == '\n' then [[]] + SplitLines(s[1..])
    else if s[0] == '\r' && |s| >= 2 && s[1] == '\n' then [[]] + SplitLines(s[2..])
    else
      var rest := SplitLines(s[1..]);
      [[s[0]] + rest[0]] + rest[1..]
  }

  /** There is one more line than there are line feeds, and no line holds a line feed. */
  lemma {:induction false} SplitLinesShape(s: string)
    ensures |SplitLines(s)| == multiset(s)['\n'] + 1
    ensures forall i :: 0 <= i < |SplitLines(s)| ==> '\n' !in SplitLines(s)[i]
    decreases |s|
  {
    if s != [] {
      assert s == [s[0]] + s[1..];
      if s[0] == '\n' {
        SplitLinesShape(s[1..]);
      } else if s[0] == '\r' && |s| >= 2 && s[1] == '\n' {
        assert s[1..] == [s[1]] + s[2..];
        SplitLinesShape(s[2..]);
      } else {
        SplitLinesShape(s[1..]);
      }
    }
  }

  /** `lines.join("\n")`: starts with the first line and ends with the last. */
  function Join(lines: seq<string>): (s: string)
    ensures lines != [] ==> StartsWith(s, lines[0])
    ensures lines != [] ==> var last := lines[|lines| - 1];
      |last| <= |s| && s[|s| - |last|..] == last
  {
    if |lines| == 0 then []
    else if |lines| == 1 then lines[0]
    else lines[0] + "\n" + Join(lines[1..])
  }

  /** The joined text starts with the first character of the first line and
      ends with the last character of the last line. */
  lemma JoinEnds(lines: seq<string>)
    requires lines != [] && lines[0] != [] && lines[|lines| - 1] != []
    ensures var s, last := Join(lines), lines[|lines| - 1];
      s != [] && s[0] == lines[0][0] && s[|s| - 1] == last[|last| - 1]
  {
    var s, first, last := Join(lines), lines[0], lines[|lines| - 1];
    assert s[..|first|] == first;
    assert s[|s| - |last|..] == last;
    assert s[|s| - 1] == s[|s| - |last|..][|last| - 1];
  }

  /** Whitespace in front of a string is invisible to `Trim`. */
  lemma TrimSpacePrefix(c: char, s: string)
    requires IsSpace(c)
    ensures Trim([c] + s) == Trim(s)
  {
    assert ([c] + s)[1..] == s;
  }

  lemma {:induction false} TrimStartAppend(s: string, t: string)
    ensures TrimStart(s + t) == if TrimStart(s) == [] then TrimStart(t) else TrimStart(s) + t
    decreases |s|
  {
    if s != [] {
      assert (s + t)[0] == s[0];
      if IsSpace(s[0]) {
        assert (s + t)[1..] == s[1..] + t;
        TrimStartAppend(s[1..], t);
      }
    } else {
      assert s + t == t;
    }
  }

  /** Whitespace after a string is invisible to `Trim`. */
  lemma TrimSpaceSuffix(s: string, c: char)
    requires IsSpace(c)
    ensures Trim(s + [c]) == Trim(s)
  {
    TrimStartAppend(s, [c]);
    var t := TrimStart(s);
    if t == [] {
      assert TrimStart([c]) == TrimStart([c][1..]);
    } else {
      assert (t + [c])[..|t|] == t;
      assert TrimEnd(t + [c]) == TrimEnd(t);
    }
  }

  /** A string with no whitespace at either end is left alone by `Trim`. */
  lemma TrimFixpoint(s: string)
    requires s == [] || (!IsSpace(s[0]) && !IsSpace(s[|s| - 1]))
    ensures Trim(s) == s
  {
  }

  lemma TrimIdempotent(s: string)
    ensures Trim(Trim(s)) == Trim(s)
  {
    TrimFixpoint(Trim(s));
  }

  /** A string without line feeds is a single line. */
  lemma {:induction false} SplitLinesSingle(s: string)
    requires '\n' !in s
    ensures SplitLines(s) == [s]
    decreases |s|
  {
    if s != [] {
      assert '\n' !in s[1..];
      assert |s| >= 2 ==> s[1] != '\n' by { assert |s| >= 2 ==> s[1] in s; }
      SplitLinesSingle(s[1..]);
      assert [s[0]] + s[1..] == s;
    }
  }

  /** One step of `SplitLines` on a string seen as a first character and the rest. */
  lemma SplitLinesCons(c: char, t: string)
    ensures c == '\n' ==> SplitLines([c] + t) == [[]] + SplitLines(t)
    ensures c == '\r' && t != [] && t[0] == '\n' ==> SplitLines([c] + t) == [[]] + SplitLines(t[1..])
    ensures c != '\n' && !(c == '\r' && t != [] && t[0] == '\n') ==>
      var rest := SplitLines(t); SplitLines([c] + t) == [[c] + rest[0]] + rest[1..]
  {
    var s := [c] + t;
    assert s[1..] == t;
    if |t| >= 1 { assert s[2..] == t[1..]; }
  }

  /** The inductive step shared by the append lemmas: a character other than
      a line break put in front of two strings that split alike, up to a
      common tail of lines, keeps them splitting alike. */
  lemma SplitLinesConsAlike(c: char, u: string, t: string, tail: seq<string>)
    requires SplitLines(t) == SplitLines(u) + tail
    requires c != '\n'
    requires c == '\r' ==> (u == [] || u[0] != '\n') && (t == [] || t[0] != '\n')
    ensures SplitLines([c] + t) == SplitLines([c] + u) + tail
  {
    SplitLinesCons(c, t);
    SplitLinesCons(c, u);
    var lines := SplitLines(u);
    ReplaceHead([c] + lines[0], lines, tail);
  }

  /** Splitting distributes over a "\r\n" break, whatever precedes it. */
  lemma {:induction false} SplitLinesAppendCrLf(x: string, y: string)
    ensures SplitLines(x + "\r\n" + y) == SplitLines(x) + SplitLines(y)
    decreases |x|
  {
    if x == [] {
      assert x + "\r\n" + y == ['\r'] + (['\n'] + y);
      SplitLinesCons('\r', ['\n'] + y);
      assert (['\n'] + y)[1..] == y;
    } else {
      var c, x' := x[0], x[1..];
      var t := x' + "\r\n" + y;
      assert x + "\r\n" + y == [c] + t && x == [c] + x';
      if c == '\n' {
        SplitLinesAppendCrLf(x', y);
        SplitLinesCons(c, t);
        SplitLinesCons(c, x');
        ConsAppend([], SplitLines(x'), SplitLines(y));
      } else if c == '\r' && x' != [] && x'[0] == '\n' {
        SplitLinesAppendCrLf(x'[1..], y);
        assert t[1..] == x'[1..] + "\r\n" + y;
        SplitLinesCons(c, t);
        SplitLinesCons(c, x');
        ConsAppend([], SplitLines(x'[1..]), SplitLines(y));
      } else {
        SplitLinesAppendCrLf(x', y);
        SplitLinesConsAlike(c, x', t, SplitLines(y));
      }
    }
  }

  /** Splitting distributes over a lone "\n" break, provided the text before
      it does not end in "\r" (the two would form one "\r\n" break). */
  lemma {:induction false} SplitLinesAppendLf(x: string, y: string)
    requires x == [] || x[|x| - 1] != '\r'
    ensures SplitLines(x + "\n" + y) == SplitLines(x) + SplitLines(y)
    decreases |x|
  {
    if x == [] {
      assert x + "\n" + y == ['\n'] + y;
      SplitLinesCons('\n', y);
    } else {
      var c, x' := x[0], x[1..];
      var t := x' + "\n" + y;
      assert x + "\n" + y == [c] + t && x == [c] + x';
      if c == '\n' {
        SplitLinesAppendLf(x', y);
        SplitLinesCons(c, t);
        SplitLinesCons(c, x');
        ConsAppend([], SplitLines(x'), SplitLines(y));
      } else if c == '\r' && x' != [] && x'[0] == '\n' {
        SplitLinesAppendLf(x'[1..], y);
        assert t[1..] == x'[1..] + "\n" + y;
        SplitLinesCons(c, t);
        SplitLinesCons(c, x');
        ConsAppend([], SplitLines(x'[1..]), SplitLines(y));
      } else {
        SplitLinesAppendLf(x', y);
        SplitLinesConsAlike(c, x', t, SplitLines(y));
      }
    }
  }

  /** Appending a character other than a line feed to `x` extends the last
      line of `x` by that character. */
  ghost predicate SnocExtendsLast(x: string, d: char) {
    var lines := SplitLines(x);
    var k := |lines| - 1;
    SplitLines(x + [d]) == lines[..k] + [lines[k] + [d]]
  }

  lemma SnocAfterLineFeed(x: string, d: char)
    requires SnocExtendsLast(x, d)
    ensures SnocExtendsLast(['\n'] + x, d)
  {
    assert (['\n'] + x) + [d] == ['\n'] + (x + [d]);
    SplitLinesCons('\n', x + [d]);
    SplitLinesCons('\n', x);
    var lines := SplitLines(x);
    ReplaceLast([[]] + lines, lines[|lines| - 1] + [d], []);
  }

  lemma SnocAfterCrLf(u: string, d: char)
    requires u != [] && u[0] == '\n' && SnocExtendsLast(u[1..], d)
    ensures SnocExtendsLast(['\r'] + u, d)
  {
    var t := u + [d];
    assert (['\r'] + u) + [d] == ['\r'] + t;
    assert t[0] == '\n' && t[1..] == u[1..] + [d];
    SplitLinesCons('\r', t);
    SplitLinesCons('\r', u);
    var lines := SplitLines(u[1..]);
    ReplaceLast([[]] + lines, lines[|lines| - 1] + [d], []);
  }

  lemma SnocAfterOther(c: char, x: string, d: char)
    requires c != '\n' && !(c == '\r' && x != [] && x[0] == '\n')
    requires d != '\n' && SnocExtendsLast(x, d)
    ensures SnocExtendsLast([c] + x, d)
  {
    var t := x + [d];
    assert ([c] + x) + [d] == [c] + t;
    assert c == '\r' ==> t[0] != '\n' by {
      if x == [] { assert t == [d]; } else { assert t[0] == x[0]; }
    }
    SplitLinesCons(c, t);
    SplitLinesCons(c, x);
    var lines := SplitLines(x);
    var k := |lines| - 1;
    if k == 0 {
      assert [c] + (lines[0] + [d]) == ([c] + lines[0]) + [d];
    } else {
      ReplaceLast(lines, lines[k] + [d], [c] + lines[0]);
    }
  }

  lemma {:induction false} SplitLinesSnoc(x: string, d: char)
    requires d != '\n'
    ensures SnocExtendsLast(x, d)
    decreases |x|
  {
    if x == [] {
      assert x + [d] == [d];
      SplitLinesSingle([d]);
    } else if x[0] == '\n' {
      SplitLinesSnoc(x[1..], d);
      SnocAfterLineFeed(x[1..], d);
      assert ['\n'] + x[1..] == x;
    } else if x[0] == '\r' && |x| >= 2 && x[1] == '\n' {
      SplitLinesSnoc(x[2..], d);
      assert x[1..][1..] == x[2..];
      SnocAfterCrLf(x[1..], d);
      assert ['\r'] + x[1..] == x;
    } else {
      SplitLinesSnoc(x[1..], d);
      SnocAfterOther(x[0], x[1..], d);
      assert [x[0]] + x[1..] == x;
    }
  }

  /** Splitting undoes joining, provided no line holds a line feed and no
      line ends in "\r" (which would merge with the joining "\n"). */
  lemma {:induction false} SplitJoin(lines: seq<string>)
    requires lines != []
    requires forall i :: 0 <= i < |lines| ==>
      '\n' !in lines[i] && (lines[i] == [] || lines[i][|lines[i]| - 1] != '\r')
    ensures SplitLines(Join(lines)) == lines
    decreases |lines|
  {
    SplitLinesSingle(lines[0]);
    if |lines| > 1 {
      SplitJoin(lines[1..]);
      SplitLinesAppendLf(lines[0], Join(lines[1..]));
    }
  }
}
