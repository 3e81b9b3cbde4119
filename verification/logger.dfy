/**
 * Logger tags from stack frames. `createStackElementTag` removes the
 * anonymous-class suffix matched by the Java regex `(\$\d+)+$` and keeps the
 * simple name after the last `.`; `getMethodAndLine` joins that tag with the
 * method name and takes the text between the first and the second `(` of the
 * frame's string form as the line.
 */
module Logger {
  import opened Wrappers

  /** `\d` without the UNICODE_CHARACTER_CLASS flag: an ASCII digit. */
  predicate IsDigit(c: char) {
    '0' <= c <= '9'
  }

  /** The characters Java's regex engine treats as line terminators. */
  predicate IsLineTerminator(c: char) {
    c == '\n' || c == '\r' || c == '\U{0085}' || c == '\U{2028}' || c == '\U{2029}'
  }

  /**
   * Outside MULTILINE mode Java's `$` matches at the end of the input and
   * also just before a line terminator that ends it ("\r\n" counts as one).
   * This is the length of that final terminator, 0 when there is none.
   */
  function TerminatorLength(s: string): (n: nat)
    ensures n <= |s| && n <= 2
    ensures n == 0 <==> |s| == 0 || !IsLineTerminator(s[|s| - 1])
    ensures n == 2 <==> |s| >= 2 && s[|s| - 2] == '\r' && s[|s| - 1] == '\n'
  {
    if |s| >= 2 && s[|s| - 2] == '\r' && s[|s| - 1] == '\n' then 2
    else if |s| >= 1 && IsLineTerminator(s[|s| - 1]) then 1
    else 0
  }

  /**
   * Position `p` may lie inside a match of `(\$\d+)+` that ends at `e`:
   * a digit, or a `$` followed by a digit before `e`.
   */
  predicate ValidAt(s: string, p: nat, e: nat)
    requires p < e <= |s|
  {
    IsDigit(s[p]) || (s[p] == '$' && p + 1 < e && IsDigit(s[p + 1]))
  }

  /**
   * `s[i..e]` is in the language of `(\$\d+)+`: it starts with `$`, holds only
   * `$` and digits, and every `$` is followed by a digit.
   */
  ghost predicate IsRunAt(s: string, i: nat, e: nat)
    requires i <= e <= |s|
  {
    i < e && s[i] == '$' && forall p :: i <= p < e ==> ValidAt(s, p, e)
  }

  /** The end of the block of digits that starts at `j`. */
  function DigitBlockEnd(t: string, j: nat): (n: nat)
    requires j <= |t|
    ensures j <= n <= |t|
    ensures forall p :: j <= p < n ==> IsDigit(t[p])
    ensures n == |t| || !IsDigit(t[n])
    decreases |t| - j
  {
    if j < |t| && IsDigit(t[j]) then DigitBlockEnd(t, j + 1) else j
  }

  /**
   * The regex `(\$\d+)+` read group by group: a `$`, a block of digits, then
   * either the end or further groups.
   */
  ghost predicate Groups(t: string)
    decreases |t|
  {
    && |t| >= 2 && t[0] == '$' && IsDigit(t[1])
    && var n := DigitBlockEnd(t, 1);
       n == |t| || Groups(t[n..])
  }

  /** `IsRunAt` describes exactly the strings the regex `(\$\d+)+` matches. */
  lemma {:induction false} RunIffGroups(t: string)
    ensures IsRunAt(t, 0, |t|) <==> Groups(t)
    decreases |t|
  {
    if |t| >= 2 && t[0] == '$' && IsDigit(t[1]) {
      var n := DigitBlockEnd(t, 1);
      if n < |t| {
        var u := t[n..];
        RunIffGroups(u);
        if IsRunAt(t, 0, |t|) {
          assert ValidAt(t, n, |t|);
          forall q | 0 <= q < |u|
            ensures ValidAt(u, q, |u|)
          {
            assert ValidAt(t, n + q, |t|);
          }
        }
        if Groups(t) {
          assert IsRunAt(u, 0, |u|);
          forall p | 0 <= p < |t|
            ensures ValidAt(t, p, |t|)
          {
            if p >= n {
              assert ValidAt(u, p - n, |u|);
            }
          }
        }
      } else {
        forall p | 0 <= p < |t|
          ensures ValidAt(t, p, |t|)
        {
        }
      }
    } else if IsRunAt(t, 0, |t|) {
      RunOpensGroup(t);
    }
  }

  /** A run starts with `$` and a digit. */
  lemma RunOpensGroup(t: string)
    requires IsRunAt(t, 0, |t|)
    ensures |t| >= 2 && t[0] == '$' && IsDigit(t[1])
  {
    assert ValidAt(t, 0, |t|);
  }

  /** Whether `s[i..e]` is a run depends on that slice alone. */
  lemma RunAtSlice(s: string, i: nat, e: nat)
    requires i <= e <= |s|
    ensures IsRunAt(s, i, e) <==> IsRunAt(s[i..e], 0, e - i)
  {
    var t := s[i..e];
    if IsRunAt(s, i, e) {
      forall q | 0 <= q < |t|
        ensures ValidAt(t, q, |t|)
      {
        assert ValidAt(s, i + q, e);
      }
    }
    if IsRunAt(t, 0, |t|) {
      forall p | i <= p < e
        ensures ValidAt(s, p, e)
      {
        assert ValidAt(t, p - i, |t|);
      }
    }
  }

  /**
   * The backward scan that finds where a match of `(\$\d+)+` ending at `e`
   * starts: `s[j..e]` has been scanned, and `k` is the leftmost `$` in it
   * (or `e` when there is none).
   */
  function ScanRunStart(s: string, e: nat, j: nat, k: nat): (r: nat)
    requires j <= k <= e <= |s|
    requires forall p :: j <= p < e ==> ValidAt(s, p, e)
    requires k == e || s[k] == '$'
    requires forall p :: j <= p < k ==> s[p] != '$'
    ensures r <= e
    ensures r == e || IsRunAt(s, r, e)
    ensures forall i: nat :: i < r ==> !IsRunAt(s, i, e)
    decreases j
  {
    if j > 0 && ValidAt(s, j - 1, e) then
      ScanRunStart(s, e, j - 1, if s[j - 1] == '$' then j - 1 else k)
    else
      NoRunAcross(s, e, j);
      k
  }

  /** No match ending at `e` starts before a position that cannot lie inside one. */
  lemma NoRunAcross(s: string, e: nat, j: nat)
    requires j <= e <= |s|
    requires j == 0 || !ValidAt(s, j - 1, e)
    ensures forall i: nat :: i < j ==> !IsRunAt(s, i, e)
  {
  }

  /**
   * Where `Matcher.find` starts its match of `(\$\d+)+` ending at `e`: the
   * leftmost such start, so the match is the longest; `e` when none exists.
   */
  function RunStart(s: string, e: nat): (k: nat)
    requires e <= |s|
    ensures k <= e
    ensures k == e || IsRunAt(s, k, e)
    ensures forall i: nat :: i < k ==> !IsRunAt(s, i, e)
  {
    ScanRunStart(s, e, e, e)
  }

  /** The end of the regex's match: the end of the input, before a final line terminator. */
  function MatchEnd(s: string): (e: nat)
    ensures e <= |s|
    ensures e == |s| <==> |s| == 0 || !IsLineTerminator(s[|s| - 1])
    ensures forall p :: e <= p < |s| ==> IsLineTerminator(s[p])
    ensures |s| - e <= 2
    ensures |s| - e == 2 <==> |s| >= 2 && s[|s| - 2] == '\r' && s[|s| - 1] == '\n'
  {
    |s| - TerminatorLength(s)
  }

  /** `m.find()` then `m.replaceAll("")`: drop the matched anonymous-class suffix. */
  function StripAnonymous(s: string): (r: string)
    ensures var e := MatchEnd(s); var k := RunStart(s, e);
              r == s[..k] + s[e..] && (k == e <==> r == s)
  {
    var e := MatchEnd(s);
    var k := RunStart(s, e);
    s[..k] + s[e..]
  }

  /** `lastIndexOf`: the last position holding `c`, or -1. */
  function LastIndexOf(s: string, c: char): (r: int)
    ensures -1 <= r < |s|
    ensures r >= 0 ==> s[r] == c
    ensures forall p :: r < p < |s| ==> s[p] != c
  {
    if |s| == 0 then -1
    else if s[|s| - 1] == c then |s| - 1
    else LastIndexOf(s[..|s| - 1], c)
  }

  /** The first position holding `c`, or -1. */
  function IndexOf(s: string, c: char): (r: int)
    ensures -1 <= r < |s|
    ensures r >= 0 ==> s[r] == c
    ensures forall p :: 0 <= p < |s| && (r < 0 || p < r) ==> s[p] != c
  {
    if |s| == 0 then -1
    else if s[0] == c then 0
    else var r := IndexOf(s[1..], c); if r < 0 then -1 else r + 1
  }

  /** `createStackElementTag`: the class name without anonymous suffix and package. */
  function CreateStackElementTag(className: string): (tag: string)
    ensures '.' !in tag
    ensures var t := StripAnonymous(className);
              |tag| <= |t| && tag == t[|t| - |tag|..]
    ensures var t := StripAnonymous(className);
              '.' in t ==> t[|t| - |tag| - 1] == '.'
    ensures var t := StripAnonymous(className);
              '.' !in t ==> tag == t
  {
    var t := StripAnonymous(className);
    t[LastIndexOf(t, '.') + 1..]
  }

  /**
   * Kotlin's `split(c)`: the fields between occurrences of `c`, keeping
   * empty ones, so there is one field more than there are delimiters.
   */
  function Split(s: string, c: char): (fields: seq<string>)
    ensures |fields| >= 1
    decreases |s|
  {
    var i := IndexOf(s, c);
    if i < 0 then [s] else [s[..i]] + Split(s[i + 1..], c)
  }

  /** Joins fields with `c` in between, the inverse of `Split`. */
  function Join(fields: seq<string>, c: char): string
    requires |fields| >= 1
  {
    if |fields| == 1 then fields[0] else fields[0] + [c] + Join(fields[1..], c)
  }

  /** Joining a field in front of others puts the delimiter between. */
  lemma JoinCons(a: string, rest: seq<string>, c: char)
    requires |rest| >= 1
    ensures Join([a] + rest, c) == a + [c] + Join(rest, c)
  {
    assert ([a] + rest)[1..] == rest;
  }

  /** The parts of a stack frame `getMethodAndLine` reads. */
  datatype Frame = Frame(className: string, methodName: string, text: string)

  /** The logger's source: tag and line (`Source` in LL.kt). */
  datatype Source = Source(tag: string, line: Option<string>)

  /** `strings.getOrNull(1)` after `split('(')`. */
  function LineOf(text: string): (line: Option<string>)
    ensures line.Some? <==> '(' in text
  {
    var fields := Split(text, '(');
    SplitHasSecondField(text, '(');
    if |fields| > 1 then Some(fields[1]) else None
  }

  /**
   * `getMethodAndLine` given the caller's frame (null when the stack is too
   * shallow): the tag is the simple class name, `$`, then the method name.
   */
  function MethodAndLine(frame: Option<Frame>): (r: Option<Source>)
    ensures r.Some? <==> frame.Some?
    ensures r.Some? ==>
              r.value.tag == CreateStackElementTag(frame.value.className) + "$" + frame.value.methodName
    ensures r.Some? ==> (r.value.line.Some? <==> '(' in frame.value.text)
    ensures r.Some? ==> r.value.line == LineOf(frame.value.text)
  {
    match frame
    case None => None
    case Some(f) => Some(Source(CreateStackElementTag(f.className) + "$" + f.methodName, LineOf(f.text)))
  }

  // ----- Properties -----

  /** Split has a second field exactly when the delimiter occurs. */
  lemma SplitHasSecondField(s: string, c: char)
    ensures |Split(s, c)| > 1 <==> c in s
  {
    var i := IndexOf(s, c);
    if i >= 0 {
      assert c in s;
    } else {
      assert forall p :: 0 <= p < |s| ==> s[p] != c;
    }
  }

  /** No field of a split holds the delimiter. */
  lemma {:induction false} SplitFieldsLackDelimiter(s: string, c: char)
    ensures forall f :: f in Split(s, c) ==> c !in f
    decreases |s|
  {
    if c in s {
      var i := SplitStep(s, c);
      SplitFieldsLackDelimiter(s[i + 1..], c);
    } else {
      SplitNone(s, c);
    }
  }

  /** Splitting at the first delimiter: the field before it, then the split of the rest. */
  lemma SplitStep(s: string, c: char) returns (i: nat)
    requires c in s
    ensures i < |s| && s == s[..i] + [c] + s[i + 1..] && c !in s[..i]
    ensures Split(s, c) == [s[..i]] + Split(s[i + 1..], c)
  {
    var k := IndexOf(s, c);
    assert k >= 0;
    i := k;
  }

  /** Without a delimiter the split is the whole string. */
  lemma SplitNone(s: string, c: char)
    requires c !in s
    ensures Split(s, c) == [s]
  {
  }

  /** Joining the fields of a split gives back the string. */
  lemma {:induction false} JoinSplit(s: string, c: char)
    ensures Join(Split(s, c), c) == s
    decreases |s|
  {
    if c in s {
      var i := SplitStep(s, c);
      JoinSplit(s[i + 1..], c);
      JoinCons(s[..i], Split(s[i + 1..], c), c);
    } else {
      SplitNone(s, c);
    }
  }

  /**
   * The line is the text between the first `(` and the next `(`, or the end
   * of the frame string when there is no second `(`.
   */
  lemma LineIsSecondField(text: string)
    requires '(' in text
    ensures var i := IndexOf(text, '(');
              0 <= i &&
              var rest := text[i + 1..];
              var j := IndexOf(rest, '(');
              LineOf(text) == Some(if j < 0 then rest else rest[..j])
  {
    SplitHasSecondField(text, '(');
  }

  /** A run followed directly by another run is one run. */
  lemma RunConcat(s: string, i: nat, m: nat, e: nat)
    requires i < m < e <= |s|
    requires IsRunAt(s, i, m) && IsRunAt(s, m, e)
    ensures IsRunAt(s, i, e)
  {
    forall p | i <= p < e
      ensures ValidAt(s, p, e)
    {
      if p < m {
        assert ValidAt(s, p, m);
      } else {
        assert ValidAt(s, p, e);
      }
    }
  }

  /** A match inside `b` is a match inside `a + b`, shifted by `|a|`. */
  lemma RunShift(a: string, b: string, i: nat, e: nat)
    requires i <= e <= |b|
    requires IsRunAt(b, i, e)
    ensures IsRunAt(a + b, |a| + i, |a| + e)
  {
    var s := a + b;
    var end := |a| + e;
    forall p | |a| + i <= p < end
      ensures ValidAt(s, p, end)
    {
      assert ValidAt(b, p - |a|, e);
    }
  }

  /** A match at the end of `b` is a match at the end of `a + b`. */
  lemma RunShiftToEnd(a: string, b: string, i: nat)
    requires i <= |b|
    requires IsRunAt(b, i, |b|)
    ensures IsRunAt(a + b, |a| + i, |a + b|)
  {
    RunShift(a, b, i, |b|);
  }

  /** A match inside a prefix of `s` is a match in `s`. */
  lemma RunPrefix(s: string, n: nat, i: nat, e: nat)
    requires i <= e <= n <= |s|
    requires IsRunAt(s[..n], i, e)
    ensures IsRunAt(s, i, e)
  {
    forall p | i <= p < e
      ensures ValidAt(s, p, e)
    {
      assert ValidAt(s[..n], p, e);
    }
  }

  /** After stripping a name without line terminators, no match is left. */
  lemma {:induction false} StripLeavesNoRun(s: string)
    requires forall p :: 0 <= p < |s| ==> !IsLineTerminator(s[p])
    ensures var r := StripAnonymous(s); forall i: nat :: i <= |r| ==> !IsRunAt(r, i, |r|)
  {
    var e := MatchEnd(s);
    assert e == |s|;
    var k := RunStart(s, e);
    var r := StripAnonymous(s);
    assert r == s[..k];
    forall i: nat | i <= |r|
      ensures !IsRunAt(r, i, |r|)
    {
      if IsRunAt(r, i, |r|) {
        RunPrefix(s, k, i, k);
        if k < e {
          RunConcat(s, i, k, e);
        }
      }
    }
  }

  /** Stripping a name without line terminators twice is stripping it once. */
  lemma StripIdempotent(s: string)
    requires forall p :: 0 <= p < |s| ==> !IsLineTerminator(s[p])
    ensures StripAnonymous(StripAnonymous(s)) == StripAnonymous(s)
  {
    var r := StripAnonymous(s);
    StripLeavesNoRun(s);
    assert r == s[..RunStart(s, MatchEnd(s))];
    assert MatchEnd(r) == |r|;
    var k := RunStart(r, |r|);
    assert k == |r|;
  }

  /** A suffix of a string whose end holds no match holds none either. */
  lemma NoRunInSuffix(a: string, b: string)
    requires forall i: nat :: i <= |a + b| ==> !IsRunAt(a + b, i, |a + b|)
    ensures forall i: nat :: i <= |b| ==> !IsRunAt(b, i, |b|)
  {
    forall i: nat | i <= |b|
      ensures !IsRunAt(b, i, |b|)
    {
      if IsRunAt(b, i, |b|) {
        RunShiftToEnd(a, b, i);
      }
    }
  }

  /** The stripped name never ends with a match of `(\$\d+)+`. */
  lemma StrippedHasNoRun(s: string)
    ensures var t := StripAnonymous(s); forall i: nat :: i <= |t| ==> !IsRunAt(t, i, |t|)
  {
    var e := MatchEnd(s);
    var k := RunStart(s, e);
    var t := StripAnonymous(s);
    assert t == s[..k] + s[e..];
    forall i: nat | i <= |t|
      ensures !IsRunAt(t, i, |t|)
    {
      if e < |s| {
        // the stripped name ends with the line terminator, not a digit
        assert t[|t| - 1] == s[|s| - 1];
        assert IsRunAt(t, i, |t|) ==> ValidAt(t, |t| - 1, |t|);
      } else if IsRunAt(t, i, |t|) {
        assert t == s[..k];
        RunPrefix(s, k, i, k);
        if k < e {
          RunConcat(s, i, k, e);
        }
      }
    }
  }

  /**
   * The tag never ends with `$` and digits: no suffix of it is a match of
   * `(\$\d+)+`, line terminators or not.
   */
  lemma TagHasNoAnonymousSuffix(className: string)
    ensures var tag := CreateStackElementTag(className);
              forall i: nat :: i <= |tag| ==> !IsRunAt(tag, i, |tag|)
  {
    var t := StripAnonymous(className);
    var tag := CreateStackElementTag(className);
    StrippedHasNoRun(className);
    assert t == t[..|t| - |tag|] + tag;
    NoRunInSuffix(t[..|t| - |tag|], tag);
  }

  /** A name without `.`, line terminators or a trailing match is its own tag. */
  lemma TagOfPlainName(s: string)
    requires forall p :: 0 <= p < |s| ==> !IsLineTerminator(s[p]) && s[p] != '.'
    requires forall i: nat :: i <= |s| ==> !IsRunAt(s, i, |s|)
    ensures CreateStackElementTag(s) == s
  {
    assert MatchEnd(s) == |s|;
    assert RunStart(s, |s|) == |s|;
    assert StripAnonymous(s) == s;
    assert LastIndexOf(s, '.') == -1;
  }

  /** Applying `createStackElementTag` to its own result changes nothing (names without line terminators). */
  lemma TagIdempotent(className: string)
    requires forall p :: 0 <= p < |className| ==> !IsLineTerminator(className[p])
    ensures CreateStackElementTag(CreateStackElementTag(className)) == CreateStackElementTag(className)
  {
    var tag := CreateStackElementTag(className);
    var t := StripAnonymous(className);
    StripAddsNoCharacters(className);
    assert tag == t[|t| - |tag|..];
    assert forall p :: 0 <= p < |tag| ==> tag[p] == t[|t| - |tag| + p];
    TagHasNoAnonymousSuffix(className);
    TagOfPlainName(tag);
  }

  /** Stripping adds no character: every character of the stripped name occurs in the name. */
  lemma StripAddsNoCharacters(s: string)
    ensures forall p :: 0 <= p < |StripAnonymous(s)| ==> StripAnonymous(s)[p] in s
  {
  }

  /** Stripping keeps a name whose last character is not a digit, such as `Outer$Inner`. */
  lemma StripKeepsNonDigitEnd(s: string)
    requires |s| > 0 && !IsDigit(s[|s| - 1]) && !IsLineTerminator(s[|s| - 1])
    ensures StripAnonymous(s) == s
  {
    var e := MatchEnd(s);
    assert e == |s|;
    var k := RunStart(s, e);
  }

  /**
   * Java's `$` also matches before a final line terminator, so stripping is
   * not idempotent on names that hold line terminators.
   */
  lemma StripNotIdempotentWithTerminators()
    ensures StripAnonymous("A$5\r$1\n") == "A$5\r\n"
    ensures StripAnonymous("A$5\r\n") == "A\r\n"
  {
    var s := "A$5\r$1\n";
    assert MatchEnd(s) == 6;
    assert IsRunAt(s, 4, 6);
    assert !IsRunAt(s, 3, 6);
    NoRunAcross(s, 6, 4);
    var t := "A$5\r\n";
    assert MatchEnd(t) == 3;
    assert IsRunAt(t, 1, 3);
    NoRunAcross(t, 3, 1);
  }

  /** Nested anonymous classes are removed together with the package. */
  lemma TagOfNestedAnonymous()
    ensures CreateStackElementTag("a.b.Outer$1$2") == "Outer"
  {
    var s := "a.b.Outer$1$2";
    assert MatchEnd(s) == 13;
    assert IsRunAt(s, 9, 13);
    NoRunAcross(s, 13, 9);
    var t := StripAnonymous(s);
    assert t == s[..9];
    assert t == "a.b.Outer";
    assert t[3] == '.';
    assert forall p :: 3 < p < 9 ==> t[p] != '.';
    assert LastIndexOf(t, '.') == 3;
    assert t[4..] == "Outer";
  }

  /** A `$` followed by a letter marks a named inner class and is kept. */
  lemma TagOfNamedInner()
    ensures CreateStackElementTag("a.Outer$Inner") == "Outer$Inner"
  {
    var u := "a.Outer$Inner";
    StripKeepsNonDigitEnd(u);
    assert u[1] == '.';
    assert forall p :: 1 < p < |u| ==> u[p] != '.';
    assert LastIndexOf(u, '.') == 1;
  }
}
