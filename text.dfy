/**
 * The JavaScript string operations the application relies on, written out over
 * `seq<char>`: `trim`, `toLowerCase` (ASCII letters only), `includes`,
 * `split` on one character, `join`, a global literal `replace`, a global
 * literal `match` count, the lazy `\[.*?\]` match count, and decimal rendering
 * of a number.
 */
module Text {
  import opened Wrappers

  /** The WhiteSpace and LineTerminator code points of ECMAScript, which `trim` removes. */
  predicate IsWhitespace(c: char) {
    c == '\t' || c == '\n' || c == '\U{B}' || c == '\U{C}' || c == '\r' || c == ' '
    || c == '\U{A0}' || c == '\U{1680}' || ('\U{2000}' <= c <= '\U{200A}')
    || c == '\U{2028}' || c == '\U{2029}' || c == '\U{202F}' || c == '\U{205F}'
    || c == '\U{3000}' || c == '\U{FEFF}'
  }

  /** The characters that the regular-expression wildcard `.` does not match. */
  predicate IsLineTerminator(c: char) {
    c == '\n' || c == '\r' || c == '\U{2028}' || c == '\U{2029}'
  }

  /** Drops leading whitespace. */
  function TrimStart(s: string): (r: string)
    ensures |r| <= |s| && r == s[|s| - |r|..]
    ensures r != [] ==> !IsWhitespace(r[0])
    ensures forall i :: 0 <= i < |s| - |r| ==> IsWhitespace(s[i])
  {
    if s != [] && IsWhitespace(s[0]) then TrimStart(s[1..]) else s
  }

  /** Drops trailing whitespace. */
  function TrimEnd(s: string): (r: string)
    ensures |r| <= |s| && r == s[..|r|]
    ensures r != [] ==> !IsWhitespace(r[|r| - 1])
    ensures forall i :: |r| <= i < |s| ==> IsWhitespace(s[i])
  {
    if s != [] && IsWhitespace(s[|s| - 1]) then TrimEnd(s[..|s| - 1]) else s
  }

  /**
   * `String.prototype.trim`: the result neither starts nor ends with whitespace, and it is empty exactly when every
   * character of the input is whitespace.
   */
  function Trim(s: string): (r: string)
    ensures |r| <= |s|
    ensures r != [] ==> !IsWhitespace(r[0]) && !IsWhitespace(r[|r| - 1])
    ensures r == [] <==> forall i :: 0 <= i < |s| ==> IsWhitespace(s[i])
  {
    var t := TrimStart(s);
    var r := TrimEnd(t);
    var k := |s| - |t|;
    assert forall j :: 0 <= j < |t| ==> t[j] == s[k + j];
    r
  }

  /** ASCII-only `toLowerCase` of one character. */
  function LowerChar(c: char): char {
    if 'A' <= c <= 'Z' then (c as int + 32) as char else c
  }

  /** `toLowerCase`, restricted to ASCII letters. */
  function Lower(s: string): (r: string)
    ensures |r| == |s|
  {
    seq(|s|, i requires 0 <= i < |s| => LowerChar(s[i]))
  }

  /** `s.startsWith(p)`. */
  predicate StartsWith(s: string, p: string) {
    |p| <= |s| && s[..|p|] == p
  }

  /** `s.includes(sub)`: `sub` occurs in `s` at some position. */
  predicate Contains(s: string, sub: string)
    decreases |s|
  {
    StartsWith(s, sub) || (s != [] && Contains(s[1..], sub))
  }

  /** `s.split(sep)` for a one-character separator; `""` splits into `[""]`. */
  function Split(s: string, sep: char): (r: seq<string>)
    ensures |r| >= 1
    decreases |s|
  {
    if s == [] then [""]
    else if s[0] == sep then [""] + Split(s[1..], sep)
    else
      var rest := Split(s[1..], sep);
      [[s[0]] + rest[0]] + rest[1..]
  }

  /** `xs.join(sep)`. */
  function Join(xs: seq<string>, sep: string): string
    decreases |xs|
  {
    if |xs| == 0 then ""
    else if |xs| == 1 then xs[0]
    else xs[0] + sep + Join(xs[1..], sep)
  }

  /** A join whose pieces and separator lack a character lacks it too. */
  lemma {:induction false} JoinLacks(xs: seq<string>, sep: string, c: char)
    requires c !in sep && forall i :: 0 <= i < |xs| ==> c !in xs[i]
    ensures c !in Join(xs, sep)
    decreases |xs|
  {
    if |xs| > 1 {
      JoinLacks(xs[1..], sep, c);
    }
  }

  /** No piece produced by `Split` contains the separator. */
  lemma {:induction false} SplitPiecesLackSeparator(s: string, sep: char)
    ensures forall i :: 0 <= i < |Split(s, sep)| ==> sep !in Split(s, sep)[i]
    decreases |s|
  {
    if s != [] {
      SplitPiecesLackSeparator(s[1..], sep);
    }
  }

  lemma {:induction false} SplitWithoutSeparator(s: string, sep: char)
    requires sep !in s
    ensures Split(s, sep) == [s]
    decreases |s|
  {
    if s != [] {
      assert sep !in s[1..];
      SplitWithoutSeparator(s[1..], sep);
      assert [s[0]] + s[1..] == s;
    }
  }

  lemma {:induction false} SplitAtFirstSeparator(a: string, b: string, sep: char)
    requires sep !in a
    ensures Split(a + [sep] + b, sep) == [a] + Split(b, sep)
    decreases |a|
  {
    if a == [] {
      assert a + [sep] + b == [sep] + b;
      assert ([sep] + b)[1..] == b;
    } else {
      assert (a + [sep] + b)[1..] == a[1..] + [sep] + b;
      SplitAtFirstSeparator(a[1..], b, sep);
      assert [a[0]] + a[1..] == a;
    }
  }

  /** Splitting at a separator splits the two sides independently. */
  lemma {:induction false} SplitConcat(a: string, b: string, sep: char)
    ensures Split(a + [sep] + b, sep) == Split(a, sep) + Split(b, sep)
    decreases |a|
  {
    if a == [] {
      assert a + [sep] + b == [sep] + b;
      assert ([sep] + b)[1..] == b;
    } else {
      SplitConcat(a[1..], b, sep);
      SplitConcatStep(a[0], a[1..], b, sep);
      assert [a[0]] + a[1..] == a;
      assert [a[0]] + (a[1..] + [sep] + b) == a + [sep] + b;
    }
  }

  /** The inductive step of `SplitConcat`: putting one character in front of the left side. */
  lemma SplitConcatStep(c: char, a: string, b: string, sep: char)
    requires Split(a + [sep] + b, sep) == Split(a, sep) + Split(b, sep)
    ensures Split([c] + (a + [sep] + b), sep) == Split([c] + a, sep) + Split(b, sep)
  {
    SplitCons(c, a + [sep] + b, sep);
    SplitCons(c, a, sep);
    PushAppend(c, sep, Split(a, sep), Split(b, sep));
  }

  /** What one more leading character does to the pieces of the rest. */
  function Push(c: char, sep: char, pieces: seq<string>): seq<string>
    requires |pieces| >= 1
  {
    if c == sep then [""] + pieces else [[c] + pieces[0]] + pieces[1..]
  }

  lemma PushAppend(c: char, sep: char, left: seq<string>, right: seq<string>)
    requires |left| >= 1
    ensures Push(c, sep, left + right) == Push(c, sep, left) + right
  {
    if c != sep {
      assert (left + right)[1..] == left[1..] + right;
    }
  }

  /** One step of `split`: the first character either ends the first piece or joins it. */
  lemma SplitCons(c: char, s: string, sep: char)
    ensures Split([c] + s, sep) == Push(c, sep, Split(s, sep))
  {
    assert ([c] + s)[0] == c && ([c] + s)[1..] == s;
  }

  /** Splitting a join recovers the pieces, provided no piece contains the separator. */
  lemma {:induction false} SplitJoin(xs: seq<string>, sep: char)
    requires |xs| >= 1
    requires forall i :: 0 <= i < |xs| ==> sep !in xs[i]
    ensures Split(Join(xs, [sep]), sep) == xs
    decreases |xs|
  {
    if |xs| == 1 {
      SplitWithoutSeparator(xs[0], sep);
    } else {
      SplitAtFirstSeparator(xs[0], Join(xs[1..], [sep]), sep);
      SplitJoin(xs[1..], sep);
      assert [xs[0]] + xs[1..] == xs;
    }
  }

  /** Joining the pieces of a split with the same separator gives back the input. */
  lemma {:induction false} JoinSplit(s: string, sep: char)
    ensures Join(Split(s, sep), [sep]) == s
    decreases |s|
  {
    if s != [] {
      JoinSplit(s[1..], sep);
      SplitCons(s[0], s[1..], sep);
      JoinPush(s[0], sep, Split(s[1..], sep));
      assert [s[0]] + s[1..] == s;
    }
  }

  /** Joining after one more leading character puts that character in front of the join. */
  lemma JoinPush(c: char, sep: char, pieces: seq<string>)
    requires |pieces| >= 1
    ensures Join(Push(c, sep, pieces), [sep]) == [c] + Join(pieces, [sep])
  {
    if c == sep {
      JoinPushSeparator(c, sep, pieces);
    } else if |pieces| == 1 {
      JoinPushSingle(c, sep, pieces);
    } else {
      JoinPushLonger(c, sep, pieces);
    }
  }

  /** `JoinPush` when the character is the separator: it starts an empty first piece. */
  lemma JoinPushSeparator(c: char, sep: char, pieces: seq<string>)
    requires c == sep && |pieces| >= 1
    ensures Join(Push(c, sep, pieces), [sep]) == [c] + Join(pieces, [sep])
  {
    JoinCons("", pieces, [sep]);
    assert "" + [sep] == [c];
  }

  /** `JoinPush` when the character joins the only piece. */
  lemma JoinPushSingle(c: char, sep: char, pieces: seq<string>)
    requires c != sep && |pieces| == 1
    ensures Join(Push(c, sep, pieces), [sep]) == [c] + Join(pieces, [sep])
  {
    assert Push(c, sep, pieces) == [[c] + pieces[0]];
  }

  /** `JoinPush` when the character joins a first piece that is followed by more. */
  lemma JoinPushLonger(c: char, sep: char, pieces: seq<string>)
    requires c != sep && |pieces| >= 2
    ensures Join(Push(c, sep, pieces), [sep]) == [c] + Join(pieces, [sep])
  {
    var p0 := pieces[0];
    var more := pieces[1..];
    assert pieces == [p0] + more;
    var rest := Join(more, [sep]);
    PushOnto(c, sep, p0, more);
    JoinCons([c] + p0, more, [sep]);
    JoinCons(p0, more, [sep]);
    AppendAssoc([c], p0, [sep]);
    AppendAssoc([c], p0 + [sep], rest);
  }

  lemma PushOnto(c: char, sep: char, p0: string, more: seq<string>)
    requires c != sep
    ensures Push(c, sep, [p0] + more) == [[c] + p0] + more
  {
    assert ([p0] + more)[0] == p0 && ([p0] + more)[1..] == more;
  }

  lemma AppendAssoc(a: string, b: string, c: string)
    ensures (a + b) + c == a + (b + c)
  {
    forall i | 0 <= i < |a| + |b| + |c|
      ensures ((a + b) + c)[i] == (a + (b + c))[i]
    {
      if i < |a| {
      } else if i < |a| + |b| {
      }
    }
  }

  /** Joining a piece in front of at least one more. */
  lemma JoinCons(x: string, xs: seq<string>, sep: string)
    requires |xs| >= 1
    ensures Join([x] + xs, sep) == x + sep + Join(xs, sep)
  {
    assert ([x] + xs)[0] == x && ([x] + xs)[1..] == xs;
  }

  /**
   * `s.replace(/pat/g, val)` for a literal pattern: occurrences are found left
   * to right and do not overlap; the text inserted is not searched again.
   */
  function ReplaceAll(s: string, pat: string, val: string): string
    requires pat != []
    decreases |s|
  {
    if |s| < |pat| then s
    else if s[..|pat|] == pat then val + ReplaceAll(s[|pat|..], pat, val)
    else [s[0]] + ReplaceAll(s[1..], pat, val)
  }

  /** Text that does not contain the pattern is not changed by `ReplaceAll`. */
  lemma {:induction false} ReplaceAllAbsent(s: string, pat: string, val: string)
    requires pat != []
    requires !Contains(s, pat)
    ensures ReplaceAll(s, pat, val) == s
    decreases |s|
  {
    if |s| >= |pat| {
      ReplaceAllAbsent(s[1..], pat, val);
      assert [s[0]] + s[1..] == s;
    }
  }

  /** Replacing a pattern by itself changes nothing. */
  lemma {:induction false} ReplaceAllWithItself(s: string, pat: string)
    requires pat != []
    ensures ReplaceAll(s, pat, pat) == s
    decreases |s|
  {
    if |s| >= |pat| {
      if s[..|pat|] == pat {
        ReplaceAllWithItself(s[|pat|..], pat);
        assert s[..|pat|] + s[|pat|..] == s;
      } else {
        ReplaceAllWithItself(s[1..], pat);
        assert [s[0]] + s[1..] == s;
      }
    }
  }

  /** Text without the pattern's first character is copied as it is, and the search resumes after it. */
  lemma {:induction false} ReplaceAllSkips(a: string, rest: string, pat: string, val: string)
    requires pat != [] && pat[0] !in a
    ensures ReplaceAll(a + rest, pat, val) == a + ReplaceAll(rest, pat, val)
    decreases |a|
  {
    var s := a + rest;
    if a == [] {
      assert s == rest;
    } else if |s| < |pat| {
      assert ReplaceAll(rest, pat, val) == rest;
    } else {
      assert s[..|pat|][0] == a[0] != pat[0];
      assert s[1..] == a[1..] + rest;
      ReplaceAllSkips(a[1..], rest, pat, val);
      assert [a[0]] + a[1..] == a;
    }
  }

  /** An occurrence of the pattern at the front is replaced, and the search resumes after it. */
  lemma ReplaceAllFront(rest: string, pat: string, val: string)
    requires pat != []
    ensures ReplaceAll(pat + rest, pat, val) == val + ReplaceAll(rest, pat, val)
  {
    var s := pat + rest;
    assert s[..|pat|] == pat && s[|pat|..] == rest;
  }

  /**
   * When no piece holds the pattern's first character, every occurrence of
   * the pattern is one of the joins, and replacing them all joins the pieces
   * with the value instead.
   */
  lemma {:induction false} ReplaceAllJoin(xs: seq<string>, pat: string, val: string)
    requires pat != [] && forall i :: 0 <= i < |xs| ==> pat[0] !in xs[i]
    ensures ReplaceAll(Join(xs, pat), pat, val) == Join(xs, val)
    decreases |xs|
  {
    if |xs| == 1 {
      ReplaceAllSkips(xs[0], "", pat, val);
      assert xs[0] + "" == xs[0];
    } else if |xs| > 1 {
      var x, more := xs[0], xs[1..];
      assert xs == [x] + more;
      JoinCons(x, more, pat);
      JoinCons(x, more, val);
      ReplaceAllJoin(more, pat, val);
      assert x + pat + Join(more, pat) == x + (pat + Join(more, pat));
      ReplaceAllSkips(x, pat + Join(more, pat), pat, val);
      ReplaceAllFront(Join(more, pat), pat, val);
      assert x + (val + Join(more, val)) == x + val + Join(more, val);
    }
  }

  /** The number of matches of the literal pattern in `s.match(/pat/g)`. */
  function CountMatches(s: string, pat: string): nat
    requires pat != []
    decreases |s|
  {
    if |s| < |pat| then 0
    else if s[..|pat|] == pat then 1 + CountMatches(s[|pat|..], pat)
    else CountMatches(s[1..], pat)
  }

  /** `s.match(/pat/g)` finds something exactly when `s.includes(pat)`. */
  lemma {:induction false} CountMatchesPositive(s: string, pat: string)
    requires pat != []
    ensures CountMatches(s, pat) > 0 <==> Contains(s, pat)
    decreases |s|
  {
    if s != [] && !(|s| >= |pat| && s[..|pat|] == pat) {
      CountMatchesPositive(s[1..], pat);
    }
  }

  /** A pattern without a newline never matches across one: the matches of a newline join add up. */
  lemma {:induction false} CountMatchesJoin(a: string, b: string, pat: string)
    requires pat != [] && '\n' !in pat
    ensures CountMatches(a + "\n" + b, pat) == CountMatches(a, pat) + CountMatches(b, pat)
    decreases |a|
  {
    var s := a + "\n" + b;
    if |a| >= |pat| {
      assert s[..|pat|] == a[..|pat|];
      if a[..|pat|] == pat {
        assert s[|pat|..] == a[|pat|..] + "\n" + b;
        CountMatchesJoin(a[|pat|..], b, pat);
      } else {
        assert s[1..] == a[1..] + "\n" + b;
        CountMatchesJoin(a[1..], b, pat);
      }
    } else if |s| >= |pat| {
      assert s[..|pat|][|a|] == '\n';
      assert s[..|pat|] != pat;
      if a == [] {
        assert s[1..] == b;
      } else {
        assert s[1..] == a[1..] + "\n" + b;
        CountMatchesJoin(a[1..], b, pat);
      }
    }
  }

  /** The index of the first `]` of `s`, provided no line terminator comes before it. */
  function CloseBracket(s: string): (r: Option<nat>)
    ensures r.Some? ==> r.value < |s| && s[r.value] == ']'
    ensures r.Some? ==> forall i :: 0 <= i < r.value ==> s[i] != ']' && !IsLineTerminator(s[i])
    decreases |s|
  {
    if s == [] || IsLineTerminator(s[0]) then None
    else if s[0] == ']' then Some(0)
    else match CloseBracket(s[1..])
      case None => None
      case Some(j) => Some(j + 1)
  }

  /**
   * The number of matches of `/\[.*?\]/g`: a `[`, the shortest run of
   * characters other than line terminators, and a `]`. A `[` without such a
   * partner starts no match and the search resumes at the next character.
   */
  function CountBracketNodes(s: string): nat
    decreases |s|
  {
    if s == [] then 0
    else if s[0] == '[' then
      match CloseBracket(s[1..])
      case Some(j) => 1 + CountBracketNodes(s[j + 2..])
      case None => CountBracketNodes(s[1..])
    else CountBracketNodes(s[1..])
  }

  /** A newline ends the search for a closing bracket, so what follows it does not matter. */
  lemma {:induction false} CloseBracketJoin(a: string, b: string)
    ensures CloseBracket(a + "\n" + b) == CloseBracket(a)
    decreases |a|
  {
    if a != [] && !IsLineTerminator(a[0]) && a[0] != ']' {
      assert (a + "\n" + b)[1..] == a[1..] + "\n" + b;
      CloseBracketJoin(a[1..], b);
    }
  }

  /** A `[...]` label never spans a newline: the labels of a newline join add up. */
  lemma {:induction false} CountBracketNodesJoin(a: string, b: string)
    ensures CountBracketNodes(a + "\n" + b) == CountBracketNodes(a) + CountBracketNodes(b)
    decreases |a|
  {
    var s := a + "\n" + b;
    if a == [] {
      assert s[1..] == b;
    } else if a[0] == '[' && CloseBracket(a[1..]).Some? {
      var j := CloseBracket(a[1..]).value;
      CountBracketNodesJoinLabel(a, b, j);
      CountBracketNodesJoin(a[j + 2..], b);
      LabelCounted(a, j);
    } else {
      assert s[1..] == a[1..] + "\n" + b;
      CountBracketNodesJoin(a[1..], b);
      if a[0] == '[' {
        CloseBracketJoin(a[1..], b);
      }
    }
  }

  /** The join step at a `[` that a `]` closes on its own line: the label is counted and the search resumes after it. */
  lemma CountBracketNodesJoinLabel(a: string, b: string, j: nat)
    requires a != [] && a[0] == '[' && CloseBracket(a[1..]) == Some(j)
    ensures j + 2 <= |a|
    ensures CountBracketNodes(a + "\n" + b) == 1 + CountBracketNodes(a[j + 2..] + "\n" + b)
  {
    var s := a + "\n" + b;
    JoinSuffix(a, b, 1);
    CloseBracketJoin(a[1..], b);
    LabelCounted(s, j);
    JoinSuffix(a, b, j + 2);
  }

  /** A `[` closed by the `]` at offset `j + 1` counts one node, and the search resumes after that `]`. */
  lemma LabelCounted(s: string, j: nat)
    requires s != [] && s[0] == '[' && CloseBracket(s[1..]) == Some(j)
    ensures j + 2 <= |s| && CountBracketNodes(s) == 1 + CountBracketNodes(s[j + 2..])
  {
  }

  /** Dropping a prefix of the first part of a newline join. */
  lemma JoinSuffix(a: string, b: string, k: nat)
    requires k <= |a|
    ensures (a + "\n" + b)[k..] == a[k..] + "\n" + b
  {
  }

  function DigitChar(d: nat): char
    requires d < 10
  {
    "0123456789"[d]
  }

  /** The decimal rendering of a natural number, as template literals print it. */
  function NatToString(n: nat): (r: string)
    ensures r != []
    ensures forall i :: 0 <= i < |r| ==> '0' <= r[i] <= '9'
    decreases n
  {
    if n < 10 then [DigitChar(n)] else NatToString(n / 10) + [DigitChar(n % 10)]
  }

  /** A decimal rendering holds no line break. */
  lemma NatToStringSingleLine(n: nat)
    ensures '\n' !in NatToString(n)
  {
    var r := NatToString(n);
    forall i | 0 <= i < |r|
      ensures r[i] != '\n'
    {
      assert '0' <= r[i] <= '9';
    }
  }
}
