/** The Python string operations the upload path applies to file names and
    file text before anything is parsed: `str.isspace`, `strip`, `split()`
    on whitespace, `split` on one character, `join`, `replace`, and
    `lower` as far as it matters here. */
module PyText {
  import opened Wrappers

  /** `str.isspace` for one character: the ASCII whitespace and separator
      controls and the Unicode space characters. */
  predicate IsSpace(c: char) {
    || c == ' ' || c == '\t' || c == '\n' || c == '\r' || c == '\U{000B}' || c == '\U{000C}'
    || ('\U{001C}' <= c <= '\U{001F}')
    || c == '\U{0085}' || c == '\U{00A0}' || c == '\U{1680}'
    || ('\U{2000}' <= c <= '\U{200A}')
    || c == '\U{2028}' || c == '\U{2029}' || c == '\U{202F}' || c == '\U{205F}' || c == '\U{3000}'
  }

  predicate NoSpace(s: string) {
    forall i :: 0 <= i < |s| ==> !IsSpace(s[i])
  }

  predicate AllSpace(s: string) {
    forall i :: 0 <= i < |s| ==> IsSpace(s[i])
  }

  /** `lstrip()`: the suffix left after dropping the leading whitespace. */
  function TrimStart(s: string): (r: string)
    ensures |r| <= |s| && r == s[|s| - |r|..]
    ensures r == [] || !IsSpace(r[0])
    ensures s != [] && IsSpace(s[0]) ==> |r| < |s|
  {
    if s != [] && IsSpace(s[0]) then
      var r := TrimStart(s[1..]);
      TailSuffix(s, |r|);
      r
    else s
  }

  lemma TailSuffix(s: string, n: nat)
    requires 0 < |s| && n < |s|
    ensures s[1..][|s| - 1 - n..] == s[|s| - n..]
  {
  }

  /** What `lstrip()` drops is whitespace. */
  lemma {:induction false} TrimStartDropsSpace(s: string)
    ensures AllSpace(s[..|s| - |TrimStart(s)|])
  {
    if s != [] && IsSpace(s[0]) {
      TrimStartDropsSpace(s[1..]);
      var k := |s[1..]| - |TrimStart(s[1..])|;
      forall i | 0 <= i < k + 1 ensures IsSpace(s[i]) {
        if i > 0 {
          assert s[i] == s[1..][..k][i - 1];
        }
      }
    }
  }

  /** `rstrip()`: the prefix left after dropping the trailing whitespace. */
  function TrimEnd(s: string): (r: string)
    ensures |r| <= |s| && r == s[..|r|]
    ensures AllSpace(s[|r|..])
    ensures r == [] || !IsSpace(r[|r| - 1])
  {
    if s != [] && IsSpace(s[|s| - 1]) then
      var r := TrimEnd(s[..|s| - 1]);
      assert forall i :: |r| <= i < |s| ==> s[i] == (if i == |s| - 1 then s[|s| - 1] else s[..|s| - 1][i]);
      r
    else s
  }

  /** `strip()`. */
  function Strip(s: string): (r: string)
    ensures |r| <= |s|
    ensures r == [] || (!IsSpace(r[0]) && !IsSpace(r[|r| - 1]))
  {
    TrimEnd(TrimStart(s))
  }

  /** The leading run of non-whitespace characters. */
  function Word(s: string): (w: string)
    ensures |w| <= |s| && w == s[..|w|] && NoSpace(w)
    ensures |w| < |s| ==> IsSpace(s[|w|])
  {
    if s == [] || IsSpace(s[0]) then []
    else
      var w := Word(s[1..]);
      assert [s[0]] + w == s[..|w| + 1];
      [s[0]] + w
  }

  /** `split()` with no argument: the maximal runs of non-whitespace
      characters, in order. */
  function SplitWhitespace(s: string): (ws: seq<string>)
    ensures forall k :: 0 <= k < |ws| ==> ws[k] != [] && NoSpace(ws[k])
    decreases |s|
  {
    var t := TrimStart(s);
    if t == [] then []
    else
      var w := Word(t);
      [w] + SplitWhitespace(t[|w|..])
  }

  /** `split()` finds no word exactly when the text is all whitespace. */
  lemma SplitWhitespaceEmpty(s: string)
    ensures SplitWhitespace(s) == [] <==> AllSpace(s)
  {
    var t := TrimStart(s);
    TrimStartDropsSpace(s);
    var k := |s| - |t|;
    if t == [] {
      assert s[..k] == s;
    } else {
      assert s[k] == t[0];
    }
  }

  /** A character absent from the text is absent from its words. */
  lemma {:induction false} SplitWhitespaceAvoids(s: string, c: char)
    requires c !in s
    ensures forall k :: 0 <= k < |SplitWhitespace(s)| ==> c !in SplitWhitespace(s)[k]
    decreases |s|
  {
    var t := TrimStart(s);
    assert c !in t by { assert t == s[|s| - |t|..]; }
    if t != [] {
      var w := Word(t);
      var rest := t[|w|..];
      assert c !in w by { assert w == t[..|w|]; }
      assert c !in rest;
      assert |rest| < |s|;
      SplitWhitespaceAvoids(rest, c);
      var ws := SplitWhitespace(s);
      var tail := SplitWhitespace(rest);
      assert ws == [w] + tail;
      forall k | 0 <= k < |ws| ensures c !in ws[k] {
        if k > 0 {
          assert ws[k] == tail[k - 1];
        }
      }
    }
  }

  /** A join of space-free pieces with a separator that is not a space has
      no space. */
  lemma {:induction false} JoinNoSpace(sep: string, parts: seq<string>)
    requires NoSpace(sep)
    requires forall k :: 0 <= k < |parts| ==> NoSpace(parts[k])
    ensures NoSpace(Join(sep, parts))
  {
    if |parts| > 1 {
      JoinNoSpace(sep, parts[1..]);
      var rest := Join(sep, parts[1..]);
      var j := parts[0] + sep + rest;
      forall i | 0 <= i < |j| ensures !IsSpace(j[i]) {
        if i < |parts[0]| {
          assert j[i] == parts[0][i];
        } else if i < |parts[0]| + |sep| {
          assert j[i] == sep[i - |parts[0]|];
        } else {
          assert j[i] == rest[i - |parts[0]| - |sep|];
        }
      }
    }
  }

  /** `re.sub(r"\s+", sep, s)`: every run of whitespace becomes one `sep`. */
  function CollapseRuns(s: string, sep: string): string
    decreases |s|
  {
    if s == [] then []
    else if IsSpace(s[0]) then sep + CollapseRuns(TrimStart(s), sep)
    else [s[0]] + CollapseRuns(s[1..], sep)
  }

  /** Copying a word in front of the text copies it through `CollapseRuns`. */
  lemma {:induction false} CollapseWord(w: string, rest: string, sep: string)
    requires NoSpace(w)
    ensures CollapseRuns(w + rest, sep) == w + CollapseRuns(rest, sep)
  {
    if w != [] {
      var s := w + rest;
      assert s[0] == w[0] && !IsSpace(w[0]);
      assert s[1..] == w[1..] + rest;
      CollapseWord(w[1..], rest, sep);
      assert w == [w[0]] + w[1..];
    } else {
      assert w + rest == rest;
    }
  }

  /** On stripped, non-empty text, collapsing the whitespace runs into `sep`
      is joining the words with `sep`. */
  lemma {:induction false} CollapseRunsJoin(s: string, sep: string)
    requires s != [] && !IsSpace(s[0]) && !IsSpace(s[|s| - 1])
    ensures SplitWhitespace(s) != []
    ensures CollapseRuns(s, sep) == Join(sep, SplitWhitespace(s))
    decreases |s|
  {
    var w := Word(s);
    var rest := s[|w|..];
    SplitWhitespaceWord(s);
    CollapseWord(w, rest, sep);
    if rest == [] {
      assert SplitWhitespace(s) == [w];
      assert CollapseRuns(s, sep) == w + [];
    } else {
      var t := TrimStart(rest);
      TrimStartKeepsLast(rest);
      assert t[|t| - 1] == s[|s| - 1] && |t| < |s|;
      SplitWhitespaceTrim(rest);
      CollapseRunsJoin(t, sep);
      var ws := SplitWhitespace(t);
      assert CollapseRuns(rest, sep) == sep + Join(sep, ws);
      JoinCons(sep, w, ws);
      ConcatAssoc(w, sep, Join(sep, ws));
    }
  }

  lemma ConcatAssoc(a: string, b: string, c: string)
    ensures a + (b + c) == a + b + c
  {
  }

  /** Text starting with a word splits into that word and the rest's words. */
  lemma SplitWhitespaceWord(s: string)
    requires s != [] && !IsSpace(s[0])
    ensures Word(s) != [] && s == Word(s) + s[|Word(s)|..]
    ensures SplitWhitespace(s) == [Word(s)] + SplitWhitespace(s[|Word(s)|..])
    ensures s[|Word(s)|..] != [] ==> IsSpace(s[|Word(s)|..][0])
  {
    assert TrimStart(s) == s;
  }

  /** Leading whitespace does not change the words. */
  lemma SplitWhitespaceTrim(s: string)
    ensures SplitWhitespace(s) == SplitWhitespace(TrimStart(s))
  {
    var t := TrimStart(s);
    if t != [] {
      assert TrimStart(t) == t;
    }
  }

  /** Text ending in a non-space keeps its last character through `lstrip()`. */
  lemma {:induction false} TrimStartKeepsLast(s: string)
    requires s != [] && !IsSpace(s[|s| - 1])
    ensures var t := TrimStart(s);
            t != [] && t[|t| - 1] == s[|s| - 1] && !IsSpace(t[0])
  {
    if IsSpace(s[0]) {
      assert |s| > 1;
      assert s[1..][|s[1..]| - 1] == s[|s| - 1];
      TrimStartKeepsLast(s[1..]);
    }
  }

  lemma JoinCons(sep: string, w: string, ws: seq<string>)
    requires ws != []
    ensures Join(sep, [w] + ws) == w + sep + Join(sep, ws)
  {
    assert ([w] + ws)[0] == w && ([w] + ws)[1..] == ws;
  }

  /** A character in neither the text nor `sep` is not in the result. */
  lemma {:induction false} CollapseRunsAvoids(s: string, sep: string, d: char)
    requires d !in s && d !in sep
    ensures d !in CollapseRuns(s, sep)
    decreases |s|
  {
    if s != [] {
      if IsSpace(s[0]) {
        var t := TrimStart(s);
        assert d !in t by { assert t == s[|s| - |t|..]; }
        CollapseRunsAvoids(t, sep, d);
      } else {
        assert d != s[0] by { assert s[0] in s; }
        assert forall x :: x in s[1..] ==> x in s;
        CollapseRunsAvoids(s[1..], sep, d);
      }
    }
  }

  /** `sep.join(parts)`. */
  function Join(sep: string, parts: seq<string>): string {
    if parts == [] then []
    else if |parts| == 1 then parts[0]
    else parts[0] + sep + Join(sep, parts[1..])
  }

  /** `s.split(d)` for a one-character separator: the pieces between the
      occurrences of `d`, at least one, possibly empty. */
  function SplitOn(s: string, d: char): (parts: seq<string>)
    ensures |parts| >= 1
    ensures forall k :: 0 <= k < |parts| ==> d !in parts[k]
  {
    if s == [] then [[]]
    else
      var rest := SplitOn(s[1..], d);
      if s[0] == d then [[]] + rest
      else [[s[0]] + rest[0]] + rest[1..]
  }

  /** Joining the pieces with the separator gives the text back. */
  lemma {:induction false} JoinSplitOn(s: string, d: char)
    ensures Join([d], SplitOn(s, d)) == s
  {
    if s != [] {
      var rest := SplitOn(s[1..], d);
      JoinSplitOn(s[1..], d);
      if s[0] == d {
        assert SplitOn(s, d) == [[]] + rest;
        assert Join([d], [[]] + rest) == [] + [d] + Join([d], rest);
      } else {
        var parts := SplitOn(s, d);
        assert parts == [[s[0]] + rest[0]] + rest[1..];
        if |rest| == 1 {
          assert Join([d], rest) == rest[0];
        } else {
          assert Join([d], rest) == rest[0] + [d] + Join([d], rest[1..]);
          assert parts[1..] == rest[1..];
        }
      }
    }
  }

  /** Splitting a join of pieces free of the separator gives the pieces back. */
  lemma {:induction false} SplitOnJoin(parts: seq<string>, d: char)
    requires |parts| >= 1
    requires forall k :: 0 <= k < |parts| ==> d !in parts[k]
    ensures SplitOn(Join([d], parts), d) == parts
    decreases |parts|, |parts[0]|
  {
    var p := parts[0];
    if p == [] {
      if |parts| > 1 {
        assert Join([d], parts) == [d] + Join([d], parts[1..]);
        assert (p + [d] + Join([d], parts[1..]))[1..] == Join([d], parts[1..]);
        SplitOnJoin(parts[1..], d);
      }
    } else {
      var shorter := [p[1..]] + parts[1..];
      assert p[0] != d by { assert p[0] in p; }
      ShorterAvoids(parts, d);
      SplitOnJoin(shorter, d);
      JoinShift(parts, d);
      var j := Join([d], parts);
      assert SplitOn(j, d) == [[p[0]] + shorter[0]] + shorter[1..];
      assert [p[0]] + p[1..] == p;
      assert shorter[1..] == parts[1..];
    }
  }

  lemma ShorterAvoids(parts: seq<string>, d: char)
    requires |parts| >= 1 && parts[0] != []
    requires forall k :: 0 <= k < |parts| ==> d !in parts[k]
    ensures forall k :: 0 <= k < |[parts[0][1..]] + parts[1..]| ==> d !in ([parts[0][1..]] + parts[1..])[k]
  {
    var shorter := [parts[0][1..]] + parts[1..];
    forall k | 0 <= k < |shorter| ensures d !in shorter[k] {
      if k == 0 {
        assert forall x :: x in parts[0][1..] ==> x in parts[0];
      } else {
        assert shorter[k] == parts[k];
      }
    }
  }

  /** Joining pieces whose first is not empty: its first character, then
      the join with that character removed. */
  lemma JoinShift(parts: seq<string>, d: char)
    requires |parts| >= 1 && parts[0] != []
    ensures var j := Join([d], parts);
            j != [] && j[0] == parts[0][0] && j[1..] == Join([d], [parts[0][1..]] + parts[1..])
  {
    var p := parts[0];
    var shorter := [p[1..]] + parts[1..];
    var j := Join([d], parts);
    if |parts| == 1 {
      assert shorter == [p[1..]];
      assert Join([d], shorter) == p[1..];
    } else {
      var x := Join([d], parts[1..]);
      assert j == p + [d] + x;
      assert shorter[0] == p[1..] && shorter[1..] == parts[1..];
      assert Join([d], shorter) == p[1..] + [d] + x;
      assert (p + [d] + x)[1..] == p[1..] + [d] + x;
    }
  }

  // ---------------------------------------------------------------------------
  // replace

  /** `s.replace(pattern, replacement)`: every non-overlapping occurrence of `pattern`, taken
      from the left, becomes `replacement`; an empty `pattern` puts `replacement` around every
      character. */
  function Replace(s: string, pattern: string, replacement: string): string {
    if pattern == [] then Interleave(s, replacement) else ReplaceFrom(s, pattern, replacement)
  }

  function Interleave(s: string, replacement: string): (r: string)
    ensures |r| == |s| + (|s| + 1) * |replacement|
  {
    if s == [] then replacement else replacement + [s[0]] + Interleave(s[1..], replacement)
  }

  function ReplaceFrom(s: string, pattern: string, replacement: string): string
    requires pattern != []
  {
    if |s| >= |pattern| && s[..|pattern|] == pattern then replacement + ReplaceFrom(s[|pattern|..], pattern, replacement)
    else if s == [] then []
    else [s[0]] + ReplaceFrom(s[1..], pattern, replacement)
  }

  /** An occurrence at the front is replaced. */
  lemma ReplaceFront(pattern: string, s: string, replacement: string)
    requires pattern != []
    ensures Replace(pattern + s, pattern, replacement) == replacement + Replace(s, pattern, replacement)
  {
    assert (pattern + s)[..|pattern|] == pattern;
    assert (pattern + s)[|pattern|..] == s;
  }

  /** A first character that cannot start `pattern` is copied. */
  lemma ReplaceStep(s: string, pattern: string, replacement: string)
    requires pattern != [] && s != [] && s[0] != pattern[0]
    ensures ReplaceFrom(s, pattern, replacement) == [s[0]] + ReplaceFrom(s[1..], pattern, replacement)
  {
    if |s| >= |pattern| {
      assert s[..|pattern|][0] == s[0];
    }
  }

  /** Text without the first character of `pattern` is copied unchanged. */
  lemma ReplaceSkips(a: string, b: string, pattern: string, replacement: string)
    requires pattern != [] && pattern[0] !in a
    ensures Replace(a + b, pattern, replacement) == a + Replace(b, pattern, replacement)
  {
    ReplaceFromSkips(a, b, pattern, replacement);
  }

  lemma {:induction false} ReplaceFromSkips(a: string, b: string, pattern: string, replacement: string)
    requires pattern != [] && pattern[0] !in a
    ensures ReplaceFrom(a + b, pattern, replacement) == a + ReplaceFrom(b, pattern, replacement)
  {
    if a != [] {
      var s := a + b;
      assert s[0] == a[0] && a[0] in a;
      ReplaceStep(s, pattern, replacement);
      assert s[1..] == a[1..] + b;
      assert forall x :: x in a[1..] ==> x in a;
      ReplaceFromSkips(a[1..], b, pattern, replacement);
      assert ReplaceFrom(s, pattern, replacement) == [a[0]] + (a[1..] + ReplaceFrom(b, pattern, replacement));
      assert a == [a[0]] + a[1..];
    } else {
      assert a + b == b;
    }
  }

  /** A text that never starts an occurrence of `pattern` is unchanged. */
  lemma ReplaceAbsent(s: string, pattern: string, replacement: string)
    requires pattern != [] && pattern[0] !in s
    ensures Replace(s, pattern, replacement) == s
  {
    ReplaceSkips(s, [], pattern, replacement);
    assert s + [] == s;
  }

  /** Replacing a one-character separator by a character the text does not
      hold keeps the pieces between the separators. */
  lemma {:induction false} ReplaceCharSplit(s: string, c: char, d: char)
    requires d !in s
    ensures SplitOn(Replace(s, [c], [d]), d) == SplitOn(s, c)
  {
    if s != [] {
      var r := Replace(s, [c], [d]);
      assert forall x :: x in s[1..] ==> x in s;
      ReplaceCharSplit(s[1..], c, d);
      var tail := Replace(s[1..], [c], [d]);
      assert s[..|[c]|] == [s[0]];
      if s[0] == c {
        assert r == [d] + tail;
      } else {
        assert s[0] != d by { assert s[0] in s; }
        assert r == [s[0]] + tail;
      }
      assert r[1..] == tail;
    }
  }

  /** A character in neither the text nor the replacement is not in the
      result of `replace`. */
  lemma ReplaceAvoids(s: string, pattern: string, replacement: string, d: char)
    requires d !in s && d !in replacement
    ensures d !in Replace(s, pattern, replacement)
  {
    if pattern == [] {
      InterleaveAvoids(s, replacement, d);
    } else {
      ReplaceFromAvoids(s, pattern, replacement, d);
    }
  }

  lemma {:induction false} InterleaveAvoids(s: string, replacement: string, d: char)
    requires d !in s && d !in replacement
    ensures d !in Interleave(s, replacement)
  {
    if s != [] {
      assert d != s[0] by { assert s[0] in s; }
      assert forall x :: x in s[1..] ==> x in s;
      InterleaveAvoids(s[1..], replacement, d);
    }
  }

  lemma {:induction false} ReplaceFromAvoids(s: string, pattern: string, replacement: string, d: char)
    requires pattern != [] && d !in s && d !in replacement
    ensures d !in ReplaceFrom(s, pattern, replacement)
    decreases |s|
  {
    if |s| >= |pattern| && s[..|pattern|] == pattern {
      assert forall x :: x in s[|pattern|..] ==> x in s;
      ReplaceFromAvoids(s[|pattern|..], pattern, replacement, d);
    } else if s != [] {
      assert d != s[0] by { assert s[0] in s; }
      assert forall x :: x in s[1..] ==> x in s;
      ReplaceFromAvoids(s[1..], pattern, replacement, d);
    }
  }

  // ---------------------------------------------------------------------------
  // lower, rsplit

  /** `str.lower()` on one character, for ASCII letters. */
  function LowerChar(c: char): char {
    if 'A' <= c <= 'Z' then (c as int + 32) as char else c
  }

  function Lower(s: string): (r: string)
    ensures |r| == |s|
    ensures forall i :: 0 <= i < |s| ==> r[i] == LowerChar(s[i])
  {
    seq(|s|, i requires 0 <= i < |s| => LowerChar(s[i]))
  }

  /** The position of the last `d` in `s`. */
  function LastIndex(s: string, d: char): (r: Option<nat>)
    ensures r.None? <==> d !in s
    ensures r.Some? ==> r.value < |s| && s[r.value] == d && d !in s[r.value + 1..]
  {
    if s == [] then None
    else if s[|s| - 1] == d then
      assert s[|s|..] == [];
      Some(|s| - 1)
    else
      var r := LastIndex(s[..|s| - 1], d);
      assert forall x :: x in s <==> x in s[..|s| - 1] || x == s[|s| - 1];
      if r.Some? then
        assert s[r.value + 1..] == s[..|s| - 1][r.value + 1..] + [s[|s| - 1]];
        r
      else r
  }

  /** `str(n)` for a non-negative integer: its decimal digits, most
      significant first. */
  function Decimal(n: nat): (s: string)
    ensures |s| > 0
    ensures forall i :: 0 <= i < |s| ==> '0' <= s[i] <= '9'
  {
    var d := [(48 + n % 10) as char];
    if n < 10 then d else Decimal(n / 10) + d
  }

  /** `int(s)` for a string of decimal digits. */
  function DigitsValue(s: string): int {
    if s == [] then 0 else DigitsValue(s[..|s| - 1]) * 10 + (s[|s| - 1] as int - 48)
  }

  /** Reading the digits back gives the number. */
  lemma {:induction false} DecimalValue(n: nat)
    ensures DigitsValue(Decimal(n)) == n
  {
    if n >= 10 {
      DecimalValue(n / 10);
      var s := Decimal(n);
      assert s[..|s| - 1] == Decimal(n / 10);
    }
  }
}
