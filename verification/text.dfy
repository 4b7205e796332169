/** The Kotlin string operations the app uses: `lowercase`, `contains`,
    `isBlank`, `trim`, `replace` of a literal, and the regex `\s+`
    collapse. Case mapping covers ASCII letters only. */
module Text {
  import opened Wrappers

  /** `Char.lowercaseChar` on ASCII; every other character maps to itself. */
  function LowerChar(c: char): (r: char)
    ensures 'A' <= c <= 'Z' ==> r as int == c as int + 32
    ensures !('A' <= c <= 'Z') ==> r == c
  {
    if 'A' <= c <= 'Z' then (c as int + 32) as char else c
  }

  /** `String.lowercase()`, character by character. */
  function Lower(s: string): (r: string)
    ensures |r| == |s|
    ensures forall i :: 0 <= i < |s| ==> r[i] == LowerChar(s[i])
  {
    seq(|s|, i requires 0 <= i < |s| => LowerChar(s[i]))
  }

  /** `sub` occurs in `s` starting at index `i`. */
  predicate OccursAt(s: string, sub: string, i: int) {
    0 <= i && i + |sub| <= |s| && s[i..i + |sub|] == sub
  }

  /** `s.contains(sub)`: `sub` occurs in `s` at some index. */
  predicate Contains(s: string, sub: string) {
    exists i :: 0 <= i <= |s| && OccursAt(s, sub, i)
  }

  /** A text cannot contain `sub` when one of `sub`'s characters is
      missing from it. */
  lemma MissingCharNotContained(s: string, sub: string, k: int)
    requires 0 <= k < |sub| && sub[k] !in s
    ensures !Contains(s, sub)
  {
    forall i | 0 <= i <= |s|
      ensures !OccursAt(s, sub, i)
    {
      if i + |sub| <= |s| {
        assert s[i..i + |sub|][k] == s[i + k];
      }
    }
  }

  /** A slice of a slice is a slice of the whole. */
  lemma SliceOfSlice(s: string, a: int, b: int, c: int, d: int)
    requires 0 <= a <= b <= |s| && 0 <= c <= d <= b - a
    ensures s[a..b][c..d] == s[a + c..a + d]
  {
    assert forall k :: 0 <= k < d - c ==> s[a..b][c..d][k] == s[a + c + k];
  }

  /** A text inside a contained text is contained as well. */
  lemma ContainsInner(s: string, w: string, a: int, b: int)
    requires Contains(s, w) && 0 <= a <= b <= |w|
    ensures Contains(s, w[a..b])
  {
    var i :| 0 <= i <= |s| && OccursAt(s, w, i);
    assert forall k :: a <= k < b ==> s[i + k] == w[k];
    assert s[i + a..i + b] == w[a..b];
    assert OccursAt(s, w[a..b], i + a);
  }

  /** Kotlin's `Char.isWhitespace()` on the JVM: Java's isWhitespace or
      isSpaceChar, i.e. the ASCII controls TAB..CR and FS..US and the
      Unicode space, line and paragraph separators. */
  predicate IsWhitespace(c: char) {
    var n := c as int;
    (9 <= n <= 13) || (28 <= n <= 32) || n == 0xA0 || n == 0x1680
    || (0x2000 <= n <= 0x200A) || n == 0x2028 || n == 0x2029
    || n == 0x202F || n == 0x205F || n == 0x3000
  }

  /** The regex class `\s` of java.util.regex: `[ \t\n\x0B\f\r]`. */
  predicate IsRegexSpace(c: char) {
    c == ' ' || (9 <= c as int <= 13)
  }

  /** `String.isBlank()`: empty or whitespace only. */
  predicate IsBlank(s: string) {
    forall i :: 0 <= i < |s| ==> IsWhitespace(s[i])
  }

  function TrimStart(s: string): (r: string)
    ensures |r| <= |s| && r == s[|s| - |r|..]
    ensures |r| > 0 ==> !IsWhitespace(r[0])
    ensures forall i :: 0 <= i < |s| - |r| ==> IsWhitespace(s[i])
  {
    if |s| > 0 && IsWhitespace(s[0]) then TrimStart(s[1..]) else s
  }

  function TrimEnd(s: string): (r: string)
    ensures |r| <= |s| && r == s[..|r|]
    ensures |r| > 0 ==> !IsWhitespace(r[|r| - 1])
    ensures forall i :: |r| <= i < |s| ==> IsWhitespace(s[i])
  {
    if |s| > 0 && IsWhitespace(s[|s| - 1]) then TrimEnd(s[..|s| - 1]) else s
  }

  /** Neither end of `s` is whitespace. */
  predicate Trimmed(s: string) {
    |s| > 0 ==> !IsWhitespace(s[0]) && !IsWhitespace(s[|s| - 1])
  }

  /** `r` stands at `a` in `s`, with nothing but whitespace around it. */
  predicate WhitespaceAround(s: string, r: string, a: int) {
    && 0 <= a && a + |r| <= |s| && s[a..a + |r|] == r
    && (forall i :: 0 <= i < a ==> IsWhitespace(s[i]))
    && (forall i :: a + |r| <= i < |s| ==> IsWhitespace(s[i]))
  }

  /** `String.trim()`: `s` without its leading and trailing whitespace. */
  function Trim(s: string): (r: string)
    ensures |r| <= |s|
    ensures Trimmed(r)
    ensures exists a :: WhitespaceAround(s, r, a)
    ensures IsBlank(s) <==> |r| == 0
  {
    var t := TrimStart(s);
    var r := TrimEnd(t);
    assert WhitespaceAround(s, r, |s| - |t|);
    assert |r| > 0 ==> r[0] == t[0];
    assert Trimmed(r);
    r
  }

  /** Trimming removes exactly the whitespace at the two ends: any slice of
      `s` that has only whitespace around it and none at its own ends is
      the trimmed text. */
  lemma TrimUnique(s: string, t: string, a: int)
    requires WhitespaceAround(s, t, a) && Trimmed(t)
    ensures t == Trim(s)
  {
    var r := Trim(s);
    var b :| WhitespaceAround(s, r, b);
    assert |t| > 0 ==> s[a] == t[0] && !IsWhitespace(s[a]);
    assert |t| == 0 ==> IsBlank(s);
    if |t| > 0 && |r| > 0 {
      assert s[a] == t[0] && s[b] == r[0];
      assert a == b;
      assert s[a + |t| - 1] == t[|t| - 1] && s[b + |r| - 1] == r[|r| - 1];
      assert |t| == |r|;
    }
  }

  /** `s.replace(target, replacement)`: every occurrence of `target`, found
      left to right without overlap, is replaced. */
  function ReplaceAll(s: string, target: string, replacement: string): (r: string)
    requires |target| > 0
    ensures |replacement| == 0 ==> |r| <= |s|
  {
    ReplaceFrom(s, target, replacement, 0)
  }

  /** The replacement applied to the part of `s` from index `k` on. */
  function ReplaceFrom(s: string, target: string, replacement: string, k: nat): (r: string)
    requires |target| > 0 && k <= |s|
    ensures |replacement| == 0 ==> |r| <= |s| - k
    decreases |s| - k
  {
    if |s| - k < |target| then s[k..]
    else if OccursAt(s, target, k) then
      replacement + ReplaceFrom(s, target, replacement, k + |target|)
    else
      [s[k]] + ReplaceFrom(s, target, replacement, k + 1)
  }

  /** `s.indexOf(target, k)`: the first index from `k` on where `target`
      occurs in `s`. */
  function IndexOf(s: string, target: string, k: nat): (r: Option<nat>)
    requires |target| > 0 && k <= |s|
    ensures r.None? <==> forall j :: k <= j <= |s| ==> !OccursAt(s, target, j)
    ensures r.Some? ==> k <= r.value && OccursAt(s, target, r.value)
    decreases |s| - k
  {
    if |s| - k < |target| then None
    else if OccursAt(s, target, k) then Some(k)
    else IndexOf(s, target, k + 1)
  }

  /** No occurrence lies between `k` and the one `IndexOf` finds. */
  lemma {:induction false} IndexOfIsFirst(s: string, target: string, k: nat, j: int)
    requires |target| > 0 && k <= |s| && IndexOf(s, target, k).Some?
    requires k <= j < IndexOf(s, target, k).value
    ensures !OccursAt(s, target, j)
    decreases |s| - k
  {
    if j > k {
      IndexOfIsFirst(s, target, k + 1, j);
    }
  }

  /** `s.contains(target)` is `s.indexOf(target) >= 0`. */
  lemma IndexOfContains(s: string, target: string)
    requires |target| > 0
    ensures IndexOf(s, target, 0).None? <==> !Contains(s, target)
  {
  }

  /** What `replace` does from index `k` on: the text before the first
      occurrence is kept, the occurrence becomes the replacement, and the
      rest after it is replaced in turn. */
  lemma {:induction false} ReplaceFromFirst(s: string, target: string, replacement: string, k: nat, i: nat)
    requires |target| > 0 && k <= |s| && IndexOf(s, target, k) == Some(i)
    ensures i + |target| <= |s|
    ensures ReplaceFrom(s, target, replacement, k)
      == s[k..i] + replacement + ReplaceFrom(s, target, replacement, i + |target|)
    decreases |s| - k
  {
    var rest := ReplaceFrom(s, target, replacement, i + |target|);
    if OccursAt(s, target, k) {
      assert s[k..i] == [];
    } else {
      ReplaceFromFirst(s, target, replacement, k + 1, i);
      ReplaceFromKeep(s, target, replacement, k, i, rest);
    }
  }

  /** One kept character in front of what `ReplaceFromFirst` says about
      `k + 1`. */
  lemma ReplaceFromKeep(s: string, target: string, replacement: string, k: nat, i: nat, rest: string)
    requires |target| > 0 && k < i <= |s| && |s| - k >= |target| && !OccursAt(s, target, k)
    requires ReplaceFrom(s, target, replacement, k + 1) == s[k + 1..i] + replacement + rest
    ensures ReplaceFrom(s, target, replacement, k) == s[k..i] + replacement + rest
  {
    ConsJoin(s[k], s[k + 1..i], replacement, rest);
    ConsSlice(s, k, i);
  }

  lemma ConsSlice(s: string, k: int, i: int)
    requires 0 <= k < i <= |s|
    ensures [s[k]] + s[k + 1..i] == s[k..i]
  {
  }

  /** `ReplaceFromFirst` for the whole string: `s` up to the first
      occurrence, the replacement, then `replace` applied to the rest. */
  lemma ReplaceAllFirst(s: string, target: string, replacement: string, i: nat)
    requires |target| > 0 && IndexOf(s, target, 0) == Some(i)
    ensures i + |target| <= |s|
    ensures ReplaceAll(s, target, replacement)
      == s[..i] + replacement + ReplaceAll(s[i + |target|..], target, replacement)
  {
    ReplaceFromFirst(s, target, replacement, 0, i);
    ReplaceFromSuffix(s, s[i + |target|..], target, replacement, i + |target|, i + |target|);
    assert s[0..i] == s[..i];
  }

  /** Replacing from `k` on does not depend on the `d` characters cut off
      the front, for `d <= k`. */
  lemma {:induction false} ReplaceFromSuffix(s: string, u: string, target: string, replacement: string, k: nat, d: nat)
    requires |target| > 0 && d <= k <= |s| && u == s[d..]
    ensures ReplaceFrom(s, target, replacement, k) == ReplaceFrom(u, target, replacement, k - d)
    decreases |s| - k, 1
  {
    if |s| - k < |target| {
      assert u[k - d..] == s[k..];
    } else if OccursAt(s, target, k) {
      SuffixHit(s, u, target, replacement, k, d);
    } else {
      SuffixMiss(s, u, target, replacement, k, d);
    }
  }

  /** `ReplaceFromSuffix` at an occurrence of the target. */
  lemma {:induction false} SuffixHit(s: string, u: string, target: string, replacement: string, k: nat, d: nat)
    requires |target| > 0 && d <= k && k + |target| <= |s| && u == s[d..] && OccursAt(s, target, k)
    ensures ReplaceFrom(s, target, replacement, k) == ReplaceFrom(u, target, replacement, k - d)
    decreases |s| - k, 0
  {
    ReplaceFromSuffix(s, u, target, replacement, k + |target|, d);
    OccursInSuffix(s, u, target, k, d);
    assert ReplaceFrom(s, target, replacement, k)
      == replacement + ReplaceFrom(s, target, replacement, k + |target|);
    assert ReplaceFrom(u, target, replacement, k - d)
      == replacement + ReplaceFrom(u, target, replacement, k + |target| - d);
  }

  /** `ReplaceFromSuffix` where the target does not start. */
  lemma {:induction false} SuffixMiss(s: string, u: string, target: string, replacement: string, k: nat, d: nat)
    requires |target| > 0 && d <= k && k + |target| <= |s| && u == s[d..] && !OccursAt(s, target, k)
    ensures ReplaceFrom(s, target, replacement, k) == ReplaceFrom(u, target, replacement, k - d)
    decreases |s| - k, 0
  {
    ReplaceFromSuffix(s, u, target, replacement, k + 1, d);
    OccursInSuffix(s, u, target, k, d);
    var rest := ReplaceFrom(s, target, replacement, k + 1);
    assert ReplaceFrom(s, target, replacement, k) == [s[k]] + rest;
    assert ReplaceFrom(u, target, replacement, k - d) == [u[k - d]] + ReplaceFrom(u, target, replacement, k + 1 - d);
  }

  /** An occurrence at `k` in `s` is one at `k - d` in `s[d..]`. */
  lemma OccursInSuffix(s: string, u: string, target: string, k: int, d: int)
    requires 0 <= d <= k && k + |target| <= |s| && u == s[d..]
    ensures OccursAt(u, target, k - d) == OccursAt(s, target, k)
    ensures k < |s| ==> u[k - d] == s[k]
  {
    assert u[k - d..k - d + |target|] == s[k..k + |target|];
  }

  /** Without an occurrence of the target, `replace` changes nothing. */
  lemma {:induction false} ReplaceFromAbsent(s: string, target: string, replacement: string, k: nat)
    requires |target| > 0 && k <= |s| && IndexOf(s, target, k).None?
    ensures ReplaceFrom(s, target, replacement, k) == s[k..]
    decreases |s| - k
  {
    if |s| - k >= |target| {
      ReplaceFromAbsent(s, target, replacement, k + 1);
      assert [s[k]] + s[k + 1..] == s[k..];
    }
  }

  /** `ReplaceFromAbsent` for the whole string. */
  lemma ReplaceAllAbsent(s: string, target: string, replacement: string)
    requires |target| > 0 && !Contains(s, target)
    ensures ReplaceAll(s, target, replacement) == s
  {
    IndexOfContains(s, target);
    ReplaceFromAbsent(s, target, replacement, 0);
  }

  lemma ConsJoin(c: char, a: string, b: string, x: string)
    ensures [c] + (a + b + x) == ([c] + a) + b + x
  {
  }

  /** No two regex whitespace characters stand next to each other. */
  predicate NoSpaceRun(s: string) {
    forall i :: 0 <= i < |s| - 1 ==> !(IsRegexSpace(s[i]) && IsRegexSpace(s[i + 1]))
  }

  /** A slice of a text without space runs has none either. */
  lemma NoSpaceRunSlice(s: string, a: int, b: int)
    requires NoSpaceRun(s) && 0 <= a <= b <= |s|
    ensures NoSpaceRun(s[a..b])
  {
    forall i | 0 <= i < b - a - 1
      ensures !(IsRegexSpace(s[a..b][i]) && IsRegexSpace(s[a..b][i + 1]))
    {
      assert s[a..b][i] == s[a + i] && s[a..b][i + 1] == s[a + i + 1];
    }
  }

  /** Trimming cannot create a space run. */
  lemma TrimNoSpaceRun(s: string)
    requires NoSpaceRun(s)
    ensures NoSpaceRun(Trim(s))
  {
    var r := Trim(s);
    var i :| WhitespaceAround(s, r, i);
    NoSpaceRunSlice(s, i, i + |r|);
  }

  /** `Regex("\\s+").replace(s, " ")`: every maximal run of `\s`
      characters becomes one space; text without `\s` is unchanged, and
      `CollapseRun` says how a run in the middle is replaced. */
  function CollapseSpaces(s: string): (r: string)
    ensures |r| <= |s|
    ensures |s| > 0 ==> |r| > 0 && r[0] == (if IsRegexSpace(s[0]) then ' ' else s[0])
    ensures NoSpaceRun(r)
    ensures (forall i :: 0 <= i < |s| ==> !IsRegexSpace(s[i])) ==> r == s
  {
    if |s| == 0 then []
    else if IsRegexSpace(s[0]) then
      var rest := DropSpaces(s[1..]);
      [' '] + CollapseSpaces(rest)
    else
      assert (forall i :: 0 <= i < |s| ==> !IsRegexSpace(s[i])) ==>
             (forall i :: 0 <= i < |s[1..]| ==> !IsRegexSpace(s[1..][i]));
      [s[0]] + CollapseSpaces(s[1..])
  }

  /** `s` without its leading `\s` characters. */
  function DropSpaces(s: string): (r: string)
    ensures |r| <= |s| && r == s[|s| - |r|..]
    ensures |r| > 0 ==> !IsRegexSpace(r[0])
    ensures forall i :: 0 <= i < |s| - |r| ==> IsRegexSpace(s[i])
  {
    if |s| > 0 && IsRegexSpace(s[0]) then DropSpaces(s[1..]) else s
  }

  /** Leading spaces of `u` are all the leading spaces of `u + v` when `u`
      does not end in one. */
  lemma {:induction false} DropSpacesAppend(u: string, v: string)
    requires |u| > 0 && !IsRegexSpace(u[|u| - 1])
    ensures DropSpaces(u + v) == DropSpaces(u) + v
  {
    if IsRegexSpace(u[0]) {
      assert (u + v)[1..] == u[1..] + v;
      DropSpacesAppend(u[1..], v);
    }
  }

  /** A run of spaces in front of a text that does not start with one is
      dropped whole. */
  lemma {:induction false} DropSpacesRun(w: string, y: string)
    requires forall k :: 0 <= k < |w| ==> IsRegexSpace(w[k])
    requires |y| > 0 ==> !IsRegexSpace(y[0])
    ensures DropSpaces(w + y) == y
  {
    if |w| > 0 {
      assert (w + y)[1..] == w[1..] + y;
      DropSpacesRun(w[1..], y);
    } else {
      assert w + y == y;
    }
  }

  /** A maximal run `w` of `\s` characters between `x` and `y` becomes one
      space, and the text on either side is collapsed on its own. */
  lemma {:induction false} CollapseRun(x: string, w: string, y: string)
    requires |w| > 0 && forall k :: 0 <= k < |w| ==> IsRegexSpace(w[k])
    requires |x| > 0 ==> !IsRegexSpace(x[|x| - 1])
    requires |y| > 0 ==> !IsRegexSpace(y[0])
    ensures CollapseSpaces(x + w + y) == CollapseSpaces(x) + [' '] + CollapseSpaces(y)
    decreases |x|
  {
    if |x| == 0 {
      CollapseRunAtStart(x, w, y);
    } else if !IsRegexSpace(x[0]) {
      CollapseRun(x[1..], w, y);
      CollapseRunKept(x, w, y);
    } else {
      var x' := DropSpaces(x[1..]);
      CollapseAfterSpace(x, w + y);
      CollapseRun(x', w, y);
      CollapseRunDropped(x, x', w, y);
    }
  }

  lemma Assoc(a: string, b: string, c: string)
    ensures a + b + c == a + (b + c)
  {
  }

  lemma EmptyFront(a: string, b: string)
    requires |a| == 0
    ensures a + b == b
  {
  }

  lemma ConcatTail(a: string, b: string)
    requires |a| > 0
    ensures (a + b)[0] == a[0] && (a + b)[1..] == a[1..] + b
  {
  }

  /** One step of `CollapseSpaces` over a kept first character. */
  lemma CollapseKeep(s: string)
    requires |s| > 0 && !IsRegexSpace(s[0])
    ensures CollapseSpaces(s) == [s[0]] + CollapseSpaces(s[1..])
  {
  }

  /** One step of `CollapseSpaces` over a leading run. */
  lemma CollapseSkip(s: string)
    requires |s| > 0 && IsRegexSpace(s[0])
    ensures CollapseSpaces(s) == [' '] + CollapseSpaces(DropSpaces(s[1..]))
  {
  }

  /** The step of `CollapseRun` past a first character that is kept. */
  lemma CollapseRunKept(x: string, w: string, y: string)
    requires |x| > 0 && !IsRegexSpace(x[0])
    requires CollapseSpaces(x[1..] + w + y) == CollapseSpaces(x[1..]) + [' '] + CollapseSpaces(y)
    ensures CollapseSpaces(x + w + y) == CollapseSpaces(x) + [' '] + CollapseSpaces(y)
  {
    Assoc(x, w, y);
    Assoc(x[1..], w, y);
    ConcatTail(x, w + y);
    CollapseKeep(x + (w + y));
    CollapseKeep(x);
    ConsJoin(x[0], CollapseSpaces(x[1..]), [' '], CollapseSpaces(y));
  }

  /** The step of `CollapseRun` past a leading run of `x`. */
  lemma CollapseRunDropped(x: string, x': string, w: string, y: string)
    requires CollapseSpaces(x + (w + y)) == [' '] + CollapseSpaces(x' + (w + y))
    requires CollapseSpaces(x) == [' '] + CollapseSpaces(x')
    requires CollapseSpaces(x' + w + y) == CollapseSpaces(x') + [' '] + CollapseSpaces(y)
    ensures CollapseSpaces(x + w + y) == CollapseSpaces(x) + [' '] + CollapseSpaces(y)
  {
    Assoc(x, w, y);
    Assoc(x', w, y);
  }

  /** The run at the very start becomes one leading space. */
  lemma CollapseRunAtStart(x: string, w: string, y: string)
    requires |x| == 0
    requires |w| > 0 && forall k :: 0 <= k < |w| ==> IsRegexSpace(w[k])
    requires |y| > 0 ==> !IsRegexSpace(y[0])
    ensures CollapseSpaces(x + w + y) == CollapseSpaces(x) + [' '] + CollapseSpaces(y)
  {
    EmptyFront(x, w + y);
    Assoc(x, w, y);
    ConcatTail(w, y);
    DropSpacesRun(w[1..], y);
    CollapseSkip(w + y);
    EmptyFront(CollapseSpaces(x), [' '] + CollapseSpaces(y));
    Assoc(CollapseSpaces(x), [' '], CollapseSpaces(y));
  }

  /** A text starting with `\s` and ending without it: the leading run
      becomes one space, also with anything appended. */
  lemma CollapseAfterSpace(x: string, v: string)
    requires |x| > 1 && IsRegexSpace(x[0]) && !IsRegexSpace(x[|x| - 1])
    ensures var x' := DropSpaces(x[1..]);
      && 0 < |x'| < |x| && x'[|x'| - 1] == x[|x| - 1]
      && CollapseSpaces(x + v) == [' '] + CollapseSpaces(x' + v)
      && CollapseSpaces(x) == [' '] + CollapseSpaces(x')
  {
    ConcatTail(x, v);
    DropSpacesAppend(x[1..], v);
  }
}
