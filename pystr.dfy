/**
 * The Python `str` and `list` built-ins the converter relies on, as pure functions
 * over `string` (a `seq<char>`): `strip()`, `in`, `split(c)`, `c.join(...)`,
 * `replace(old, new)`, `list.insert(i, x)` and `int(...)` applied to a string.
 */
module PyStr {
  import opened Wrappers

  /** Python's `str.isspace()` for one character: the characters `strip()` removes. */
  predicate IsSpace(c: char) {
    || ('\t' <= c <= '\r')
    || ('\U{1C}' <= c <= '\U{1F}')
    || c == ' ' || c == '\U{85}' || c == '\U{A0}' || c == '\U{1680}'
    || ('\U{2000}' <= c <= '\U{200A}')
    || c == '\U{2028}' || c == '\U{2029}' || c == '\U{202F}' || c == '\U{205F}' || c == '\U{3000}'
  }

  /** `s.lstrip()`. */
  function LStrip(s: string): string
  {
    if s != [] && IsSpace(s[0]) then LStrip(s[1..]) else s
  }

  /** `s.rstrip()`. */
  function RStrip(s: string): string
  {
    if s != [] && IsSpace(s[|s| - 1]) then RStrip(s[..|s| - 1]) else s
  }

  /** `s.strip()`: white space removed from both ends. */
  function Strip(s: string): string
  {
    RStrip(LStrip(s))
  }

  /** `lstrip()` keeps the longest suffix that does not start with white space. */
  lemma {:induction false} LStripSuffix(s: string)
    ensures |LStrip(s)| <= |s| && LStrip(s) == s[|s| - |LStrip(s)|..]
    ensures LStrip(s) == [] || !IsSpace(LStrip(s)[0])
    ensures forall i :: 0 <= i < |s| - |LStrip(s)| ==> IsSpace(s[i])
    decreases |s|
  {
    if s != [] && IsSpace(s[0]) {
      LStripSuffix(s[1..]);
    }
  }

  /** `rstrip()` keeps the longest prefix that does not end with white space. */
  lemma {:induction false} RStripPrefix(s: string)
    ensures |RStrip(s)| <= |s| && RStrip(s) == s[..|RStrip(s)|]
    ensures RStrip(s) == [] || !IsSpace(RStrip(s)[|RStrip(s)| - 1])
    ensures forall i :: |RStrip(s)| <= i < |s| ==> IsSpace(s[i])
    decreases |s|
  {
    if s != [] && IsSpace(s[|s| - 1]) {
      RStripPrefix(s[..|s| - 1]);
    }
  }

  /**
   * What `strip()` keeps is a contiguous slice of `s` that neither starts nor ends with
   * white space, and everything around it is white space.
   */
  lemma StripIsSlice(s: string) returns (start: nat)
    ensures start + |Strip(s)| <= |s| && Strip(s) == s[start..start + |Strip(s)|]
    ensures Strip(s) == [] || (!IsSpace(Strip(s)[0]) && !IsSpace(Strip(s)[|Strip(s)| - 1]))
    ensures forall i :: 0 <= i < start ==> IsSpace(s[i])
    ensures forall i :: start + |Strip(s)| <= i < |s| ==> IsSpace(s[i])
  {
    var l := LStrip(s);
    LStripSuffix(s);
    RStripPrefix(l);
    start := |s| - |l|;
    if RStrip(l) != [] {
      assert RStrip(l)[0] == l[0];
    }
    forall i | start + |Strip(s)| <= i < |s| ensures IsSpace(s[i]) {
      assert s[i] == l[i - start];
    }
  }

  /** A string that neither starts nor ends with white space is left alone by `strip()`. */
  lemma StripUnchanged(s: string)
    requires s == [] || (!IsSpace(s[0]) && !IsSpace(s[|s| - 1]))
    ensures Strip(s) == s
  {
  }

  /**
   * The white space `int()` skips around a number: that of `str.isspace()` except the
   * separators U+001C..U+001F, which `int()` does not skip.
   */
  predicate IsIntSpace(c: char) {
    IsSpace(c) && !('\U{1C}' <= c <= '\U{1F}')
  }

  /** The leading white space `int()` skips. */
  function IntLStrip(s: string): string
  {
    if s != [] && IsIntSpace(s[0]) then IntLStrip(s[1..]) else s
  }

  /** The trailing white space `int()` skips. */
  function IntRStrip(s: string): string
  {
    if s != [] && IsIntSpace(s[|s| - 1]) then IntRStrip(s[..|s| - 1]) else s
  }

  /** The text `int()` reads a number from. */
  function IntStrip(s: string): string
  {
    IntRStrip(IntLStrip(s))
  }

  /** A string that neither starts nor ends with `int()` white space is read as it is. */
  lemma IntStripUnchanged(s: string)
    requires s == [] || (!IsIntSpace(s[0]) && !IsIntSpace(s[|s| - 1]))
    ensures IntStrip(s) == s
  {
  }

  /** Trailing white space is skipped only after the first character that is not white space. */
  lemma {:induction false} IntRStripKeepsHead(s: string)
    requires s != [] && !IsIntSpace(s[0])
    ensures IntRStrip(s) != [] && IntRStrip(s)[0] == s[0]
    decreases |s|
  {
    if IsIntSpace(s[|s| - 1]) {
      IntRStripKeepsHead(s[..|s| - 1]);
    }
  }

  /** `s.startswith(p)`. */
  predicate StartsWith(s: string, p: string) {
    |p| <= |s| && s[..|p|] == p
  }

  /** `t` occurs in `s` starting at index `i`. */
  predicate OccursAt(s: string, t: string, i: int) {
    0 <= i && i + |t| <= |s| && s[i..i + |t|] == t
  }

  /** Python's substring test `t in s`. */
  predicate Contains(s: string, t: string)
    decreases |s|
  {
    StartsWith(s, t) || (s != [] && Contains(s[1..], t))
  }

  lemma {:induction false} ContainsIff(s: string, t: string)
    ensures Contains(s, t) <==> exists i :: OccursAt(s, t, i)
    decreases |s|
  {
    if Contains(s, t) {
      if StartsWith(s, t) {
        assert OccursAt(s, t, 0);
      } else {
        ContainsIff(s[1..], t);
        var i :| OccursAt(s[1..], t, i);
        OccursAtTail(s, t, i);
      }
    }
    if exists i :: OccursAt(s, t, i) {
      var i :| OccursAt(s, t, i);
      OccurrenceContained(s, t, i);
    }
  }

  lemma {:induction false} OccurrenceContained(s: string, t: string, i: int)
    requires OccursAt(s, t, i)
    ensures Contains(s, t)
    decreases i
  {
    if i > 0 {
      OccursAtTail(s, t, i - 1);
      OccurrenceContained(s[1..], t, i - 1);
    }
  }

  /** `'sep'.join(parts)`. */
  function Join(parts: seq<string>, sep: char): string
  {
    if |parts| == 0 then []
    else if |parts| == 1 then parts[0]
    else parts[0] + [sep] + Join(parts[1..], sep)
  }

  /** `s.split(sep)` for a one-character separator; never empty. */
  function Split(s: string, sep: char): (parts: seq<string>)
    ensures |parts| >= 1
    decreases |s|
  {
    if s == [] then [[]]
    else
      var rest := Split(s[1..], sep);
      if s[0] == sep then [[]] + rest
      else [[s[0]] + rest[0]] + rest[1..]
  }

  /** No piece of a split holds the separator, and joining the pieces gives the string back. */
  lemma {:induction false} JoinSplit(s: string, sep: char)
    ensures forall k :: 0 <= k < |Split(s, sep)| ==> sep !in Split(s, sep)[k]
    ensures Join(Split(s, sep), sep) == s
    decreases |s|
  {
    if s != [] {
      JoinSplit(s[1..], sep);
      if s[0] == sep {
        JoinSplitSeparator(s, sep);
      } else {
        JoinSplitChar(s, sep);
      }
    }
  }

  /** The inductive step of `JoinSplit` when the string starts with the separator. */
  lemma JoinSplitSeparator(s: string, sep: char)
    requires s != [] && s[0] == sep
    requires forall k :: 0 <= k < |Split(s[1..], sep)| ==> sep !in Split(s[1..], sep)[k]
    requires Join(Split(s[1..], sep), sep) == s[1..]
    ensures forall k :: 0 <= k < |Split(s, sep)| ==> sep !in Split(s, sep)[k]
    ensures Join(Split(s, sep), sep) == s
  {
    var rest := Split(s[1..], sep);
    assert Split(s, sep) == [[]] + rest;
    assert Join([[]] + rest, sep) == [sep] + Join(rest, sep) by {
      assert ([[]] + rest)[1..] == rest;
    }
    assert s == [s[0]] + s[1..];
  }

  /** The inductive step of `JoinSplit` when the string starts with another character. */
  lemma JoinSplitChar(s: string, sep: char)
    requires s != [] && s[0] != sep
    requires forall k :: 0 <= k < |Split(s[1..], sep)| ==> sep !in Split(s[1..], sep)[k]
    requires Join(Split(s[1..], sep), sep) == s[1..]
    ensures forall k :: 0 <= k < |Split(s, sep)| ==> sep !in Split(s, sep)[k]
    ensures Join(Split(s, sep), sep) == s
  {
    var rest := Split(s[1..], sep);
    var parts := [[s[0]] + rest[0]] + rest[1..];
    assert Split(s, sep) == parts;
    forall k | 0 <= k < |parts| ensures sep !in parts[k] {
      if k > 0 { assert parts[k] == rest[k]; }
    }
    ExtendFirstPiece(s[0], rest, sep);
    assert s == [s[0]] + s[1..];
  }

  /** Prefixing the first piece with `x` prefixes the joined string with `x`. */
  lemma ExtendFirstPiece(x: char, rest: seq<string>, sep: char)
    requires |rest| >= 1
    ensures Join([[x] + rest[0]] + rest[1..], sep) == [x] + Join(rest, sep)
  {
    var parts := [[x] + rest[0]] + rest[1..];
    if |rest| > 1 {
      assert parts[1..] == rest[1..];
      Regroup([x], rest[0] + [sep], Join(rest[1..], sep));
      Regroup([x] + rest[0], [sep], Join(rest[1..], sep));
      Regroup([x], rest[0], [sep]);
    }
  }

  /** Splitting a string that does not hold the separator yields the string alone. */
  lemma {:induction false} SplitWithoutSeparator(s: string, sep: char)
    requires sep !in s
    ensures Split(s, sep) == [s]
    decreases |s|
  {
    if s != [] {
      assert sep !in s[1..];
      SplitWithoutSeparator(s[1..], sep);
      assert s == [s[0]] + s[1..];
    }
  }

  /** The characters of `s` before the first `sep`, or all of `s` when there is none. */
  function TakeUntil(s: string, sep: char): string
  {
    if s == [] || s[0] == sep then [] else [s[0]] + TakeUntil(s[1..], sep)
  }

  /** The first piece of `s.split(sep)` is what precedes the first separator. */
  lemma {:induction false} SplitHead(s: string, sep: char)
    ensures Split(s, sep)[0] == TakeUntil(s, sep)
    decreases |s|
  {
    if s != [] && s[0] != sep {
      SplitHead(s[1..], sep);
    }
  }

  /** Splitting is homomorphic across one separator occurrence. */
  lemma {:induction false} SplitAround(a: string, b: string, sep: char)
    ensures Split(a + [sep] + b, sep) == Split(a, sep) + Split(b, sep)
    decreases |a|
  {
    if a == [] {
      assert a + [sep] + b == [sep] + b;
      SplitCons(sep, b, sep);
    } else {
      var t := a[1..] + [sep] + b;
      assert a + [sep] + b == [a[0]] + t;
      assert a == [a[0]] + a[1..];
      SplitAround(a[1..], b, sep);
      SplitCons(a[0], t, sep);
      SplitCons(a[0], a[1..], sep);
      var left := Split(a[1..], sep);
      if a[0] == sep {
        Regroup([[]], left, Split(b, sep));
      } else {
        var rest := left + Split(b, sep);
        assert rest[0] == left[0];
        assert rest[1..] == left[1..] + Split(b, sep);
        Regroup([[a[0]] + left[0]], left[1..], Split(b, sep));
      }
    }
  }

  /** Splitting a string that starts with `x`. */
  lemma SplitCons(x: char, t: string, sep: char)
    ensures Split([x] + t, sep) == if x == sep then [[]] + Split(t, sep)
                                   else [[x] + Split(t, sep)[0]] + Split(t, sep)[1..]
  {
    assert ([x] + t)[1..] == t;
  }

  /** Joining is homomorphic across one separator. */
  lemma {:induction false} JoinAppend(p: seq<string>, q: seq<string>, sep: char)
    requires |p| >= 1 && |q| >= 1
    ensures Join(p + q, sep) == Join(p, sep) + [sep] + Join(q, sep)
    decreases |p|
  {
    if |p| > 1 {
      assert (p + q)[1..] == p[1..] + q;
      JoinAppend(p[1..], q, sep);
    } else {
      assert (p + q)[1..] == q;
    }
  }

  /** Joining a piece in front of at least one more. */
  lemma JoinCons(a: string, q: seq<string>, sep: char)
    requires |q| >= 1
    ensures Join([a] + q, sep) == a + [sep] + Join(q, sep)
  {
    assert ([a] + q)[1..] == q;
  }

  /** Joining pieces free of the separator and splitting again gives the pieces back. */
  lemma {:induction false} SplitJoin(parts: seq<string>, sep: char)
    requires |parts| >= 1
    requires forall k :: 0 <= k < |parts| ==> sep !in parts[k]
    ensures Split(Join(parts, sep), sep) == parts
    decreases |parts|
  {
    SplitWithoutSeparator(parts[0], sep);
    if |parts| > 1 {
      SplitJoin(parts[1..], sep);
      SplitAround(parts[0], Join(parts[1..], sep), sep);
      assert parts == [parts[0]] + parts[1..];
    }
  }

  /** Python's `xs.insert(i, x)` for `i >= 0`: an index past the end appends. */
  function Insert<T>(xs: seq<T>, i: nat, x: T): (r: seq<T>)
    ensures |r| == |xs| + 1
    ensures i <= |xs| ==> r[i] == x && r[..i] == xs[..i] && r[i + 1..] == xs[i..]
    ensures i > |xs| ==> r == xs + [x]
  {
    if i <= |xs| then xs[..i] + [x] + xs[i..] else xs + [x]
  }

  /** Inserting right after a prefix. */
  lemma InsertAfter<T>(p: seq<T>, q: seq<T>, x: T)
    ensures Insert(p + q, |p|, x) == p + ([x] + q)
  {
    assert (p + q)[..|p|] == p && (p + q)[|p|..] == q;
  }

  /** `s.replace("", repl)`: Python puts `repl` before every character and at the end. */
  function ReplaceEmpty(s: string, repl: string): (r: string)
    ensures |r| == |s| + (|s| + 1) * |repl|
  {
    if s == [] then repl else repl + [s[0]] + ReplaceEmpty(s[1..], repl)
  }

  /**
   * `s.replace(pat, repl)`: every occurrence of `pat`, scanning left to right and
   * without overlapping, is replaced by `repl`; replaced text is not scanned again.
   */
  function Replace(s: string, pat: string, repl: string): string
    decreases |s|
  {
    if pat == [] then ReplaceEmpty(s, repl)
    else if StartsWith(s, pat) then repl + Replace(s[|pat|..], pat, repl)
    else if s == [] then []
    else [s[0]] + Replace(s[1..], pat, repl)
  }

  /** A leading occurrence is replaced and the scan resumes after it. */
  lemma ReplaceHead(pat: string, b: string, repl: string)
    requires pat != []
    ensures Replace(pat + b, pat, repl) == repl + Replace(b, pat, repl)
  {
    assert (pat + b)[..|pat|] == pat;
    assert (pat + b)[|pat|..] == b;
  }

  /** Each character of an occurrence is the matching character of the pattern. */
  lemma CharOfOccurrence(s: string, t: string, i: int, j: int)
    requires OccursAt(s, t, i) && 0 <= j < |t|
    ensures s[i + j] == t[j]
  {
    assert s[i..i + |t|][j] == s[i + j];
  }

  /** Dropping the first character shifts every occurrence one place to the left. */
  lemma OccursAtTail(s: string, t: string, i: nat)
    requires s != []
    ensures OccursAt(s[1..], t, i) <==> OccursAt(s, t, i + 1)
  {
    if i + |t| <= |s[1..]| {
      assert s[1..][i..i + |t|] == s[i + 1..i + 1 + |t|];
    }
  }

  /** Where no occurrence starts, the first character is copied and the scan moves on. */
  lemma ReplaceStep(s: string, pat: string, repl: string)
    requires pat != [] && !OccursAt(s, pat, 0) && s != []
    ensures Replace(s, pat, repl) == [s[0]] + Replace(s[1..], pat, repl)
  {
    if |pat| <= |s| { assert s[..|pat|] == s[0..|pat|]; }
  }

  /** A prefix in which no occurrence of `pat` starts is copied unchanged. */
  lemma {:induction false} ReplaceSkip(a: string, b: string, pat: string, repl: string)
    requires pat != []
    requires forall i :: 0 <= i < |a| ==> !OccursAt(a + b, pat, i)
    ensures Replace(a + b, pat, repl) == a + Replace(b, pat, repl)
    decreases |a|
  {
    if a == [] {
      assert a + b == b;
    } else {
      var rest := Replace(b, pat, repl);
      SkipFirst(a, b, pat, repl);
      SkipShift(a, b, pat);
      ReplaceSkip(a[1..], b, pat, repl);
      Regroup([a[0]], a[1..], rest);
      assert [a[0]] + a[1..] == a;
    }
  }

  /** The first character of an occurrence-free prefix is copied. */
  lemma SkipFirst(a: string, b: string, pat: string, repl: string)
    requires pat != [] && a != [] && !OccursAt(a + b, pat, 0)
    ensures Replace(a + b, pat, repl) == [a[0]] + Replace(a[1..] + b, pat, repl)
  {
    var s := a + b;
    assert s[1..] == a[1..] + b && s[0] == a[0];
    ReplaceStep(s, pat, repl);
  }

  /** Dropping the first character of an occurrence-free prefix keeps the rest free. */
  lemma SkipShift(a: string, b: string, pat: string)
    requires a != []
    requires forall i :: 0 <= i < |a| ==> !OccursAt(a + b, pat, i)
    ensures forall i :: 0 <= i < |a[1..]| ==> !OccursAt(a[1..] + b, pat, i)
  {
    var s := a + b;
    assert s[1..] == a[1..] + b;
    forall i | 0 <= i < |a[1..]| ensures !OccursAt(a[1..] + b, pat, i) {
      OccursAtTail(s, pat, i);
    }
  }

  /** A string in which `pat` does not occur is left unchanged. */
  lemma ReplaceAbsent(s: string, pat: string, repl: string)
    requires pat != [] && !Contains(s, pat)
    ensures Replace(s, pat, repl) == s
  {
    forall i | 0 <= i < |s| ensures !OccursAt(s + [], pat, i) {
      assert s + [] == s;
      if OccursAt(s, pat, i) { OccurrenceContained(s, pat, i); }
    }
    ReplaceSkip(s, [], pat, repl);
    assert s + [] == s;
  }

  /**
   * When `pat` does not hold the character `c` and does not occur in `a`, no occurrence
   * can start in `a + [c]`, so that part is copied unchanged.
   */
  lemma ReplaceAcross(a: string, c: char, b: string, pat: string, repl: string)
    requires pat != [] && c !in pat && !Contains(a, pat)
    ensures Replace(a + [c] + b, pat, repl) == a + [c] + Replace(b, pat, repl)
  {
    var s := a + [c] + b;
    forall i | 0 <= i < |a + [c]| ensures !OccursAt((a + [c]) + b, pat, i) {
      assert (a + [c]) + b == s;
      if OccursAt(s, pat, i) && i + |pat| <= |a| {
        Regroup(a, [c], b);
        OccursInPrefix(a, [c] + b, pat, i);
        OccurrenceContained(a, pat, i);
      }
      if OccursAt(s, pat, i) && |a| < i + |pat| {
        CharOfOccurrence(s, pat, i, |a| - i);
      }
    }
    ReplaceSkip(a + [c], b, pat, repl);
  }

  /** Every character of a contained string occurs in the containing one. */
  lemma ContainedCharsOccur(s: string, t: string)
    requires Contains(s, t)
    ensures forall j :: 0 <= j < |t| ==> t[j] in s
  {
    ContainsIff(s, t);
    var i :| OccursAt(s, t, i);
    forall j | 0 <= j < |t| ensures t[j] in s {
      CharOfOccurrence(s, t, i, j);
    }
  }

  /** A string holding a character that `s` lacks does not occur in `s`. */
  lemma MissingCharNotContained(s: string, t: string, j: nat)
    requires j < |t| && t[j] !in s
    ensures !Contains(s, t)
  {
    if Contains(s, t) {
      ContainedCharsOccur(s, t);
    }
  }

  /** A contained string is no longer than the one containing it. */
  lemma ContainsShorter(s: string, t: string)
    requires Contains(s, t)
    ensures |t| <= |s|
  {
    ContainsIff(s, t);
  }

  /** A string longer than `s` does not occur in `s`. */
  lemma LongerNotContained(s: string, t: string)
    requires |s| < |t|
    ensures !Contains(s, t)
  {
    if Contains(s, t) {
      ContainsShorter(s, t);
    }
  }

  /** An occurrence in `a + b` that ends inside `a` is an occurrence in `a`. */
  lemma OccursInPrefix(a: string, b: string, t: string, i: int)
    requires OccursAt(a + b, t, i) && i + |t| <= |a|
    ensures OccursAt(a, t, i)
  {
    assert a[i..i + |t|] == (a + b)[i..i + |t|];
  }

  /** An occurrence in `a + b` that starts after `a` is an occurrence in `b`. */
  lemma OccursInSuffix(a: string, b: string, t: string, i: int)
    requires OccursAt(a + b, t, i) && |a| <= i
    ensures OccursAt(b, t, i - |a|)
  {
    assert b[i - |a|..i - |a| + |t|] == (a + b)[i..i + |t|];
  }

  /** An occurrence in `a + [c] + b` lies in `a`, lies in `b`, or covers `c`. */
  lemma NotContainsAcross(a: string, c: char, b: string, t: string)
    requires c !in t && !Contains(a, t) && !Contains(b, t)
    ensures !Contains(a + [c] + b, t)
  {
    var s := a + [c] + b;
    ContainsIff(s, t);
    if i :| OccursAt(s, t, i) {
      if i + |t| <= |a| {
        Regroup(a, [c], b);
        OccursInPrefix(a, [c] + b, t, i);
        OccurrenceContained(a, t, i);
      } else if i > |a| {
        OccursInSuffix(a + [c], b, t, i);
        OccurrenceContained(b, t, i - |a| - 1);
      } else {
        CharOfOccurrence(s, t, i, |a| - i);
      }
    }
  }

  /** A prefix free of the pattern's first character is copied unchanged. */
  lemma ReplaceFreePrefix(a: string, b: string, pat: string, repl: string)
    requires pat != [] && pat[0] !in a
    ensures Replace(a + b, pat, repl) == a + Replace(b, pat, repl)
  {
    forall i | 0 <= i < |a| ensures !OccursAt(a + b, pat, i) {
      if OccursAt(a + b, pat, i) {
        CharOfOccurrence(a + b, pat, i, 0);
      }
    }
    ReplaceSkip(a, b, pat, repl);
  }

  /** A leading occurrence followed by a character foreign to the pattern and a pattern-free rest. */
  lemma ReplaceSegment(pat: string, c: char, rest: string, repl: string)
    requires pat != [] && c !in pat && !Contains(rest, pat)
    ensures Replace(pat + [c] + rest, pat, repl) == repl + [c] + rest
  {
    Regroup(pat, [c], rest);
    ReplaceHead(pat, [c] + rest, repl);
    assert Replace([c] + rest, pat, repl) == [c] + rest by {
      ReplaceFreePrefix([c], rest, pat, repl);
      ReplaceAbsent(rest, pat, repl);
    }
    Regroup(repl, [c], rest);
  }

  // ---------------------------------------------------------------------------
  // Regrouping concatenations

  /** `a/b/x` read as `a` and the separator, then `b/x`. */
  lemma RegroupAfter(a: string, b: string, x: string, c: char)
    ensures a + [c] + b + [c] + x == a + [c] + (b + [c] + x)
  {
  }

  /** `a/b/x` read as `a`, then the separator and `b/x`. */
  lemma RegroupBefore(a: string, b: string, x: string, c: char)
    ensures a + [c] + b + [c] + x == a + ([c] + b + [c] + x)
  {
  }

  /** `a/b/d/x` read as `a` and the separator, then `b/d/x`. */
  lemma RegroupThree(a: string, b: string, d: string, x: string, c: char)
    ensures a + [c] + (b + [c] + d + [c] + x) == a + [c] + b + [c] + d + [c] + x
  {
  }

  /** Associativity of sequence concatenation, as a step a proof can cite. */
  lemma Regroup<T>(a: seq<T>, b: seq<T>, x: seq<T>)
    ensures a + (b + x) == a + b + x
  {
  }

  predicate IsDigit(c: char) {
    '0' <= c <= '9'
  }

  /** The digits `int()` accepts in base 10: ASCII digits, single underscores only between digits. */
  predicate IsDigitGroup(d: string) {
    && |d| > 0
    && forall i {:trigger d[i]} :: 0 <= i < |d| ==> IsDigit(d[i]) || (d[i] == '_' && 0 < i < |d| - 1 && IsDigit(d[i + 1]))
  }

  /** A string that starts with anything but a digit is no digit group. */
  lemma LeadingNonDigit(d: string)
    requires d != [] && !IsDigit(d[0])
    ensures !IsDigitGroup(d)
  {
  }

  /** The value of a digit group, underscores ignored. */
  function DigitsValue(d: string): nat
  {
    if d == [] then 0
    else if IsDigit(d[|d| - 1]) then 10 * DigitsValue(d[..|d| - 1]) + (d[|d| - 1] as int - '0' as int)
    else DigitsValue(d[..|d| - 1])
  }

  /**
   * `int(s)` for a string: surrounding `int()` white space allowed, an optional sign, then a
   * digit group; anything else is a `ValueError` (here `None`).
   */
  function ParseInt(s: string): Option<int>
  {
    var t := IntStrip(s);
    if |t| > 0 && (t[0] == '+' || t[0] == '-') then
      if IsDigitGroup(t[1..]) then
        var v: int := DigitsValue(t[1..]);
        Some(if t[0] == '-' then -v else v)
      else None
    else if IsDigitGroup(t) then Some(DigitsValue(t))
    else None
  }

  /** Python's `str(n)` for a natural number. */
  function NatToDecimal(n: nat): (d: string)
    ensures |d| > 0 && forall i :: 0 <= i < |d| ==> IsDigit(d[i])
  {
    if n < 10 then [('0' as int + n) as char]
    else NatToDecimal(n / 10) + [('0' as int + n % 10) as char]
  }

  /** Python's `str(n)` for an integer. */
  function IntToDecimal(n: int): string
  {
    if n < 0 then "-" + NatToDecimal(-n) else NatToDecimal(n)
  }

  lemma {:induction false} DigitsValueOfDecimal(n: nat)
    ensures DigitsValue(NatToDecimal(n)) == n
  {
    var d := NatToDecimal(n);
    if n >= 10 {
      assert d[..|d| - 1] == NatToDecimal(n / 10);
      DigitsValueOfDecimal(n / 10);
    }
  }

  /** `int(str(n)) == n`: `ParseInt` reads back what Python prints for an integer. */
  lemma ParseIntOfDecimal(n: int)
    ensures ParseInt(IntToDecimal(n)) == Some(n)
  {
    var s := IntToDecimal(n);
    IntStripUnchanged(s);
    assert IntStrip(s) == s;
    if n < 0 {
      var d := NatToDecimal(-n);
      assert s[1..] == d;
      assert IsDigitGroup(d);
      DigitsValueOfDecimal(-n);
    } else {
      var d := NatToDecimal(n);
      assert d[0] != '+' && d[0] != '-';
      assert IsDigitGroup(d);
      DigitsValueOfDecimal(n);
    }
  }

  /**
   * `int()` raises `ValueError` on text that starts with one of the separators U+001C..U+001F,
   * although `str.isspace()` holds for them.
   */
  lemma ParseIntRejectsSeparator(c: char, s: string)
    requires '\U{1C}' <= c <= '\U{1F}'
    ensures ParseInt([c] + s) == None
  {
    var l := IntLStrip([c] + s);
    assert l == [c] + s;
    IntRStripKeepsHead(l);
    var t := IntStrip([c] + s);
    assert t[0] == c;
    LeadingNonDigit(t);
  }
}
