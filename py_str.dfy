/**
 * The handful of Python `str` operations the SQL agent relies on: substring
 * search (`in`, `find`), `split`, `join`, `strip`, and the truthiness of an
 * optional string. Strings are sequences of characters.
 */
module PyStr {
  import opened Wrappers
  import opened Seqs

  /** Python's `str.isspace()` for one character (the characters `strip()` removes). */
  predicate IsSpace(c: char) {
    var n := c as int;
    (9 <= n <= 13) || (28 <= n <= 32) || n == 0x85 || n == 0xA0 || n == 0x1680
    || (0x2000 <= n <= 0x200A) || n == 0x2028 || n == 0x2029 || n == 0x202F
    || n == 0x205F || n == 0x3000
  }

  /** Python truthiness of a `str | None`: present and non-empty. */
  predicate Truthy(s: Option<string>) {
    s.Some? && s.value != ""
  }

  /** `sep` occurs in `s` starting at index `i`. */
  predicate OccursAt(s: string, sep: string, i: nat) {
    i + |sep| <= |s| && s[i..i + |sep|] == sep
  }

  /** `s.find(sep, start)`: the first index at or after `start` where `sep` occurs. */
  function Find(s: string, sep: string, start: nat): (r: Option<nat>)
    ensures r.Some? ==> start <= r.value && OccursAt(s, sep, r.value)
    decreases |s| - start
  {
    if start + |sep| > |s| then None
    else if OccursAt(s, sep, start) then Some(start)
    else Find(s, sep, start + 1)
  }

  /** `find` returns the first occurrence: there is none between `start` and its result. */
  lemma {:induction false} FindLeast(s: string, sep: string, start: nat)
    ensures var r := Find(s, sep, start);
            forall j :: start <= j && (r.None? || j < r.value) ==> !OccursAt(s, sep, j)
    decreases |s| - start
  {
    if start + |sep| <= |s| && !OccursAt(s, sep, start) {
      FindLeast(s, sep, start + 1);
    }
  }

  /** `sep in s`. */
  predicate Contains(s: string, sep: string) {
    Find(s, sep, 0).Some?
  }

  lemma OccursAtContains(s: string, sep: string, i: nat)
    requires OccursAt(s, sep, i)
    ensures Contains(s, sep)
  {
    FindLeast(s, sep, 0);
  }

  /** An occurrence inside a slice is an occurrence in the whole string. */
  lemma ContainsInSlice(s: string, sep: string, a: nat, b: nat)
    requires a <= b <= |s| && Contains(s[a..b], sep)
    ensures Contains(s, sep)
  {
    var j := Find(s[a..b], sep, 0).value;
    assert OccursAt(s, sep, a + j) by {
      SliceOfSlice(s, a, b, j, j + |sep|);
    }
    OccursAtContains(s, sep, a + j);
  }

  lemma ContainsLeft(a: string, b: string, sep: string)
    requires Contains(a, sep)
    ensures Contains(a + b, sep)
  {
    assert (a + b)[..|a|] == a;
    ContainsInSlice(a + b, sep, 0, |a|);
  }

  lemma ContainsRight(a: string, b: string, sep: string)
    requires Contains(b, sep)
    ensures Contains(a + b, sep)
  {
    assert (a + b)[|a|..|a + b|] == b;
    ContainsInSlice(a + b, sep, |a|, |a + b|);
  }

  /** An occurrence inside the right operand of `+` sits `|a|` further on in the whole. */
  lemma OccursAtShift(a: string, b: string, sep: string, i: nat)
    ensures OccursAt(a + b, sep, |a| + i) <==> OccursAt(b, sep, i)
  {
    if i + |sep| <= |b| {
      assert (a + b)[|a| + i..|a| + i + |sep|] == b[i..i + |sep|];
    }
  }

  /** An occurrence stays where it is when text is appended. */
  lemma OccursAtExtend(b: string, c: string, sep: string, i: nat)
    requires OccursAt(b, sep, i)
    ensures OccursAt(b + c, sep, i)
  {
    assert (b + c)[i..i + |sep|] == b[i..i + |sep|];
  }

  lemma AppendAssoc(a: string, b: string, c: string)
    ensures a + b + c == a + (b + c)
  {
  }

  /** A string whose `k`-th character differs from that of `sep` does not start with `sep`. */
  lemma NotAtStart(s: string, sep: string, k: nat)
    requires k < |s| && k < |sep| && s[k] != sep[k]
    ensures !OccursAt(s, sep, 0)
  {
    if |sep| <= |s| {
      assert s[..|sep|][k] == s[k];
    }
  }

  /** Containment is transitive: text inside a piece of `a` is text inside `a`. */
  lemma ContainsTrans(a: string, b: string, c: string)
    requires Contains(a, b) && Contains(b, c)
    ensures Contains(a, c)
  {
    var i, j := Find(a, b, 0).value, Find(b, c, 0).value;
    assert a[i + j..i + j + |c|] == b[j..j + |c|] by {
      SliceOfSlice(a, i, i + |b|, j, j + |c|);
    }
    OccursAtContains(a, c, i + j);
  }

  /** Searching a suffix is searching the whole string from where the suffix starts. */
  lemma FindSuffix(s: string, sep: string, a: nat)
    requires a <= |s|
    ensures Find(s[a..], sep, 0) ==
            match Find(s, sep, a) case Some(j) => Some(j - a) case None => None
  {
    forall j: nat ensures OccursAt(s[a..], sep, j) <==> OccursAt(s, sep, a + j) {
      if j + |sep| <= |s| - a {
        SliceOfSlice(s, a, |s|, j, j + |sep|);
        assert s[a..] == s[a..|s|];
      }
    }
    var r := Find(s[a..], sep, 0);
    var q := Find(s, sep, a);
    FindLeast(s[a..], sep, 0);
    FindLeast(s, sep, a);
    if q.Some? {
      assert OccursAt(s[a..], sep, q.value - a);
      assert r.Some? && r.value <= q.value - a;
      assert OccursAt(s, sep, a + r.value);
    }
  }

  /** Where the next occurrence at or after `start` begins, or the end of `s` when there is none. */
  function NextOrEnd(s: string, sep: string, start: nat): (e: nat)
    ensures start <= |s| ==> start <= e <= |s|
  {
    match Find(s, sep, start)
    case Some(j) => j
    case None => |s|
  }

  /**
   * `s.split(sep)` for a non-empty separator: the pieces between the
   * leftmost non-overlapping occurrences of `sep`.
   */
  function Split(s: string, sep: string): (parts: seq<string>)
    requires |sep| > 0
    ensures |parts| >= 1
    ensures |parts| >= 2 <==> Contains(s, sep)
    decreases |s|
  {
    match Find(s, sep, 0)
    case None => [s]
    case Some(i) => [s[..i]] + Split(s[i + |sep|..], sep)
  }

  /** No piece of a split holds the separator. */
  lemma {:induction false} SplitPiecesFree(s: string, sep: string)
    requires |sep| > 0
    ensures forall k :: 0 <= k < |Split(s, sep)| ==> !Contains(Split(s, sep)[k], sep)
    decreases |s|
  {
    match Find(s, sep, 0)
    case None =>
    case Some(i) =>
      var rest := s[i + |sep|..];
      FindLeast(s, sep, 0);
      NoOccurrenceBefore(s, sep, i);
      SplitPiecesFree(rest, sep);
      var parts := Split(s, sep);
      assert parts == [s[..i]] + Split(rest, sep);
      forall k | 0 <= k < |parts| ensures !Contains(parts[k], sep) {
        if k > 0 {
          assert parts[k] == Split(rest, sep)[k - 1];
        }
      }
  }

  /** The text before the first occurrence holds no occurrence. */
  lemma NoOccurrenceBefore(s: string, sep: string, i: nat)
    requires |sep| > 0 && i <= |s|
    requires forall j :: 0 <= j < i ==> !OccursAt(s, sep, j)
    ensures !Contains(s[..i], sep)
  {
    var r := Find(s[..i], sep, 0);
    if r.Some? {
      var j := r.value;
      assert s[..i][j..j + |sep|] == s[j..j + |sep|];
      assert OccursAt(s, sep, j);
    }
  }

  /** The first piece of `s.split(sep)`: everything before the first separator. */
  lemma SplitFirst(s: string, sep: string)
    requires |sep| > 0
    ensures Split(s, sep)[0] == s[..NextOrEnd(s, sep, 0)]
  {
  }

  /** The next occurrence in a suffix, measured from the suffix's start. */
  lemma NextOrEndSuffix(s: string, sep: string, a: nat)
    requires a <= |s|
    ensures NextOrEnd(s[a..], sep, 0) == NextOrEnd(s, sep, a) - a
  {
    FindSuffix(s, sep, a);
  }

  /** After the first separator (at `i`), the pieces are those of the rest. */
  lemma SplitRest(s: string, sep: string, i: nat)
    requires |sep| > 0 && Find(s, sep, 0) == Some(i)
    ensures i + |sep| <= |s| && Split(s, sep)[1] == Split(s[i + |sep|..], sep)[0]
  {
    var rest := s[i + |sep|..];
    assert Split(s, sep) == [s[..i]] + Split(rest, sep);
  }

  /** The second piece of `s.split(sep)`: from the first separator to the next one, or to the end. */
  lemma SplitSecond(s: string, sep: string, i: nat)
    requires |sep| > 0 && Find(s, sep, 0) == Some(i)
    ensures i + |sep| <= |s|
    ensures Split(s, sep)[1] == s[i + |sep|..NextOrEnd(s, sep, i + |sep|)]
  {
    var open := i + |sep|;
    assert open <= |s| && Split(s, sep)[1] == Split(s[open..], sep)[0] by {
      SplitRest(s, sep, i);
    }
    assert Split(s[open..], sep)[0] == s[open..NextOrEnd(s, sep, open)] by {
      SplitFirstOfSuffix(s, sep, open);
    }
  }

  /** The first piece of splitting the suffix `s[a..]`, as a slice of `s`. */
  lemma SplitFirstOfSuffix(s: string, sep: string, a: nat)
    requires |sep| > 0 && a <= |s|
    ensures Split(s[a..], sep)[0] == s[a..NextOrEnd(s, sep, a)]
  {
    assert s[..|s|] == s;
    assert s[a..|s|] == s[a..];
    SplitFirstOfSlice(s, sep, a, |s|);
  }

  /** The first piece of splitting the slice `s[a..b]`, as a slice of `s`. */
  lemma SplitFirstOfSlice(s: string, sep: string, a: nat, b: nat)
    requires |sep| > 0 && a <= b <= |s|
    ensures a <= NextOrEnd(s[..b], sep, a) <= b
    ensures Split(s[a..b], sep)[0] == s[a..NextOrEnd(s[..b], sep, a)]
  {
    var t := s[..b];
    var e := NextOrEnd(t, sep, a);
    assert s[a..b] == t[a..] by {
      SuffixOfPrefix(s, a, b);
    }
    assert Split(t[a..], sep)[0] == t[a..][..e - a] by {
      SplitFirst(t[a..], sep);
      NextOrEndSuffix(t, sep, a);
    }
    assert t[a..][..e - a] == s[a..e] by {
      WindowOfPrefix(s, b, a, e);
    }
  }


  /** `sep.join(parts)`. */
  function Join(parts: seq<string>, sep: string): string {
    if parts == [] then ""
    else if |parts| == 1 then parts[0]
    else parts[0] + sep + Join(parts[1..], sep)
  }

  /** `sep.join(s.split(sep)) == s`. */
  lemma {:induction false} SplitJoin(s: string, sep: string)
    requires |sep| > 0
    ensures Join(Split(s, sep), sep) == s
    decreases |s|
  {
    match Find(s, sep, 0)
    case None =>
    case Some(i) =>
      var rest := s[i + |sep|..];
      SplitJoin(rest, sep);
      var parts := Split(s, sep);
      assert parts == [s[..i]] + Split(rest, sep);
      assert parts[1..] == Split(rest, sep);
      assert Join(parts, sep) == s[..i] + sep + rest;
      assert s[i..i + |sep|] == sep;
      assert s == s[..i] + s[i..i + |sep|] + rest;
  }

  /** Number of leading whitespace characters. */
  function LeadingSpaces(s: string): (n: nat)
    ensures n <= |s|
    ensures forall i :: 0 <= i < n ==> IsSpace(s[i])
    ensures n < |s| ==> !IsSpace(s[n])
  {
    if s != [] && IsSpace(s[0]) then 1 + LeadingSpaces(s[1..]) else 0
  }

  /** Index at which the trailing whitespace starts. */
  function TrailingStart(s: string): (n: nat)
    ensures n <= |s|
    ensures forall i :: n <= i < |s| ==> IsSpace(s[i])
    ensures 0 < n ==> !IsSpace(s[n - 1])
  {
    if s != [] && IsSpace(s[|s| - 1]) then TrailingStart(s[..|s| - 1]) else |s|
  }

  /**
   * `s.strip()`: `s` without its leading and trailing whitespace. The result
   * is a slice of `s` with only whitespace outside it, and it neither starts
   * nor ends with whitespace, so what is removed is all of that whitespace.
   */
  function Strip(s: string): (r: string)
    ensures |r| <= |s|
    ensures exists a, b :: 0 <= a <= b <= |s| && r == s[a..b] && Trimmed(s, a, b)
    ensures r == [] || (!IsSpace(r[0]) && !IsSpace(r[|r| - 1]))
    ensures (s == [] || (!IsSpace(s[0]) && !IsSpace(s[|s| - 1]))) ==> r == s
  {
    var a := LeadingSpaces(s);
    var t := s[a..];
    var b := a + TrailingStart(t);
    assert t[..TrailingStart(t)] == s[a..b] && Trimmed(s, a, b);
    t[..TrailingStart(t)]
  }

  /** Only whitespace lies outside `s[a..b]`. */
  ghost predicate Trimmed(s: string, a: nat, b: nat)
    requires a <= b <= |s|
  {
    forall i :: 0 <= i < |s| && !(a <= i < b) ==> IsSpace(s[i])
  }

  /** Stripping removes characters only at the ends, so it cannot create an occurrence. */
  lemma StripContains(s: string, sep: string)
    ensures Contains(Strip(s), sep) ==> Contains(s, sep)
  {
    if Contains(Strip(s), sep) {
      var a := LeadingSpaces(s);
      var t := s[a..];
      assert Strip(s) == t[0..TrailingStart(t)];
      ContainsInSlice(t, sep, 0, TrailingStart(t));
      assert t == s[a..|s|];
      ContainsInSlice(s, sep, a, |s|);
    }
  }
}
