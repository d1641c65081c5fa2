/** Text as the patch scripts see it: Python's `find`, `count`, `replace` and `split` on a whole file
    held as one string, and the seam arguments about spliced text that every script relies on. */
module Text {

  datatype Result<+T, +E> = Ok(value: T) | Err(error: E) {
    predicate IsFailure() { Err? }
    function PropagateFailure<U>(): Result<U, E>
      requires Err?
    {
      Err(error)
    }
    function Extract(): T
      requires Ok?
    {
      value
    }
  }

  datatype Option<+T> = None | Some(value: T)

  predicate MatchesAt(s: string, p: string, i: int) {
    0 <= i <= |s| - |p| && s[i..i + |p|] == p
  }

  /** `s.find(p, from)`: the first match at or after `from`, or -1. */
  function Find(s: string, p: string, from: nat): (r: int)
    ensures r == -1 || (from <= r && MatchesAt(s, p, r))
    ensures forall i :: from <= i && (r == -1 || i < r) ==> !MatchesAt(s, p, i)
    decreases |s| - from
  {
    if from + |p| > |s| then -1
    else if MatchesAt(s, p, from) then from
    else if from == |s| then -1
    else Find(s, p, from + 1)
  }

  /** `s.find(p, from)` with Python's reading of a negative start. */
  function FindFrom(s: string, p: string, from: int): (r: int)
    ensures r == -1 || (0 <= r && MatchesAt(s, p, r))
  {
    Find(s, p, if from >= 0 then from else if |s| + from >= 0 then |s| + from else 0)
  }

  /** `s[lo:hi]`, empty when the bounds cross. */
  function Slice(s: string, lo: nat, hi: nat): string
    requires lo <= |s| && hi <= |s|
  {
    if lo <= hi then s[lo..hi] else ""
  }

  predicate Contains(s: string, p: string) {
    Find(s, p, 0) != -1
  }

  /** `s.rfind('\n', 0, pos) + 1`: where the line holding `pos` starts. */
  function LineStart(s: string, pos: nat): (ls: nat)
    requires pos <= |s|
    ensures ls <= pos && (ls == 0 || s[ls - 1] == '\n')
    ensures '\n' !in s[ls..pos]
  {
    if pos == 0 || s[pos - 1] == '\n' then pos else LineStart(s, pos - 1)
  }

  /** `s.count(p)`: matches taken left to right without overlap. */
  function Count(s: string, p: string): nat
    decreases |s|
  {
    if p == "" then |s| + 1
    else
      var i := Find(s, p, 0);
      if i == -1 then 0 else 1 + Count(s[i + |p|..], p)
  }

  /** `s.replace(p, q, 1)`. */
  function ReplaceFirst(s: string, p: string, q: string): string {
    var i := Find(s, p, 0);
    if i == -1 then s else s[..i] + q + s[i + |p|..]
  }

  /** `s.replace(p, q)`; an empty `p` matches before every character and at the end. */
  function ReplaceAll(s: string, p: string, q: string): string
    decreases |s|
  {
    if p == "" then (if s == "" then q else q + [s[0]] + ReplaceAll(s[1..], p, q))
    else
      var i := Find(s, p, 0);
      if i == -1 then s else s[..i] + q + ReplaceAll(s[i + |p|..], p, q)
  }

  /** `s.split(p)`. */
  function Split(s: string, p: string): (parts: seq<string>)
    requires p != ""
    ensures |parts| > 0
    decreases |s|
  {
    var i := Find(s, p, 0);
    if i == -1 then [s] else [s[..i]] + Split(s[i + |p|..], p)
  }

  /** `q.join(parts)`. */
  function Join(parts: seq<string>, q: string): string
    requires |parts| > 0
  {
    if |parts| == 1 then parts[0] else parts[0] + q + Join(parts[1..], q)
  }

  /** `%u` of a number. */
  function Decimal(n: nat): string {
    if n < 10 then [['0', '1', '2', '3', '4', '5', '6', '7', '8', '9'][n]] else Decimal(n / 10) + Decimal(n % 10)
  }

  // ---------------------------------------------------------------- where a text can match

  /** The contract of `Find` determines its value. */
  lemma FindIs(s: string, p: string, from: nat, r: int)
    requires from <= r && MatchesAt(s, p, r)
    requires forall i :: from <= i < r ==> !MatchesAt(s, p, i)
    ensures Find(s, p, from) == r
  {
  }

  lemma NotFound(s: string, p: string, from: nat)
    requires forall i :: from <= i ==> !MatchesAt(s, p, i)
    ensures Find(s, p, from) == -1
  {
  }

  /** A window that two texts share is a match in both or in neither. */
  lemma MatchMoves(s: string, t: string, p: string, i: int, j: int)
    requires 0 <= i <= |s| - |p| && 0 <= j <= |t| - |p|
    requires s[i..i + |p|] == t[j..j + |p|]
    ensures MatchesAt(s, p, i) <==> MatchesAt(t, p, j)
  {
  }

  lemma MatchInSuffix(s: string, p: string, m: nat, j: nat)
    requires m <= j && j + |p| <= |s|
    ensures MatchesAt(s[m..], p, j - m) <==> MatchesAt(s, p, j)
  {
    assert s[m..][j - m..j - m + |p|] == s[j..j + |p|];
  }

  lemma InnerMatch(a: string, x: string, b: string, t: string)
    requires Contains(x, t)
    ensures Contains(a + x + b, t)
  {
    MatchMoves(a + x + b, x, t, |a| + Find(x, t, 0), Find(x, t, 0));
  }

  /** One differing character rules a match out. */
  lemma Mismatch(s: string, p: string, i: nat, k: nat)
    requires k < |p| && (i + k < |s| ==> s[i + k] != p[k])
    ensures !MatchesAt(s, p, i)
  {
    if i + |p| <= |s| {
      assert s[i..i + |p|][k] == s[i + k];
    }
  }

  lemma MatchChars(s: string, p: string, i: int)
    requires MatchesAt(s, p, i)
    ensures forall x :: i <= x < i + |p| ==> s[x] == p[x - i]
  {
    forall x | i <= x < i + |p|
      ensures s[x] == p[x - i]
    {
      assert s[i..i + |p|][x - i] == s[x];
    }
  }

  lemma OneChar(s: string, c: char, k: nat)
    requires k < |s|
    ensures MatchesAt(s, [c], k) <==> s[k] == c
  {
    assert s[k..k + 1] == [s[k]];
  }

  // ---------------------------------------------------------------- replace_all

  /** Replacing every match is splitting at the matches and joining with the replacement. */
  lemma {:induction false} ReplaceAllIsSplitJoin(s: string, p: string, q: string)
    requires p != ""
    ensures ReplaceAll(s, p, q) == Join(Split(s, p), q)
    decreases |s|
  {
    var i := Find(s, p, 0);
    if i != -1 {
      var rest := s[i + |p|..];
      ReplaceAllIsSplitJoin(rest, p, q);
      var parts := Split(s, p);
      assert parts == [s[..i]] + Split(rest, p);
      assert parts[1..] == Split(rest, p);
    }
  }

  lemma NoMatchBefore(s: string, p: string)
    requires p != "" && Contains(s, p)
    ensures !Contains(s[..Find(s, p, 0)], p)
  {
    var head := s[..Find(s, p, 0)];
    forall j | 0 <= j
      ensures !MatchesAt(head, p, j)
    {
      if j + |p| <= |head| {
        MatchMoves(head, s, p, j, j);
      }
    }
    NotFound(head, p, 0);
  }

  /** Splitting is exact: the pieces hold no match of `p`, and there is one more of them than matches counted. */
  lemma {:induction false} SplitPieces(s: string, p: string)
    requires p != ""
    ensures |Split(s, p)| == Count(s, p) + 1
    ensures forall k :: 0 <= k < |Split(s, p)| ==> !Contains(Split(s, p)[k], p)
    decreases |s|
  {
    var i := Find(s, p, 0);
    if i != -1 {
      SplitPieces(s[i + |p|..], p);
      NoMatchBefore(s, p);
      assert Split(s, p) == [s[..i]] + Split(s[i + |p|..], p);
    }
  }

  /** Joining the pieces with what they were split by gives the text back. */
  lemma {:induction false} SplitJoins(s: string, p: string)
    requires p != ""
    ensures Join(Split(s, p), p) == s
  {
    ReplaceAllIsSplitJoin(s, p, p);
    ReplaceBySelf(s, p);
  }

  lemma CutAtMatch(s: string, p: string)
    requires Contains(s, p)
    ensures var i := Find(s, p, 0); s == s[..i] + p + s[i + |p|..]
  {
  }

  lemma {:induction false} ReplaceBySelf(s: string, p: string)
    requires p != ""
    ensures ReplaceAll(s, p, p) == s
    decreases |s|
  {
    var i := Find(s, p, 0);
    if i != -1 {
      var rest := s[i + |p|..];
      ReplaceBySelf(rest, p);
      CutAtMatch(s, p);
      assert ReplaceAll(s, p, p) == s[..i] + p + ReplaceAll(rest, p, p);
    }
  }

  /** `n` steps of `d`, added up one at a time. */
  function Steps(n: nat, d: int): int {
    if n == 0 then 0 else d + Steps(n - 1, d)
  }

  lemma {:induction false} StepsMultiply(n: nat, d: int)
    ensures Steps(n, d) == n * d
  {
    if n > 0 {
      StepsMultiply(n - 1, d);
      assert (n - 1) * d == n * d - d;
    }
  }

  lemma {:induction false} ReplaceAllSteps(s: string, p: string, q: string)
    ensures |ReplaceAll(s, p, q)| == |s| + Steps(Count(s, p), |q| - |p|)
    decreases |s|
  {
    if p == "" {
      if s != "" {
        ReplaceAllSteps(s[1..], p, q);
      }
    } else {
      var i := Find(s, p, 0);
      if i != -1 {
        ReplaceAllSteps(s[i + |p|..], p, q);
      }
    }
  }

  /** The length changes by exactly the number of matches times the difference of the two texts. */
  lemma ReplaceAllLength(s: string, p: string, q: string)
    ensures |ReplaceAll(s, p, q)| == |s| + Count(s, p) * (|q| - |p|)
  {
    ReplaceAllSteps(s, p, q);
    StepsMultiply(Count(s, p), |q| - |p|);
  }

  /** Neither text occurs in the other, and no proper prefix or suffix of `p` hangs over an end of `q`. */
  predicate Separate(p: string, q: string) {
    && p != ""
    && !Contains(p, q)
    && !Contains(q, p)
    && (forall n :: 0 < n < |p| && n <= |q| ==> p[|p| - n..] != q[..n])
    && (forall n :: 0 < n < |p| && n <= |q| ==> p[..n] != q[|q| - n..])
  }

  lemma SeamLeft(pre: string, q: string, post: string, p: string, j: nat)
    requires Separate(p, q) && j < |pre| < j + |p| <= |pre| + |q|
    ensures !MatchesAt(pre + q + post, p, j)
  {
    var n, w := j + |p| - |pre|, (pre + q + post)[j..j + |p|];
    assert w[|w| - n..] == q[..n];
  }

  lemma SeamRight(pre: string, q: string, post: string, p: string, j: nat)
    requires Separate(p, q) && |pre| <= j < |pre| + |q| < j + |p|
    ensures !MatchesAt(pre + q + post, p, j)
  {
    if j + |p| <= |pre + q + post| {
      var n, w := |pre| + |q| - j, (pre + q + post)[j..j + |p|];
      assert w[..n] == q[|q| - n..];
    }
  }

  lemma SeamAround(pre: string, q: string, post: string, p: string, j: nat)
    requires Separate(p, q) && j < |pre| && |pre| + |q| < j + |p|
    ensures !MatchesAt(pre + q + post, p, j)
  {
    if j + |p| <= |pre + q + post| {
      var s, k := pre + q + post, |pre| - j;
      assert s[|pre|..|pre| + |q|] == q;
      assert s[j..j + |p|][k..k + |q|] == s[|pre|..|pre| + |q|];
      assert !MatchesAt(p, q, k);
    }
  }

  lemma SeamInside(pre: string, q: string, post: string, p: string, j: nat)
    requires Separate(p, q) && |pre| <= j && j + |p| <= |pre| + |q|
    ensures !MatchesAt(pre + q + post, p, j)
  {
    MatchMoves(pre + q + post, q, p, j, j - |pre|);
  }

  /** One splice: no match of `p` in `pre + q + post` touches `q`. */
  lemma SeparateSeam(pre: string, q: string, post: string, p: string, j: nat)
    requires Separate(p, q)
    requires j + |p| > |pre| && j < |pre| + |q|
    ensures !MatchesAt(pre + q + post, p, j)
  {
    if j + |p| > |pre| + |q| {
      if j < |pre| {
        SeamAround(pre, q, post, p, j);
      } else {
        SeamRight(pre, q, post, p, j);
      }
    } else if j < |pre| {
      SeamLeft(pre, q, post, p, j);
    } else {
      SeamInside(pre, q, post, p, j);
    }
  }

  /** No old call survives: when `p` and `q` are separate, nothing in the rewritten text matches `p`. */
  lemma {:induction false} NoMatchSurvives(s: string, p: string, q: string)
    requires Separate(p, q)
    ensures !Contains(ReplaceAll(s, p, q), p) && Count(ReplaceAll(s, p, q), p) == 0
    decreases |s|
  {
    var i := Find(s, p, 0);
    if i != -1 {
      var rest := ReplaceAll(s[i + |p|..], p, q);
      var r := s[..i] + q + rest;
      NoMatchSurvives(s[i + |p|..], p, q);
      forall j | 0 <= j
        ensures !MatchesAt(r, p, j)
      {
        NoMatchInSplice(s, p, q, rest, j);
      }
      NotFound(r, p, 0);
    }
  }

  lemma NoMatchInSplice(s: string, p: string, q: string, rest: string, j: nat)
    requires Separate(p, q) && Find(s, p, 0) != -1 && !Contains(rest, p)
    ensures !MatchesAt(s[..Find(s, p, 0)] + q + rest, p, j)
  {
    var i := Find(s, p, 0);
    var r := s[..i] + q + rest;
    if j + |p| <= i {
      MatchMoves(r, s, p, j, j);
    } else if j < i + |q| {
      SeparateSeam(s[..i], q, rest, p, j);
    } else if j + |p| <= |r| {
      MatchMoves(r, rest, p, j, j - i - |q|);
    }
  }

  // ---------------------------------------------------------------- needles that start afresh

  /** The first character of `p` does not come back inside `p`. */
  predicate HeadUnique(p: string) {
    |p| > 0 && forall k :: 0 < k < |p| ==> p[k] != p[0]
  }

  /** Where two head-unique texts share their first character, no match of one straddles a seam of the other. */
  lemma HeadSeam(pre: string, mid: string, post: string, p: string, j: nat)
    requires HeadUnique(p) && HeadUnique(mid) && mid[0] == p[0]
    requires j < |pre| < j + |p| || |pre| < j < |pre| + |mid|
    ensures !MatchesAt(pre + mid + post, p, j)
  {
    var s := pre + mid + post;
    if j < |pre| {
      assert s[|pre|] == mid[0];
      Mismatch(s, p, j, |pre| - j);
    } else {
      assert s[j] == mid[j - |pre|];
      Mismatch(s, p, j, 0);
    }
  }

  /** Two texts that differ within their common length. */
  predicate Rivals(p: string, q: string) {
    exists k :: 0 <= k < |p| && k < |q| && p[k] != q[k]
  }

  lemma RivalAt(pre: string, mid: string, post: string, p: string)
    requires Rivals(p, mid)
    ensures !MatchesAt(pre + mid + post, p, |pre|)
  {
    var k :| 0 <= k < |p| && k < |mid| && p[k] != mid[k];
    assert (pre + mid + post)[|pre| + k] == mid[k];
    Mismatch(pre + mid + post, p, |pre|, k);
  }

  /** A head-unique text counted once matches at one place only. */
  lemma CountOne(s: string, p: string, j: nat)
    requires HeadUnique(p) && Count(s, p) == 1 && j != Find(s, p, 0)
    ensures !MatchesAt(s, p, j)
  {
    var i := Find(s, p, 0);
    var rest := s[i + |p|..];
    MatchChars(s, p, i);
    if i < j < i + |p| {
      assert s[j] == p[j - i];
      Mismatch(s, p, j, 0);
    } else if i + |p| <= j && j + |p| <= |s| {
      assert Find(rest, p, 0) == -1;
      MatchInSuffix(s, p, i + |p|, j);
    }
  }

  /** Splicing `q` over `gap` in `pre + gap + post` brings no match of `w` to life outside `gap`. */
  lemma SpliceBringsNoMatch(pre: string, gap: string, q: string, post: string, w: string, j: nat)
    requires HeadUnique(w) && HeadUnique(q) && w[0] == q[0]
    requires Rivals(w, q)
    requires forall k :: 0 <= k && (k + |w| <= |pre| || k >= |pre| + |gap|) ==> !MatchesAt(pre + gap + post, w, k)
    ensures !MatchesAt(pre + q + post, w, j)
  {
    var s, r := pre + gap + post, pre + q + post;
    if j + |w| <= |pre| {
      MatchMoves(r, s, w, j, j);
    } else if j == |pre| {
      RivalAt(pre, q, post, w);
    } else if j < |pre| + |q| {
      HeadSeam(pre, q, post, w, j);
    } else if j + |w| <= |r| {
      MatchMoves(r, s, w, j, j - |q| + |gap|);
    }
  }

  /** Of a text the first match is replaced, and nothing else is touched. */
  lemma FirstReplaced(pre: string, p: string, q: string, post: string)
    requires forall j :: 0 <= j < |pre| ==> !MatchesAt(pre + p + post, p, j)
    ensures Contains(pre + p + post, p) && ReplaceFirst(pre + p + post, p, q) == pre + q + post
  {
    hide Find;
    var s := pre + p + post;
    assert s[|pre|..|pre| + |p|] == p;
    FindIs(s, p, 0, |pre|);
    assert s[..|pre|] == pre && s[|pre| + |p|..] == post;
  }

  /** The last character stands nowhere else. */
  predicate LastUnique(p: string) {
    |p| > 0 && forall k :: 0 <= k < |p| - 1 ==> p[k] != p[|p| - 1]
  }

  lemma NoOverlap(pre: string, p: string, post: string, i: nat)
    requires LastUnique(p) && i < |pre| < i + |p|
    ensures !MatchesAt(pre + p + post, p, i)
  {
    var s, k := pre + p + post, i + |p| - 1 - |pre|;
    assert s[|pre| + k] == p[k];
    Mismatch(s, p, i, |p| - 1);
  }

  lemma CountedTwice(s: string, p: string, i: nat, k: nat)
    requires p != "" && Find(s, p, 0) == i && i + |p| <= k && MatchesAt(s, p, k)
    ensures Count(s, p) >= 2
  {
    MatchInSuffix(s, p, i + |p|, k);
    assert Contains(s[i + |p|..], p);
  }

  /** Such a text, counted once, matches where it stands. */
  lemma CountedOnce(pre: string, p: string, post: string)
    requires LastUnique(p) && Count(pre + p + post, p) == 1
    ensures Find(pre + p + post, p, 0) == |pre|
  {
    hide Find, Count;
    var s := pre + p + post;
    assert s[|pre|..|pre| + |p|] == p;
    assert MatchesAt(s, p, |pre|);
    var i := Find(s, p, 0);
    if i < |pre| {
      if |pre| < i + |p| {
        NoOverlap(pre, p, post, i);
      } else {
        CountedTwice(s, p, i, |pre|);
      }
    }
  }

  /** Replacing the only match of `p` by a rival `q` leaves no match of `p`. */
  lemma OnlyMatchGone(s: string, p: string, q: string)
    requires HeadUnique(p) && HeadUnique(q) && p[0] == q[0]
    requires Rivals(p, q)
    requires Count(s, p) == 1
    ensures !Contains(ReplaceFirst(s, p, q), p)
  {
    var i := Find(s, p, 0);
    assert s == s[..i] + p + s[i + |p|..];
    forall k | 0 <= k && k != i
      ensures !MatchesAt(s, p, k)
    {
      CountOne(s, p, k);
    }
    forall j | 0 <= j
      ensures !MatchesAt(ReplaceFirst(s, p, q), p, j)
    {
      SpliceBringsNoMatch(s[..i], p, q, s[i + |p|..], p, j);
    }
    NotFound(ReplaceFirst(s, p, q), p, 0);
  }

  /** Replacing one text by another cannot bring to life a third that starts with the same character. */
  lemma ReplaceKeepsAbsence(s: string, p: string, q: string, w: string)
    requires HeadUnique(w) && HeadUnique(q) && w[0] == q[0]
    requires Rivals(w, q)
    requires !Contains(s, w)
    ensures !Contains(ReplaceFirst(s, p, q), w)
  {
    var i := Find(s, p, 0);
    if i != -1 {
      assert s == s[..i] + p + s[i + |p|..];
      forall j | 0 <= j
        ensures !MatchesAt(ReplaceFirst(s, p, q), w, j)
      {
        SpliceBringsNoMatch(s[..i], p, q, s[i + |p|..], w, j);
      }
      NotFound(ReplaceFirst(s, p, q), w, 0);
    }
  }

  // ---------------------------------------------------------------- numbers

  /** Different numbers are written differently. */
  lemma {:induction false} DecimalInjective(m: nat, n: nat)
    requires Decimal(m) == Decimal(n)
    ensures m == n
    decreases m
  {
    LastDigit(m);
    LastDigit(n);
    if m >= 10 && n >= 10 {
      var d, e := Decimal(m), Decimal(n);
      assert Decimal(m / 10) == d[..|d| - 1] == e[..|e| - 1] == Decimal(n / 10);
      DecimalInjective(m / 10, n / 10);
    }
  }

  lemma LastDigit(n: nat)
    ensures |Decimal(n)| > 0 && Decimal(n)[|Decimal(n)| - 1] == "0123456789"[n % 10]
    ensures n >= 10 ==> Decimal(n / 10) == Decimal(n)[..|Decimal(n)| - 1] && |Decimal(n)| > 1
  {
    if n >= 10 {
      SomeDigits(n / 10);
    }
  }

  lemma {:induction false} SomeDigits(n: nat)
    ensures |Decimal(n)| > 0
    decreases n
  {
    if n >= 10 {
      SomeDigits(n / 10);
    }
  }

  // ---------------------------------------------------------------- comment lines

  /** A comment line, with more text below it. */
  function Remark(w: string, more: string): string {
    "// " + w + ("\n" + more)
  }

  lemma RemarkIn(s: string, at: nat, w: string, more: string, rest: string) returns (next: nat)
    requires at <= |s| && s[at..] == Remark(w, more) + rest
    ensures Contains(s, w) && next <= |s| && s[next..] == more + rest
  {
    var t := s[at..];
    next := at + |w| + 4;
    assert t == "// " + w + ("\n" + more + rest);
    assert t[3..3 + |w|] == w;
    MatchInSuffix(s, w, at, at + 3);
    assert t[|w| + 4..] == more + rest;
  }
}
