/** The scanning loop that three patch scripts repeat: walk from an opener, count openers and closers,
    stop where the count comes back to zero. */
module Scan {
  import opened Text

  /** +1 for an opener, -1 for a closer (the loop looks for the opener first). */
  function Weight(c: char, open: char, close: char): int {
    if c == open then 1 else if c == close then -1 else 0
  }

  /** Openers minus closers in `s[from..to]`. */
  function Depth(s: string, open: char, close: char, from: nat, to: nat): int
    requires from <= to <= |s|
  {
    if from == to then 0 else Depth(s, open, close, from, to - 1) + Weight(s[to - 1], open, close)
  }

  /** The loop stops at `k`: `s[k]` closes and the count is back at zero. */
  predicate StopsAt(s: string, open: char, close: char, from: nat, k: int) {
    && from <= k < |s|
    && s[k] == close && close != open
    && Depth(s, open, close, from, k + 1) == 0
  }

  /** Where the loop started at `from` stops: the least such position, or -1. */
  function CloseIndex(s: string, open: char, close: char, from: nat): (r: int)
    ensures r == -1 || StopsAt(s, open, close, from, r)
    ensures forall k :: from <= k && (r == -1 || k < r) ==> !StopsAt(s, open, close, from, k)
  {
    CloseFrom(s, open, close, from, from)
  }

  function CloseFrom(s: string, open: char, close: char, from: nat, k: nat): (r: int)
    requires from <= k
    ensures r == -1 || (k <= r && StopsAt(s, open, close, from, r))
    ensures forall j :: k <= j && (r == -1 || j < r) ==> !StopsAt(s, open, close, from, j)
    decreases |s| - k
  {
    if k >= |s| then -1
    else if StopsAt(s, open, close, from, k) then k
    else CloseFrom(s, open, close, from, k + 1)
  }

  /** The loop itself. */
  method ScanBalanced(s: string, open: char, close: char, from: nat) returns (r: int)
    requires open != close
    ensures r == CloseIndex(s, open, close, from)
  {
    var depth := 0;
    var i := from;
    while i < |s|
      invariant from <= i && (from <= |s| ==> i <= |s| && depth == Depth(s, open, close, from, i))
      invariant forall k :: from <= k < i ==> !StopsAt(s, open, close, from, k)
    {
      if s[i] == open {
        depth := depth + 1;
      } else if s[i] == close {
        depth := depth - 1;
        if depth == 0 {
          assert StopsAt(s, open, close, from, i);
          return i;
        }
      }
      i := i + 1;
    }
    r := -1;
  }

  /** Exactness: from an opener, the loop stops at `k` iff `k` ends the least balanced block, that is,
      openers and closers are equal up to and including `k` and the depth is positive at every earlier
      point; it fails iff no such `k` exists. */
  ghost predicate EndsLeastBlock(s: string, open: char, close: char, from: nat, k: int) {
    && from <= k < |s|
    && Depth(s, open, close, from, k + 1) == 0
    && forall j :: from < j <= k ==> Depth(s, open, close, from, j) > 0
  }

  lemma {:induction false} PositiveBeforeStop(s: string, open: char, close: char, from: nat, j: nat)
    requires open != close && from < j <= |s| && s[from] == open
    requires forall k :: from <= k < j ==> !StopsAt(s, open, close, from, k)
    ensures Depth(s, open, close, from, j) > 0
  {
    if j > from + 1 {
      PositiveBeforeStop(s, open, close, from, j - 1);
      assert !StopsAt(s, open, close, from, j - 1);
    }
  }

  lemma LeastBlockStops(s: string, open: char, close: char, from: nat, k: nat)
    requires open != close && from < |s| && s[from] == open
    requires EndsLeastBlock(s, open, close, from, k)
    ensures CloseIndex(s, open, close, from) == k
  {
    assert Depth(s, open, close, from, from + 1) == 1;
    assert Depth(s, open, close, from, k + 1) == Depth(s, open, close, from, k) + Weight(s[k], open, close);
    assert StopsAt(s, open, close, from, k);
    forall j | from <= j < k
      ensures !StopsAt(s, open, close, from, j)
    {
      assert Depth(s, open, close, from, j + 1) > 0;
    }
  }

  lemma StopEndsLeastBlock(s: string, open: char, close: char, from: nat)
    requires open != close && from < |s| && s[from] == open
    requires CloseIndex(s, open, close, from) != -1
    ensures EndsLeastBlock(s, open, close, from, CloseIndex(s, open, close, from))
  {
    forall j | from < j <= CloseIndex(s, open, close, from)
      ensures Depth(s, open, close, from, j) > 0
    {
      PositiveBeforeStop(s, open, close, from, j);
    }
  }

  lemma ScanIsExact(s: string, open: char, close: char, from: nat)
    requires open != close && from < |s| && s[from] == open
    ensures forall k :: 0 <= k ==> (CloseIndex(s, open, close, from) == k <==> EndsLeastBlock(s, open, close, from, k))
    ensures CloseIndex(s, open, close, from) == -1 <==> (forall k :: !EndsLeastBlock(s, open, close, from, k))
  {
    if CloseIndex(s, open, close, from) != -1 {
      StopEndsLeastBlock(s, open, close, from);
    }
    forall k | EndsLeastBlock(s, open, close, from, k)
      ensures CloseIndex(s, open, close, from) == k
    {
      LeastBlockStops(s, open, close, from, k);
    }
  }

  // ---------------------------------------------------------------- moving blocks around

  lemma {:induction false} DepthSplits(s: string, open: char, close: char, i: nat, j: nat, k: nat)
    requires i <= j <= k <= |s|
    ensures Depth(s, open, close, i, k) == Depth(s, open, close, i, j) + Depth(s, open, close, j, k)
  {
    if j < k {
      DepthSplits(s, open, close, i, j, k - 1);
    }
  }

  /** Depth depends only on the characters of the window. */
  lemma {:induction false} DepthMoves(s: string, t: string, open: char, close: char, i: nat, j: nat, n: nat)
    requires i + n <= |s| && j + n <= |t| && s[i..i + n] == t[j..j + n]
    ensures Depth(s, open, close, i, i + n) == Depth(t, open, close, j, j + n)
  {
    if n > 0 {
      assert s[i..i + n][..n - 1] == s[i..i + n - 1];
      assert t[j..j + n][..n - 1] == t[j..j + n - 1];
      DepthMoves(s, t, open, close, i, j, n - 1);
      assert s[i..i + n][n - 1] == t[j..j + n][n - 1];
    }
  }

  /** The depth reached `n` characters into `b` when `a` stands before it. */
  lemma DepthOfConcat(a: string, b: string, n: nat, open: char, close: char)
    requires n <= |b|
    ensures Depth(a + b, open, close, 0, |a| + n) == Depth(a, open, close, 0, |a|) + Depth(b, open, close, 0, n)
  {
    var s := a + b;
    DepthSplits(s, open, close, 0, |a|, |a| + n);
    assert s[0..|a|] == a[0..|a|];
    DepthMoves(s, a, open, close, 0, 0, |a|);
    assert s[|a|..|a| + n] == b[0..n];
    DepthMoves(s, b, open, close, |a|, 0, n);
  }

  /** `b` is one block: an opener whose least balanced span is all of `b`. */
  predicate IsBlock(b: string, open: char, close: char) {
    |b| > 0 && b[0] == open && CloseIndex(b, open, close, 0) == |b| - 1
  }

  /** A block is found whole wherever it is spliced in. */
  lemma BlockFound(pre: string, b: string, post: string, open: char, close: char)
    requires IsBlock(b, open, close)
    ensures CloseIndex(pre + b + post, open, close, |pre|) == |pre| + |b| - 1
  {
    var s := pre + b + post;
    forall k | 0 <= k < |b|
      ensures StopsAt(s, open, close, |pre|, |pre| + k) <==> StopsAt(b, open, close, 0, k)
    {
      assert s[|pre|..|pre| + k + 1] == b[0..k + 1];
      DepthMoves(s, b, open, close, |pre|, 0, k + 1);
    }
    assert StopsAt(s, open, close, |pre|, |pre| + (|b| - 1));
    forall k | |pre| <= k < |pre| + |b| - 1
      ensures !StopsAt(s, open, close, |pre|, k)
    {
      assert !StopsAt(b, open, close, 0, k - |pre|);
      assert k == |pre| + (k - |pre|);
    }
  }

  /** Without openers the depth only falls, and stays at zero exactly when there are no closers either. */
  lemma {:induction false} NoOpenersFall(s: string, open: char, close: char, i: nat, j: nat)
    requires i <= j <= |s| && open != close
    requires forall k :: i <= k < j ==> s[k] != open
    ensures Depth(s, open, close, i, j) <= 0
    ensures Depth(s, open, close, i, j) == 0 <==> (forall k :: i <= k < j ==> s[k] != close)
  {
    if i < j {
      NoOpenersFall(s, open, close, i, j - 1);
    }
  }

  lemma {:induction false} FlatParens(s: string, op: nat, j: nat)
    requires op < j <= |s| && s[op] == '(' && forall k :: op < k < j ==> s[k] != '(' && s[k] != ')'
    ensures Depth(s, '(', ')', op, j) == 1
  {
    if j > op + 1 {
      FlatParens(s, op, j - 1);
    } else {
      assert Depth(s, '(', ')', op, op) == 0;
    }
  }

  lemma ParensClose(s: string, op: nat, cp: nat)
    requires op < cp < |s| && s[op] == '(' && s[cp] == ')' && forall k :: op < k < cp ==> s[k] != '(' && s[k] != ')'
    ensures CloseIndex(s, '(', ')', op) == cp
  {
    FlatParens(s, op, cp);
    assert StopsAt(s, '(', ')', op, cp);
  }

  // ---------------------------------------------------------------- blocks written out

  predicate BraceFree(s: string) {
    forall k :: 0 <= k < |s| ==> s[k] != '{' && s[k] != '}'
  }

  lemma {:induction false} FlatDepth(s: string, i: nat, j: nat)
    requires i <= j <= |s|
    requires forall k :: i <= k < j ==> s[k] != '{' && s[k] != '}'
    ensures Depth(s, '{', '}', 0, j) == Depth(s, '{', '}', 0, i)
  {
    if i < j {
      FlatDepth(s, i, j - 1);
    }
  }

  lemma NestedIsBlock(x: string, y: string, z: string)
    requires BraceFree(x) && BraceFree(y) && BraceFree(z)
    ensures IsBlock("{" + x + "{" + y + "}" + z + "}", '{', '}')
  {
    var s := "{" + x + "{" + y + "}" + z + "}";
    var a, b, c := 1 + |x|, 2 + |x| + |y|, |s| - 1;
    assert s[0] == '{' && s[a] == '{' && s[b] == '}' && s[c] == '}';
    assert forall k :: 1 <= k < a ==> s[k] == x[k - 1];
    assert forall k :: a < k < b ==> s[k] == y[k - a - 1];
    assert forall k :: b < k < c ==> s[k] == z[k - b - 1];
    assert Depth(s, '{', '}', 0, 1) == 1;
    FlatDepth(s, 1, a);
    assert Depth(s, '{', '}', 0, a + 1) == 2;
    FlatDepth(s, a + 1, b);
    assert Depth(s, '{', '}', 0, b + 1) == 1;
    FlatDepth(s, b + 1, c);
    assert StopsAt(s, '{', '}', 0, c);
    assert forall k :: 0 <= k < c && k != b ==> s[k] != '}';
  }

  lemma FlatIsBlock(x: string)
    requires BraceFree(x)
    ensures IsBlock("{" + x + "}", '{', '}')
  {
    var s := "{" + x + "}";
    var c := |s| - 1;
    assert s[0] == '{' && s[c] == '}';
    assert forall k :: 1 <= k < c ==> s[k] == x[k - 1];
    assert Depth(s, '{', '}', 0, 1) == 1;
    FlatDepth(s, 1, c);
    assert StopsAt(s, '{', '}', 0, c);
  }
}
