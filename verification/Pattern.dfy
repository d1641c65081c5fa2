/** The regular expressions of the patch scripts: words with white space of any length in between, and twice a
    parameter list. None of them needs backtracking, so a match is found piece by piece. */
module Pattern {
  import opened Text

  /** A literal word; `\s*`; `\s+`; `[^...]*` up to one of `stops`; and `[^;{}]*\)\s*` up to a `{`. */
  datatype Piece = Word(text: string) | Gap | Blank | Skip(stops: string) | Params

  /** `\s` on Python strings. */
  predicate IsSpace(c: char) {
    var n := c as int;
    9 <= n <= 13 || 28 <= n <= 32 || n == 0x85 || n == 0xA0 || n == 0x1680 || 0x2000 <= n <= 0x200A
    || n == 0x2028 || n == 0x2029 || n == 0x202F || n == 0x205F || n == 0x3000
  }

  function SkipSpaces(s: string, i: nat): (j: nat)
    requires i <= |s|
    ensures i <= j <= |s| && (j < |s| ==> !IsSpace(s[j]))
    ensures forall k :: i <= k < j ==> IsSpace(s[k])
    decreases |s| - i
  {
    if i < |s| && IsSpace(s[i]) then SkipSpaces(s, i + 1) else i
  }

  function SkipTo(s: string, i: nat, stops: string): (j: nat)
    requires i <= |s|
    ensures i <= j <= |s| && (j < |s| ==> s[j] in stops)
    ensures forall k :: i <= k < j ==> s[k] !in stops
    decreases |s| - i
  {
    if i < |s| && s[i] !in stops then SkipTo(s, i + 1, stops) else i
  }

  /** Where the white space before `e` begins, not looking above `i`. */
  function SpacesBefore(s: string, i: nat, e: nat): (t: nat)
    requires i <= e <= |s|
    ensures i <= t <= e && (t > i ==> !IsSpace(s[t - 1]))
    ensures forall k :: t <= k < e ==> IsSpace(s[k])
  {
    if i < e && IsSpace(s[e - 1]) then SpacesBefore(s, i, e - 1) else e
  }

  function PieceEnd(s: string, i: nat, piece: Piece): (e: int)
    requires i <= |s|
    ensures e == -1 || i <= e <= |s|
  {
    match piece
    case Word(w) => if MatchesAt(s, w, i) then i + |w| else -1
    case Gap => SkipSpaces(s, i)
    case Blank => if i < |s| && IsSpace(s[i]) then SkipSpaces(s, i) else -1
    case Skip(stops) => SkipTo(s, i, stops)
    case Params =>
      var e := SkipTo(s, i, ";{}");
      var t := SpacesBefore(s, i, e);
      if e < |s| && s[e] == '{' && t > i && s[t - 1] == ')' then e else -1
  }

  /** Where the match of `pat` that starts at `i` ends, or -1. */
  function MatchEnd(s: string, i: nat, pat: seq<Piece>): (e: int)
    requires i <= |s|
    ensures e == -1 || i <= e <= |s|
    decreases |pat|
  {
    if pat == [] then i
    else
      var j := PieceEnd(s, i, pat[0]);
      if j == -1 then -1 else MatchEnd(s, j, pat[1..])
  }

  /** `re.search` in `s[from:]`, or -1. */
  function Search(s: string, pat: seq<Piece>, from: nat): (r: int)
    ensures r == -1 || (from <= r <= |s| && MatchEnd(s, r, pat) != -1)
    ensures forall i :: from <= i <= |s| && (r == -1 || i < r) ==> MatchEnd(s, i, pat) == -1
    decreases |s| - from
  {
    if from > |s| then -1
    else if MatchEnd(s, from, pat) != -1 then from
    else Search(s, pat, from + 1)
  }

  lemma SearchIs(s: string, pat: seq<Piece>, from: nat, r: nat)
    requires from <= r <= |s| && MatchEnd(s, r, pat) != -1
    requires forall i :: from <= i < r ==> MatchEnd(s, i, pat) == -1
    ensures Search(s, pat, from) == r
  {
  }

  // ---------------------------------------------------------------- putting patterns together

  lemma {:induction false} MatchConcat(s: string, i: nat, a: seq<Piece>, b: seq<Piece>)
    requires i <= |s|
    ensures var m := MatchEnd(s, i, a);
            MatchEnd(s, i, a + b) == if m == -1 then -1 else MatchEnd(s, m, b)
    decreases |a|
  {
    if a == [] {
      assert a + b == b;
    } else {
      assert (a + b)[1..] == a[1..] + b;
      var j := PieceEnd(s, i, a[0]);
      if j != -1 {
        MatchConcat(s, j, a[1..], b);
      }
    }
  }

  lemma OnePiece(s: string, i: nat, piece: Piece)
    requires i <= |s|
    ensures MatchEnd(s, i, [piece]) == PieceEnd(s, i, piece)
  {
    assert [piece][1..] == [];
  }

  // ---------------------------------------------------------------- words and white space

  predicate IsSolid(w: string) {
    |w| > 0 && forall k :: 0 <= k < |w| ==> !IsSpace(w[k])
  }

  predicate Fits(pat: seq<Piece>, n: nat)
    requires n < |pat|
  {
    match pat[n]
    case Word(w) => IsSolid(w)
    case Gap => n + 1 < |pat| && pat[n + 1].Word?
    case Blank => n + 1 < |pat| && pat[n + 1].Word?
    case _ => false
  }

  /** Solid words with white space in between, a word last. */
  predicate Tight(pat: seq<Piece>) {
    |pat| > 0 && forall n :: 0 <= n < |pat| ==> Fits(pat, n)
  }

  lemma TightRest(pat: seq<Piece>)
    requires Tight(pat)
    ensures |pat| > 1 ==> Tight(pat[1..])
  {
    forall n | 0 <= n < |pat| - 1
      ensures Fits(pat[1..], n)
    {
      assert Fits(pat, n + 1);
    }
  }

  predicate Uses(pat: seq<Piece>, c: char) {
    exists n :: 0 <= n < |pat| && pat[n].Word? && c in pat[n].text
  }

  predicate WordsAndSpaces(pat: seq<Piece>) {
    forall n :: 0 <= n < |pat| ==> pat[n].Word? || pat[n].Gap? || pat[n].Blank?
  }

  lemma TightParts(pat: seq<Piece>)
    requires Tight(pat)
    ensures WordsAndSpaces(pat)
  {
    forall n | 0 <= n < |pat|
      ensures pat[n].Word? || pat[n].Gap? || pat[n].Blank?
    {
      assert Fits(pat, n);
    }
  }

  lemma SkipsTo(t: string, j: nat, r: nat)
    requires j <= r < |t| && !IsSpace(t[r]) && forall k :: j <= k < r ==> IsSpace(t[k])
    ensures SkipSpaces(t, j) == r
  {
  }

  /** `t` shows at `i + d ..` what `s` shows at `i ..`, up to `e`. */
  predicate Shifted(s: string, t: string, i: nat, e: nat, d: int) {
    i <= e <= |s| && 0 <= i + d && e + d <= |t| && forall k :: i <= k < e ==> s[k] == t[k + d]
  }

  lemma PieceMoves(s: string, t: string, piece: Piece, i: nat, e: nat, d: int)
    requires (piece.Word? || piece.Gap? || piece.Blank?) && Shifted(s, t, i, e, d)
    requires -1 != PieceEnd(s, i, piece) <= e
    requires !piece.Word? ==> PieceEnd(s, i, piece) < e && !IsSpace(s[PieceEnd(s, i, piece)])
    ensures PieceEnd(t, i + d, piece) == PieceEnd(s, i, piece) + d
  {
    var m := PieceEnd(s, i, piece);
    if piece.Word? {
      assert t[i + d..m + d] == s[i..m];
    } else {
      forall k | i + d <= k < m + d
        ensures IsSpace(t[k])
      {
        assert s[k - d] == t[k - d + d];
      }
      SkipsTo(t, i + d, m + d);
    }
  }

  lemma WordFirst(s: string, i: nat, pat: seq<Piece>)
    requires pat != [] && pat[0].Word? && IsSolid(pat[0].text) && i <= |s| && MatchEnd(s, i, pat) != -1
    ensures i < MatchEnd(s, i, pat) && s[i] == pat[0].text[0] && !IsSpace(s[i])
  {
    MatchChars(s, pat[0].text, i);
  }

  /** A match of a pattern is one of its first piece and one of the rest. */
  lemma MatchStep(s: string, i: nat, pat: seq<Piece>)
    requires Tight(pat) && i <= |s| && MatchEnd(s, i, pat) != -1
    ensures var m := PieceEnd(s, i, pat[0]);
            && i <= m <= MatchEnd(s, i, pat) == MatchEnd(s, m, pat[1..])
            && (!pat[0].Word? ==> m < MatchEnd(s, i, pat) && !IsSpace(s[m]))
  {
    assert Fits(pat, 0);
    if !pat[0].Word? {
      TightRest(pat);
      assert pat[1..][0] == pat[1] && Fits(pat[1..], 0);
      WordFirst(s, PieceEnd(s, i, pat[0]), pat[1..]);
    }
  }

  /** A match depends only on the characters it covers. */
  lemma {:induction false} PatternMoves(s: string, t: string, pat: seq<Piece>, i: nat, d: int)
    requires Tight(pat) && i <= |s| && MatchEnd(s, i, pat) != -1
    requires Shifted(s, t, i, MatchEnd(s, i, pat), d)
    ensures MatchEnd(t, i + d, pat) == MatchEnd(s, i, pat) + d
    decreases |pat|
  {
    MatchStep(s, i, pat);
    var m, e := PieceEnd(s, i, pat[0]), MatchEnd(s, i, pat);
    TightRest(pat);
    assert Fits(pat, 0);
    PieceMoves(s, t, pat[0], i, e, d);
    assert MatchEnd(t, i + d, pat) == MatchEnd(t, m + d, pat[1..]);
    if |pat| > 1 {
      PatternMoves(s, t, pat[1..], m, d);
    }
  }

  /** A match is made of white space and characters of the pattern's words. */
  lemma {:induction false} PatternChars(s: string, i: nat, pat: seq<Piece>)
    requires WordsAndSpaces(pat) && i <= |s| && MatchEnd(s, i, pat) != -1
    ensures forall k :: i <= k < MatchEnd(s, i, pat) ==> IsSpace(s[k]) || Uses(pat, s[k])
    decreases |pat|
  {
    if pat != [] {
      var m, e := PieceEnd(s, i, pat[0]), MatchEnd(s, i, pat);
      PatternChars(s, m, pat[1..]);
      forall k | i <= k < e
        ensures IsSpace(s[k]) || Uses(pat, s[k])
      {
        if k < m && pat[0].Word? {
          MatchChars(s, pat[0].text, i);
          assert s[k] == pat[0].text[k - i];
        } else if k >= m && !IsSpace(s[k]) {
          var n :| 0 <= n < |pat[1..]| && pat[1..][n].Word? && s[k] in pat[1..][n].text;
          assert pat[n + 1] == pat[1..][n];
        }
      }
    }
  }

  /** A match of `stem` and then `{` holds that brace at its end and nowhere else. */
  lemma BraceLast(s: string, i: nat, stem: seq<Piece>)
    requires WordsAndSpaces(stem) && !Uses(stem, '{') && i <= |s| && MatchEnd(s, i, stem + [Word("{")]) != -1
    ensures var e := MatchEnd(s, i, stem + [Word("{")]);
            i < e && s[e - 1] == '{' && forall k :: i <= k < e - 1 ==> s[k] != '{'
  {
    MatchConcat(s, i, stem, [Word("{")]);
    var m := MatchEnd(s, i, stem);
    OnePiece(s, m, Word("{"));
    OneChar(s, '{', m);
    PatternChars(s, i, stem);
  }

  // ---------------------------------------------------------------- matching a text step by step

  /** Piece `n` is the word `w` found at `i`, the next one the white space from there to `j`. */
  predicate Leads(s: string, pat: seq<Piece>, n: nat, i: nat, w: string, j: nat) {
    && n + 1 < |pat| && pat[n] == Word(w) && (pat[n + 1].Gap? || (pat[n + 1].Blank? && i + |w| < j))
    && MatchesAt(s, w, i) && i + |w| <= j < |s| && !IsSpace(s[j])
    && forall k :: i + |w| <= k < j ==> IsSpace(s[k])
  }

  lemma WordThenSpace(s: string, pat: seq<Piece>, n: nat, i: nat, w: string, j: nat)
    requires Leads(s, pat, n, i, w, j)
    ensures MatchEnd(s, i, pat[n..]) == MatchEnd(s, j, pat[n + 2..])
  {
    assert pat[n..][1..] == pat[n + 1..] && pat[n + 1..][1..] == pat[n + 2..];
    SkipsTo(s, i + |w|, j);
    assert MatchEnd(s, i, pat[n..]) == MatchEnd(s, i + |w|, pat[n + 1..]);
  }

  lemma TwoWords(s: string, pat: seq<Piece>, n: nat, i: nat, v: string, j: nat, w: string, k: nat)
    requires Leads(s, pat, n, i, v, j) && Leads(s, pat, n + 2, j, w, k)
    ensures MatchEnd(s, i, pat[n..]) == MatchEnd(s, k, pat[n + 4..])
  {
    WordThenSpace(s, pat, n, i, v, j);
    WordThenSpace(s, pat, n + 2, j, w, k);
  }

  lemma LastWord(s: string, pat: seq<Piece>, n: nat, i: nat, w: string)
    requires n + 1 == |pat| && pat[n] == Word(w) && MatchesAt(s, w, i)
    ensures MatchEnd(s, i, pat[n..]) == i + |w|
  {
    assert pat[n..] == [Word(w)];
    OnePiece(s, i, Word(w));
  }

  // ---------------------------------------------------------------- counting what is not white space

  function Ink(s: string, i: nat, j: nat): nat
    requires i <= j <= |s|
  {
    if i == j then 0 else Ink(s, i, j - 1) + (if IsSpace(s[j - 1]) then 0 else 1)
  }

  lemma {:induction false} InkSplits(s: string, i: nat, j: nat, k: nat)
    requires i <= j <= k <= |s|
    ensures Ink(s, i, k) == Ink(s, i, j) + Ink(s, j, k)
  {
    if j < k {
      InkSplits(s, i, j, k - 1);
    }
  }

  lemma {:induction false} InkOfSpaces(s: string, i: nat, j: nat)
    requires i <= j <= |s| && forall k :: i <= k < j ==> IsSpace(s[k])
    ensures Ink(s, i, j) == 0
  {
    if i < j {
      InkOfSpaces(s, i, j - 1);
    }
  }

  lemma {:induction false} InkOfSolid(s: string, i: nat, j: nat)
    requires i <= j <= |s| && forall k :: i <= k < j ==> !IsSpace(s[k])
    ensures Ink(s, i, j) == j - i
  {
    if i < j {
      InkOfSolid(s, i, j - 1);
    }
  }

  function Letters(pat: seq<Piece>): nat
    decreases |pat|
  {
    if pat == [] then 0 else (if pat[0].Word? then |pat[0].text| else 0) + Letters(pat[1..])
  }

  lemma {:induction false} MatchInk(s: string, i: nat, pat: seq<Piece>)
    requires Tight(pat) && i <= |s| && MatchEnd(s, i, pat) != -1
    ensures Ink(s, i, MatchEnd(s, i, pat)) == Letters(pat)
    decreases |pat|
  {
    TightRest(pat);
    assert Fits(pat, 0);
    var m := PieceEnd(s, i, pat[0]);
    InkSplits(s, i, m, MatchEnd(s, i, pat));
    if pat[0].Word? {
      MatchChars(s, pat[0].text, i);
      InkOfSolid(s, i, m);
    } else {
      InkOfSpaces(s, i, m);
    }
    if |pat| > 1 {
      MatchInk(s, m, pat[1..]);
    }
  }

  lemma InkPositive(s: string, i: nat, j: nat)
    requires i < j <= |s| && !IsSpace(s[i])
    ensures Ink(s, i, j) > 0
  {
    InkSplits(s, i, i + 1, j);
    assert Ink(s, i, i + 1) == Ink(s, i, i) + 1;
  }

  /** Two matches that end together start together. */
  lemma SameEndSameStart(s: string, i: nat, j: nat, pat: seq<Piece>)
    requires Tight(pat) && pat[0].Word? && i <= j <= |s|
    requires MatchEnd(s, i, pat) == MatchEnd(s, j, pat) != -1
    ensures i == j
  {
    assert Fits(pat, 0);
    WordFirst(s, i, pat);
    if i < j {
      InkPositive(s, i, j);
    }
    MatchInk(s, i, pat);
    MatchInk(s, j, pat);
    InkSplits(s, i, j, MatchEnd(s, i, pat));
  }

  // ---------------------------------------------------------------- inserting text

  /** Text that neither holds nor takes part in a match of `stem` and then `{`: no brace, a character at `b` that no
      match can cover, and no start of a match behind it. */
  predicate Inert(x: string, stem: seq<Piece>, b: nat) {
    && stem != [] && stem[0].Word? && |stem[0].text| > 0 && '{' !in x
    && b < |x| && !IsSpace(x[b]) && x[b] != '{' && !Uses(stem, x[b]) && stem[0].text[0] !in x[b + 1..]
  }

  /** Every match in `pre + x + post` is one in `pre + post` that the insertion moved or left alone. */
  lemma NoNewPattern(pre: string, x: string, post: string, stem: seq<Piece>, b: nat, i: nat)
    requires Tight(stem + [Word("{")]) && WordsAndSpaces(stem) && !Uses(stem, '{') && Inert(x, stem, b)
    requires i <= |pre + x + post| && MatchEnd(pre + x + post, i, stem + [Word("{")]) != -1
    ensures var pat := stem + [Word("{")];
            (i <= |pre| && MatchEnd(pre + post, i, pat) != -1 && MatchEnd(pre + post, i, pat) <= |pre|)
            || (i >= |pre| + |x| && MatchEnd(pre + post, i - |x|, pat) != -1)
  {
    var s, pat := pre + x + post, stem + [Word("{")];
    var e := MatchEnd(s, i, pat);
    BraceLast(s, i, stem);
    assert forall k :: |pre| <= k < |pre| + |x| ==> s[k] == x[k - |pre|];
    if e <= |pre| {
      PatternMoves(s, pre + post, pat, i, 0);
    } else {
      StartsBehind(pre, x, post, stem, b, i);
      MovesBack(pre, x, post, pat, i);
    }
  }

  lemma MovesBack(pre: string, x: string, post: string, pat: seq<Piece>, i: nat)
    requires Tight(pat) && |pre| + |x| <= i <= |pre + x + post| && MatchEnd(pre + x + post, i, pat) != -1
    ensures MatchEnd(pre + post, i - |x|, pat) != -1
  {
    PatternMoves(pre + x + post, pre + post, pat, i, -|x|);
  }

  lemma NotUsed(stem: seq<Piece>, c: char)
    requires !Uses(stem, c) && c != '{'
    ensures !Uses(stem + [Word("{")], c)
  {
    var pat := stem + [Word("{")];
    forall n | 0 <= n < |pat| && pat[n].Word?
      ensures c !in pat[n].text
    {
      assert pat[n] == if n < |stem| then stem[n] else Word("{");
    }
  }

  lemma StartsBehind(pre: string, x: string, post: string, stem: seq<Piece>, b: nat, i: nat)
    requires Tight(stem + [Word("{")]) && WordsAndSpaces(stem) && Inert(x, stem, b) && i <= |pre + x + post|
    requires MatchEnd(pre + x + post, i, stem + [Word("{")]) > |pre| + |x|
    ensures i >= |pre| + |x|
  {
    var s, pat := pre + x + post, stem + [Word("{")];
    TightParts(pat);
    PatternChars(s, i, pat);
    assert Fits(pat, 0);
    WordFirst(s, i, pat);
    NotUsed(stem, x[b]);
    assert s[|pre| + b] == x[b];
    assert forall k :: |pre| + b < k < |pre| + |x| ==> s[k] == x[b + 1..][k - |pre| - b - 1];
  }

  /** The first match, when it lies behind the insertion, moves along and stays the first. */
  lemma FirstPatternMoves(a: string, x: string, c: string, stem: seq<Piece>, b: nat, n: nat)
    requires Tight(stem + [Word("{")]) && WordsAndSpaces(stem) && !Uses(stem, '{') && Inert(x, stem, b)
    requires |a| <= n && Search(a + c, stem + [Word("{")], 0) == n
    ensures Search(a + x + c, stem + [Word("{")], 0) == n + |x|
  {
    var s, pat := a + x + c, stem + [Word("{")];
    forall i | 0 <= i < n + |x|
      ensures MatchEnd(s, i, pat) == -1
    {
      NoneEarlier(a, x, c, stem, b, n, i);
    }
    PatternMoves(a + c, s, pat, n, |x|);
    SearchIs(s, pat, 0, n + |x|);
  }

  lemma NoneEarlier(a: string, x: string, c: string, stem: seq<Piece>, b: nat, n: nat, i: nat)
    requires Tight(stem + [Word("{")]) && WordsAndSpaces(stem) && !Uses(stem, '{') && Inert(x, stem, b)
    requires |a| <= n <= |a + c| && i < n + |x|
             && forall k :: 0 <= k < n ==> MatchEnd(a + c, k, stem + [Word("{")]) == -1
    ensures MatchEnd(a + x + c, i, stem + [Word("{")]) == -1
  {
    if MatchEnd(a + x + c, i, stem + [Word("{")]) != -1 {
      BraceLast(a + x + c, i, stem);
      if i <= |a| {
        EndsBehindStart(a + c, i, stem);
      }
      NoNewPattern(a, x, c, stem, b, i);
    }
  }

  lemma EndsBehindStart(s: string, i: nat, stem: seq<Piece>)
    requires WordsAndSpaces(stem) && !Uses(stem, '{') && i <= |s|
    ensures MatchEnd(s, i, stem + [Word("{")]) == -1 || MatchEnd(s, i, stem + [Word("{")]) > i
  {
    if MatchEnd(s, i, stem + [Word("{")]) != -1 {
      BraceLast(s, i, stem);
    }
  }

  lemma Regrouped(a: string, x: string, c: string, sig: string)
    ensures a + c + sig == a + (c + sig) && a + x + c + sig == a + x + (c + sig)
  {
  }

  lemma FirstPatternBehind(a: string, x: string, c: string, sig: string, stem: seq<Piece>, b: nat)
    requires Tight(stem + [Word("{")]) && WordsAndSpaces(stem) && !Uses(stem, '{') && Inert(x, stem, b)
    requires Search(a + c + sig, stem + [Word("{")], 0) == |a + c|
    ensures Search(a + x + c + sig, stem + [Word("{")], 0) == |a + x + c|
  {
    Regrouped(a, x, c, sig);
    FirstPatternMoves(a, x, c + sig, stem, b, |a + c|);
  }
}
