/** What the hand-off edits of `SysArch` do when they are run again on their own output. */
module HandOff {
  import opened Text
  import opened Scan
  import opened Pattern
  import opened Definition
  import opened LwipHelper
  import opened SwitchHelper
  import opened SysArch

  // ---------------------------------------------------------------- the definition and the call

  lemma HeadWords(v: string, w: string)
    requires v == "sys_thread_t" && w == "sys_thread_new"
    ensures |v| == 12 && |w| == 14 && v[0] == 's' && v[1] == 'y' && IsSolid(v) && IsSolid(w) && IsSolid("(")
    ensures ';' !in v && '{' !in v && '}' !in v && ';' !in w && '{' !in w && '}' !in w
  {
  }

  lemma HeadIsHeading(v: string, w: string, pat: seq<Piece>)
    requires pat == [Word(v), Blank, Word(w), Gap, Word("(")] && IsSolid(v) && IsSolid(w) && IsSolid("(")
    requires |v| == 12 && v[0] == 's' && v[1] == 'y'
    requires ';' !in v && '{' !in v && '}' !in v && ';' !in w && '{' !in w && '}' !in w
    ensures Heading(pat, 's', 'y')
  {
    TightParts(pat);
  }

  lemma NewHeading()
    ensures Heading(NEW_HEAD, 's', 'y') && NEW_DEF == Def(NEW_HEAD)
  {
    HeadWords("sys_thread_t", "sys_thread_new");
    HeadIsHeading("sys_thread_t", "sys_thread_new", NEW_HEAD);
  }

  /** The first definition of `sys_thread_new` starts at `i`, its body at `b`. */
  predicate Defined(s: string, i: int, b: int) {
    FirstAt(s, NEW_HEAD, i, b)
  }

  lemma BodyMeans(s: string)
    ensures if BodyStart(s) == -1 then forall j :: 0 <= j <= |s| ==> DefEnd(s, j, NEW_HEAD) == -1
            else exists i: nat :: Defined(s, i, BodyStart(s))
  {
    hide MatchEnd, DefEnd;
    NewHeading();
    FirstIsFound(s, NEW_HEAD);
    if BodyStart(s) != -1 {
      assert Defined(s, Search(s, NEW_DEF, 0), BodyStart(s));
    }
  }

  lemma BodyIs(s: string, i: int, b: int)
    requires Defined(s, i, b)
    ensures BodyStart(s) == b
  {
    hide MatchEnd, DefEnd;
    NewHeading();
    FirstFound(s, NEW_HEAD, i, b);
  }

  lemma CreateWords(v: string, w: string)
    requires v == "pthread_create" && w == "&tmp"
    ensures |v| == 14 && |w| == 4 && IsSolid(v) && IsSolid(w) && IsSolid("(") && IsSolid(",")
    ensures ';' !in v && '#' !in v && ';' !in w && '#' !in w && v[0] == 'p' && v[8] == 'c'
  {
  }

  predicate CallPattern(pat: seq<Piece>) {
    Tight(pat) && WordsAndSpaces(pat) && !Uses(pat, ';') && !Uses(pat, '#')
  }

  lemma CreateIsTight(v: string, w: string, pat: seq<Piece>)
    requires pat == [Word(v), Gap, Word("("), Gap, Word(w), Gap, Word(",")]
    requires IsSolid(v) && IsSolid(w) && IsSolid("(") && IsSolid(",") && ';' !in v && '#' !in v && ';' !in w
             && '#' !in w
    ensures CallPattern(pat)
  {
    TightParts(pat);
  }

  lemma CreateIsPattern()
    ensures CallPattern(CREATE)
  {
    CreateWords("pthread_create", "&tmp");
    CreateIsTight("pthread_create", "&tmp", CREATE);
  }

  /** The first match of `pat` at or behind `at`. */
  predicate FirstCall(s: string, pat: seq<Piece>, at: nat, pos: int) {
    at <= pos <= |s| && MatchEnd(s, pos, pat) != -1 && forall j :: at <= j < pos ==> MatchEnd(s, j, pat) == -1
  }

  lemma SuffixShifts(s: string, at: nat, i: nat, e: nat)
    requires at <= |s| && i <= e <= |s| - at
    ensures Shifted(s[at..], s, i, e, at) && Shifted(s, s[at..], at + i, at + e, 0 - at)
  {
  }

  lemma MatchInRest(s: string, pat: seq<Piece>, at: nat, i: nat)
    requires Tight(pat) && at + i <= |s|
    ensures MatchEnd(s[at..], i, pat) == -1 <==> MatchEnd(s, at + i, pat) == -1
  {
    hide MatchEnd, Shifted, Tight;
    if MatchEnd(s[at..], i, pat) != -1 {
      SuffixShifts(s, at, i, MatchEnd(s[at..], i, pat));
      PatternMoves(s[at..], s, pat, i, at);
    }
    if MatchEnd(s, at + i, pat) != -1 {
      SuffixShifts(s, at, i, MatchEnd(s, at + i, pat) - at);
      PatternMoves(s, s[at..], pat, at + i, 0 - at);
    }
  }

  lemma CallMeans(s: string, at: nat)
    requires at <= |s| && CreateCall(s, at) != -1
    ensures FirstCall(s, CREATE, at, CreateCall(s, at))
  {
    hide MatchEnd;
    CreateIsPattern();
    var i := CreateCall(s, at) - at;
    MatchInRest(s, CREATE, at, i);
    forall j | at <= j < at + i
      ensures MatchEnd(s, j, CREATE) == -1
    {
      MatchInRest(s, CREATE, at, j - at);
    }
  }

  lemma CallIs(s: string, at: nat, pos: nat)
    requires at <= |s| && FirstCall(s, CREATE, at, pos)
    ensures CreateCall(s, at) == pos
  {
    hide MatchEnd;
    CreateIsPattern();
    forall i | 0 <= i <= pos - at
      ensures MatchEnd(s[at..], i, CREATE) == -1 <==> MatchEnd(s, at + i, CREATE) == -1
    {
      MatchInRest(s, CREATE, at, i);
    }
    SearchIs(s[at..], CREATE, 0, pos - at);
  }

  /** A match holds no `;` and no `#`. */
  lemma CallChars(s: string, pat: seq<Piece>, i: nat)
    requires CallPattern(pat) && i <= |s| && MatchEnd(s, i, pat) != -1
    ensures forall k :: i <= k < MatchEnd(s, i, pat) ==> s[k] != ';' && s[k] != '#'
  {
    hide MatchEnd;
    PatternChars(s, i, pat);
  }

  /** The first call, with a `;` behind it, is where its characters are. */
  lemma FirstCallMoves(s: string, t: string, pat: seq<Piece>, at: nat, pos: nat, semi: nat, d: int)
    requires CallPattern(pat) && FirstCall(s, pat, at, pos) && pos <= semi < |s| && s[semi] == ';'
    requires Shifted(s, t, at, semi + 1, d)
    ensures FirstCall(t, pat, at + d, pos + d) && MatchEnd(s, pos, pat) <= semi
  {
    hide MatchEnd, Tight, WordsAndSpaces, Uses;
    CallChars(s, pat, pos);
    ShiftedPart(s, t, at, semi + 1, d, pos, MatchEnd(s, pos, pat));
    PatternMoves(s, t, pat, pos, d);
    assert t[semi + d] == ';';
    ShiftedBack(s, t, at, semi + 1, d);
    forall j | at + d <= j < pos + d
      ensures MatchEnd(t, j, pat) == -1
    {
      if MatchEnd(t, j, pat) != -1 {
        CallChars(t, pat, j);
        ShiftedPart(t, s, at + d, semi + 1 + d, 0 - d, j, MatchEnd(t, j, pat));
        PatternMoves(t, s, pat, j, 0 - d);
      }
    }
  }

  // ---------------------------------------------------------------- the statement of the call

  lemma CharFound(s: string, c: char, from: nat)
    requires Find(s, [c], from) != -1
    ensures var k := Find(s, [c], from);
            from <= k < |s| && s[k] == c && forall j :: from <= j < k ==> s[j] != c
  {
    var k := Find(s, [c], from);
    OneChar(s, c, k);
    forall j | from <= j < k
      ensures s[j] != c
    {
      OneChar(s, c, j);
    }
  }

  lemma CharIs(s: string, c: char, from: nat, k: nat)
    requires from <= k < |s| && s[k] == c && forall j :: from <= j < k ==> s[j] != c
    ensures Find(s, [c], from) == k
  {
    OneChar(s, c, k);
    forall j | from <= j < k
      ensures !MatchesAt(s, [c], j)
    {
      OneChar(s, c, j);
    }
    FindIs(s, [c], from, k);
  }

  lemma CloseMoves(s: string, t: string, op: nat, cp: nat, d: int)
    requires CloseIndex(s, '(', ')', op) == cp && Shifted(s, t, op, cp + 1, d)
    ensures CloseIndex(t, '(', ')', op + d) == cp + d
  {
    hide Depth;
    forall k | op <= k <= cp
      ensures StopsAt(s, '(', ')', op, k) <==> StopsAt(t, '(', ')', op + d, k + d)
    {
      assert s[op..op + (k + 1 - op)] == t[op + d..op + d + (k + 1 - op)];
      DepthMoves(s, t, '(', ')', op, op + d, k + 1 - op);
    }
    var start := op + d;
    assert StopsAt(t, '(', ')', start, cp + d);
    forall k | start <= k < cp + d
      ensures !StopsAt(t, '(', ')', start, k)
    {
      assert !StopsAt(s, '(', ')', op, k - d);
    }
  }

  /** The call at `pos`, its parentheses, and the `;` behind them. */
  predicate CallStatement(s: string, pos: nat, op: nat, cp: nat, semi: nat) {
    && pos <= op < cp <= semi < |s|
    && s[op] == '(' && (forall j :: pos <= j < op ==> s[j] != '(') && CloseIndex(s, '(', ')', op) == cp
    && s[semi] == ';' && (forall j :: cp <= j < semi ==> s[j] != ';')
  }

  /** Lines 95-113 find the call at `pos` and its statement's end at `semi`. */
  predicate CallSite(s: string, at: nat, pos: nat, semi: nat) {
    at <= |s| && CreateSite(s, at) == Ok((pos, semi))
  }

  lemma SiteMeans(s: string, at: nat, pos: nat, semi: nat) returns (op: nat, cp: nat)
    requires CallSite(s, at, pos, semi)
    ensures FirstCall(s, CREATE, at, pos) && CallStatement(s, pos, op, cp, semi)
  {
    hide MatchEnd, Depth;
    CallMeans(s, at);
    op := Find(s, "(", pos);
    CharFound(s, '(', pos);
    cp := CloseIndex(s, '(', ')', op);
    CharFound(s, ';', cp);
  }

  lemma SiteIs(s: string, at: nat, pos: nat, op: nat, cp: nat, semi: nat)
    requires at <= |s| && FirstCall(s, CREATE, at, pos) && CallStatement(s, pos, op, cp, semi)
    ensures CallSite(s, at, pos, semi)
  {
    hide MatchEnd, Depth;
    CallIs(s, at, pos);
    CharIs(s, '(', pos, op);
    CharIs(s, ';', cp, semi);
  }

  lemma StatementMoves(s: string, t: string, pos: nat, op: nat, cp: nat, semi: nat, d: int)
    requires CallStatement(s, pos, op, cp, semi) && Shifted(s, t, pos, semi + 1, d)
    ensures CallStatement(t, pos + d, op + d, cp + d, semi + d)
  {
    ShiftedPart(s, t, pos, semi + 1, d, op, cp + 1);
    ShiftedBack(s, t, pos, semi + 1, d);
    CloseMoves(s, t, op, cp, d);
    assert t[op + d] == '(' && t[semi + d] == ';';
  }

  /** The text from `at` to the end of the statement says where the call is. */
  lemma SiteMoves(s: string, t: string, at: nat, pos: nat, semi: nat, d: int)
    requires CallSite(s, at, pos, semi) && Shifted(s, t, at, semi + 1, d)
    ensures CallSite(t, at + d, pos + d, semi + d)
  {
    hide MatchEnd, CreateSite, CloseIndex;
    var op, cp := SiteMeans(s, at, pos, semi);
    CreateIsPattern();
    FirstCallMoves(s, t, CREATE, at, pos, semi, d);
    ShiftedPart(s, t, at, semi + 1, d, pos, semi + 1);
    StatementMoves(s, t, pos, op, cp, semi, d);
    SiteIs(t, at + d, pos + d, op + d, cp + d, semi + d);
  }

  // ---------------------------------------------------------------- inserting text

  /** No brace, no angle bracket, and behind every `s` something other than `y`. */
  predicate BlandAt(x: string, n: nat)
    requires n < |x|
  {
    x[n] != '{' && x[n] != '<' && x[n] != '>' && (x[n] == 's' ==> n + 1 < |x| && x[n + 1] != 'y')
  }

  predicate Bland(x: string) {
    forall n: nat :: n < |x| ==> BlandAt(x, n)
  }

  /** Besides, no `O` before a colon. */
  predicate CalmAt(x: string, n: nat)
    requires n < |x|
  {
    BlandAt(x, n) && (x[n] == ':' ==> n > 0 && x[n - 1] != 'O')
  }

  predicate Calm(x: string) {
    forall n: nat :: n < |x| ==> CalmAt(x, n)
  }

  lemma CalmIsBland(x: string)
    requires Calm(x)
    ensures Bland(x)
  {
    forall n: nat | n < |x|
      ensures BlandAt(x, n)
    {
      assert CalmAt(x, n);
    }
  }

  lemma CalmConcat(a: string, b: string)
    requires Calm(a) && Calm(b)
    ensures Calm(a + b)
  {
    forall n: nat | n < |a + b|
      ensures CalmAt(a + b, n)
    {
      assert if n < |a| then CalmAt(a, n) else CalmAt(b, n - |a|);
    }
  }

  lemma InsertedAround(s: string, k: nat, x: string)
    requires k <= |s|
    ensures var u := Inserted(s, k, x);
            Around(s, u, k, |x|) && Shifted(s, u, 0, k, 0) && Shifted(s, u, k, |s|, |x|)
  {
  }

  /** Bland text with a `;` in it, or right before it, is run over by no definition. */
  lemma BlandIsBarred(s: string, k: nat, x: string)
    requires k <= |s| && Bland(x) && (';' in x || (k > 0 && s[k - 1] == ';'))
    ensures Barred(Inserted(s, k, x), k, |x|, 's', 'y')
  {
    var u := Inserted(s, k, x);
    forall j: nat, e: nat | DefLike(u, j, e, 's', 'y')
      ensures e <= k || j >= k + |x|
    {
      BlandNotOver(s, k, x, u, j, e);
    }
  }

  lemma BlandNotOver(s: string, k: nat, x: string, u: string, j: nat, e: nat)
    requires k <= |s| && Bland(x) && (';' in x || (k > 0 && s[k - 1] == ';')) && u == Inserted(s, k, x)
    requires DefLike(u, j, e, 's', 'y')
    ensures e <= k || j >= k + |x|
  {
    assert forall m :: k <= m < k + |x| ==> u[m] == x[m - k] && BlandAt(x, m - k);
    assert forall n :: 0 <= n < |x| ==> u[k + n] == x[n];
    assert k > 0 ==> u[k - 1] == s[k - 1];
  }

  /** No match of `w` runs over `k`. */
  predicate Unsplit(s: string, k: nat, w: string) {
    forall i :: i < k < i + |w| && 0 <= i <= |s| - |w| ==> !MatchesAt(s, w, i)
  }

  lemma ContainsKept(s: string, k: nat, x: string, w: string)
    requires k <= |s| && Unsplit(s, k, w) && Contains(s, w)
    ensures Contains(Inserted(s, k, x), w)
  {
    var i, u := Find(s, w, 0), Inserted(s, k, x);
    if i + |w| <= k {
      MatchMoves(s, u, w, i, i);
    } else {
      MatchMoves(s, u, w, i, i + |x|);
    }
  }

  /** Where the edits put text in: at the top, behind a brace, a line end or a `;`, or before `st`. */
  predicate EditPoint(s: string, k: nat) {
    k <= |s| && (k == 0 || s[k - 1] == '{' || s[k - 1] == '\n' || s[k - 1] == ';'
                 || (k + 1 < |s| && s[k] == 's' && s[k + 1] == 't'))
  }

  /** Text that no such point splits. */
  predicate SturdyAt(w: string, n: nat)
    requires n < |w|
  {
    w[n] != '{' && w[n] != '\n' && w[n] != ';' && (w[n] == 's' ==> n + 1 < |w| && w[n + 1] != 't')
  }

  predicate Sturdy(w: string) {
    forall n: nat :: n < |w| ==> SturdyAt(w, n)
  }

  lemma SturdyUnsplit(s: string, k: nat, w: string)
    requires Sturdy(w) && EditPoint(s, k)
    ensures Unsplit(s, k, w)
  {
    forall i | i < k < i + |w| && 0 <= i <= |s| - |w|
      ensures !MatchesAt(s, w, i)
    {
      assert SturdyAt(w, k - 1 - i) && SturdyAt(w, k - i);
      if s[k - 1] == '{' || s[k - 1] == '\n' || s[k - 1] == ';' {
        Mismatch(s, w, i, k - 1 - i);
      } else if w[k - i] == 's' {
        Mismatch(s, w, i, k + 1 - i);
      } else {
        Mismatch(s, w, i, k - i);
      }
    }
  }

  /** Text that brings no `#include <pthread.h>` to life. */
  ghost predicate Gentle(x: string) {
    exists a, b :: Neutral(x, PTHREAD_H, a, b)
  }

  /** Nor the token of the helper's prints. */
  ghost predicate Mild(x: string) {
    Gentle(x) && exists a, b :: Neutral(x, TOKEN, a, b)
  }

  /** Lines 75-78 have nothing to do. */
  predicate Ready(s: string) {
    Contains(s, SWITCH_H) || !Contains(s, PTHREAD_H)
  }

  /** No sturdy text goes, and what is ready stays ready. */
  ghost predicate KeepsWords(s: string, t: string) {
    (Ready(s) ==> Ready(t)) && forall w :: Sturdy(w) && Contains(s, w) ==> Contains(t, w)
  }

  /** What the edits keep: besides, the token does not come. */
  ghost predicate Keeps(s: string, t: string) {
    KeepsWords(s, t) && (!Contains(s, TOKEN) ==> !Contains(t, TOKEN))
  }

  lemma KeepsAll(s: string, t: string, u: string)
    requires Keeps(s, t) && Keeps(t, u)
    ensures Keeps(s, u)
  {
  }

  lemma SwitchIsSturdy()
    ensures Sturdy(SWITCH_H)
  {
    assert |SWITCH_H| == 19;
  }

  lemma StaysAbsent(s: string, k: nat, x: string, w: string, a: nat, b: nat)
    requires k <= |s| && !Contains(s, w) && Neutral(x, w, a, b)
    ensures !Contains(Inserted(s, k, x), w)
  {
    hide Neutral;
    assert s[..k] + s[k..] == s;
    forall i | 0 <= i
      ensures !MatchesAt(s[..k] + x + s[k..], w, i)
    {
      NoNewMatch(s[..k], x, s[k..], w, a, b, i);
    }
    NotFound(Inserted(s, k, x), w, 0);
  }

  lemma EditKeepsWords(s: string, k: nat, x: string)
    requires EditPoint(s, k) && Gentle(x)
    ensures KeepsWords(s, Inserted(s, k, x))
  {
    hide Neutral, Find;
    forall w | Sturdy(w) && Contains(s, w)
      ensures Contains(Inserted(s, k, x), w)
    {
      SturdyUnsplit(s, k, w);
      ContainsKept(s, k, x, w);
    }
    SwitchIsSturdy();
    if !Contains(s, PTHREAD_H) {
      var a, b :| Neutral(x, PTHREAD_H, a, b);
      StaysAbsent(s, k, x, PTHREAD_H, a, b);
    }
  }

  lemma EditKeeps(s: string, k: nat, x: string)
    requires EditPoint(s, k) && Mild(x)
    ensures Keeps(s, Inserted(s, k, x))
  {
    hide Neutral, Find, KeepsWords;
    EditKeepsWords(s, k, x);
    if !Contains(s, TOKEN) {
      var a, b :| Neutral(x, TOKEN, a, b);
      StaysAbsent(s, k, x, TOKEN, a, b);
    }
  }
}
