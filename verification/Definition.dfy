/** A pattern that ends in a parameter list and an opening brace, as the scripts use to find a function's definition. */
module Definition {
  import opened Text
  import opened Pattern

  function Def(head: seq<Piece>): seq<Piece> {
    head + [Params, Word("{")]
  }

  /** Words and spaces that start with `c0 c1` and hold no `;` and no brace. */
  predicate Heading(head: seq<Piece>, c0: char, c1: char) {
    && Tight(head) && WordsAndSpaces(head) && !Uses(head, ';') && !Uses(head, '{') && !Uses(head, '}')
    && head[0].Word? && |head[0].text| > 1 && head[0].text[0] == c0 && head[0].text[1] == c1
  }

  /** Where the definition that starts at `i` ends: behind its head comes a parameter list with a brace behind it. */
  function DefEnd(s: string, i: nat, head: seq<Piece>): (e: int)
    requires i <= |s|
    ensures e == -1 || i <= e <= |s|
  {
    var m := MatchEnd(s, i, head);
    var e := if m == -1 then -1 else PieceEnd(s, m, Params);
    if e == -1 then -1 else e + 1
  }

  lemma DefSplit(s: string, i: nat, head: seq<Piece>)
    requires i <= |s|
    ensures MatchEnd(s, i, Def(head)) == DefEnd(s, i, head)
  {
    MatchConcat(s, i, head, [Params, Word("{")]);
    var m := MatchEnd(s, i, head);
    if m != -1 {
      assert [Params, Word("{")][1..] == [Word("{")];
      var e := PieceEnd(s, m, Params);
      if e != -1 {
        OnePiece(s, e, Word("{"));
        OneChar(s, '{', e);
      }
    }
  }

  /** It starts with the heading's first characters, ends in its only brace and holds no `;`. */
  lemma DefShape(s: string, i: nat, head: seq<Piece>, c0: char, c1: char)
    requires Heading(head, c0, c1) && i <= |s| && DefEnd(s, i, head) != -1
    ensures var e := DefEnd(s, i, head);
            && i + 1 < e - 1 && s[e - 1] == '{' && s[i] == c0 && s[i + 1] == c1
            && forall k :: i <= k < e - 1 ==> s[k] != ';' && s[k] != '{' && s[k] != '}'
  {
    var m := MatchEnd(s, i, head);
    PatternChars(s, i, head);
    HeadStart(s, i, head, head[0].text);
    assert forall k :: m <= k < PieceEnd(s, m, Params) ==> s[k] !in ";{}";
  }

  lemma HeadStart(s: string, i: nat, pat: seq<Piece>, v: string)
    requires pat != [] && pat[0] == Word(v) && |v| > 1 && i <= |s| && MatchEnd(s, i, pat) != -1
    ensures i + 1 < MatchEnd(s, i, pat) && s[i] == v[0] && s[i + 1] == v[1]
  {
    MatchChars(s, v, i);
  }

  lemma SkipsUpTo(s: string, i: nat, e: nat, stops: string)
    requires i <= e < |s| && s[e] in stops && forall k :: i <= k < e ==> s[k] !in stops
    ensures SkipTo(s, i, stops) == e
  {
  }

  lemma SpacesUpTo(s: string, i: nat, t: nat, e: nat)
    requires i <= t <= e <= |s| && (t > i ==> !IsSpace(s[t - 1])) && forall k :: t <= k < e ==> IsSpace(s[k])
    ensures SpacesBefore(s, i, e) == t
  {
  }

  lemma ParamsMove(s: string, t: string, i: nat, d: int)
    requires i <= |s| && PieceEnd(s, i, Params) != -1 && Shifted(s, t, i, PieceEnd(s, i, Params) + 1, d)
    ensures PieceEnd(t, i + d, Params) == PieceEnd(s, i, Params) + d
  {
    var e := PieceEnd(s, i, Params);
    var p := SpacesBefore(s, i, e);
    assert t[e + d] == s[e] && t[p - 1 + d] == s[p - 1];
    forall k | i + d <= k < e + d
      ensures t[k] !in ";{}" && (k >= p + d ==> IsSpace(t[k]))
    {
      assert s[k - d] == t[k - d + d];
    }
    SkipsUpTo(t, i + d, e + d, ";{}");
    SpacesUpTo(t, i + d, p + d, e + d);
  }

  lemma ShiftedPart(s: string, t: string, i: nat, e: nat, d: int, i': nat, e': nat)
    requires Shifted(s, t, i, e, d) && i <= i' <= e' <= e
    ensures Shifted(s, t, i', e', d)
  {
  }

  lemma ShiftedBack(s: string, t: string, i: nat, e: nat, d: int)
    requires Shifted(s, t, i, e, d)
    ensures Shifted(t, s, i + d, e + d, 0 - d)
  {
  }

  /** The head ends at `m`, the parameter list at `e`. */
  predicate DefAt(s: string, head: seq<Piece>, i: nat, m: int, e: int) {
    i <= |s| && MatchEnd(s, i, head) == m != -1 && PieceEnd(s, m, Params) == e != -1
  }

  lemma PartsMove(s: string, t: string, head: seq<Piece>, i: nat, m: nat, e: nat, d: int)
    requires Tight(head) && DefAt(s, head, i, m, e) && Shifted(s, t, i, e + 1, d)
    ensures 0 <= i + d && DefAt(t, head, i + d, m + d, e + d)
  {
    ShiftedPart(s, t, i, e + 1, d, i, m);
    PatternMoves(s, t, head, i, d);
    ShiftedPart(s, t, i, e + 1, d, m, e + 1);
    ParamsMove(s, t, m, d);
  }

  /** A definition is where its characters are. */
  lemma DefMoves(s: string, t: string, head: seq<Piece>, i: nat, d: int)
    requires Tight(head) && i <= |s| && DefEnd(s, i, head) != -1
    requires Shifted(s, t, i, DefEnd(s, i, head), d)
    ensures DefEnd(t, i + d, head) == DefEnd(s, i, head) + d
  {
    var m := MatchEnd(s, i, head);
    PartsMove(s, t, head, i, m, PieceEnd(s, m, Params), d);
  }

  // ---------------------------------------------------------------- the first definition

  /** The first definition starts at `i` and its body at `b`. */
  predicate FirstAt(s: string, head: seq<Piece>, i: int, b: int) {
    0 <= i <= |s| && -1 != DefEnd(s, i, head) == b && forall j :: 0 <= j < i ==> DefEnd(s, j, head) == -1
  }

  lemma FirstIsFound(s: string, head: seq<Piece>)
    ensures var i := Search(s, Def(head), 0);
            if i == -1 then forall j :: 0 <= j <= |s| ==> DefEnd(s, j, head) == -1
            else FirstAt(s, head, i, MatchEnd(s, i, Def(head)))
  {
    forall j | 0 <= j <= |s|
      ensures MatchEnd(s, j, Def(head)) == DefEnd(s, j, head)
    {
      DefSplit(s, j, head);
    }
  }

  lemma FirstFound(s: string, head: seq<Piece>, i: nat, b: nat)
    requires FirstAt(s, head, i, b)
    ensures Search(s, Def(head), 0) == i && MatchEnd(s, i, Def(head)) == b
  {
    forall j | 0 <= j <= |s|
      ensures MatchEnd(s, j, Def(head)) == DefEnd(s, j, head)
    {
      DefSplit(s, j, head);
    }
    SearchIs(s, Def(head), 0, i);
  }

  lemma BraceBefore(s: string, head: seq<Piece>, c0: char, c1: char, i: nat, b: nat)
    requires Heading(head, c0, c1) && FirstAt(s, head, i, b)
    ensures i + 1 < b - 1 < |s| && s[b - 1] == '{'
  {
    DefShape(s, i, head, c0, c1);
  }

  /** The text down to the body's brace says where the first definition is. */
  lemma FirstKept(s: string, t: string, head: seq<Piece>, c0: char, c1: char, i: nat, b: nat)
    requires Heading(head, c0, c1) && FirstAt(s, head, i, b) && Shifted(s, t, 0, b, 0)
    ensures FirstAt(t, head, i, b)
  {
    hide DefEnd, Shifted;
    BraceBefore(s, head, c0, c1, i, b);
    ShiftedPart(s, t, 0, b, 0, i, b);
    DefMoves(s, t, head, i, 0);
    ShiftedBack(s, t, 0, b, 0);
    forall j | 0 <= j < i
      ensures DefEnd(t, j, head) == -1
    {
      NoneBefore(s, t, head, c0, c1, i, b, j);
    }
  }

  lemma NoneBefore(s: string, t: string, head: seq<Piece>, c0: char, c1: char, i: nat, b: nat, j: nat)
    requires Heading(head, c0, c1) && i < b - 1 < |s| && s[b - 1] == '{' && Shifted(t, s, 0, b, 0)
    requires j < i && DefEnd(s, j, head) == -1
    ensures j <= |t| && DefEnd(t, j, head) == -1
  {
    hide DefEnd;
    if DefEnd(t, j, head) != -1 {
      DefShape(t, j, head, c0, c1);
      assert t[b - 1] == '{';
      ShiftedPart(t, s, 0, b, 0, j, DefEnd(t, j, head));
      DefMoves(t, s, head, j, 0);
    }
  }

  // ---------------------------------------------------------------- inserting text

  /** `u` is `s` with `n` characters put in at `k`. */
  predicate Around(s: string, u: string, k: nat, n: nat) {
    k <= |s| && |u| == |s| + n && Shifted(u, s, 0, k, 0) && Shifted(u, s, k + n, |u|, 0 - n)
  }

  /** Something shaped like a definition: its first two characters, no `;`, a brace at its end. */
  predicate DefLike(u: string, j: int, e: int, c0: char, c1: char) {
    0 <= j && j + 1 < e - 1 < |u| && u[e - 1] == '{' && u[j] == c0 && u[j + 1] == c1
    && forall m :: j <= m < e - 1 ==> u[m] != ';'
  }

  /** No such thing runs over what was put in. */
  ghost predicate Barred(u: string, k: nat, n: nat, c0: char, c1: char) {
    forall j: nat, e: nat :: DefLike(u, j, e, c0, c1) ==> e <= k || j >= k + n
  }

  lemma NotOver(u: string, k: nat, n: nat, head: seq<Piece>, c0: char, c1: char, j: nat)
    requires Heading(head, c0, c1) && Barred(u, k, n, c0, c1) && j <= |u| && DefEnd(u, j, head) != -1
    ensures j < DefEnd(u, j, head) <= k || j >= k + n
  {
    hide DefEnd;
    DefShape(u, j, head, c0, c1);
    assert DefLike(u, j, DefEnd(u, j, head), c0, c1);
  }

  lemma DefAbove(s: string, u: string, k: nat, head: seq<Piece>, j: nat)
    requires Tight(head) && Shifted(u, s, 0, k, 0) && j <= |u| && j <= DefEnd(u, j, head) <= k
    ensures DefEnd(s, j, head) == DefEnd(u, j, head)
  {
    hide DefEnd;
    ShiftedPart(u, s, 0, k, 0, j, DefEnd(u, j, head));
    DefMoves(u, s, head, j, 0);
  }

  lemma DefBelow(s: string, u: string, k: nat, n: nat, head: seq<Piece>, j: nat)
    requires Tight(head) && n <= k && Shifted(u, s, k, |u|, 0 - n) && k <= j <= |u| && DefEnd(u, j, head) != -1
    ensures DefEnd(s, j - n, head) == DefEnd(u, j, head) - n
  {
    hide DefEnd;
    ShiftedPart(u, s, k, |u|, 0 - n, j, DefEnd(u, j, head));
    DefMoves(u, s, head, j, 0 - n);
  }

  /** Then every definition is one that was there before, moved or left alone. */
  lemma DefThere(s: string, u: string, k: nat, n: nat, head: seq<Piece>, c0: char, c1: char, j: nat)
    requires Heading(head, c0, c1) && Around(s, u, k, n) && Barred(u, k, n, c0, c1)
    requires j <= |u| && DefEnd(u, j, head) != -1
    ensures var e := DefEnd(u, j, head);
            || (j < e <= k && DefEnd(s, j, head) == e)
            || (j >= k + n && DefEnd(s, j - n, head) == e - n)
  {
    hide DefEnd;
    NotOver(u, k, n, head, c0, c1, j);
    if DefEnd(u, j, head) <= k && j < k {
      DefAbove(s, u, k, head, j);
    } else {
      DefBelow(s, u, k + n, n, head, j);
    }
  }

  /** The first definition, when it stands behind what was put in, moves along. */
  lemma FirstShifts(s: string, u: string, k: nat, n: nat, head: seq<Piece>, c0: char, c1: char, i: nat, b: nat)
    requires Heading(head, c0, c1) && Around(s, u, k, n) && Barred(u, k, n, c0, c1)
    requires FirstAt(s, head, i, b) && k <= i && Shifted(s, u, i, b, n)
    ensures FirstAt(u, head, i + n, b + n)
  {
    hide DefEnd;
    DefMoves(s, u, head, i, n);
    forall j | 0 <= j < i + n
      ensures DefEnd(u, j, head) == -1
    {
      if DefEnd(u, j, head) != -1 {
        DefThere(s, u, k, n, head, c0, c1, j);
      }
    }
  }
}
