/** What the scripts' regular expressions mean, as the sets of texts they match, and that matching them piece by piece,
    without backtracking, finds just those matches. */
module Regex {
  import opened Text
  import opened Pattern
  import opened SwitchHelper
  import opened SysArch
  import DriverTrace

  /** The text between `i` and `k` is one the piece matches. */
  ghost predicate Matched(s: string, i: nat, k: nat, piece: Piece)
    requires i <= k <= |s|
  {
    match piece
    case Word(w) => s[i..k] == w
    case Gap => forall n :: i <= n < k ==> IsSpace(s[n])
    case Blank => i < k && forall n :: i <= n < k ==> IsSpace(s[n])
    case Skip(stops) => forall n :: i <= n < k ==> s[n] !in stops
    case Params =>
      exists m :: i <= m < k && s[m] == ')' && (forall n :: i <= n < m ==> s[n] !in ";{}")
                  && forall n :: m < n < k ==> IsSpace(s[n])
  }

  /** So is the text between `i` and `j`, cut somehow, for the pieces in turn. */
  ghost predicate InLanguage(s: string, i: nat, j: nat, pat: seq<Piece>)
    requires i <= j <= |s|
    decreases |pat|
  {
    if pat == [] then i == j
    else exists k :: i <= k <= j && Matched(s, i, k, pat[0]) && InLanguage(s, k, j, pat[1..])
  }

  /** What may stop piece `n`: the word behind white space begins with something else, the one behind `[^...]*` with a
      stop, the one behind a parameter list with a brace. */
  predicate Stopped(pat: seq<Piece>, n: nat)
    requires n < |pat|
  {
    match pat[n]
    case Word(_) => true
    case Gap => n + 1 < |pat| && pat[n + 1].Word? && |pat[n + 1].text| > 0 && !IsSpace(pat[n + 1].text[0])
    case Blank => n + 1 < |pat| && pat[n + 1].Word? && |pat[n + 1].text| > 0 && !IsSpace(pat[n + 1].text[0])
    case Skip(stops) => n + 1 < |pat| && pat[n + 1].Word? && |pat[n + 1].text| > 0 && pat[n + 1].text[0] in stops
    case Params => n + 1 < |pat| && pat[n + 1].Word? && |pat[n + 1].text| > 0 && pat[n + 1].text[0] == '{'
  }

  predicate Determined(pat: seq<Piece>) {
    forall n :: 0 <= n < |pat| ==> Stopped(pat, n)
  }

  lemma DeterminedRest(pat: seq<Piece>)
    requires Determined(pat) && pat != []
    ensures Determined(pat[1..])
  {
    forall n | 0 <= n < |pat| - 1
      ensures Stopped(pat[1..], n)
    {
      assert Stopped(pat, n + 1);
    }
  }

  // ---------------------------------------------------------------- one piece

  lemma SpacesStop(s: string, i: nat, k: nat)
    requires i <= k < |s| && !IsSpace(s[k]) && forall n :: i <= n < k ==> IsSpace(s[n])
    ensures SkipSpaces(s, i) == k
  {
    assert SkipSpaces(s, i) >= k;
  }

  lemma StopsStop(s: string, i: nat, k: nat, stops: string)
    requires i <= k < |s| && s[k] in stops && forall n :: i <= n < k ==> s[n] !in stops
    ensures SkipTo(s, i, stops) == k
  {
    assert SkipTo(s, i, stops) >= k;
  }

  lemma ParamsStop(s: string, i: nat, k: nat, m: nat)
    requires i <= m < k < |s| && s[m] == ')' && s[k] == '{'
    requires (forall n :: i <= n < m ==> s[n] !in ";{}") && forall n :: m < n < k ==> IsSpace(s[n])
    ensures PieceEnd(s, i, Params) == k
  {
    StopsStop(s, i, k, ";{}");
    assert SpacesBefore(s, i, k) == m + 1;
  }

  lemma ParamsHold(s: string, i: nat)
    requires i <= |s| && PieceEnd(s, i, Params) != -1
    ensures Matched(s, i, PieceEnd(s, i, Params), Params)
  {
    var e := SkipTo(s, i, ";{}");
    var t := SpacesBefore(s, i, e);
    assert s[t - 1] == ')';
  }

  /** Where a piece ends is the only place it can end, if what stops it stands there. */
  lemma OneEnd(s: string, i: nat, k: nat, pat: seq<Piece>)
    requires i <= k <= |s| && pat != [] && Stopped(pat, 0) && Matched(s, i, k, pat[0])
    requires |pat| > 1 && pat[1].Word? ==> MatchesAt(s, pat[1].text, k)
    ensures PieceEnd(s, i, pat[0]) == k
  {
    if !pat[0].Word? {
      WordHead(s, pat[1].text, k);
    }
    match pat[0]
    case Word(w) => assert s[i..i + |w|] == w;
    case Gap => SpacesStop(s, i, k);
    case Blank => SpacesStop(s, i, k);
    case Skip(stops) => StopsStop(s, i, k, stops);
    case Params =>
      var m :| i <= m < k && s[m] == ')' && (forall n :: i <= n < m ==> s[n] !in ";{}")
               && forall n :: m < n < k ==> IsSpace(s[n]);
      ParamsStop(s, i, k, m);
  }

  lemma WordHead(s: string, w: string, k: nat)
    requires MatchesAt(s, w, k) && |w| > 0
    ensures k < |s| && s[k] == w[0]
  {
    assert s[k..k + |w|][0] == w[0];
  }

  lemma EndMatches(s: string, i: nat, piece: Piece)
    requires i <= |s| && PieceEnd(s, i, piece) != -1
    ensures Matched(s, i, PieceEnd(s, i, piece), piece)
  {
    if piece.Params? {
      ParamsHold(s, i);
    }
  }

  lemma WordReads(s: string, k: nat, j: nat, pat: seq<Piece>)
    requires k <= j <= |s| && pat != [] && pat[0].Word? && InLanguage(s, k, j, pat)
    ensures MatchesAt(s, pat[0].text, k)
  {
    var e :| k <= e <= j && Matched(s, k, e, pat[0]) && InLanguage(s, e, j, pat[1..]);
    assert e == k + |pat[0].text|;
  }

  // ---------------------------------------------------------------- a whole pattern

  /** Of such an expression at most one text that starts at `i` is a match, and `MatchEnd` finds its end. */
  lemma {:induction false} MatchEndIsExact(s: string, i: nat, j: nat, pat: seq<Piece>)
    requires Determined(pat) && i <= j <= |s|
    ensures InLanguage(s, i, j, pat) <==> MatchEnd(s, i, pat) == j
    decreases |pat|
  {
    if pat != [] {
      assert Stopped(pat, 0);
      DeterminedRest(pat);
      var rest, e := pat[1..], PieceEnd(s, i, pat[0]);
      if InLanguage(s, i, j, pat) {
        var k :| i <= k <= j && Matched(s, i, k, pat[0]) && InLanguage(s, k, j, rest);
        if |pat| > 1 && pat[1].Word? {
          WordReads(s, k, j, rest);
        }
        OneEnd(s, i, k, pat);
        MatchEndIsExact(s, k, j, rest);
      }
      if MatchEnd(s, i, pat) == j {
        EndMatches(s, i, pat[0]);
        assert e <= j by {
          assert MatchEnd(s, e, rest) == j;
        }
        MatchEndIsExact(s, e, j, rest);
      }
    }
  }

  /** `Search` gives the leftmost match, or -1 if no text anywhere from there on is one. */
  lemma SearchIsExact(s: string, pat: seq<Piece>, from: nat)
    requires Determined(pat)
    ensures var r := Search(s, pat, from);
            && (r != -1 ==> from <= r <= |s| && exists j :: r <= j <= |s| && InLanguage(s, r, j, pat))
            && forall i, j :: from <= i <= j <= |s| && (r == -1 || i < r) ==> !InLanguage(s, i, j, pat)
  {
    var r := Search(s, pat, from);
    if r != -1 {
      MatchEndIsExact(s, r, MatchEnd(s, r, pat), pat);
    }
    forall i, j | from <= i <= j <= |s| && (r == -1 || i < r)
      ensures !InLanguage(s, i, j, pat)
    {
      MatchEndIsExact(s, i, j, pat);
    }
  }

  // ---------------------------------------------------------------- the expressions of the scripts

  lemma TightIsDetermined(pat: seq<Piece>)
    requires Tight(pat)
    ensures Determined(pat)
  {
    forall n | 0 <= n < |pat|
      ensures Stopped(pat, n)
    {
      assert Fits(pat, n);
      if n + 1 < |pat| {
        assert Fits(pat, n + 1);
      }
    }
  }

  lemma OpeningIsDetermined()
    ensures Determined(SWITCH.Opening())
  {
    hide SWITCH, Tight, Determined;
    OpeningIsTight(SWITCH.Opening());
    TightIsDetermined(SWITCH.Opening());
  }

  lemma DefinitionIsDetermined()
    ensures Determined(NEW_DEF) && Determined(CREATE)
  {
  }

  lemma WrapperIsDetermined()
    ensures Determined(WRAPPER)
  {
  }

  lemma LoopIsDetermined()
    ensures Determined(DriverTrace.LOOP_DEF)
  {
  }

  /** Of the signature of the helper, the definition, the call, the wrapper and the loop, `Search` gives the leftmost
      match and `MatchEnd` its end, which is the only one a match there can have. */
  lemma ScriptPatternsAreExact(s: string, pat: seq<Piece>, from: nat, i: nat, j: nat)
    requires pat == SWITCH.Opening() || pat == NEW_DEF || pat == CREATE || pat == WRAPPER || pat == DriverTrace.LOOP_DEF
    requires from <= i <= j <= |s|
    ensures InLanguage(s, i, j, pat) <==> MatchEnd(s, i, pat) == j
    ensures InLanguage(s, i, j, pat) ==> from <= Search(s, pat, from) <= i
  {
    hide Determined, InLanguage, MatchEnd, SWITCH, NEW_DEF, CREATE, WRAPPER, DriverTrace.LOOP_DEF;
    OpeningIsDetermined();
    DefinitionIsDetermined();
    WrapperIsDetermined();
    LoopIsDetermined();
    MatchEndIsExact(s, i, j, pat);
    SearchIsExact(s, pat, from);
  }
}
