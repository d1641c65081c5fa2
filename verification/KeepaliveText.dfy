/** The rewrites of scripts/patch-zt-upstream-keepalive.py: the role-based timer scale in Node.cpp and the
    three constants in Constants.hpp. Both are meant to be run again on their own output. */
module KeepaliveText {
  import opened Text

  datatype RewriteError = NotThisFile | Ambiguous(count: nat) | NeitherValue

  // ---------------------------------------------------------------- constant expressions

  /** The macro bodies involved, with the ping period as the one name in them. */
  datatype Expr = Num(n: nat) | Period | Paren(e: Expr) | Times(a: Expr, b: Expr) | Plus(a: Expr, b: Expr)

  function Show(e: Expr): string {
    match e
    case Num(n) => Decimal(n)
    case Period => "ZT_PEER_PING_PERIOD"
    case Paren(x) => "(" + Show(x) + ")"
    case Times(a, b) => Show(a) + " * " + Show(b)
    case Plus(a, b) => Show(a) + " + " + Show(b)
  }

  /** The macro's value where the ping period is `period` milliseconds. */
  function Eval(e: Expr, period: int): int {
    match e
    case Num(n) => n
    case Period => period
    case Paren(x) => Eval(x, period)
    case Times(a, b) => Eval(a, period) * Eval(b, period)
    case Plus(a, b) => Eval(a, period) + Eval(b, period)
  }

  const OLD_PERIOD := 60000
  const EXPIRATION_OLD := Paren(Plus(Paren(Times(Period, Num(4))), Num(3000)))
  const EXPIRATION_NEW := Paren(Num(243000))
  const TRIAL_OLD := Paren(Times(Period, Num(10)))
  const TRIAL_NEW := Paren(Num(600000))

  const PING := "#define ZT_PEER_PING_PERIOD "
  const EXPIRATION := "#define ZT_PEER_PATH_EXPIRATION "
  const TRIAL := "#define ZT_PEER_EXPIRED_PATH_" + "TRIAL_PERIOD "

  datatype Sub = Sub(before: string, after: string)

  const CONST_SUBS := [
    Sub(PING + "60000", PING + "10000"),
    Sub(EXPIRATION + "((ZT_PEER_PING_PERIOD * 4) + 3000)", EXPIRATION + "(243000)"),
    Sub(TRIAL + "(ZT_PEER_PING_PERIOD * 10)", TRIAL + "(600000)")]

  const PING_DONE := PING + "10000"

  // ---------------------------------------------------------------- the constants loop

  /** One substitution: made if the text is there exactly once, refused if it is there more often. */
  function Applied(s: string, sub: Sub): Result<(string, nat), RewriteError> {
    if !Contains(s, sub.before) then Ok((s, 0))
    else if Count(s, sub.before) != 1 then Err(Ambiguous(Count(s, sub.before)))
    else Ok((ReplaceFirst(s, sub.before, sub.after), 1))
  }

  /** The first `n` substitutions in turn, and how many of them were made. */
  function AppliedAll(s: string, subs: seq<Sub>, n: nat): Result<(string, nat), RewriteError>
    requires n <= |subs|
  {
    if n == 0 then Ok((s, 0))
    else
      var r :- AppliedAll(s, subs, n - 1);
      var x :- Applied(r.0, subs[n - 1]);
      Ok((x.0, r.1 + x.1))
  }

  /** The whole rewrite of one Constants.hpp. */
  function Constants(s: string): Result<(string, nat), RewriteError> {
    if !Contains(s, "ZT_PEER_PING_PERIOD") then Err(NotThisFile)
    else
      var r :- AppliedAll(s, CONST_SUBS, 3);
      if Contains(r.0, PING_DONE) then Ok(r) else Err(NeitherValue)
  }

  method ApplySubs(text: string, subs: seq<Sub>) returns (r: Result<(string, nat), RewriteError>)
    ensures r == AppliedAll(text, subs, |subs|)
  {
    var s, applied := text, 0;
    var i := 0;
    while i < |subs|
      invariant i <= |subs|
      invariant AppliedAll(text, subs, i) == Ok((s, applied))
    {
      var sub := subs[i];
      OneMoreSub(text, subs, i, s, applied);
      if Contains(s, sub.before) {
        var count := Count(s, sub.before);
        if count != 1 {
          FailsAt(text, subs, i, s, applied);
          return Err(Ambiguous(count));
        }
        s := ReplaceFirst(s, sub.before, sub.after);
        applied := applied + 1;
      }
      i := i + 1;
    }
    r := Ok((s, applied));
  }

  method RewriteConstants(text: string) returns (r: Result<(string, nat), RewriteError>)
    ensures r == Constants(text)
  {
    if !Contains(text, "ZT_PEER_PING_PERIOD") {
      return Err(NotThisFile);
    }
    r := ApplySubs(text, CONST_SUBS);
    if r.Ok? && !Contains(r.value.0, PING_DONE) {
      r := Err(NeitherValue);
    }
  }

  lemma {:induction false} StaysFailed(s: string, subs: seq<Sub>, m: nat, n: nat)
    requires m <= n <= |subs| && AppliedAll(s, subs, m).Err?
    ensures AppliedAll(s, subs, n) == AppliedAll(s, subs, m)
  {
    if m < n {
      StaysFailed(s, subs, m, n - 1);
    }
  }

  // ---------------------------------------------------------------- convergence

  lemma OneMoreSub(text: string, subs: seq<Sub>, i: nat, s: string, applied: nat)
    requires i < |subs| && AppliedAll(text, subs, i) == Ok((s, applied))
    ensures var x := Applied(s, subs[i]);
            AppliedAll(text, subs, i + 1) == if x.Ok? then Ok((x.value.0, applied + x.value.1)) else Err(x.error)
  {
  }

  lemma FailsAt(text: string, subs: seq<Sub>, i: nat, s: string, applied: nat)
    requires i < |subs| && AppliedAll(text, subs, i) == Ok((s, applied)) && Applied(s, subs[i]).Err?
    ensures AppliedAll(text, subs, |subs|) == Err(Applied(s, subs[i]).error)
  {
    OneMoreSub(text, subs, i, s, applied);
    StaysFailed(text, subs, i + 1, |subs|);
  }

  /** The texts start with `#` and hold no second one. */
  predicate Define(p: string) {
    HeadUnique(p) && p[0] == '#'
  }

  /** Old text `i` is a rival of new text `j`, and of old text `j` where that comes earlier. */
  predicate Tidy(subs: seq<Sub>, i: nat, j: nat)
    requires i < |subs| && j < |subs|
  {
    && Define(subs[i].before) && Define(subs[j].before) && Define(subs[j].after)
    && Rivals(subs[i].before, subs[j].after)
    && (j < i ==> Rivals(subs[i].before, subs[j].before))
  }

  predicate Orderly(subs: seq<Sub>) {
    forall i: nat, j: nat :: i < |subs| && j < |subs| ==> Tidy(subs, i, j)
  }

  lemma ApplyRemoves(s: string, sub: Sub)
    requires Define(sub.before) && Define(sub.after) && Rivals(sub.before, sub.after)
    requires Applied(s, sub).Ok?
    ensures !Contains(Applied(s, sub).value.0, sub.before)
  {
    if Contains(s, sub.before) {
      OnlyMatchGone(s, sub.before, sub.after);
    }
  }

  lemma ApplyKeepsAbsence(s: string, sub: Sub, w: string)
    requires Define(sub.after) && Define(w) && Rivals(w, sub.after)
    requires Applied(s, sub).Ok? && !Contains(s, w)
    ensures !Contains(Applied(s, sub).value.0, w)
  {
    ReplaceKeepsAbsence(s, sub.before, sub.after, w);
  }

  lemma ApplyKeepsPresence(s: string, sub: Sub, w: string)
    requires Define(sub.before) && Define(w) && Rivals(w, sub.before)
    requires Applied(s, sub).Ok? && Contains(s, w)
    ensures Contains(Applied(s, sub).value.0, w)
  {
    ReplacementStays(s, sub.before, sub.after, w);
  }

  lemma ApplyInserts(s: string, sub: Sub)
    requires Applied(s, sub).Ok? && Contains(s, sub.before)
    ensures Contains(Applied(s, sub).value.0, sub.after)
  {
    var f := Find(s, sub.before, 0);
    var t := ReplaceFirst(s, sub.before, sub.after);
    assert t[f..f + |sub.after|] == sub.after;
    assert MatchesAt(t, sub.after, f);
  }

  lemma LastApplied(s: string, subs: seq<Sub>, n: nat) returns (r: string)
    requires 0 < n <= |subs| && AppliedAll(s, subs, n).Ok?
    ensures AppliedAll(s, subs, n - 1).Ok? && r == AppliedAll(s, subs, n - 1).value.0
    ensures Applied(r, subs[n - 1]).Ok? && AppliedAll(s, subs, n).value.0 == Applied(r, subs[n - 1]).value.0
  {
    r := AppliedAll(s, subs, n - 1).value.0;
  }

  /** After the first `n` substitutions none of their old texts is left, however the text was patched before. */
  lemma {:induction false} OldTextsGone(s: string, subs: seq<Sub>, n: nat, i: nat)
    requires Orderly(subs) && i < n <= |subs| && AppliedAll(s, subs, n).Ok?
    ensures !Contains(AppliedAll(s, subs, n).value.0, subs[i].before)
    decreases n
  {
    var r := LastApplied(s, subs, n);
    assert Tidy(subs, i, n - 1);
    if i == n - 1 {
      ApplyRemoves(r, subs[i]);
    } else {
      OldTextsGone(s, subs, n - 1, i);
      ApplyKeepsAbsence(r, subs[n - 1], subs[i].before);
    }
  }

  lemma {:induction false} NothingToApply(s: string, subs: seq<Sub>, n: nat)
    requires n <= |subs| && forall i :: 0 <= i < n ==> !Contains(s, subs[i].before)
    ensures AppliedAll(s, subs, n) == Ok((s, 0))
  {
    if n > 0 {
      NothingToApply(s, subs, n - 1);
    }
  }

  /** A replacement text, once in, stays in. */
  lemma ReplacementStays(s: string, p: string, q: string, w: string)
    requires HeadUnique(p) && HeadUnique(w) && w[0] == p[0]
    requires Rivals(w, p)
    requires Contains(s, w)
    ensures Contains(ReplaceFirst(s, p, q), w)
  {
    var i := Find(s, p, 0);
    if i != -1 {
      CutAtMatch(s, p);
      Clear(s[..i], p, s[i + |p|..], w, Find(s, w, 0));
      MovesOver(s[..i], p, q, s[i + |p|..], w, Find(s, w, 0));
    }
  }

  lemma MovesOver(pre: string, p: string, q: string, post: string, w: string, j: nat)
    requires MatchesAt(pre + p + post, w, j) && (j + |w| <= |pre| || j >= |pre| + |p|)
    ensures Contains(pre + q + post, w)
  {
    if j + |w| <= |pre| {
      MatchMoves(pre + q + post, pre + p + post, w, j, j);
    } else {
      MatchMoves(pre + q + post, pre + p + post, w, j - |p| + |q|, j);
    }
  }

  lemma Clear(pre: string, p: string, post: string, w: string, j: nat)
    requires HeadUnique(p) && HeadUnique(w) && w[0] == p[0]
    requires Rivals(w, p)
    requires MatchesAt(pre + p + post, w, j)
    ensures j + |w| <= |pre| || j >= |pre| + |p|
  {
    RivalAt(pre, p, post, w);
    if j < |pre| < j + |w| || |pre| < j < |pre| + |p| {
      HeadSeam(pre, p, post, w, j);
      assert false;
    }
  }

  /** Every old text that was there has its replacement in the result. */
  lemma {:induction false} ReplacedTextsIn(s: string, subs: seq<Sub>, n: nat, i: nat)
    requires Orderly(subs) && i < n <= |subs| && AppliedAll(s, subs, n).Ok?
    requires Contains(s, subs[i].before)
    ensures Contains(AppliedAll(s, subs, n).value.0, subs[i].after)
    decreases n
  {
    var r := LastApplied(s, subs, n);
    assert Tidy(subs, n - 1, i);
    Symmetric(subs[n - 1].before, subs[i].after);
    if n - 1 == i {
      StillThere(s, subs, i, i);
      ApplyInserts(r, subs[i]);
    } else {
      ReplacedTextsIn(s, subs, n - 1, i);
      ApplyKeepsPresence(r, subs[n - 1], subs[i].after);
    }
  }

  lemma Symmetric(p: string, q: string)
    requires Rivals(p, q)
    ensures Rivals(q, p)
  {
    var k :| 0 <= k < |p| && k < |q| && p[k] != q[k];
    assert q[k] != p[k];
  }

  /** Earlier substitutions leave a later old text alone. */
  lemma {:induction false} StillThere(s: string, subs: seq<Sub>, n: nat, i: nat)
    requires Orderly(subs) && n <= i < |subs| && AppliedAll(s, subs, n).Ok?
    requires Contains(s, subs[i].before)
    ensures Contains(AppliedAll(s, subs, n).value.0, subs[i].before)
  {
    if n > 0 {
      var r := LastApplied(s, subs, n);
      assert Tidy(subs, i, n - 1);
      StillThere(s, subs, n - 1, i);
      ApplyKeepsPresence(r, subs[n - 1], subs[i].before);
    }
  }

  // ---------------------------------------------------------------- the table of the script

  lemma DifferAt(p: string, q: string, k: nat)
    requires k < |p| && k < |q| && p[k] != q[k]
    ensures Rivals(p, q)
  {
  }

  lemma DefineConcat(a: string, b: string)
    requires Define(a) && forall k :: 0 <= k < |b| ==> b[k] != '#'
    ensures Define(a + b)
  {
  }

  lemma NamesAreDefines()
    ensures |PING| == 28 && Define(PING) && |EXPIRATION| == 32 && Define(EXPIRATION) && |TRIAL| == 42 && Define(TRIAL)
  {
    assert |"#define ZT_PEER_EXPIRED_PATH_"| == 29 && Define("#define ZT_PEER_EXPIRED_PATH_");
    assert |"TRIAL_PERIOD "| == 13;
    DefineConcat("#define ZT_PEER_EXPIRED_PATH_", "TRIAL_PERIOD ");
  }

  lemma TableIsDefines()
    ensures forall i :: 0 <= i < 3 ==> Define(CONST_SUBS[i].before) && Define(CONST_SUBS[i].after)
  {
    NamesAreDefines();
    DefineConcat(PING, "60000");
    DefineConcat(PING, "10000");
    DefineConcat(EXPIRATION, "((ZT_PEER_PING_PERIOD * 4) + 3000)");
    DefineConcat(EXPIRATION, "(243000)");
    DefineConcat(TRIAL, "(ZT_PEER_PING_PERIOD * 10)");
    DefineConcat(TRIAL, "(600000)");
  }

  lemma SamePing()
    ensures forall i :: 1 <= i < 3 ==> Rivals(CONST_SUBS[0].before, CONST_SUBS[i].after)
    ensures forall i :: 1 <= i < 3 ==> Rivals(CONST_SUBS[i].before, CONST_SUBS[0].after)
    ensures forall i :: 1 <= i < 3 ==> Rivals(CONST_SUBS[i].before, CONST_SUBS[0].before)
    ensures Rivals(CONST_SUBS[0].before, CONST_SUBS[0].after)
  {
    var t := CONST_SUBS;
    DifferAt(t[0].before, t[0].after, 28);
    assert PING[17] == 'I' && EXPIRATION[17] == 'A' && TRIAL[16] == 'E' && PING[16] == 'P';
    DifferAt(t[0].before, t[1].after, 17);
    DifferAt(t[0].before, t[2].after, 16);
    DifferAt(t[1].before, t[0].after, 17);
    DifferAt(t[2].before, t[0].after, 16);
    DifferAt(t[1].before, t[0].before, 17);
    DifferAt(t[2].before, t[0].before, 16);
  }

  lemma OwnPairs()
    ensures forall i :: 1 <= i < 3 ==> Rivals(CONST_SUBS[i].before, CONST_SUBS[i].after)
  {
    var t := CONST_SUBS;
    NamesAreDefines();
    DifferAt(t[1].before, t[1].after, 33);
    DifferAt(t[2].before, t[2].after, 43);
  }

  lemma CrossPairs()
    ensures Rivals(CONST_SUBS[1].before, CONST_SUBS[2].after) && Rivals(CONST_SUBS[2].before, CONST_SUBS[1].after)
    ensures Rivals(CONST_SUBS[2].before, CONST_SUBS[1].before)
  {
    var t := CONST_SUBS;
    assert EXPIRATION[16] == 'P' && TRIAL[16] == 'E';
    DifferAt(t[1].before, t[2].after, 16);
    DifferAt(t[2].before, t[1].after, 16);
    DifferAt(t[2].before, t[1].before, 16);
  }

  lemma ThreeAreOrderly(t: seq<Sub>)
    requires |t| == 3 && forall i :: 0 <= i < 3 ==> Define(t[i].before) && Define(t[i].after)
    requires Rivals(t[0].before, t[0].after) && forall i :: 1 <= i < 3 ==> Rivals(t[0].before, t[i].after)
    requires forall i :: 1 <= i < 3 ==> Rivals(t[i].before, t[0].after) && Rivals(t[i].before, t[0].before)
    requires forall i :: 1 <= i < 3 ==> Rivals(t[i].before, t[i].after)
    requires Rivals(t[1].before, t[2].after) && Rivals(t[2].before, t[1].after) && Rivals(t[2].before, t[1].before)
    ensures Orderly(t)
  {
  }

  lemma TableIsOrderly()
    ensures Orderly(CONST_SUBS)
  {
    TableIsDefines();
    SamePing();
    OwnPairs();
    CrossPairs();
    ThreeAreOrderly(CONST_SUBS);
  }

  /** Convergence: whatever was patched before, the text the script leaves is left alone by the next run. */
  lemma ConstantsConverge(s: string)
    requires Constants(s).Ok?
    ensures Constants(Constants(s).value.0) == Ok((Constants(s).value.0, 0))
  {
    TableIsOrderly();
    var t := Constants(s).value.0;
    forall i | 0 <= i < 3
      ensures !Contains(t, CONST_SUBS[i].before)
    {
      OldTextsGone(s, CONST_SUBS, 3, i);
    }
    NothingToApply(t, CONST_SUBS, 3);
    NameInDone(t);
  }

  lemma NameInDone(t: string)
    requires Contains(t, PING_DONE)
    ensures Contains(t, "ZT_PEER_PING_PERIOD")
  {
    var name := "ZT_PEER_PING_PERIOD";
    var i := Find(t, PING_DONE, 0);
    assert PING_DONE == "#define " + name + " 10000";
    MatchChars(t, PING_DONE, i);
    assert t[i + 8..i + 8 + |name|] == PING_DONE[8..8 + |name|] == name;
    assert MatchesAt(t, name, i + 8);
  }

  lemma AppendDigit(n: nat, d: nat)
    requires n > 0 && d < 10
    ensures Decimal(10 * n + d) == Decimal(n) + Decimal(d)
  {
    assert (10 * n + d) / 10 == n && (10 * n + d) % 10 == d;
  }

  lemma AppendZero(n: nat, m: nat)
    requires n > 0 && m == 10 * n
    ensures Decimal(m) == Decimal(n) + "0"
  {
    AppendDigit(n, 0);
  }

  lemma Thousands(n: nat, m: nat)
    requires n > 0 && m == 1000 * n
    ensures Decimal(m) == Decimal(n) + "0" + "0" + "0"
  {
    AppendZero(n, 10 * n);
    AppendZero(10 * n, 100 * n);
    AppendZero(100 * n, m);
  }

  lemma SmallDecimals()
    ensures Decimal(4) == "4" && Decimal(3) == "3" && Decimal(10) == "10" && Decimal(243) == "243"
            && Decimal(600) == "600"
  {
    AppendDigit(1, 0);
    AppendDigit(2, 4);
    AppendDigit(24, 3);
    AppendDigit(6, 0);
    AppendDigit(60, 0);
  }

  lemma ShownParts(a: Expr, b: Expr)
    ensures Show(Paren(Plus(Paren(Times(Period, a)), b)))
         == "(" + ("(" + ("ZT_PEER_PING_PERIOD" + " * " + Show(a)) + ")" + " + " + Show(b)) + ")"
  {
    assert Show(Paren(Times(Period, a))) == "(" + Show(Times(Period, a)) + ")";
  }

  lemma ShownLeaves()
    ensures Show(Num(4)) == "4" && Show(Num(3000)) == "3000" && Show(Num(243000)) == "243000"
  {
    SmallDecimals();
    Thousands(243, 243000);
    Thousands(3, 3000);
  }

  lemma ShownExpirationNew()
    ensures Show(EXPIRATION_NEW) == "(243000)"
  {
    ShownLeaves();
  }

  lemma ShownExpirationOld()
    ensures Show(EXPIRATION_OLD) == "((ZT_PEER_PING_PERIOD * 4) + 3000)"
  {
    ShownLeaves();
    ShownParts(Num(4), Num(3000));
    PutTogether("4", "3000");
  }

  lemma PutTogether(a: string, b: string)
    requires a == "4" && b == "3000"
    ensures "(" + ("(" + ("ZT_PEER_PING_PERIOD" + " * " + a) + ")" + " + " + b) + ")"
         == "((ZT_PEER_PING_PERIOD * 4) + 3000)"
  {
  }

  lemma ShownTrial()
    ensures Show(TRIAL_OLD) == "(ZT_PEER_PING_PERIOD * 10)" && Show(TRIAL_NEW) == "(600000)"
  {
    SmallDecimals();
    Thousands(600, 600000);
    assert Show(Times(Period, Num(10))) == "ZT_PEER_PING_PERIOD" + " * " + "10" == "ZT_PEER_PING_PERIOD * 10";
  }

  lemma PinnedIn(s: string, i: nat)
    requires i < 3 && Constants(s).Ok? && Contains(s, CONST_SUBS[i].before)
    ensures Contains(Constants(s).value.0, CONST_SUBS[i].after)
  {
    TableIsOrderly();
    ReplacedTextsIn(s, CONST_SUBS, 3, i);
  }

  /** The derived constants are pinned: wherever the original definition stood, the result defines the macro
      with the value it had at the old period, and that value no longer depends on the period. */
  lemma ExpirationPinned(s: string, period: int)
    requires Constants(s).Ok? && Contains(s, EXPIRATION + Show(EXPIRATION_OLD))
    ensures Contains(Constants(s).value.0, EXPIRATION + Show(EXPIRATION_NEW))
    ensures Eval(EXPIRATION_NEW, period) == Eval(EXPIRATION_OLD, OLD_PERIOD) == 243000
  {
    ShownExpirationOld();
    ShownExpirationNew();
    PinnedIn(s, 1);
  }

  lemma TrialPeriodPinned(s: string, period: int)
    requires Constants(s).Ok? && Contains(s, TRIAL + Show(TRIAL_OLD))
    ensures Contains(Constants(s).value.0, TRIAL + Show(TRIAL_NEW))
    ensures Eval(TRIAL_NEW, period) == Eval(TRIAL_OLD, OLD_PERIOD) == 600000
  {
    ShownTrial();
    PinnedIn(s, 2);
  }

  // ---------------------------------------------------------------- the timer scale

  const SCALE_STEM := "int roleBasedTimerScale = (role == " + "ZT_PEER_ROLE_LEAF) ? 2 : "
  const SCALE_OLD := SCALE_STEM + "16;"
  const SCALE_NEW := SCALE_STEM + "1;"

  /** The rewrite of one Node.cpp. */
  function ScaleRewritten(s: string): Result<string, RewriteError> {
    if Contains(s, SCALE_NEW) then Ok(s)
    else if !Contains(s, SCALE_OLD) then Err(NotThisFile)
    else if Count(s, SCALE_OLD) != 1 then Err(Ambiguous(Count(s, SCALE_OLD)))
    else Ok(ReplaceFirst(s, SCALE_OLD, SCALE_NEW))
  }

  method RewriteScale(text: string) returns (r: Result<string, RewriteError>)
    ensures r == ScaleRewritten(text)
  {
    if Contains(text, SCALE_NEW) {
      return Ok(text);
    }
    if !Contains(text, SCALE_OLD) {
      return Err(NotThisFile);
    }
    var count := Count(text, SCALE_OLD);
    if count != 1 {
      return Err(Ambiguous(count));
    }
    r := Ok(ReplaceFirst(text, SCALE_OLD, SCALE_NEW));
  }

  /** The result holds the new scale, so the next run leaves it alone. */
  lemma ScaleConverges(s: string)
    requires ScaleRewritten(s).Ok?
    ensures Contains(ScaleRewritten(s).value, SCALE_NEW) && ScaleRewritten(ScaleRewritten(s).value) == ScaleRewritten(s)
  {
    if !Contains(s, SCALE_NEW) {
      var f := Find(s, SCALE_OLD, 0);
      var t := ReplaceFirst(s, SCALE_OLD, SCALE_NEW);
      assert t[f..f + |SCALE_NEW|] == SCALE_NEW;
      assert MatchesAt(t, SCALE_NEW, f);
    }
  }
}
