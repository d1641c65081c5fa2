/** The rewrite of `introduce_thread()` in scripts/patch-lwip-switch-thread.py: cut the old helper out by its
    braces, splice the new one in, then add two trace prints unless the first is already in the file.
    The script is meant to be run again on its own output. */
module LwipHelper {
  import opened Text
  import opened Scan
  import opened Pattern

  /** The fixed texts. The old helper is found by `stem` and a brace. The new one is
      `head + marker + front + target + back`; `marker` ends in its opening brace.
      `enter` goes in behind `marker`, `slotOk` behind `target`; `token` says that `enter` is there. */
  datatype Parts = Parts(stem: seq<Piece>, head: string, marker: string, front: string, target: string, back: string,
                         enter: string, slotOk: string, token: string) {
    function Opening(): seq<Piece> { stem + [Word("{")] }

    function Signature(): string { head + marker }

    /** The helper up to the target, with `e` behind the marker. */
    function Lead(e: string): string { head + marker + e + front }

    /** The helper with `e` behind the marker and `o` behind the target. */
    function Helper(e: string, o: string): string { Lead(e) + target + (o + back) }

    /** A file with the helper in it. */
    function File(pre: string, e: string, o: string, post: string): string { pre + (Helper(e, o) + post) }
  }

  datatype HelperError =
    | HelperMissing | HelperUnbalanced | MarkerMissing
    | NotThisFile | NewMissing | CreateMissing | CreateUnbalanced | CreateOpen
    | BlockMissing | CallMissing | CallOpen | WrapperMissing

  /** Lines 30-46: the text above the function that `pat` opens, and the text behind its closing brace. */
  function CutOut(s: string, pat: seq<Piece>): Result<(string, string), HelperError> {
    var start := Search(s, pat, 0);
    if start == -1 then Err(HelperMissing)
    else
      var brace := Find(s, "{", start);
      var last := if brace == -1 then -1 else CloseIndex(s, '{', '}', brace);
      if last == -1 then Err(HelperUnbalanced) else Ok((s[..start], s[last + 1..]))
  }

  /** Lines 30-72: that function cut out, `text` put in. */
  function Swapped(s: string, pat: seq<Piece>, text: string): Result<string, HelperError> {
    var c :- CutOut(s, pat);
    Ok(c.0 + text + c.1)
  }

  function HelperReplaced(s: string, p: Parts): Result<string, HelperError> {
    Swapped(s, p.Opening(), p.Helper("", ""))
  }

  /** Lines 172-178: the trace prints added. */
  function Marked(s: string, p: Parts): Result<string, HelperError> {
    if Contains(s, p.token) then Ok(s)
    else if !Contains(s, p.marker) then Err(MarkerMissing)
    else
      Ok(ReplaceFirst(ReplaceFirst(s, p.marker, p.marker + p.enter), p.target, p.target + p.slotOk))
  }

  function Rewritten(s: string, p: Parts): Result<string, HelperError> {
    var s1 :- HelperReplaced(s, p);
    Marked(s1, p)
  }

  method ReplaceHelper(s: string, p: Parts) returns (r: Result<string, HelperError>)
    ensures r == HelperReplaced(s, p)
  {
    var start := Search(s, p.Opening(), 0);
    if start == -1 {
      return Err(HelperMissing);
    }
    var brace := Find(s, "{", start);
    var last := -1;
    if brace != -1 {
      last := ScanBalanced(s, '{', '}', brace);
    }
    if last == -1 {
      return Err(HelperUnbalanced);
    }
    r := Ok(s[..start] + p.Helper("", "") + s[last + 1..]);
  }

  method MarkHelper(text: string, p: Parts) returns (r: Result<string, HelperError>)
    ensures r == Marked(text, p)
  {
    var s := text;
    if !Contains(s, p.token) {
      if !Contains(s, p.marker) {
        return Err(MarkerMissing);
      }
      s := ReplaceFirst(s, p.marker, p.marker + p.enter);
      s := ReplaceFirst(s, p.target, p.target + p.slotOk);
    }
    r := Ok(s);
  }

  // ---------------------------------------------------------------- inserting text

  /** Text that can be inserted anywhere without starting, ending or being a match of `w`: it holds
      characters foreign to `w` at `a` and `b`, no end of `w` before `a` and no start of `w` after `b`. */
  predicate Neutral(x: string, w: string, a: nat, b: nat) {
    && a <= b < |x| && |w| > 0
    && x[a] !in w && x[b] !in w
    && w[|w| - 1] !in x[..a] && w[0] !in x[b + 1..]
    && !Contains(x, w)
  }

  lemma Foreign(s: string, w: string, i: nat, k: nat)
    requires i <= k < i + |w| && k < |s| && s[k] !in w
    ensures !MatchesAt(s, w, i)
  {
    Mismatch(s, w, i, k - i);
  }

  /** A match in `pre + x + post` is a match in `pre + post` that the insertion moved or left alone. */
  lemma NoNewMatch(pre: string, x: string, post: string, w: string, a: nat, b: nat, i: nat)
    requires Neutral(x, w, a, b)
    requires i + |w| <= |pre| ==> !MatchesAt(pre + post, w, i)
    requires i >= |pre| + |x| ==> !MatchesAt(pre + post, w, i - |x|)
    ensures !MatchesAt(pre + x + post, w, i)
  {
    var s, u := pre + x + post, pre + post;
    if i + |w| > |s| {
    } else if i + |w| <= |pre| {
      assert s[i..i + |w|] == pre[i..i + |w|] == u[i..i + |w|];
      MatchMoves(s, u, w, i, i);
    } else if i >= |pre| + |x| {
      MatchMoves(s, u, w, i, i - |x|);
    } else if i <= |pre| + a < i + |w| {
      assert s[|pre| + a] == x[a];
      Foreign(s, w, i, |pre| + a);
    } else if i <= |pre| + b < i + |w| {
      assert s[|pre| + b] == x[b];
      Foreign(s, w, i, |pre| + b);
    } else if i > |pre| + b {
      assert s[i] == x[b + 1..][i - |pre| - b - 1];
      Mismatch(s, w, i, 0);
    } else if i + |w| <= |pre| + a {
      var e := i + |w| - 1;
      assert s[e] == x[..a][e - |pre|];
      Mismatch(s, w, i, |w| - 1);
    } else {
      MatchMoves(s, x, w, i, i - |pre|);
    }
  }

  /** A first match behind the insertion moves along. */
  lemma FirstMovesAlong(pre: string, x: string, post: string, w: string, a: nat, b: nat)
    requires Neutral(x, w, a, b)
    requires Find(pre + post, w, 0) >= |pre|
    ensures Find(pre + x + post, w, 0) == Find(pre + post, w, 0) + |x|
  {
    var f := Find(pre + post, w, 0);
    forall i | 0 <= i < f + |x|
      ensures !MatchesAt(pre + x + post, w, i)
    {
      NoNewMatch(pre, x, post, w, a, b, i);
    }
    MatchMoves(pre + x + post, pre + post, w, f + |x|, f);
    FindIs(pre + x + post, w, 0, f + |x|);
  }

  /** A first match before the insertion stays. */
  lemma FirstStays(pre: string, x: string, post: string, w: string)
    requires 0 <= Find(pre + post, w, 0) && Find(pre + post, w, 0) + |w| <= |pre|
    ensures Find(pre + x + post, w, 0) == Find(pre + post, w, 0)
  {
    var f := Find(pre + post, w, 0);
    forall i | 0 <= i <= f
      ensures MatchesAt(pre + x + post, w, i) <==> MatchesAt(pre + post, w, i)
    {
      MatchMoves(pre + x + post, pre + post, w, i, i);
    }
    FindIs(pre + x + post, w, 0, f);
  }

  // ---------------------------------------------------------------- what the fixed texts are like

  /** The helper variants that can stand in a file, each one balanced block from the marker's brace on. */
  predicate Blocks(p: Parts) {
    && IsBlock(AfterBrace(p, "", ""), '{', '}')
    && IsBlock(AfterBrace(p, p.enter, ""), '{', '}')
    && IsBlock(AfterBrace(p, "", p.slotOk), '{', '}')
    && IsBlock(AfterBrace(p, p.enter, p.slotOk), '{', '}')
  }

  function AfterBrace(p: Parts, e: string, o: string): string {
    "{" + e + (p.front + p.target + (o + p.back))
  }

  /** `w` cannot match across the place where `head` begins. */
  predicate StopsBefore(head: string, w: string) {
    && |head| >= 2 && |w| > 0 && w[|w| - 1] != head[0]
    && forall k :: 0 < k < |w| - 1 && w[k] == head[0] ==> w[k + 1] != head[1]
  }

  /** The marker and the target are first met inside the helper where they are meant to be met. */
  predicate Anchored(p: Parts) {
    && StopsBefore(p.head, p.marker) && StopsBefore(p.head, p.target)
    && Find(p.head + p.marker, p.marker, 0) == |p.head|
    && Find(p.Lead("") + p.target, p.target, 0) == |p.Lead("")|
    && Find(p.Lead(p.enter) + p.target, p.target, 0) == |p.Lead(p.enter)|
  }

  /** The pattern finds the helper that is put in, and takes nothing of it but its signature. */
  predicate Recognized(p: Parts) {
    && Tight(p.Opening()) && p.stem != [] && p.stem[0].Word? && WordsAndSpaces(p.stem) && !Uses(p.stem, '{')
    && MatchEnd(p.Signature(), 0, p.Opening()) == |p.Signature()|
  }

  /** The helper holds no token, and none can straddle its ends. */
  predicate TokenFree(p: Parts) {
    && |p.head| > 0 && p.head[0] !in p.token && |p.back| > 0 && p.back[|p.back| - 1] !in p.token
    && !Contains(p.Helper("", ""), p.token) && |p.token| > 0
  }

  ghost predicate WellMade(p: Parts) {
    && |p.marker| > 0 && p.marker[|p.marker| - 1] == '{'
    && '{' !in p.head && '{' !in p.marker[..|p.marker| - 1]
    && '{' !in p.target && |p.target| > 0
    && Blocks(p) && Anchored(p) && Recognized(p) && TokenFree(p)
    && (exists b :: Inert(p.enter, p.stem, b))
    && (exists b :: Inert(p.slotOk, p.stem, b))
    && (exists a, b :: Neutral(p.enter, p.target, a, b))
    && Contains(p.enter, p.token) && p.target[|p.target| - 1] !in p.token
  }

  /** A file around the helper: the pattern finds nothing above it, not even something that runs into it. */
  ghost predicate Frames(pre: string, p: Parts) {
    Search(pre + p.Signature(), p.Opening(), 0) == |pre|
  }

  // ---------------------------------------------------------------- finding the pieces again

  /** A function whose signature the pattern finds first is swapped. */
  lemma SwapFound(pre: string, lead: string, block: string, post: string, pat: seq<Piece>, text: string)
    requires '{' !in lead && IsBlock(block, '{', '}')
    requires Search(pre + (lead + block + post), pat, 0) == |pre|
    ensures CutOut(pre + (lead + block + post), pat) == Ok((pre, post))
    ensures Swapped(pre + (lead + block + post), pat, text) == Ok(pre + (text + post))
  {
    var s := pre + (lead + block + post);
    SwapBlock(pre, lead, block, post);
    assert s[..|pre|] == pre;
    assert s[|pre + lead| + |block|..] == post;
    assert pre + text + post == pre + (text + post);
  }

  lemma SwapBlock(pre: string, lead: string, block: string, post: string)
    requires '{' !in lead && IsBlock(block, '{', '}')
    ensures var s := pre + (lead + block + post);
            && Find(s, "{", |pre|) == |pre + lead|
            && CloseIndex(s, '{', '}', |pre + lead|) == |pre + lead| + |block| - 1
  {
    var s := pre + (lead + block + post);
    assert s == (pre + lead) + block + post;
    BraceAt(s, |pre|, |pre + lead|, lead);
    BlockFound(pre + lead, block, post, '{', '}');
  }

  /** A helper variant is found whole and replaced by the plain helper. */
  lemma HelperFound(pre: string, e: string, o: string, post: string, p: Parts)
    requires WellMade(p) && Frames(pre, p)
    requires (e == "" || e == p.enter) && (o == "" || o == p.slotOk)
    ensures CutOut(p.File(pre, e, o, post), p.Opening()) == Ok((pre, post))
    ensures HelperReplaced(p.File(pre, e, o, post), p) == Ok(p.File(pre, "", "", post))
  {
    var lead := p.head + p.marker[..|p.marker| - 1];
    HelperShape(p, e, o);
    assert IsBlock(AfterBrace(p, e, o), '{', '}');
    HelperStart(pre, e, o, post, p);
    SwapFound(pre, lead, AfterBrace(p, e, o), post, p.Opening(), p.Helper("", ""));
  }

  lemma HelperShape(p: Parts, e: string, o: string)
    requires |p.marker| > 0 && p.marker[|p.marker| - 1] == '{'
    ensures var lead := p.head + p.marker[..|p.marker| - 1];
            p.Signature() == lead + "{" && p.Helper(e, o) == lead + AfterBrace(p, e, o)
  {
    var m := p.marker[..|p.marker| - 1];
    assert p.marker == m + "{";
    var tail := p.front + p.target + (o + p.back);
    assert p.Helper(e, o) == p.head + (m + "{") + e + tail;
    assert p.head + (m + "{") + e + tail == p.head + m + ("{" + e + tail);
  }

  lemma HelperStart(pre: string, e: string, o: string, post: string, p: Parts)
    requires Recognized(p) && Frames(pre, p)
    ensures Search(p.File(pre, e, o, post), p.Opening(), 0) == |pre|
  {
    var rest := e + p.front + p.target + (o + p.back) + post;
    assert p.File(pre, e, o, post) == pre + p.Signature() + rest;
    FirstOfFrame(pre, rest, p);
  }

  /** The literal signature holds one brace, its last character. */
  lemma SignatureBrace(p: Parts)
    requires Recognized(p)
    ensures var sig := p.Signature(); |sig| > 0 && sig[|sig| - 1] == '{' && '{' !in sig[..|sig| - 1]
  {
    BraceLast(p.Signature(), 0, p.stem);
  }

  lemma FirstOfFrame(pre: string, rest: string, p: Parts)
    requires Recognized(p) && Frames(pre, p)
    ensures Search(pre + p.Signature() + rest, p.Opening(), 0) == |pre|
  {
    var t := pre + p.Signature();
    var s, pat := t + rest, p.Opening();
    SignatureBrace(p);
    assert s[|t| - 1] == '{';
    forall i | 0 <= i < |pre|
      ensures MatchEnd(s, i, pat) == -1
    {
      if MatchEnd(s, i, pat) != -1 {
        BraceLast(s, i, p.stem);
        PatternMoves(s, t, pat, i, 0);
      }
    }
    PatternMoves(t, s, pat, |pre|, 0);
    SearchIs(s, pat, 0, |pre|);
  }

  lemma BraceAt(s: string, from: nat, brace: nat, between: string)
    requires from + |between| == brace < |s| && s[brace] == '{'
    requires s[from..brace] == between && '{' !in between
    ensures Find(s, "{", from) == brace
  {
    OneChar(s, '{', brace);
    forall k | from <= k < brace
      ensures !MatchesAt(s, "{", k)
    {
      assert s[k] == between[k - from];
      OneChar(s, '{', k);
    }
    FindIs(s, "{", from, brace);
  }

  /** No match of `w` straddles the start of the helper. */
  lemma NoStraddle(pre: string, head: string, rest: string, w: string, i: nat)
    requires StopsBefore(head, w) && i < |pre| < i + |w|
    ensures !MatchesAt(pre + head + rest, w, i)
  {
    var s := pre + head + rest;
    var k := |pre| - i;
    assert s[|pre|] == head[0] && s[|pre| + 1] == head[1];
    if w[k] != head[0] {
      Mismatch(s, w, i, k);
    } else {
      Mismatch(s, w, i, k + 1);
    }
  }

  /** The first match of an anchor: in the text above if it is there at all, else at its place in the helper. */
  lemma AnchorPlace(pre: string, lead: string, w: string, rest: string)
    requires StopsBefore(lead, w) && Find(lead + w, w, 0) == |lead|
    ensures var f := Find(pre + (lead + w + rest), w, 0);
            if Contains(pre, w) then f == Find(pre, w, 0) && f + |w| <= |pre| else f == |pre + lead|
  {
    var s := pre + (lead + w + rest);
    forall i | 0 <= i && i + |w| <= |pre|
      ensures MatchesAt(s, w, i) <==> MatchesAt(pre, w, i)
    {
      MatchMoves(s, pre, w, i, i);
    }
    if Contains(pre, w) {
      var f := Find(pre, w, 0);
      assert MatchesAt(s, w, f) && forall i :: 0 <= i < f ==> !MatchesAt(s, w, i);
      FindIs(s, w, 0, f);
    } else {
      forall i | 0 <= i < |pre + lead|
        ensures !MatchesAt(s, w, i)
      {
        if i + |w| <= |pre| {
        } else if i < |pre| {
          assert s == pre + lead + (w + rest);
          NoStraddle(pre, lead, w + rest, w, i);
        } else {
          MatchMoves(s, lead + w, w, i, i - |pre|);
        }
      }
      assert s[|pre + lead|..|pre + lead| + |w|] == w;
      FindIs(s, w, 0, |pre + lead|);
    }
  }

  // ---------------------------------------------------------------- where the prints land

  /** `pre` with `x` put in behind its first match of `w`. */
  function PrintedAbove(pre: string, w: string, x: string): string
    requires Contains(pre, w)
  {
    var k := Find(pre, w, 0) + |w|;
    pre[..k] + x + pre[k..]
  }

  lemma ReplaceAbove(pre: string, rest: string, w: string, x: string)
    requires Contains(pre, w) && Find(pre + rest, w, 0) == Find(pre, w, 0)
    ensures ReplaceFirst(pre + rest, w, w + x) == PrintedAbove(pre, w, x) + rest
  {
    hide Find, MatchesAt;
    PutBehindMatch(pre, rest, Find(pre, w, 0), w, x);
  }

  lemma PutBehindMatch(pre: string, rest: string, f: nat, w: string, x: string)
    requires MatchesAt(pre, w, f)
    ensures f + |w| <= |pre|
    ensures var s := pre + rest; s[..f] + (w + x) + s[f + |w|..] == pre[..f + |w|] + x + pre[f + |w|..] + rest
  {
    var s := pre + rest;
    assert s[..f] + w == pre[..f + |w|];
    assert s[f + |w|..] == pre[f + |w|..] + rest;
    assert s[..f] + (w + x) == s[..f] + w + x;
  }

  lemma ReplaceInside(lead: string, w: string, rest: string, x: string)
    requires Find(lead + (w + rest), w, 0) == |lead|
    ensures ReplaceFirst(lead + (w + rest), w, w + x) == lead + (w + x + rest)
  {
    var s := lead + (w + rest);
    assert s[..|lead|] == lead && s[|lead| + |w|..] == rest;
  }

  lemma ReplacedBelow(pre: string, lead: string, w: string, rest: string, x: string)
    requires Find(pre + (lead + w + rest), w, 0) == |pre + lead|
    ensures ReplaceFirst(pre + (lead + w + rest), w, w + x) == pre + (lead + w + x + rest)
  {
    Regroup(pre, lead, w, rest);
    ReplaceInside(pre + lead, w, rest, x);
    Regroup(pre, lead, w + x, rest);
    assert lead + (w + x) + rest == lead + w + x + rest;
  }

  lemma AnchorReplaced(pre: string, lead: string, w: string, rest: string, x: string)
    requires StopsBefore(lead, w) && Find(lead + w, w, 0) == |lead|
    ensures var s := pre + (lead + w + rest);
            && Contains(s, w)
            && ReplaceFirst(s, w, w + x)
               == if Contains(pre, w) then PrintedAbove(pre, w, x) + (lead + w + rest) else pre + (lead + w + x + rest)
  {
    AnchorPlace(pre, lead, w, rest);
    if Contains(pre, w) {
      ReplaceAbove(pre, lead + w + rest, w, x);
    } else {
      ReplacedBelow(pre, lead, w, rest, x);
    }
  }

  lemma Regroup(pre: string, lead: string, w: string, rest: string)
    ensures pre + (lead + w + rest) == pre + lead + (w + rest)
  {
  }

  lemma MarkerSplit(e: string, post: string, p: Parts)
    ensures p.Helper(e, "") + post == p.head + p.marker + e + (p.front + p.target + ("" + p.back) + post)
    ensures p.Helper("", "") + post == p.head + p.marker + (p.front + p.target + ("" + p.back) + post)
  {
    assert p.Lead("") == p.head + p.marker + p.front;
  }

  lemma TargetSplit(e: string, o: string, post: string, p: Parts)
    ensures p.Helper(e, o) + post == p.Lead(e) + p.target + o + (p.back + post)
    ensures p.Helper(e, "") + post == p.Lead(e) + p.target + (p.back + post)
  {
    assert "" + p.back == p.back;
  }

  /** The first print goes above the helper if the marker is already there, else into the helper. */
  lemma EnterLands(pre: string, post: string, p: Parts)
    requires Anchored(p)
    ensures var s := p.File(pre, "", "", post);
            && Contains(s, p.marker)
            && ReplaceFirst(s, p.marker, p.marker + p.enter)
               == if Contains(pre, p.marker) then p.File(PrintedAbove(pre, p.marker, p.enter), "", "", post)
                  else p.File(pre, p.enter, "", post)
  {
    MarkerSplit(p.enter, post, p);
    AnchorReplaced(pre, p.head, p.marker, p.front + p.target + ("" + p.back) + post, p.enter);
  }

  /** So does the second, on the text the first left. */
  lemma SlotOkLands(pre: string, e: string, post: string, p: Parts)
    requires Anchored(p) && (e == "" || e == p.enter)
    ensures var s := p.File(pre, e, "", post);
            && Contains(s, p.target)
            && ReplaceFirst(s, p.target, p.target + p.slotOk)
               == if Contains(pre, p.target) then p.File(PrintedAbove(pre, p.target, p.slotOk), e, "", post)
                  else p.File(pre, e, p.slotOk, post)
  {
    TargetSplit(e, p.slotOk, post, p);
    LeadStops(e, p);
    AnchorReplaced(pre, p.Lead(e), p.target, p.back + post, p.slotOk);
  }

  lemma LeadStops(e: string, p: Parts)
    requires StopsBefore(p.head, p.target)
    ensures StopsBefore(p.Lead(e), p.target)
  {
    assert p.Lead(e)[0] == p.head[0] && p.Lead(e)[1] == p.head[1];
  }

  /** A match does not run over a character it lacks. */
  lemma NotInside(s: string, w: string, f: nat, k: nat)
    requires MatchesAt(s, w, f) && 0 < k <= |s| && s[k - 1] !in w
    ensures f + |w| <= k - 1 || f >= k
  {
    MatchChars(s, w, f);
  }

  /** Printing above keeps the helper the first thing the pattern finds. */
  lemma AboveFrames(pre: string, w: string, x: string, p: Parts, b: nat)
    requires Contains(pre, w) && Recognized(p) && Inert(x, p.stem, b) && Frames(pre, p)
    ensures Frames(PrintedAbove(pre, w, x), p)
  {
    var k := Find(pre, w, 0) + |w|;
    assert pre == pre[..k] + pre[k..];
    FirstPatternBehind(pre[..k], x, pre[k..], p.Signature(), p.stem, b);
  }

  /** The first print neither makes nor breaks a target above the helper. */
  lemma EnterKeepsTarget(pre: string, p: Parts, a: nat, b: nat)
    requires Contains(pre, p.marker) && Neutral(p.enter, p.target, a, b)
    requires |p.marker| > 0 && p.marker[|p.marker| - 1] == '{' && '{' !in p.target
    ensures Contains(PrintedAbove(pre, p.marker, p.enter), p.target) <==> Contains(pre, p.target)
  {
    var m := Find(pre, p.marker, 0);
    var k := m + |p.marker|;
    MatchChars(pre, p.marker, m);
    assert pre == pre[..k] + pre[k..];
    if Contains(pre, p.target) {
      var f := Find(pre, p.target, 0);
      NotInside(pre, p.target, f, k);
      if f >= k {
        FirstMovesAlong(pre[..k], p.enter, pre[k..], p.target, a, b);
      } else {
        FirstStays(pre[..k], p.enter, pre[k..], p.target);
      }
    } else {
      forall i | 0 <= i
        ensures !MatchesAt(PrintedAbove(pre, p.marker, p.enter), p.target, i)
      {
        NoNewMatch(pre[..k], p.enter, pre[k..], p.target, a, b, i);
      }
      NotFound(PrintedAbove(pre, p.marker, p.enter), p.target, 0);
    }
  }

  /** The second print leaves the first one's token alone. */
  lemma SlotOkKeepsToken(pre: string, p: Parts)
    requires Contains(pre, p.target) && Contains(pre, p.token)
    requires |p.target| > 0 && p.target[|p.target| - 1] !in p.token
    ensures Contains(PrintedAbove(pre, p.target, p.slotOk), p.token)
  {
    var k := Find(pre, p.target, 0) + |p.target|;
    MatchChars(pre, p.target, Find(pre, p.target, 0));
    var i := Find(pre, p.token, 0);
    NotInside(pre, p.token, i, k);
    var r := PrintedAbove(pre, p.target, p.slotOk);
    if i >= k {
      MatchMoves(r, pre, p.token, i + |p.slotOk|, i);
    } else {
      MatchMoves(r, pre, p.token, i, i);
    }
  }

  // ---------------------------------------------------------------- running the script again

  /** Without the token, the text above and the helper after one run, by where marker and target were found. */
  function AboveAfter(pre: string, p: Parts): string {
    var q := if Contains(pre, p.marker) then PrintedAbove(pre, p.marker, p.enter) else pre;
    if Contains(q, p.target) then PrintedAbove(q, p.target, p.slotOk) else q
  }

  function EnterAfter(pre: string, p: Parts): string {
    if Contains(pre, p.marker) then "" else p.enter
  }

  function SlotOkAfter(pre: string, p: Parts): string {
    var q := if Contains(pre, p.marker) then PrintedAbove(pre, p.marker, p.enter) else pre;
    if Contains(q, p.target) then "" else p.slotOk
  }

  lemma MarkedLayout(pre: string, post: string, p: Parts)
    requires Anchored(p) && !Contains(p.File(pre, "", "", post), p.token)
    ensures Marked(p.File(pre, "", "", post), p)
         == Ok(p.File(AboveAfter(pre, p), EnterAfter(pre, p), SlotOkAfter(pre, p), post))
  {
    EnterLands(pre, post, p);
    var q := if Contains(pre, p.marker) then PrintedAbove(pre, p.marker, p.enter) else pre;
    SlotOkLands(q, EnterAfter(pre, p), post, p);
  }

  lemma LayoutLength(pre: string, post: string, p: Parts)
    ensures |p.File(AboveAfter(pre, p), EnterAfter(pre, p), SlotOkAfter(pre, p), post)|
         == |p.File(pre, "", "", post)| + |p.enter| + |p.slotOk|
  {
  }

  lemma MarkedLength(pre: string, post: string, p: Parts)
    requires Anchored(p)
    ensures Marked(p.File(pre, "", "", post), p).Ok?
    ensures var s := p.File(pre, "", "", post);
            |Marked(s, p).value| == |s| + if Contains(s, p.token) then 0 else |p.enter| + |p.slotOk|
  {
    if !Contains(p.File(pre, "", "", post), p.token) {
      MarkedLayout(pre, post, p);
      LayoutLength(pre, post, p);
    }
  }

  lemma LayoutFrames(pre: string, p: Parts)
    requires WellMade(p) && Frames(pre, p)
    ensures Frames(AboveAfter(pre, p), p)
  {
    var b :| Inert(p.enter, p.stem, b);
    var c :| Inert(p.slotOk, p.stem, c);
    var q := pre;
    if Contains(pre, p.marker) {
      AboveFrames(pre, p.marker, p.enter, p, b);
      q := PrintedAbove(pre, p.marker, p.enter);
    }
    if Contains(q, p.target) {
      AboveFrames(q, p.target, p.slotOk, p, c);
    }
  }

  lemma TargetAfterEnter(pre: string, p: Parts)
    requires WellMade(p) && Contains(pre, p.marker)
    ensures Contains(PrintedAbove(pre, p.marker, p.enter), p.target) <==> Contains(pre, p.target)
  {
    var a, b :| Neutral(p.enter, p.target, a, b);
    EnterKeepsTarget(pre, p, a, b);
  }

  lemma TokenInAbove(pre: string, p: Parts)
    requires Contains(pre, p.marker) && Contains(p.enter, p.token)
    ensures Contains(PrintedAbove(pre, p.marker, p.enter), p.token)
  {
    var k := Find(pre, p.marker, 0) + |p.marker|;
    InnerMatch(pre[..k], p.enter, pre[k..], p.token);
  }

  /** When the first print landed above the helper, its token is there. */
  lemma TokenAbove(pre: string, p: Parts)
    requires Contains(pre, p.marker) && Contains(p.enter, p.token)
    requires |p.target| > 0 && p.target[|p.target| - 1] !in p.token
    ensures Contains(AboveAfter(pre, p), p.token)
  {
    TokenInAbove(pre, p);
    var q := PrintedAbove(pre, p.marker, p.enter);
    if Contains(q, p.target) {
      SlotOkKeepsToken(q, p);
    }
  }

  /** One more run, on the text of the run before. */
  lemma RerunOfLayout(pre: string, post: string, p: Parts)
    requires WellMade(p) && Frames(pre, p)
    requires !Contains(p.File(pre, "", "", post), p.token)
    ensures var out := p.File(AboveAfter(pre, p), EnterAfter(pre, p), SlotOkAfter(pre, p), post);
            Rewritten(out, p) == Ok(out) <==> (Contains(pre, p.marker) <==> Contains(pre, p.target))
  {
    var q, e, o := AboveAfter(pre, p), EnterAfter(pre, p), SlotOkAfter(pre, p);
    var out, plain := p.File(q, e, o, post), p.File(q, "", "", post);
    LayoutFrames(pre, p);
    HelperFound(q, e, o, post, p);
    assert Rewritten(out, p) == Marked(plain, p);
    assert |out| == |plain| + |e| + |o|;
    if Contains(pre, p.marker) {
      TargetAfterEnter(pre, p);
      TokenAbove(pre, p);
      InnerMatch("", q, p.Helper("", "") + post, p.token);
      assert "" + q == q;
    } else if Contains(pre, p.target) {
      MarkedLength(q, post, p);
    } else {
      MarkedLayout(pre, post, p);
    }
  }

  /** A token in the file with the new helper is one above it or one behind it. */
  lemma TokenAround(pre: string, helper: string, post: string, token: string)
    requires |token| > 0 && |helper| > 0 && helper[0] !in token && helper[|helper| - 1] !in token
    requires !Contains(helper, token)
    ensures Contains(pre + (helper + post), token) <==> Contains(pre, token) || Contains(post, token)
  {
    var s := pre + (helper + post);
    if Contains(pre, token) {
      InnerMatch("", pre, helper + post, token);
      assert "" + pre == pre;
    }
    if Contains(post, token) {
      InnerMatch(pre + helper, post, "", token);
      assert pre + helper + post + "" == s;
    }
    if Contains(s, token) {
      TokenOutside(pre, helper, post, token, Find(s, token, 0));
    }
  }

  lemma TokenOutside(pre: string, helper: string, post: string, token: string, i: nat)
    requires |token| > 0 && |helper| > 0 && helper[0] !in token && helper[|helper| - 1] !in token
    requires !Contains(helper, token) && MatchesAt(pre + (helper + post), token, i)
    ensures Contains(pre, token) || Contains(post, token)
  {
    var s, h := pre + (helper + post), |pre| + |helper|;
    NotInside(s, token, i, |pre| + 1);
    NotInside(s, token, i, h);
    if i + |token| <= |pre| {
      MatchMoves(s, pre, token, i, i);
    } else if i >= h {
      MatchMoves(s, post, token, i, i - h);
    } else {
      MatchMoves(s, helper, token, i, i - |pre|);
    }
  }

  /** The exact condition on the file under which the script's output is a fixpoint of the script: the token stands
      above the old helper or behind its closing brace, or marker and target both stand above it, or neither does.
      (Otherwise the two prints part: one is put above the helper, where it stays, the other into the helper,
      which the next run replaces. A token inside the old helper does not help: it is cut out.) */
  lemma RerunFixpointIff(s: string, p: Parts)
    requires WellMade(p) && CutOut(s, p.Opening()).Ok?
    ensures Rewritten(s, p).Ok?
    ensures var (pre, post) := CutOut(s, p.Opening()).value;
            var out := Rewritten(s, p).value;
            Rewritten(out, p) == Ok(out)
            <==> Contains(pre, p.token) || Contains(post, p.token)
                 || (Contains(pre, p.marker) <==> Contains(pre, p.target))
  {
    var pre, post := SourceFrame(s, p);
    var s1 := p.File(pre, "", "", post);
    TokenAround(pre, p.Helper("", ""), post, p.token);
    if Contains(s1, p.token) {
      HelperFound(pre, "", "", post, p);
    } else {
      MarkedLayout(pre, post, p);
      RerunOfLayout(pre, post, p);
    }
  }

  lemma SourceFrame(s: string, p: Parts) returns (pre: string, post: string)
    requires Recognized(p) && CutOut(s, p.Opening()).Ok?
    ensures CutOut(s, p.Opening()) == Ok((pre, post)) && Frames(pre, p)
    ensures HelperReplaced(s, p) == Ok(p.File(pre, "", "", post))
  {
    var c := CutOut(s, p.Opening()).value;
    pre, post := c.0, c.1;
    FrameOfSource(s, p);
    assert pre + p.Helper("", "") + post == p.File(pre, "", "", post);
  }

  lemma FrameOfSource(s: string, p: Parts)
    requires Recognized(p) && Search(s, p.Opening(), 0) != -1
    ensures Frames(s[..Search(s, p.Opening(), 0)], p)
  {
    var pat, start := p.Opening(), Search(s, p.Opening(), 0);
    forall i | 0 <= i < start
      ensures MatchEnd(s[..start] + p.Signature(), i, pat) == -1
    {
      NothingAbove(s[..start], s, i, p);
    }
    SignatureBehind(s[..start], p);
    SearchIs(s[..start] + p.Signature(), pat, 0, start);
  }

  lemma SignatureBehind(pre: string, p: Parts)
    requires Recognized(p)
    ensures MatchEnd(pre + p.Signature(), |pre|, p.Opening()) == |pre + p.Signature()|
  {
    PatternMoves(p.Signature(), pre + p.Signature(), p.Opening(), 0, |pre|);
  }

  lemma NothingAbove(above: string, s: string, i: nat, p: Parts)
    requires Recognized(p) && i < |above| && above <= s && MatchEnd(s, i, p.Opening()) == -1
    ensures MatchEnd(above + p.Signature(), i, p.Opening()) == -1
  {
    var t := above + p.Signature();
    if MatchEnd(t, i, p.Opening()) != -1 {
      EndsAbove(above, i, p);
      PatternMoves(t, s, p.Opening(), i, 0);
    }
  }

  /** A match that starts above the literal signature ends above it. */
  lemma EndsAbove(pre: string, i: nat, p: Parts)
    requires Recognized(p) && i < |pre| && MatchEnd(pre + p.Signature(), i, p.Opening()) != -1
    ensures MatchEnd(pre + p.Signature(), i, p.Opening()) <= |pre|
  {
    var t := pre + p.Signature();
    var e := MatchEnd(t, i, p.Opening());
    BraceLast(t, i, p.stem);
    SignatureBehind(pre, p);
    if e == |t| {
      SameEndSameStart(t, i, |pre|, p.Opening());
    }
    SignatureBrace(p);
    assert forall k :: |pre| <= k < |t| - 1 ==> t[k] == p.Signature()[..|p.Signature()| - 1][k - |pre|];
  }
}
