/** What the loop over the table of scripts/patch-zt-upstream-keepalive.py comes to: one pass over the text that puts
    each new text where its old one starts and leaves every other character alone. */
module KeepalivePass {
  import opened Text
  import opened KeepaliveText
  import opened KeepaliveCadence

  // ---------------------------------------------------------------- one pass

  /** The first of the old texts that `s` starts with, or -1. */
  function Hit(s: string, subs: seq<Sub>): (r: int)
    ensures -1 <= r < |subs|
    ensures r >= 0 ==> subs[r].before <= s && forall i :: 0 <= i < r ==> !(subs[i].before <= s)
    ensures r == -1 ==> forall i :: 0 <= i < |subs| ==> !(subs[i].before <= s)
  {
    if subs == [] then -1
    else
      var n := |subs| - 1;
      var r := Hit(s, subs[..n]);
      if r != -1 then r else if subs[n].before <= s then n else -1
  }

  predicate Nonempty(subs: seq<Sub>) {
    forall i :: 0 <= i < |subs| ==> subs[i].before != ""
  }

  /** Left to right: where an old text starts, its new text; elsewhere the character that stands there. */
  function OnePass(s: string, subs: seq<Sub>): string
    requires Nonempty(subs)
    decreases |s|
  {
    var i := Hit(s, subs);
    if s == "" then ""
    else if i == -1 then [s[0]] + OnePass(s[1..], subs)
    else subs[i].after + OnePass(s[|subs[i].before|..], subs)
  }

  /** How often `w` starts in `s`. */
  function Starts(s: string, w: string): nat
    requires w != ""
    decreases |s|
  {
    if s == "" then 0 else (if w <= s then 1 else 0) + Starts(s[1..], w)
  }

  lemma PrefixIsMatch(s: string, w: string, j: nat)
    requires j <= |s|
    ensures w <= s[j..] <==> MatchesAt(s, w, j)
  {
    if w <= s[j..] {
      assert s[j..j + |w|] == s[j..][..|w|];
    }
    if MatchesAt(s, w, j) {
      assert s[j..][..|w|] == s[j..j + |w|];
    }
  }

  // ---------------------------------------------------------------- text in which nothing starts

  /** `w` starts nowhere in the first `n` characters of `s`. */
  predicate NoStart(s: string, w: string, n: nat)
    requires n <= |s|
  {
    forall k :: 0 <= k < n ==> !(w <= s[k..])
  }

  /** One character at which nothing starts. */
  lemma PassesOne(s: string, sub: Sub)
    requires sub.before != "" && s != "" && !(sub.before <= s)
    ensures OnePass(s, [sub]) == [s[0]] + OnePass(s[1..], [sub]) && Starts(s, sub.before) == Starts(s[1..], sub.before)
  {
    assert Hit(s, [sub]) == -1;
  }

  lemma NoStartBehind(s: string, w: string, n: nat)
    requires 0 < n <= |s| && NoStart(s, w, n)
    ensures !(w <= s) && NoStart(s[1..], w, n - 1)
  {
    assert s[0..] == s;
    forall k | 0 <= k < n - 1
      ensures !(w <= s[1..][k..])
    {
      assert s[1..][k..] == s[k + 1..];
    }
  }

  lemma {:induction false} PassesOver(s: string, sub: Sub, n: nat)
    requires sub.before != "" && n <= |s| && NoStart(s, sub.before, n)
    ensures OnePass(s, [sub]) == s[..n] + OnePass(s[n..], [sub])
    ensures Starts(s, sub.before) == Starts(s[n..], sub.before)
    decreases n
  {
    hide OnePass, Starts, NoStart, Hit;
    if n > 0 {
      NoStartBehind(s, sub.before, n);
      PassesOne(s, sub);
      PassesOver(s[1..], sub, n - 1);
      assert s[1..][n - 1..] == s[n..] && [s[0]] + s[1..][..n - 1] == s[..n];
    } else {
      assert s[0..] == s;
    }
  }

  lemma NothingStarts(s: string, sub: Sub)
    requires sub.before != "" && !Contains(s, sub.before)
    ensures OnePass(s, [sub]) == s && Starts(s, sub.before) == 0
  {
    forall k | 0 <= k < |s|
      ensures !(sub.before <= s[k..])
    {
      PrefixIsMatch(s, sub.before, k);
    }
    PassesOver(s, sub, |s|);
    assert s[..|s|] == s && s[|s|..] == "";
  }

  lemma AtHit(s: string, sub: Sub)
    requires sub.before != "" && sub.before <= s
    ensures OnePass(s, [sub]) == sub.after + OnePass(s[|sub.before|..], [sub])
  {
    assert Hit(s, [sub]) == 0;
  }

  /** Inside a text that never repeats its first character, it does not start again. */
  lemma StartsOver(s: string, w: string)
    requires HeadUnique(w) && w <= s
    ensures Starts(s, w) == 1 + Starts(s[|w|..], w)
  {
    var sub := Sub(w, w);
    forall k | 0 <= k < |w| - 1
      ensures !(w <= s[1..][k..])
    {
      assert s[1..][k..] == s[k + 1..] && s[k + 1] == w[k + 1];
    }
    PassesOver(s[1..], sub, |w| - 1);
    assert s[1..][|w| - 1..] == s[|w|..];
  }

  lemma UpTo(s: string, sub: Sub, i: nat)
    requires sub.before != "" && i <= |s| && NoStart(s, sub.before, i) && sub.before <= s[i..]
    ensures i + |sub.before| <= |s|
    ensures OnePass(s, [sub]) == s[..i] + (sub.after + OnePass(s[i + |sub.before|..], [sub]))
    ensures Starts(s, sub.before) == Starts(s[i..], sub.before)
  {
    hide OnePass, Starts, NoStart;
    PassesOver(s, sub, i);
    AtHit(s[i..], sub);
    assert s[i..][|sub.before|..] == s[i + |sub.before|..];
  }

  lemma QuietUpTo(s: string, w: string, i: nat)
    requires i <= |s| && forall k :: 0 <= k < i ==> !MatchesAt(s, w, k)
    ensures NoStart(s, w, i)
  {
    forall k | 0 <= k < i
      ensures !(w <= s[k..])
    {
      PrefixIsMatch(s, w, k);
    }
  }

  lemma FirstStart(s: string, w: string, i: nat)
    requires w != "" && Find(s, w, 0) == i
    ensures i + |w| <= |s| && NoStart(s, w, i) && w <= s[i..]
  {
    hide Find, NoStart;
    QuietUpTo(s, w, i);
    PrefixIsMatch(s, w, i);
  }

  lemma UpToMatch(s: string, sub: Sub, i: nat)
    requires sub.before != "" && Find(s, sub.before, 0) == i
    ensures i + |sub.before| <= |s| && sub.before <= s[i..]
    ensures OnePass(s, [sub]) == s[..i] + (sub.after + OnePass(s[i + |sub.before|..], [sub]))
    ensures Starts(s, sub.before) == Starts(s[i..], sub.before)
  {
    hide OnePass, Starts, Find, Hit, NoStart;
    FirstStart(s, sub.before, i);
    UpTo(s, sub, i);
  }

  lemma CountOneMore(s: string, w: string, i: nat)
    requires w != "" && Find(s, w, 0) == i
    ensures i + |w| <= |s| && Count(s, w) == 1 + Count(s[i + |w|..], w)
  {
    hide Find;
  }

  lemma {:induction false} CountIsStarts(s: string, w: string)
    requires HeadUnique(w)
    ensures Count(s, w) == Starts(s, w)
    decreases |s|
  {
    if !Contains(s, w) {
      NothingStarts(s, Sub(w, w));
    } else {
      hide Find, Starts, Count;
      var i := Find(s, w, 0);
      UpToMatch(s, Sub(w, w), i);
      StartsOver(s[i..], w);
      assert s[i..][|w|..] == s[i + |w|..];
      CountOneMore(s, w, i);
      CountIsStarts(s[i + |w|..], w);
    }
  }

  lemma OneLeft(s: string, w: string)
    requires HeadUnique(w) && Contains(s, w) && Count(s, w) == 1
    ensures Find(s, w, 0) + |w| <= |s| && !Contains(s[Find(s, w, 0) + |w|..], w)
  {
    hide Find;
  }

  lemma AppliedOnce(s: string, sub: Sub)
    requires HeadUnique(sub.before) && Contains(s, sub.before) && Count(s, sub.before) == 1
    ensures ReplaceFirst(s, sub.before, sub.after) == OnePass(s, [sub])
  {
    hide Find, OnePass, Starts, Hit, Count;
    var i := Find(s, sub.before, 0);
    UpToMatch(s, sub, i);
    OneLeft(s, sub.before);
    var rest := s[i + |sub.before|..];
    NothingStarts(rest, sub);
    assert s[..i] + (sub.after + rest) == s[..i] + sub.after + rest;
  }

  /** One substitution that is made, or not, is a pass with that substitution alone. */
  lemma AppliedIsPass(s: string, sub: Sub)
    requires HeadUnique(sub.before)
    ensures if Count(s, sub.before) > 1 then Applied(s, sub) == Err(Ambiguous(Count(s, sub.before)))
            else Applied(s, sub) == Ok((OnePass(s, [sub]), Count(s, sub.before)))
  {
    hide Find, OnePass, Starts, Hit;
    if !Contains(s, sub.before) {
      NothingStarts(s, sub);
    } else if Count(s, sub.before) == 1 {
      AppliedOnce(s, sub);
    }
  }

  // ---------------------------------------------------------------- one substitution more

  lemma HitMore(s: string, subs: seq<Sub>, sub: Sub)
    ensures var r := Hit(s, subs);
            Hit(s, subs + [sub]) == if r != -1 then r else if sub.before <= s then |subs| else -1
  {
    var more := subs + [sub];
    assert more[..|more| - 1] == subs;
  }

  /** Texts that start with `#` and hold no second one, none of them starting like `w`. */
  predicate Apart(subs: seq<Sub>, w: string) {
    && Define(w)
    && forall i :: 0 <= i < |subs| ==>
         Define(subs[i].before) && Define(subs[i].after) && Rivals(w, subs[i].after) && Rivals(w, subs[i].before)
  }

  lemma HitStarts(s: string, subs: seq<Sub>, w: string)
    requires Nonempty(subs) && Apart(subs, w) && Hit(s, subs) != -1
    ensures s != "" && s[0] == '#' && OnePass(s, subs) != "" && OnePass(s, subs)[0] == '#'
  {
    var sub := subs[Hit(s, subs)];
    assert s[0] == sub.before[0] && OnePass(s, subs)[0] == sub.after[0];
  }

  predicate HashFree(s: string, n: nat)
    requires n <= |s|
  {
    forall k :: 0 <= k < n ==> s[k] != '#'
  }

  lemma CharFirst(s: string, subs: seq<Sub>)
    requires Nonempty(subs) && Hit(s, subs) == -1 && OnePass(s, subs) != ""
    ensures s != "" && OnePass(s, subs) == [s[0]] + OnePass(s[1..], subs)
  {
  }

  lemma TakeMore(c: char, rest: string, out: string, m: nat)
    requires out == [c] + rest && 0 < m <= |out|
    ensures m - 1 <= |rest| && out[..m] == [c] + rest[..m - 1] && (HashFree(out, m) ==> HashFree(rest, m - 1))
  {
    assert forall k :: 0 <= k < m - 1 ==> rest[k] == out[k + 1];
  }

  /** A pass writes no `#`-free text that was not there. */
  lemma {:induction false} SamePrefix(s: string, subs: seq<Sub>, w: string, m: nat)
    requires Nonempty(subs) && Apart(subs, w) && m <= |OnePass(s, subs)| && HashFree(OnePass(s, subs), m)
    ensures m <= |s| && s[..m] == OnePass(s, subs)[..m]
    decreases m
  {
    hide Apart, OnePass, Hit;
    if m > 0 {
      if Hit(s, subs) != -1 {
        HitStarts(s, subs, w);
      } else {
        hide HashFree;
        CharFirst(s, subs);
        TakeMore(s[0], OnePass(s[1..], subs), OnePass(s, subs), m);
        SamePrefix(s[1..], subs, w, m - 1);
        assert s == [s[0]] + s[1..];
        TakeMore(s[0], s[1..], s, m);
      }
    }
  }

  lemma NoHit(s: string, subs: seq<Sub>)
    requires Nonempty(subs) && Hit(s, subs) == -1 && s != ""
    ensures OnePass(s, subs) == [s[0]] + OnePass(s[1..], subs)
  {
  }

  lemma Unshifted(s: string, n: nat, rest: string)
    requires 0 < n <= |s|
    ensures [s[0]] + (s[1..][..n - 1] + rest) == s[..n] + rest && s[1..][n - 1..] == s[n..]
    ensures HashFree(s, n) ==> HashFree(s[1..], n - 1)
  {
    assert [s[0]] + s[1..][..n - 1] == s[..n];
    assert forall k :: 0 <= k < n - 1 ==> s[1..][k] == s[k + 1];
  }

  /** And leaves such text alone. */
  lemma {:induction false} LeftAlone(s: string, subs: seq<Sub>, w: string, n: nat)
    requires Nonempty(subs) && Apart(subs, w) && n <= |s| && HashFree(s, n)
    ensures OnePass(s, subs) == s[..n] + OnePass(s[n..], subs)
    decreases n
  {
    hide Apart, OnePass, Hit;
    if n == 0 {
      assert s[0..] == s;
    } else if Hit(s, subs) != -1 {
      HitStarts(s, subs, w);
    } else {
      hide HashFree;
      Unshifted(s, n, OnePass(s[n..], subs));
      LeftAlone(s[1..], subs, w, n - 1);
      NoHit(s, subs);
    }
  }

  /** A pass breaks no start of a text that is no old one. */
  lemma StartStays(s: string, subs: seq<Sub>, w: string)
    requires Nonempty(subs) && Apart(subs, w) && Hit(s, subs) == -1 && w <= s
    ensures OnePass(s, subs) == w + OnePass(s[|w|..], subs)
  {
    hide HashFree, OnePass, Hit;
    TextIsHashFree(w, s);
    LeftAlone(s[1..], subs, w, |w| - 1);
    Unshifted(s, |w|, OnePass(s[|w|..], subs));
    NoHit(s, subs);
    assert s[..|w|] == w;
  }

  lemma TextIsHashFree(w: string, out: string)
    requires Define(w) && w <= out
    ensures |out| >= |w| > 0 && out[0] == w[0] && HashFree(out[1..], |w| - 1) && out[1..][..|w| - 1] == w[1..]
  {
    assert forall k :: 0 <= k < |w| - 1 ==> out[1..][k] == out[k + 1] == w[k + 1];
  }

  /** And makes none. */
  lemma StartWasThere(s: string, subs: seq<Sub>, w: string)
    requires Nonempty(subs) && Apart(subs, w) && Hit(s, subs) == -1 && w <= OnePass(s, subs)
    ensures w <= s
  {
    hide OnePass, HashFree, Hit;
    var out := OnePass(s, subs);
    TextIsHashFree(w, out);
    CharFirst(s, subs);
    assert out[1..] == OnePass(s[1..], subs);
    SamePrefix(s[1..], subs, w, |w| - 1);
    assert s == [s[0]] + s[1..];
    TakeMore(s[0], s[1..], s, |w|);
    assert [w[0]] + w[1..] == w;
  }

  /** In another such text `w` does not start, whatever follows. */
  lemma OtherIsQuiet(q: string, rest: string, w: string)
    requires Define(w) && Define(q) && Rivals(w, q)
    ensures NoStart(q + rest, w, |q|)
  {
    var k0 :| 0 <= k0 < |w| && k0 < |q| && w[k0] != q[k0];
    assert (q + rest)[k0] == q[k0];
    forall k | 0 <= k < |q|
      ensures !(w <= (q + rest)[k..])
    {
      assert (q + rest)[k..][0] == q[k];
    }
  }

  lemma QuietOver(q: string, rest: string, sub: Sub)
    requires Define(sub.before) && Define(q) && Rivals(sub.before, q)
    ensures OnePass(q + rest, [sub]) == q + OnePass(rest, [sub])
            && Starts(q + rest, sub.before) == Starts(rest, sub.before)
  {
    hide NoStart, OnePass, Starts;
    OtherIsQuiet(q, rest, sub.before);
    PassesOver(q + rest, sub, |q|);
    assert (q + rest)[..|q|] == q && (q + rest)[|q|..] == rest;
  }

  lemma WordOver(rest: string, sub: Sub)
    requires Define(sub.before)
    ensures OnePass(sub.before + rest, [sub]) == sub.after + OnePass(rest, [sub])
    ensures Starts(sub.before + rest, sub.before) == 1 + Starts(rest, sub.before)
  {
    hide OnePass, Starts;
    var s := sub.before + rest;
    assert s[|sub.before|..] == rest;
    AtHit(s, sub);
    StartsOver(s, sub.before);
  }

  lemma CharOver(c: char, rest: string, sub: Sub)
    requires sub.before != "" && !(sub.before <= [c] + rest)
    ensures OnePass([c] + rest, [sub]) == [c] + OnePass(rest, [sub])
    ensures Starts([c] + rest, sub.before) == Starts(rest, sub.before)
  {
    assert ([c] + rest)[1..] == rest;
  }

  lemma HitPass(s: string, subs: seq<Sub>, sub: Sub, i: nat)
    requires Nonempty(subs) && Apart(subs, sub.before) && Hit(s, subs) == i && i < |subs|
    ensures var rest := s[|subs[i].before|..];
            && OnePass(s, subs) == subs[i].after + OnePass(rest, subs)
            && OnePass(OnePass(s, subs), [sub]) == subs[i].after + OnePass(OnePass(rest, subs), [sub])
            && Starts(OnePass(s, subs), sub.before) == Starts(OnePass(rest, subs), sub.before)
            && Starts(s, sub.before) == Starts(rest, sub.before)
  {
    hide Starts;
    var rest := s[|subs[i].before|..];
    assert s == subs[i].before + rest;
    QuietOver(subs[i].before, rest, sub);
    QuietOver(subs[i].after, OnePass(rest, subs), sub);
  }

  lemma MorePass(s: string, subs: seq<Sub>, sub: Sub)
    requires Nonempty(subs) && Nonempty(subs + [sub]) && s != ""
    ensures var i, out := Hit(s, subs), OnePass(s, subs + [sub]);
            if i != -1 then out == subs[i].after + OnePass(s[|subs[i].before|..], subs + [sub])
            else if sub.before <= s then out == sub.after + OnePass(s[|sub.before|..], subs + [sub])
            else out == [s[0]] + OnePass(s[1..], subs + [sub])
  {
    HitMore(s, subs, sub);
  }

  lemma WordPass(s: string, subs: seq<Sub>, sub: Sub)
    requires Nonempty(subs) && Apart(subs, sub.before) && Hit(s, subs) == -1 && sub.before <= s
    ensures var rest := s[|sub.before|..];
            && OnePass(OnePass(s, subs), [sub]) == sub.after + OnePass(OnePass(rest, subs), [sub])
            && Starts(OnePass(s, subs), sub.before) == 1 + Starts(OnePass(rest, subs), sub.before)
            && Starts(s, sub.before) == 1 + Starts(rest, sub.before)
  {
    hide OnePass, Starts, Hit;
    var rest := s[|sub.before|..];
    StartStays(s, subs, sub.before);
    WordOver(OnePass(rest, subs), sub);
    assert s == sub.before + rest;
    WordOver(rest, sub);
  }

  lemma CharPass(s: string, subs: seq<Sub>, sub: Sub)
    requires Nonempty(subs) && Apart(subs, sub.before) && Hit(s, subs) == -1 && s != "" && !(sub.before <= s)
    ensures OnePass(OnePass(s, subs), [sub]) == [s[0]] + OnePass(OnePass(s[1..], subs), [sub])
    ensures Starts(OnePass(s, subs), sub.before) == Starts(OnePass(s[1..], subs), sub.before)
    ensures Starts(s, sub.before) == Starts(s[1..], sub.before)
  {
    hide Starts, Apart, OnePass, Hit;
    if sub.before <= OnePass(s, subs) {
      StartWasThere(s, subs, sub.before);
    }
    NoHit(s, subs);
    assert s == [s[0]] + s[1..];
    CharOver(s[0], OnePass(s[1..], subs), sub);
    CharOver(s[0], s[1..], sub);
  }

  /** A pass with one more substitution is a second pass with that one, which finds what the text held of it. */
  lemma {:induction false} OneMorePass(s: string, subs: seq<Sub>, sub: Sub)
    requires Nonempty(subs) && Apart(subs, sub.before) && Nonempty(subs + [sub])
    ensures OnePass(OnePass(s, subs), [sub]) == OnePass(s, subs + [sub])
    ensures Starts(OnePass(s, subs), sub.before) == Starts(s, sub.before)
    decreases |s|
  {
    if s != "" {
      hide OnePass, Starts, Hit, Apart;
      var i := Hit(s, subs);
      MorePass(s, subs, sub);
      if i != -1 {
        HitPass(s, subs, sub, i);
        AllAreTexts(subs, sub.before);
        OneMorePass(s[|subs[i].before|..], subs, sub);
      } else if sub.before <= s {
        WordPass(s, subs, sub);
        AllAreTexts(subs, sub.before);
        OneMorePass(s[|sub.before|..], subs, sub);
      } else {
        CharPass(s, subs, sub);
        OneMorePass(s[1..], subs, sub);
      }
    }
  }

  lemma AllAreTexts(subs: seq<Sub>, w: string)
    requires Apart(subs, w)
    ensures w != "" && forall i :: 0 <= i < |subs| ==> subs[i].before != ""
  {
  }

  // ---------------------------------------------------------------- the loop

  lemma {:induction false} NoSubs(s: string)
    ensures OnePass(s, []) == s
    decreases |s|
  {
    if s != "" {
      NoSubs(s[1..]);
      assert [s[0]] + s[1..] == s;
    }
  }

  /** How many of the first `n` old texts the text holds. */
  function Held(s: string, subs: seq<Sub>, n: nat): nat
    requires n <= |subs|
  {
    if n == 0 then 0 else Held(s, subs, n - 1) + (if Contains(s, subs[n - 1].before) then 1 else 0)
  }

  /** None of the first `n` old texts stands there twice. */
  predicate NoneTwice(s: string, subs: seq<Sub>, n: nat)
    requires n <= |subs|
  {
    forall i :: 0 <= i < n ==> Count(s, subs[i].before) <= 1
  }

  lemma OrderlyPrefix(subs: seq<Sub>, n: nat)
    requires Orderly(subs) && n < |subs|
    ensures Apart(subs[..n], subs[n].before) && Nonempty(subs[..n]) && Nonempty(subs[..n] + [subs[n]])
    ensures subs[..n] + [subs[n]] == subs[..n + 1] && HeadUnique(subs[n].before)
  {
    forall i: nat | i < n
      ensures Define(subs[i].before) && Define(subs[i].after) && Define(subs[n].before)
      ensures Rivals(subs[n].before, subs[i].after) && Rivals(subs[n].before, subs[i].before)
    {
      assert Tidy(subs, n, i);
    }
    assert Tidy(subs, n, n);
  }

  lemma CountZero(s: string, w: string)
    requires HeadUnique(w)
    ensures Contains(s, w) <==> Count(s, w) > 0
  {
    hide Find;
  }

  /** The first `n` turns of the loop make one pass with the first `n` substitutions, and count those there was
      something to do for; they stop if and only if one of the old texts stands there more than once. */
  lemma {:induction false} LoopIsPass(s: string, subs: seq<Sub>, n: nat)
    requires Orderly(subs) && n <= |subs| && Nonempty(subs[..n])
    ensures if NoneTwice(s, subs, n) then AppliedAll(s, subs, n) == Ok((OnePass(s, subs[..n]), Held(s, subs, n)))
            else AppliedAll(s, subs, n).Err? && AppliedAll(s, subs, n).error.Ambiguous?
    decreases n
  {
    hide Find, OnePass, Orderly, Applied, Count;
    if n == 0 {
      NoSubs(s);
      assert subs[..0] == [];
    } else {
      OrderlyPrefix(subs, n - 1);
      LoopIsPass(s, subs, n - 1);
      if NoneTwice(s, subs, n - 1) {
        TurnIsPass(s, subs[..n - 1], subs[n - 1]);
      }
    }
  }

  lemma TurnIsPass(s: string, subs: seq<Sub>, sub: Sub)
    requires Nonempty(subs) && Apart(subs, sub.before) && Nonempty(subs + [sub])
    ensures if Count(s, sub.before) > 1 then Applied(OnePass(s, subs), sub) == Err(Ambiguous(Count(s, sub.before)))
            else Applied(OnePass(s, subs), sub)
                 == Ok((OnePass(s, subs + [sub]), if Contains(s, sub.before) then 1 else 0))
  {
    hide Find, OnePass, Applied, Count, Starts;
    OneMorePass(s, subs, sub);
    AppliedIsPass(OnePass(s, subs), sub);
    CountIsStarts(s, sub.before);
    CountIsStarts(OnePass(s, subs), sub.before);
    CountZero(s, sub.before);
  }

  // ---------------------------------------------------------------- the constants

  const PERIOD_NAME := "ZT_PEER_PING_PERIOD"

  lemma DoneIsFirst()
    ensures |CONST_SUBS| == 3 && CONST_SUBS[0].after == PING_DONE && CONST_SUBS[..3] == CONST_SUBS
  {
  }

  lemma AfterRivals()
    ensures forall i :: 1 <= i < 3 ==> Rivals(PING_DONE, CONST_SUBS[i].after)
  {
    NamesAreDefines();
    assert PING[17] == 'I' && EXPIRATION[17] == 'A' && TRIAL[16] == 'E' && PING[16] == 'P';
    DifferAt(PING_DONE, CONST_SUBS[1].after, 17);
    DifferAt(PING_DONE, CONST_SUBS[2].after, 16);
  }

  lemma TableIsTexts()
    ensures Orderly(CONST_SUBS) && Nonempty(CONST_SUBS) && CONST_SUBS[..3] == CONST_SUBS
    ensures Define(PING_DONE) && CONST_SUBS[0].after == PING_DONE
    ensures forall i :: 0 <= i < 3 ==> Rivals(PING_DONE, CONST_SUBS[i].before)
    ensures forall i :: 1 <= i < 3 ==> Rivals(PING_DONE, CONST_SUBS[i].after)
  {
    hide CONST_SUBS, PING_DONE, Orderly, Rivals;
    DoneIsFirst();
    TableIsOrderly();
    AfterRivals();
    OrderlyMeans(CONST_SUBS);
  }

  lemma OrderlyMeans(subs: seq<Sub>)
    requires Orderly(subs) && |subs| > 0
    ensures forall i :: 0 <= i < |subs| ==> Define(subs[i].before) && Define(subs[i].after)
    ensures forall i :: 0 <= i < |subs| ==> Rivals(subs[0].after, subs[i].before)
  {
    hide Rivals;
    forall i: nat | i < |subs|
      ensures Define(subs[i].before) && Define(subs[i].after) && Rivals(subs[0].after, subs[i].before)
    {
      assert Tidy(subs, i, 0) && Tidy(subs, i, i);
      Symmetric(subs[i].before, subs[0].after);
    }
  }

  /** Of the three substitutions only the first writes the new period. */
  lemma {:induction false} DoneKept(s: string, subs: seq<Sub>, w: string, n: nat)
    requires n <= |subs| && AppliedAll(s, subs, n).Ok? && Define(w)
    requires forall i :: 0 <= i < n ==> Define(subs[i].before) && Define(subs[i].after) && Rivals(w, subs[i].before)
    requires forall i :: 1 <= i < n ==> Rivals(w, subs[i].after)
    ensures Contains(s, w) ==> Contains(AppliedAll(s, subs, n).value.0, w)
    ensures n > 0 && !Contains(s, w) && !Contains(s, subs[0].before) ==> !Contains(AppliedAll(s, subs, n).value.0, w)
    decreases n
  {
    hide Find, Applied;
    if n > 0 {
      var r := LastApplied(s, subs, n);
      DoneKept(s, subs, w, n - 1);
      if Contains(r, w) {
        ApplyKeepsPresence(r, subs[n - 1], w);
      }
      if n == 1 {
        FirstUnapplied(s, subs[0]);
      } else if !Contains(r, w) {
        ApplyKeepsAbsence(r, subs[n - 1], w);
      }
    }
  }

  lemma FirstUnapplied(s: string, sub: Sub)
    ensures !Contains(s, sub.before) ==> Applied(s, sub) == Ok((s, 0))
  {
  }

  /** The rewrite of Constants.hpp, for every text: it succeeds if and only if the text names the ping period, holds
      none of the old texts twice, and defines the period as the old value or the new one; then it is one pass that puts
      the three new texts where their old ones start, and reports how many of them the text held. */
  lemma ConstantsIff(s: string)
    ensures Constants(s).Ok?
            <==> Contains(s, PERIOD_NAME) && NoneTwice(s, CONST_SUBS, 3)
                 && (Contains(s, CONST_SUBS[0].before) || Contains(s, PING_DONE))
    ensures Nonempty(CONST_SUBS)
    ensures Constants(s).Ok? ==> Constants(s) == Ok((OnePass(s, CONST_SUBS), Held(s, CONST_SUBS, 3)))
    ensures Constants(s) == Err(NotThisFile) <==> !Contains(s, PERIOD_NAME)
    ensures Contains(s, PERIOD_NAME) ==>
              (Constants(s).Err? && Constants(s).error.Ambiguous? <==> !NoneTwice(s, CONST_SUBS, 3))
  {
    hide Find, OnePass, Orderly, Count, AppliedAll, CONST_SUBS, PING_DONE, Held, NoneTwice;
    TableSize();
    TableIsTexts();
    LoopIsPass(s, CONST_SUBS, 3);
    if AppliedAll(s, CONST_SUBS, 3).Ok? {
      DoneFound(s, CONST_SUBS, PING_DONE);
    }
  }

  lemma TableSize()
    ensures |CONST_SUBS| == 3
  {
  }

  lemma DoneFound(s: string, subs: seq<Sub>, w: string)
    requires |subs| == 3 && Orderly(subs) && AppliedAll(s, subs, 3).Ok? && Define(w) && subs[0].after == w
    requires forall i :: 0 <= i < 3 ==> Rivals(w, subs[i].before)
    requires forall i :: 1 <= i < 3 ==> Rivals(w, subs[i].after)
    ensures Contains(AppliedAll(s, subs, 3).value.0, w) <==> Contains(s, subs[0].before) || Contains(s, w)
  {
    hide Find, AppliedAll;
    forall i: nat | i < 3
      ensures Define(subs[i].before) && Define(subs[i].after)
    {
      assert Tidy(subs, i, i);
    }
    DoneKept(s, subs, w, 3);
    if Contains(s, subs[0].before) {
      ReplacedTextsIn(s, subs, 3, 0);
    }
  }

  // ---------------------------------------------------------------- the timer scale

  lemma StemText(a: string, b: string)
    requires a == "int roleBasedTimerScale = (role == " && b == "ZT_PEER_ROLE_LEAF) ? 2 : "
    ensures ';' !in a && ';' !in b
  {
  }

  lemma ScaleText()
    ensures LastUnique(SCALE_OLD)
  {
    StemText("int roleBasedTimerScale = (role == ", "ZT_PEER_ROLE_LEAF) ? 2 : ");
    EndsOnce(SCALE_STEM, "16;");
  }

  lemma EndsOnce(stem: string, end: string)
    requires ';' !in stem && end == "16;"
    ensures LastUnique(stem + end)
  {
    assert |end| == 3;
  }

  /** The rewrite of Node.cpp, for every text: one that has the new line already stays as it is; else it must hold the
      old line once, and that line alone is exchanged. */
  lemma ScaleIff(s: string)
    ensures ScaleRewritten(s).Ok? <==> Contains(s, SCALE_NEW) || Count(s, SCALE_OLD) == 1
    ensures Contains(s, SCALE_NEW) ==> ScaleRewritten(s) == Ok(s)
    ensures ScaleRewritten(s) == Err(NotThisFile) <==> !Contains(s, SCALE_NEW) && !Contains(s, SCALE_OLD)
  {
    hide Find, SCALE_OLD, SCALE_NEW;
    ScaleText();
    if !Contains(s, SCALE_OLD) {
      NoneCounted(s, SCALE_OLD);
    }
  }

  lemma NoneCounted(s: string, p: string)
    requires p != "" && !Contains(s, p)
    ensures Count(s, p) == 0
  {
    hide Find;
  }

  lemma ScaleExact(pre: string, post: string)
    requires Count(pre + SCALE_OLD + post, SCALE_OLD) == 1 && !Contains(pre + SCALE_OLD + post, SCALE_NEW)
    ensures ScaleRewritten(pre + SCALE_OLD + post) == Ok(pre + SCALE_NEW + post)
  {
    hide Find, SCALE_OLD, SCALE_NEW, Count, ReplaceFirst;
    ScaleText();
    CountedOnce(pre, SCALE_OLD, post);
    FirstReplaced(pre, SCALE_OLD, SCALE_NEW, post);
  }

  // ---------------------------------------------------------------- the values written and the cadence

  lemma OneIs(k: nat, stem: string)
    requires stem + Decimal(k) + ";" == stem + "1;"
    ensures k == 1
  {
    var a, b := stem + Decimal(k) + ";", stem + "1;";
    assert Decimal(k) == a[|stem|..|a| - 1] == b[|stem|..|b| - 1] == "1" == Decimal(1);
    DecimalInjective(k, 1);
  }

  lemma PeriodIs(n: nat, m: nat, stem: string, text: string)
    requires stem + Decimal(n) == stem + text && text == Decimal(m)
    ensures n == m
  {
    assert (stem + Decimal(n))[|stem|..] == Decimal(n) && (stem + text)[|stem|..] == text;
    DecimalInjective(n, m);
  }

  lemma PeriodTexts()
    ensures Decimal(10000) == "10000" && Decimal(60000) == "60000"
  {
    SmallDecimals();
    Thousands(10, 10000);
    AppendDigit(6, 0);
    Thousands(60, 60000);
  }

  /** The numbers the two rewrites put into the files are the ones the cadence needs: a scale `k` written as the new
      Node.cpp has it and a period `n` written as the new Constants.hpp has it keep the node online on every network
      whose polling and reply spread stay within 16 s; those the files had before take it offline after every answer. */
  lemma WrittenValuesStayOnline(w: World, t: int, i: nat, k: nat, n: nat)
    requires w.Fair() && w.maxPoll + w.spread <= 16000
    requires SCALE_NEW == SCALE_STEM + Decimal(k) + ";" && PING_DONE == PING + Decimal(n)
    ensures t >= w.Reply(0) ==> Online(w, AtScale(k, n), t)
    ensures SCALE_OLD == SCALE_STEM + Decimal(16) + ";" && CONST_SUBS[0].before == PING + Decimal(OLD_PERIOD)
    ensures Sent(w, AtScale(16, OLD_PERIOD), i) == Hello ==>
              !Online(w, AtScale(16, OLD_PERIOD), w.Reply(i) + ACTIVITY_TIMEOUT)
  {
    hide SCALE_STEM, Online, Sent;
    OneIs(k, SCALE_STEM);
    PeriodTexts();
    PeriodIs(n, 10000, PING, "10000");
    SixteenText(SCALE_STEM);
    BothGatesMustMove(w, t, i);
  }

  lemma SixteenText(stem: string)
    ensures stem + Decimal(16) + ";" == stem + "16;"
  {
    AppendDigit(1, 6);
    assert Decimal(16) == "16";
    assert stem + "16" + ";" == stem + ("16" + ";");
  }

  /** And such numbers are what the files end up with. */
  lemma ValuesAreWritten(node: string, constants: string)
    requires ScaleRewritten(node).Ok? && Constants(constants).Ok?
    ensures Contains(ScaleRewritten(node).value, SCALE_STEM + Decimal(1) + ";")
    ensures Contains(Constants(constants).value.0, PING + Decimal(10000))
  {
    hide Find, SCALE_STEM, AppliedAll, ScaleRewritten;
    ScaleConverges(node);
    PeriodTexts();
    assert Decimal(1) == "1" && SCALE_STEM + "1" + ";" == SCALE_STEM + "1;";
  }
}
