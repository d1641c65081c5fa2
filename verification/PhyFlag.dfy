/** The checksum flag of libzt's PHY constructor: scripts/patch-switch-phy.py turns it off,
    scripts/restore-zt-udp-checksum.py turns it back on. */
module PhyFlag {
  import opened Text

  const ON := "_phy(this, false, true)"
  const OFF := "_phy(this, false, false)"

  datatype FlagError = Ambiguous(count: nat) | NotRecognized

  /** The substitution in patch-switch-phy.py: one constructor or none, else stop. */
  function SwitchedOff(s: string): Result<string, FlagError> {
    if !Contains(s, ON) then Ok(s)
    else if Count(s, ON) != 1 then Err(Ambiguous(Count(s, ON)))
    else Ok(ReplaceFirst(s, ON, OFF))
  }

  method SwitchOff(text: string) returns (r: Result<string, FlagError>)
    ensures r == SwitchedOff(text)
  {
    var s := text;
    if Contains(s, ON) {
      var count := Count(s, ON);
      if count != 1 {
        return Err(Ambiguous(count));
      }
      s := ReplaceFirst(s, ON, OFF);
    }
    r := Ok(s);
  }

  /** restore-zt-udp-checksum.py on one file: the first constructor that is off, else nothing to do. */
  function Restored(s: string): Result<string, FlagError> {
    if Contains(s, OFF) then Ok(ReplaceFirst(s, OFF, ON))
    else if Contains(s, ON) then Ok(s)
    else Err(NotRecognized)
  }

  /** The restore script's walk over the candidate files: the first one it recognizes is rewritten in place. */
  method RestoreTree(files: array<string>) returns (found: bool)
    modifies files
    ensures found <==> exists k :: 0 <= k < files.Length && Restored(old(files[k])).Ok?
    ensures !found ==> files[..] == old(files[..])
    ensures found ==>
              exists k :: 0 <= k < files.Length
                && Restored(old(files[k])) == Ok(files[k])
                && (forall j :: 0 <= j < k ==> Restored(old(files[j])).Err?)
                && (forall j :: 0 <= j < files.Length && j != k ==> files[j] == old(files[j]))
  {
    found := false;
    var i := 0;
    while i < files.Length
      invariant 0 <= i <= files.Length && !found
      invariant files[..] == old(files[..])
      invariant forall j :: 0 <= j < i ==> Restored(old(files[j])).Err?
    {
      var s := files[i];
      assert s == old(files[i]);
      if Contains(s, OFF) {
        files[i] := ReplaceFirst(s, OFF, ON);
        found := true;
        assert Restored(old(files[i])) == Ok(files[i]);
        return;
      }
      if Contains(s, ON) {
        found := true;
        assert Restored(old(files[i])) == Ok(files[i]);
        return;
      }
      i := i + 1;
    }
  }

  lemma FlagTexts()
    ensures HeadUnique(ON) && HeadUnique(OFF) && ON[0] == OFF[0]
    ensures |ON| == 23 && |OFF| == 24 && ON[18] != OFF[18]
  {
    assert |ON| == 23 && |OFF| == 24;
  }

  /** Above the constructor, turning it off neither makes nor breaks a match of `OFF`. */
  lemma OffMatchesAbove(s: string, j: nat)
    requires Contains(s, ON) && j < Find(s, ON, 0)
    ensures MatchesAt(ReplaceFirst(s, ON, OFF), OFF, j) <==> MatchesAt(s, OFF, j)
  {
    FlagTexts();
    var i := Find(s, ON, 0);
    var pre, post := s[..i], s[i + |ON|..];
    assert s == pre + ON + post;
    if j + |OFF| <= i {
      MatchMoves(ReplaceFirst(s, ON, OFF), s, OFF, j, j);
    } else {
      HeadSeam(pre, OFF, post, OFF, j);
      HeadSeam(pre, ON, post, OFF, j);
    }
  }

  /** The round trip for any text `s` with its first `ON` at `i` and the first `OFF` of the patched text at `f`. */
  lemma RoundTripAt(s: string, i: nat, f: nat)
    requires i == Find(s, ON, 0) && f <= i
    requires f == Find(ReplaceFirst(s, ON, OFF), OFF, 0)
    requires f < i ==> MatchesAt(s, OFF, f)
    ensures ReplaceFirst(ReplaceFirst(s, ON, OFF), OFF, ON) == s <==> f == i
  {
    FlagTexts();
    var t := ReplaceFirst(s, ON, OFF);
    if f == i {
      assert t[..i] == s[..i] && t[i + |OFF|..] == s[i + |ON|..];
      CutAtMatch(s, ON);
    } else {
      MatchChars(s, OFF, f);
      var r := ReplaceFirst(t, OFF, ON);
      assert r[f + 18] == ON[18];
      assert s[f + 18] == OFF[18];
    }
  }

  /** The restore script undoes the patch exactly when no constructor above the patched one was off already. */
  lemma RoundTripIff(s: string)
    requires Contains(s, ON) && SwitchedOff(s).Ok?
    ensures Restored(SwitchedOff(s).value) == Ok(s)
            <==> Find(s, OFF, 0) == -1 || Find(s, OFF, 0) > Find(s, ON, 0)
  {
    OffAtConstructor(s);
    FirstOff(s);
    RoundTripAt(s, Find(s, ON, 0), Find(ReplaceFirst(s, ON, OFF), OFF, 0));
  }

  /** The first off constructor of the patched text: one that was off above, else the patched one. */
  lemma FirstOff(s: string)
    requires Contains(s, ON)
    ensures var i, f, was := Find(s, ON, 0), Find(ReplaceFirst(s, ON, OFF), OFF, 0), Find(s, OFF, 0);
            && 0 <= f <= i && (f < i ==> MatchesAt(s, OFF, f))
            && (f == i <==> was == -1 || was > i)
  {
    var i, t := Find(s, ON, 0), ReplaceFirst(s, ON, OFF);
    OffAtConstructor(s);
    BothAtOnePlace(s, i);
    FirstMatches(t, s, i, Find(t, OFF, 0), Find(s, OFF, 0));
  }

  lemma FirstMatches(t: string, s: string, i: nat, f: int, was: int)
    requires f == Find(t, OFF, 0) && was == Find(s, OFF, 0)
    requires i == Find(s, ON, 0) && t == ReplaceFirst(s, ON, OFF)
    requires MatchesAt(t, OFF, i) && !MatchesAt(s, OFF, i)
    ensures 0 <= f <= i && (f < i ==> MatchesAt(s, OFF, f))
    ensures f == i <==> was == -1 || was > i
  {
    if f < i {
      OffMatchesAbove(s, f);
    }
    if 0 <= was < i {
      OffMatchesAbove(s, was);
    }
  }

  lemma OffAtConstructor(s: string)
    requires Contains(s, ON)
    ensures MatchesAt(ReplaceFirst(s, ON, OFF), OFF, Find(s, ON, 0))
  {
    var i := Find(s, ON, 0);
    var t := s[..i] + OFF + s[i + |ON|..];
    assert t[i..i + |OFF|] == OFF;
  }

  lemma BothAtOnePlace(s: string, i: nat)
    requires MatchesAt(s, ON, i)
    ensures !MatchesAt(s, OFF, i)
  {
    FlagTexts();
    MatchChars(s, ON, i);
    Mismatch(s, OFF, i, 18);
  }

  // ---------------------------------------------------------------- a round trip that fails

  lemma OnlyConstructor()
    ensures Find(OFF + ON, ON, 0) == |OFF| && Count(OFF + ON, ON) == 1
  {
    FlagTexts();
    var s := OFF + ON;
    forall j | 0 <= j < |OFF|
      ensures !MatchesAt(s, ON, j)
    {
      assert s[j] == OFF[j];
      if j > 0 {
        Mismatch(s, ON, j, 0);
      } else {
        assert s[18] == OFF[18];
        Mismatch(s, ON, 0, 18);
      }
    }
    assert s[|OFF|..|OFF| + |ON|] == ON;
    FindIs(s, ON, 0, |OFF|);
    assert s[|OFF| + |ON|..] == "";
    assert Count("", ON) == 0;
  }

  /** Of a file with a constructor that was off and, below it, the one to patch, the restore script turns on the
      wrong one. */
  lemma OffAboveBreaksRoundTrip()
    ensures SwitchedOff(OFF + ON) == Ok(OFF + OFF)
    ensures Restored(OFF + OFF) == Ok(ON + OFF) && ON + OFF != OFF + ON
  {
    FlagTexts();
    OnlyConstructor();
    var s, t := OFF + ON, OFF + OFF;
    assert s[..|OFF|] == OFF && s[|OFF| + |ON|..] == "";
    assert ReplaceFirst(s, ON, OFF) == OFF + OFF + "" == t;
    assert t[0..|OFF|] == OFF && MatchesAt(t, OFF, 0);
    FindIs(t, OFF, 0, 0);
    assert ReplaceFirst(t, OFF, ON) == t[..0] + ON + t[|OFF|..] == ON + OFF;
    assert (ON + OFF)[18] == ON[18] && s[18] == OFF[18];
  }

  // ---------------------------------------------------------------- either script on any file

  lemma OnEndsOnce()
    ensures LastUnique(ON)
  {
    assert |ON| == 23;
  }

  /** The patch, for every text: it stops if and only if there is more than one constructor to turn off; without any the
      text stays as it is, and a second run changes nothing. */
  lemma SwitchedOffIff(s: string)
    ensures SwitchedOff(s).Err? <==> Count(s, ON) > 1
    ensures !Contains(s, ON) ==> SwitchedOff(s) == Ok(s)
    ensures SwitchedOff(s).Ok? ==> !Contains(SwitchedOff(s).value, ON)
                                   && SwitchedOff(SwitchedOff(s).value) == SwitchedOff(s)
  {
    hide Find;
    FlagTexts();
    if Contains(s, ON) && Count(s, ON) == 1 {
      DifferThere(ON, OFF, 18);
      OnlyMatchGone(s, ON, OFF);
    }
  }

  lemma DifferThere(p: string, q: string, k: nat)
    requires k < |p| && k < |q| && p[k] != q[k]
    ensures Rivals(p, q)
  {
  }

  /** With one constructor, that is turned off and nothing else touched. */
  lemma SwitchedOffExactly(pre: string, post: string)
    requires Count(pre + ON + post, ON) == 1
    ensures SwitchedOff(pre + ON + post) == Ok(pre + OFF + post)
  {
    hide Find, Count;
    OnEndsOnce();
    CountedOnce(pre, ON, post);
    FirstReplaced(pre, ON, OFF, post);
  }

  /** The restore script on one file: the first constructor that is off is turned on and nothing else touched; a file
      that has them all on stays as it is; one with neither form is not recognized. */
  lemma RestoredExactly(pre: string, post: string)
    requires forall j :: 0 <= j < |pre| ==> !MatchesAt(pre + OFF + post, OFF, j)
    ensures Restored(pre + OFF + post) == Ok(pre + ON + post)
  {
    hide Find;
    FirstReplaced(pre, OFF, ON, post);
  }

  lemma RestoredIff(s: string)
    ensures Restored(s).Err? <==> !Contains(s, OFF) && !Contains(s, ON)
    ensures !Contains(s, OFF) && Contains(s, ON) ==> Restored(s) == Ok(s)
  {
    hide Find;
  }
}
