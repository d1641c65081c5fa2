/** Why the driver rewrites do not get into each other's way: the print blocks that one of them inserts leave the
    statement of the next where it was, or end its search at a `;` that ends its line. */
module DriverInsert {
  import opened Text
  import opened Scan
  import opened Preprocessor
  import opened DriverTrace

  // ---------------------------------------------------------------- inserting whole lines

  /** No text without a newline runs over either end of `z`, nor over the place where `z` goes in. */
  predicate Seam(p: string, z: string, q: string) {
    && z != ""
    && (p == "" || p[|p| - 1] == '\n' || z[0] == '\n')
    && (q == "" || q[0] == '\n' || z[|z| - 1] == '\n')
    && (p == "" || q == "" || p[|p| - 1] == '\n' || q[0] == '\n')
  }

  function Shift(p: string, z: string, i: nat): nat {
    if i < |p| then i else i + |z|
  }

  lemma MatchPlaces(p: string, z: string, q: string, w: string, j: nat)
    requires Seam(p, z, q) && w != "" && '\n' !in w && MatchesAt(p + z + q, w, j)
    ensures j + |w| <= |p| || (|p| <= j && j + |w| <= |p| + |z|) || j >= |p| + |z|
  {
    var s := p + z + q;
    MatchChars(s, w, j);
    assert p != "" ==> s[|p| - 1] == p[|p| - 1];
    assert s[|p|] == z[0] && s[|p| + |z| - 1] == z[|z| - 1];
    assert q != "" ==> s[|p| + |z|] == q[0];
  }

  lemma MatchPlacesBefore(p: string, z: string, q: string, w: string, i: nat)
    requires Seam(p, z, q) && w != "" && '\n' !in w && MatchesAt(p + q, w, i)
    ensures i + |w| <= |p| || i >= |p|
  {
    var s := p + q;
    MatchChars(s, w, i);
    assert p != "" ==> s[|p| - 1] == p[|p| - 1];
    assert q != "" ==> s[|p|] == q[0];
  }

  /** A match stays a match. */
  lemma MatchShifts(p: string, z: string, q: string, w: string, i: nat)
    requires Seam(p, z, q) && w != "" && '\n' !in w && MatchesAt(p + q, w, i)
    ensures MatchesAt(p + z + q, w, Shift(p, z, i))
  {
    MatchPlacesBefore(p, z, q, w, i);
    MatchMoves(p + z + q, p + q, w, Shift(p, z, i), i);
  }

  /** And is an old one unless it lies in the insertion. */
  lemma MatchWasThere(p: string, z: string, q: string, w: string, j: nat) returns (i: nat)
    requires Seam(p, z, q) && w != "" && '\n' !in w && !Contains(z, w) && MatchesAt(p + z + q, w, j)
    ensures MatchesAt(p + q, w, i) && j == Shift(p, z, i)
  {
    MatchPlaces(p, z, q, w, j);
    if |p| <= j && j + |w| <= |p| + |z| {
      MatchMoves(p + z + q, z, w, j, j - |p|);
    }
    i := if j < |p| then j else j - |z|;
    MatchMoves(p + z + q, p + q, w, j, i);
  }

  lemma ContainsStays(p: string, z: string, q: string, w: string)
    requires Seam(p, z, q) && w != "" && '\n' !in w && Contains(p + q, w)
    ensures Contains(p + z + q, w)
  {
    MatchShifts(p, z, q, w, Find(p + q, w, 0));
  }

  /** The first match from some place on moves along. */
  lemma FindShifts(p: string, z: string, q: string, w: string, from: nat, start: nat)
    requires Seam(p, z, q) && w != "" && '\n' !in w && !Contains(z, w)
    requires start == Shift(p, z, from) || start == 0 == from
    ensures var f := Find(p + q, w, from); Find(p + z + q, w, start) == if f == -1 then -1 else Shift(p, z, f)
  {
    var s, f := p + z + q, Find(p + q, w, from);
    forall j | start <= j && (f == -1 || j < Shift(p, z, f))
      ensures !MatchesAt(s, w, j)
    {
      if MatchesAt(s, w, j) {
        var i := MatchWasThere(p, z, q, w, j);
      }
    }
    if f == -1 {
      NotFound(s, w, start);
    } else {
      MatchShifts(p, z, q, w, f);
      FindIs(s, w, start, Shift(p, z, f));
    }
  }

  // ---------------------------------------------------------------- the parentheses of a print block

  /** Two calls `...(...);` in `z`, each at the end of its line, and no other parenthesis or semicolon. */
  predicate Shaped(z: string, o: nat, c: nat, o2: nat, c2: nat) {
    && o < c && c + 1 < o2 && o2 < c2 && c2 + 2 < |z|
    && z[o] == '(' && z[c] == ')' && z[c + 1] == ';' && z[c + 2] == '\n'
    && z[o2] == '(' && z[c2] == ')' && z[c2 + 1] == ';' && z[c2 + 2] == '\n'
    && (forall k :: 0 <= k < |z| && k != o && k != o2 ==> z[k] != '(')
    && (forall k :: 0 <= k < |z| && k != c && k != c2 ==> z[k] != ')')
    && (forall k :: 0 <= k < |z| && k != c + 1 && k != c2 + 1 ==> z[k] != ';')
  }

  lemma {:induction false} ShapedDepth(z: string, o: nat, c: nat, o2: nat, c2: nat, k: nat)
    requires Shaped(z, o, c, o2, c2) && k <= |z|
    ensures Depth(z, '(', ')', 0, k) == if o < k <= c || o2 < k <= c2 then 1 else 0
  {
    if k > 0 {
      ShapedDepth(z, o, c, o2, c2, k - 1);
    }
  }

  lemma DepthBefore(p: string, z: string, q: string, op: nat, j: nat)
    requires op <= j <= |p|
    ensures Depth(p + z + q, '(', ')', op, j) == Depth(p + q, '(', ')', op, j)
  {
    assert (p + z + q)[op..op + (j - op)] == p[op..j] == (p + q)[op..op + (j - op)];
    DepthMoves(p + z + q, p + q, '(', ')', op, op, j - op);
  }

  lemma DepthWithin(p: string, z: string, q: string, op: nat, k: nat)
    requires op <= |p| && k <= |z|
    ensures Depth(p + z + q, '(', ')', op, |p| + k)
         == Depth(p + q, '(', ')', op, |p|) + Depth(z, '(', ')', 0, k)
  {
    var s := p + z + q;
    DepthSplits(s, '(', ')', op, |p|, |p| + k);
    DepthBefore(p, z, q, op, |p|);
    assert s[|p|..|p| + k] == z[0..0 + k];
    DepthMoves(s, z, '(', ')', |p|, 0, k);
  }

  lemma DepthPast(p: string, z: string, q: string, i: nat, j: nat)
    requires |p| <= i <= j <= |p + q|
    ensures Depth(p + z + q, '(', ')', i + |z|, j + |z|) == Depth(p + q, '(', ')', i, j)
  {
    var s := p + z + q;
    assert s[i + |z|..i + |z| + (j - i)] == q[i - |p|..j - |p|] == (p + q)[i..i + (j - i)];
    DepthMoves(s, p + q, '(', ')', i + |z|, i, j - i);
  }

  lemma DepthAcross(p: string, z: string, q: string, o: nat, c: nat, o2: nat, c2: nat, op: nat, j: nat)
    requires Shaped(z, o, c, o2, c2) && op <= |p| <= j <= |p + q|
    ensures Depth(p + z + q, '(', ')', op, j + |z|) == Depth(p + q, '(', ')', op, j)
  {
    DepthSplits(p + z + q, '(', ')', op, |p| + |z|, j + |z|);
    DepthSplits(p + q, '(', ')', op, |p|, j);
    DepthWithin(p, z, q, op, |z|);
    ShapedDepth(z, o, c, o2, c2, |z|);
    DepthPast(p, z, q, |p|, j);
  }

  /** A pair of parentheses stays a pair. */
  lemma CloseShifts(p: string, z: string, q: string, o: nat, c: nat, o2: nat, c2: nat, op: nat)
    requires Shaped(z, o, c, o2, c2) && op < |p + q| && (p + q)[op] == '('
    requires CloseIndex(p + q, '(', ')', op) != -1
    ensures CloseIndex(p + z + q, '(', ')', Shift(p, z, op)) == Shift(p, z, CloseIndex(p + q, '(', ')', op))
  {
    var s, t := p + q, p + z + q;
    var cp := CloseIndex(s, '(', ')', op);
    StopEndsLeastBlock(s, '(', ')', op);
    var op', cp' := Shift(p, z, op), Shift(p, z, cp);
    forall j | op' < j <= cp'
      ensures Depth(t, '(', ')', op', j) > 0
    {
      PositiveAt(p, z, q, o, c, o2, c2, op, cp, j);
    }
    if cp < |p| {
      DepthBefore(p, z, q, op, cp + 1);
    } else if op < |p| {
      DepthAcross(p, z, q, o, c, o2, c2, op, cp + 1);
    } else {
      DepthPast(p, z, q, op, cp + 1);
    }
    LeastBlockStops(t, '(', ')', op', cp');
  }

  lemma PositiveAt(p: string, z: string, q: string, o: nat, c: nat, o2: nat, c2: nat, op: nat, cp: nat, j: nat)
    requires Shaped(z, o, c, o2, c2) && op < |p + q| && EndsLeastBlock(p + q, '(', ')', op, cp)
    requires Shift(p, z, op) < j <= Shift(p, z, cp)
    ensures Depth(p + z + q, '(', ')', Shift(p, z, op), j) > 0
  {
    if op >= |p| {
      DepthPast(p, z, q, op, j - |z|);
    } else if j <= |p| {
      DepthBefore(p, z, q, op, j);
    } else if j <= |p| + |z| {
      DepthWithin(p, z, q, op, j - |p|);
      ShapedDepth(z, o, c, o2, c2, j - |p|);
    } else {
      DepthAcross(p, z, q, o, c, o2, c2, op, j - |z|);
    }
  }

  // ---------------------------------------------------------------- the statement after an insertion

  /** A call with a parenthesis behind it whose statement ends its line. */
  predicate Sited(src: string, fnName: string)
    requires fnName != ""
  {
    && Locate(src, fnName).Ok?
    && Find(src, "(", Locate(src, fnName).value.pos) != -1
    && EndsLine(src, Locate(src, fnName).value.semi)
  }

  lemma LocatedAt(src: string, fnName: string, pos: nat, op: nat, cp: nat, semi: nat)
    requires fnName != "" && FindFrom(src, fnName, Find(src, LOOP, 0)) == pos
    requires Find(src, "(", pos) == op && CloseIndex(src, '(', ')', op) == cp && Find(src, ";", cp) == semi
    requires EndsLine(src, semi)
    ensures Sited(src, fnName)
  {
  }

  /** The call is found behind the loop's name. */
  lemma CallBehindLoop(src: string, fnName: string)
    requires |fnName| >= 2 && FindFrom(src, fnName, Find(src, LOOP, 0)) != -1
    ensures Find(src, LOOP, 0) != -1
  {
  }

  lemma CallShifts(p: string, z: string, q: string, fnName: string)
    requires Seam(p, z, q) && |fnName| >= 2 && '\n' !in fnName && '\n' !in LOOP && LOOP != ""
    requires !Contains(z, fnName) && !Contains(z, LOOP)
    requires FindFrom(p + q, fnName, Find(p + q, LOOP, 0)) != -1
    ensures FindFrom(p + z + q, fnName, Find(p + z + q, LOOP, 0))
         == Shift(p, z, FindFrom(p + q, fnName, Find(p + q, LOOP, 0)))
  {
    CallBehindLoop(p + q, fnName);
    FindShifts(p, z, q, LOOP, 0, 0);
    var start := Find(p + q, LOOP, 0);
    FindShifts(p, z, q, fnName, start, Shift(p, z, start));
  }

  /** The first opening parenthesis from the call on: the old one, or one of the insertion's. */
  lemma OpenShifts(p: string, z: string, q: string, pos: nat)
    requires Find(p + q, "(", pos) != -1
    ensures var op, op' := Find(p + q, "(", pos), Find(p + z + q, "(", Shift(p, z, pos));
            op' == Shift(p, z, op) || |p| <= op' < |p| + |z|
  {
    var s, t, op := p + q, p + z + q, Find(p + q, "(", pos);
    OneChar(s, '(', op);
    OneChar(t, '(', Shift(p, z, op));
    var op' := Find(t, "(", Shift(p, z, pos));
    OneChar(t, '(', op');
    if op' < |p| || op' >= |p| + |z| {
      OneChar(s, '(', if op' < |p| then op' else op' - |z|);
    }
  }

  /** A search that has entered the insertion ends in it, at a `;` that ends its line. */
  lemma EndsInside(p: string, z: string, q: string, o: nat, c: nat, o2: nat, c2: nat, op: nat)
    requires Shaped(z, o, c, o2, c2) && (op == |p| + o || op == |p| + o2)
    ensures var t := p + z + q;
            var cp := CloseIndex(t, '(', ')', op);
            cp >= 0 && Find(t, ";", cp) == cp + 1 && EndsLine(t, cp + 1)
  {
    hide Depth, Find, CloseIndex;
    var t := p + z + q;
    var cp := if op == |p| + o then |p| + c else |p| + c2;
    assert forall k :: |p| <= k < |p| + |z| ==> t[k] == z[k - |p|];
    ParensClose(t, op, cp);
    OneChar(t, ';', cp);
    OneChar(t, ';', cp + 1);
    FindIs(t, ";", cp, cp + 1);
  }

  lemma LineEndShifts(p: string, z: string, q: string, semi: nat)
    requires Seam(p, z, q) && semi < |p + q| && (p + q)[semi] == ';' && EndsLine(p + q, semi)
    ensures EndsLine(p + z + q, Shift(p, z, semi))
  {
    var s, t := p + q, p + z + q;
    if semi + 1 == |p| {
      assert p[|p| - 1] == s[semi] == ';';
      assert t[|p|] == z[0];
    } else if semi < |p| {
      assert t[semi + 1] == s[semi + 1];
    } else if semi + 1 < |s| {
      assert t[semi + 1 + |z|] == s[semi + 1];
    }
  }

  lemma SemiInside(p: string, z: string, q: string, o: nat, c: nat, o2: nat, c2: nat, j: nat)
    requires Shaped(z, o, c, o2, c2) && |p| <= j < |p| + |z| && (p + z + q)[j] == ';'
    ensures EndsLine(p + z + q, j)
  {
    var t := p + z + q;
    assert t[j] == z[j - |p|];
    assert t[|p| + (c + 2)] == z[c + 2] && t[|p| + (c2 + 2)] == z[c2 + 2];
  }

  /** The first `;` is at most the old one, and the old one if it is not in the insertion. */
  lemma SemiFound(p: string, z: string, q: string, cp: nat) returns (j: nat)
    requires Find(p + q, ";", cp) != -1
    ensures j == Find(p + z + q, ";", Shift(p, z, cp)) && j < |p + z + q| && (p + z + q)[j] == ';'
    ensures j == Shift(p, z, Find(p + q, ";", cp)) || |p| <= j < |p| + |z|
  {
    var s, t, semi := p + q, p + z + q, Find(p + q, ";", cp);
    OneChar(s, ';', semi);
    OneChar(t, ';', Shift(p, z, semi));
    j := Find(t, ";", Shift(p, z, cp));
    OneChar(t, ';', j);
    if j < |p| || j >= |p| + |z| {
      OneChar(s, ';', if j < |p| then j else j - |z|);
    }
  }

  /** So does one that passes the insertion between the parenthesis and the `;`. */
  lemma SemiShifts(p: string, z: string, q: string, o: nat, c: nat, o2: nat, c2: nat, cp: nat)
    requires Seam(p, z, q) && Shaped(z, o, c, o2, c2) && Find(p + q, ";", cp) != -1
    requires EndsLine(p + q, Find(p + q, ";", cp))
    ensures var t := p + z + q;
            var semi := Find(t, ";", Shift(p, z, cp));
            semi != -1 && EndsLine(t, semi)
  {
    var semi := SemiFound(p, z, q, cp);
    if |p| <= semi < |p| + |z| {
      SemiInside(p, z, q, o, c, o2, c2, semi);
    } else {
      OneChar(p + q, ';', Find(p + q, ";", cp));
      LineEndShifts(p, z, q, Find(p + q, ";", cp));
    }
  }

  /** The search of a statement, from the parenthesis on. */
  predicate Closes(t: string, op: int) {
    && op >= 0 && CloseIndex(t, '(', ')', op) >= 0
    && Find(t, ";", CloseIndex(t, '(', ')', op)) != -1
    && EndsLine(t, Find(t, ";", CloseIndex(t, '(', ')', op)))
  }

  lemma ClosesStays(p: string, z: string, q: string, o: nat, c: nat, o2: nat, c2: nat, op: nat)
    requires Seam(p, z, q) && Shaped(z, o, c, o2, c2) && MatchesAt(p + q, "(", op) && Closes(p + q, op)
    ensures Closes(p + z + q, Shift(p, z, op))
  {
    OneChar(p + q, '(', op);
    CloseShifts(p, z, q, o, c, o2, c2, op);
    SemiShifts(p, z, q, o, c, o2, c2, CloseIndex(p + q, '(', ')', op));
  }

  lemma ClosesInside(p: string, z: string, q: string, o: nat, c: nat, o2: nat, c2: nat, op: nat)
    requires Shaped(z, o, c, o2, c2) && |p| <= op < |p| + |z| && MatchesAt(p + z + q, "(", op)
    ensures Closes(p + z + q, op)
  {
    OneChar(p + z + q, '(', op);
    assert (p + z + q)[op] == z[op - |p|];
    EndsInside(p, z, q, o, c, o2, c2, op);
  }

  /** Inserting a print block leaves a call as suited for bracketing as it was. */
  lemma SitedStays(p: string, z: string, q: string, fnName: string, o: nat, c: nat, o2: nat, c2: nat)
    requires Seam(p, z, q) && Shaped(z, o, c, o2, c2) && |fnName| >= 2 && '\n' !in fnName && '\n' !in LOOP && LOOP != ""
    requires !Contains(z, fnName) && !Contains(z, LOOP) && Sited(p + q, fnName)
    ensures Sited(p + z + q, fnName)
  {
    var pos := SitedParts(p + q, fnName);
    CallShifts(p, z, q, fnName);
    OpenShifts(p, z, q, pos);
    var op, op' := Find(p + q, "(", pos), Find(p + z + q, "(", Shift(p, z, pos));
    if op' == Shift(p, z, op) {
      ClosesStays(p, z, q, o, c, o2, c2, op);
    } else {
      ClosesInside(p, z, q, o, c, o2, c2, op');
    }
    PartsSited(p + z + q, fnName, Shift(p, z, pos));
  }

  lemma SitedParts(src: string, fnName: string) returns (pos: nat)
    requires fnName != "" && Sited(src, fnName)
    ensures FindFrom(src, fnName, Find(src, LOOP, 0)) == pos && Find(src, "(", pos) != -1
    ensures Closes(src, Find(src, "(", pos))
  {
    pos := Locate(src, fnName).value.pos;
  }

  lemma PartsSited(src: string, fnName: string, pos: nat)
    requires fnName != "" && FindFrom(src, fnName, Find(src, LOOP, 0)) == pos && Find(src, "(", pos) != -1
    requires Closes(src, Find(src, "(", pos))
    ensures Sited(src, fnName)
  {
    var op := Find(src, "(", pos);
    var cp := CloseIndex(src, '(', ')', op);
    LocatedAt(src, fnName, pos, op, cp, Find(src, ";", cp));
  }
}
