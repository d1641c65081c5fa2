/** The helpers of scripts/patch-ldn-zt.py: each rewrites one file in place, or stops the script. */
module LdnPatch {
  import opened Text
  import opened Scan

  datatype PatchError = AnchorMissing | TooFewAnchors(found: nat) | FunctionMissing | NoOpeningBrace | UnbalancedBraces

  /** `replace(path, old, new)`. */
  function Replaced(text: string, anchor: string, replacement: string): Result<string, PatchError> {
    if Contains(text, anchor) then Ok(ReplaceFirst(text, anchor, replacement)) else Err(AnchorMissing)
  }

  /** `replace_all(path, old, new, minimum)`. */
  function AllReplaced(text: string, anchor: string, replacement: string, minimum: int): Result<string, PatchError> {
    if Count(text, anchor) < minimum then Err(TooFewAnchors(Count(text, anchor)))
    else Ok(ReplaceAll(text, anchor, replacement))
  }

  /** `replace_function(path, signature, new_body)`. */
  function FunctionReplaced(text: string, signature: string, body: string): Result<string, PatchError> {
    var start := Find(text, signature, 0);
    if start == -1 then Err(FunctionMissing)
    else
      var brace := Find(text, "{", start);
      if brace == -1 then Err(NoOpeningBrace)
      else
        var last := CloseIndex(text, '{', '}', brace);
        if last == -1 then Err(UnbalancedBraces)
        else Ok(text[..start] + signature + " " + body + text[last + 1..])
  }

  /** A source file under patching: what one helper writes is what the next one reads. */
  class SourceFile {
    var text: string

    constructor (text: string)
      ensures this.text == text
    {
      this.text := text;
    }

    method Replace(anchor: string, replacement: string) returns (failed: Option<PatchError>)
      modifies this
      ensures failed.None? ==> Replaced(old(text), anchor, replacement) == Ok(text)
      ensures failed.Some? ==> Replaced(old(text), anchor, replacement) == Err(failed.value) && text == old(text)
    {
      if !Contains(text, anchor) {
        return Some(AnchorMissing);
      }
      text := ReplaceFirst(text, anchor, replacement);
      failed := None;
    }

    /** The rewritten text is the old one split at the anchor and joined with the replacement. */
    method ReplaceEvery(anchor: string, replacement: string, minimum: int) returns (failed: Option<PatchError>)
      modifies this
      ensures failed.None? <==> Count(old(text), anchor) >= minimum
      ensures failed.None? ==> AllReplaced(old(text), anchor, replacement, minimum) == Ok(text)
      ensures failed.None? ==> |text| == |old(text)| + Count(old(text), anchor) * (|replacement| - |anchor|)
      ensures failed.None? && anchor != "" ==> text == Join(Split(old(text), anchor), replacement)
      ensures failed.None? && Separate(anchor, replacement) ==> Count(text, anchor) == 0
      ensures failed.Some? ==> failed.value == TooFewAnchors(Count(old(text), anchor)) && text == old(text)
    {
      var count := Count(text, anchor);
      if count < minimum {
        return Some(TooFewAnchors(count));
      }
      ReplaceAllLength(text, anchor, replacement);
      if anchor != "" {
        ReplaceAllIsSplitJoin(text, anchor, replacement);
      }
      if Separate(anchor, replacement) {
        NoMatchSurvives(text, anchor, replacement);
      }
      text := ReplaceAll(text, anchor, replacement);
      failed := None;
    }

    method ReplaceFunction(signature: string, body: string) returns (failed: Option<PatchError>)
      modifies this
      ensures failed.None? ==> FunctionReplaced(old(text), signature, body) == Ok(text)
      ensures failed.Some? ==> FunctionReplaced(old(text), signature, body) == Err(failed.value) && text == old(text)
    {
      var start := Find(text, signature, 0);
      if start == -1 {
        return Some(FunctionMissing);
      }
      var brace := Find(text, "{", start);
      if brace == -1 {
        return Some(NoOpeningBrace);
      }
      var last := ScanBalanced(text, '{', '}', brace);
      if last == -1 {
        return Some(UnbalancedBraces);
      }
      text := text[..start] + signature + " " + body + text[last + 1..];
      failed := None;
    }
  }

  // ---------------------------------------------------------------- replace

  /** The first match of the anchor is exchanged, and nothing else. */
  lemma ReplacedExactly(pre: string, anchor: string, replacement: string, post: string)
    requires forall j :: 0 <= j < |pre| ==> !MatchesAt(pre + anchor + post, anchor, j)
    ensures Replaced(pre + anchor + post, anchor, replacement) == Ok(pre + replacement + post)
  {
    FirstReplaced(pre, anchor, replacement, post);
  }

  // ---------------------------------------------------------------- replace_function

  /** Where the search for the opening brace begins. */
  function SearchStart(text: string, signature: string): (start: nat)
    requires Contains(text, signature)
    ensures start <= |text|
  {
    Find(text, signature, 0)
  }

  /** When `replace_function` stops the script, and how: no signature, no opening brace from there on, or none that is
      ever closed. */
  lemma RewriteFails(text: string, signature: string, body: string)
    ensures FunctionReplaced(text, signature, body) == Err(FunctionMissing) <==> !Contains(text, signature)
    ensures Contains(text, signature) ==>
              (FunctionReplaced(text, signature, body) == Err(NoOpeningBrace)
               <==> '{' !in text[SearchStart(text, signature)..])
    ensures FunctionReplaced(text, signature, body) == Err(UnbalancedBraces) ==>
              Contains(text, signature)
              && forall k :: !EndsLeastBlock(text, '{', '}', Find(text, "{", SearchStart(text, signature)), k)
  {
    hide Depth, EndsLeastBlock;
    if Contains(text, signature) {
      var start := SearchStart(text, signature);
      BraceBehind(text, start);
      var brace := Find(text, "{", start);
      if brace != -1 {
        OneChar(text, '{', brace);
        ScanIsExact(text, '{', '}', brace);
      }
    }
  }

  lemma BraceBehind(text: string, start: nat)
    requires start <= |text|
    ensures Find(text, "{", start) == -1 <==> '{' !in text[start..]
  {
    if Find(text, "{", start) == -1 {
      forall k | start <= k < |text|
        ensures text[k] != '{'
      {
        OneChar(text, '{', k);
      }
    } else {
      var k := Find(text, "{", start);
      OneChar(text, '{', k);
      assert text[start..][k - start] == '{';
    }
  }

  /** A first match stays the first match when everything after it is rewritten. */
  lemma FirstMatchStays(s: string, p: string, tail: string)
    requires Contains(s, p)
    ensures Find(s[..Find(s, p, 0)] + p + tail, p, 0) == Find(s, p, 0)
  {
    var i := Find(s, p, 0);
    var r := s[..i] + p + tail;
    MatchChars(s, p, i);
    assert forall x :: 0 <= x < i + |p| ==> r[x] == s[x];
    assert r[i..i + |p|] == p;
    forall j | 0 <= j < i
      ensures !MatchesAt(r, p, j)
    {
      MatchMoves(r, s, p, j, j);
    }
    FindIs(r, p, 0, i);
  }

  /** After a signature without an opening brace, the search lands on the brace of the new body. */
  lemma BraceOfBody(pre: string, signature: string, body: string, post: string)
    requires '{' !in signature && |body| > 0 && body[0] == '{'
    ensures Find(pre + signature + " " + body + post, "{", |pre|) == |pre| + |signature| + 1
  {
    var s := pre + signature + " " + body + post;
    var b := |pre| + |signature| + 1;
    assert s[b..b + 1] == "{";
    forall k | |pre| <= k < b
      ensures !MatchesAt(s, "{", k)
    {
      assert s[k] == (signature + " ")[k - |pre|];
      Mismatch(s, "{", k, 0);
    }
    FindIs(s, "{", |pre|, b);
  }

  /** Running `replace_function` a second time changes nothing: the new body is found and put back. */
  lemma ReplaceFunctionIsIdempotent(text: string, signature: string, body: string)
    requires '{' !in signature && IsBlock(body, '{', '}')
    ensures FunctionReplaced(text, signature, body).Ok? ==>
              var once := FunctionReplaced(text, signature, body).value;
              FunctionReplaced(once, signature, body) == Ok(once)
  {
    if FunctionReplaced(text, signature, body).Ok? {
      var start := Find(text, signature, 0);
      var last := CloseIndex(text, '{', '}', Find(text, "{", start));
      var pre, post := text[..start], text[last + 1..];
      assert pre + signature + " " + body + post == pre + signature + (" " + body + post);
      FirstMatchStays(text, signature, " " + body + post);
      FoundAndPutBack(pre, signature, body, post, pre + signature + " " + body + post);
    }
  }

  lemma FoundAndPutBack(pre: string, signature: string, body: string, post: string, text: string)
    requires '{' !in signature && IsBlock(body, '{', '}')
    requires text == pre + signature + " " + body + post && Find(text, signature, 0) == |pre|
    ensures FunctionReplaced(text, signature, body) == Ok(text)
  {
    var head := pre + signature + " ";
    BraceOfBody(pre, signature, body, post);
    BlockFound(head, body, post, '{', '}');
    assert text[..|pre|] == pre;
    assert text[|head| + |body|..] == post;
  }

  /** Swapping `mid` for `other` shifts the depth of everything behind by a constant. */
  lemma DepthBehind(head: string, mid: string, other: string, tail: string, n: nat)
    requires n <= |tail|
    ensures Depth(head + other + tail, '{', '}', 0, |head| + |other| + n) - Depth(other, '{', '}', 0, |other|)
         == Depth(head + mid + tail, '{', '}', 0, |head| + |mid| + n) - Depth(mid, '{', '}', 0, |mid|)
  {
    forall m: string
      ensures Depth(head + m + tail, '{', '}', 0, |head| + |m| + n)
           == Depth(head, '{', '}', 0, |head|) + Depth(m, '{', '}', 0, |m|) + Depth(tail, '{', '}', 0, n)
    {
      DepthOfConcat(head + m, tail, n, '{', '}');
      DepthOfConcat(head, m, |m|, '{', '}');
    }
  }

  /** What `replace_function` drops: the text between the signature and the brace, then the old block. */
  ghost predicate Dissects(text: string, signature: string, head: string, gap: string, block: string, tail: string) {
    && block != "" && text == head + (gap + block) + tail
    && Find(text, signature, 0) != -1
    && head == text[..Find(text, signature, 0)] + signature
    && Find(text, "{", Find(text, signature, 0)) == |head| + |gap|
    && CloseIndex(text, '{', '}', |head| + |gap|) == |head| + |gap| + |block| - 1
    && '{' !in gap && Depth(block, '{', '}', 0, |block|) == 0
  }

  /** Every successful `replace_function` is such a dissection, and puts the new body for gap and block. */
  lemma Dissection(text: string, signature: string, body: string)
    returns (head: string, gap: string, block: string, tail: string)
    requires '{' !in signature
    requires FunctionReplaced(text, signature, body).Ok?
    ensures Dissects(text, signature, head, gap, block, tail)
    ensures FunctionReplaced(text, signature, body) == Ok(head + (" " + body) + tail)
  {
    var start := Find(text, signature, 0);
    var brace := Find(text, "{", start);
    var last := CloseIndex(text, '{', '}', brace);
    var after := start + |signature|;
    SignatureBeforeBrace(text, signature, start, brace);
    head, gap, block, tail := text[..after], text[after..brace], text[brace..last + 1], text[last + 1..];
    HeadIs(text, signature, start);
    NoBraceBefore(text, start, after, brace);
    Quarters(text, after, brace, last + 1);
    BlockIsLevel(text, brace, last);
    DissectedRewrite(text, signature, body, head, gap, block, tail);
  }

  lemma BlockIsLevel(text: string, brace: nat, last: nat)
    requires StopsAt(text, '{', '}', brace, last)
    ensures var block := text[brace..last + 1]; Depth(block, '{', '}', 0, |block|) == 0
  {
    var block := text[brace..last + 1];
    DepthMoves(text, block, '{', '}', brace, 0, |block|);
  }

  lemma HeadIs(text: string, signature: string, start: nat)
    requires MatchesAt(text, signature, start)
    ensures text[..start + |signature|] == text[..start] + signature
  {
  }

  lemma Quarters(text: string, a: nat, b: nat, c: nat)
    requires a <= b <= c <= |text|
    ensures text == text[..a] + (text[a..b] + text[b..c]) + text[c..]
  {
  }

  lemma NoBraceBefore(text: string, start: nat, after: nat, brace: nat)
    requires start <= after <= brace <= |text|
    requires forall k :: start <= k < brace ==> !MatchesAt(text, "{", k)
    ensures '{' !in text[after..brace]
  {
    forall k | after <= k < brace
      ensures text[k] != '{'
    {
      OneChar(text, '{', k);
    }
  }

  lemma DissectedRewrite(text: string, signature: string, body: string,
                         head: string, gap: string, block: string, tail: string)
    requires Dissects(text, signature, head, gap, block, tail)
    ensures FunctionReplaced(text, signature, body) == Ok(head + (" " + body) + tail)
  {
    var start := Find(text, signature, 0);
    var last := CloseIndex(text, '{', '}', Find(text, "{", start));
    assert last + 1 == |head + (gap + block)|;
    assert text[last + 1..] == tail;
    assert text[..start] + signature + " " + body + tail == head + (" " + body) + tail;
  }

  /** The rewrite drops the gap between the signature and its brace. Brace depth after the replaced
      body is unchanged, at every position, exactly when that gap holds no closing brace. */
  lemma ReplaceFunctionDepth(text: string, signature: string, body: string,
                             head: string, gap: string, block: string, tail: string, n: nat)
    requires '{' !in signature && IsBlock(body, '{', '}') && n <= |tail|
    requires Dissects(text, signature, head, gap, block, tail)
    ensures FunctionReplaced(text, signature, body) == Ok(head + (" " + body) + tail)
    ensures Depth(head + (" " + body) + tail, '{', '}', 0, |head| + 1 + |body| + n)
            == Depth(text, '{', '}', 0, |head| + |gap| + |block| + n)
            <==> '}' !in gap
  {
    DissectedRewrite(text, signature, body, head, gap, block, tail);
    DroppedGap(head, gap, block, body, tail, n);
    NoOpenersFall(gap, '{', '}', 0, |gap|);
  }

  /** A closing brace in the gap breaks it: with signature `f` and body `{}`, the text `f}{}` becomes `f {}`, and
      the depth at the end goes from -1 to 0. */
  lemma CloserInGap()
    ensures FunctionReplaced("f}{}", "f", "{}") == Ok("f {}")
    ensures Depth("f}{}", '{', '}', 0, 4) == -1 && Depth("f {}", '{', '}', 0, 4) == 0
  {
    var text := "f}{}";
    assert text[0..1] == "f" && MatchesAt(text, "f", 0);
    FindIs(text, "f", 0, 0);
    OneChar(text, '{', 0);
    OneChar(text, '{', 1);
    OneChar(text, '{', 2);
    FindIs(text, "{", 0, 2);
    assert Depth(text, '{', '}', 2, 3) == 1 && Depth(text, '{', '}', 2, 4) == 0;
    assert !StopsAt(text, '{', '}', 2, 2) && StopsAt(text, '{', '}', 2, 3);
    assert text[..0] + "f" + " " + "{}" + text[4..] == "f {}";
    FirstDepths(text);
    FirstDepths("f {}");
  }

  lemma FirstDepths(s: string)
    requires |s| == 4
    ensures Depth(s, '{', '}', 0, 4)
         == Weight(s[0], '{', '}') + Weight(s[1], '{', '}') + Weight(s[2], '{', '}') + Weight(s[3], '{', '}')
  {
    assert Depth(s, '{', '}', 0, 1) == Weight(s[0], '{', '}');
    assert Depth(s, '{', '}', 0, 2) == Weight(s[0], '{', '}') + Weight(s[1], '{', '}');
    assert Depth(s, '{', '}', 0, 3) == Depth(s, '{', '}', 0, 2) + Weight(s[2], '{', '}');
  }

  lemma DroppedGap(head: string, gap: string, block: string, body: string, tail: string, n: nat)
    requires n <= |tail|
    requires Depth(block, '{', '}', 0, |block|) == 0 == Depth(body, '{', '}', 0, |body|)
    ensures Depth(head + (" " + body) + tail, '{', '}', 0, |head| + 1 + |body| + n)
         == Depth(head + (gap + block) + tail, '{', '}', 0, |head| + |gap| + |block| + n)
            - Depth(gap, '{', '}', 0, |gap|)
  {
    DepthBehind(head, gap + block, " " + body, tail, n);
    DepthOfConcat(" ", body, |body|, '{', '}');
    DepthOfConcat(gap, block, |block|, '{', '}');
  }

  lemma SignatureBeforeBrace(text: string, signature: string, start: nat, brace: nat)
    requires '{' !in signature && MatchesAt(text, signature, start)
    requires Find(text, "{", start) == brace
    ensures start + |signature| <= brace
  {
    MatchChars(text, signature, start);
    OneChar(text, '{', brace);
  }

  // ---------------------------------------------------------------- the texts main() passes in

  const CLOSE_OLD := "            " + "close(new_fd);"
  const CLOSE_NEW := "            " + "ztbridge::close(new_fd);"
  const BIND_LEFT := "if (bind(fd, (struct sockaddr *)"
  const BIND_RIGHT := "&addr, sizeof(addr)) != 0) {"
  const BIND_OLD := "            " + BIND_LEFT + BIND_RIGHT
  const BIND_NEW := "            " + "if (ztbridge::bind(fd, &addr) != 0) {"

  /** Two lines under the same indentation, `q` never doubling a space after it, ending like `p`
      nowhere but at its end, and holding at `z` a character that `p` lacks. */
  predicate IndentedRivals(p: string, q: string, indent: nat, z: nat) {
    && 2 <= indent < |p| && indent <= z < |q|
    && (forall k :: 0 <= k < indent ==> p[k] == ' ' && q[k] == ' ')
    && p[indent] != ' ' && q[indent] != ' ' && p[|p| - 1] != ' ' && q[|q| - 1] != ' '
    && (forall k :: indent < k < |q| ==> q[k] != ' ' || q[k - 1] != ' ')
    && (forall k :: 0 <= k < |q| - 1 ==> q[k] != p[|p| - 1])
    && (forall k :: 0 <= k < |p| ==> p[k] != q[z])
  }

  lemma RivalsAreSeparate(p: string, q: string, indent: nat, z: nat)
    requires IndentedRivals(p, q, indent, z)
    ensures Separate(p, q)
  {
    forall j | 0 <= j
      ensures !MatchesAt(p, q, j)
    {
      Mismatch(p, q, j, z);
    }
    NotFound(p, q, 0);
    forall j | 0 <= j
      ensures !MatchesAt(q, p, j)
    {
      if j + |p| != |q| {
        Mismatch(q, p, j, |p| - 1);
      } else if j == 0 {
        Mismatch(q, p, j, z);
      } else if j < indent {
        Mismatch(q, p, j, indent - j);
      } else {
        Mismatch(q, p, j, if q[j] == ' ' then 1 else 0);
      }
    }
    NotFound(q, p, 0);
    forall n | 0 < n < |p| && n <= |q|
      ensures p[|p| - n..] != q[..n]
    {
      if z < n {
        assert p[|p| - n..][z] == p[|p| - n + z] && q[..n][z] == q[z];
      } else {
        assert p[|p| - n..][n - 1] == p[|p| - 1] && q[..n][n - 1] == q[n - 1];
      }
    }
    forall n | 0 < n < |p| && n <= |q|
      ensures p[..n] != q[|q| - n..]
    {
      var j := |q| - n;
      assert forall k :: 0 <= k < n ==> q[j..][k] == q[j + k];
      assert forall k :: 0 <= k < n ==> p[..n][k] == p[k];
      if j == 0 {
        assert q[j + z] != p[z];
      } else if j < indent {
        assert n > indent - j ==> q[j + (indent - j)] != p[indent - j];
      } else if q[j] == ' ' && n > 1 {
        assert q[j + 1] != p[1];
      } else {
        assert q[j] != p[0];
      }
    }
  }

  lemma BindOldLacksColon()
    ensures |BIND_LEFT| == 32 && |BIND_RIGHT| == 28
    ensures forall k :: 0 <= k < 32 ==> BIND_LEFT[k] != ':'
    ensures forall k :: 0 <= k < 28 ==> BIND_RIGHT[k] != ':'
  {
  }

  lemma BindNewTail()
    ensures |BIND_NEW| == 49 && forall k :: 0 <= k < 48 ==> BIND_NEW[k] != '{'
    ensures forall k :: 12 < k < 49 ==> BIND_NEW[k] != ' ' || BIND_NEW[k - 1] != ' '
  {
  }

  lemma CloseIsSeparate()
    ensures Separate(CLOSE_OLD, CLOSE_NEW)
  {
    RivalsAreSeparate(CLOSE_OLD, CLOSE_NEW, 12, 12);
  }

  lemma BindIsSeparate()
    ensures Separate(BIND_OLD, BIND_NEW)
  {
    BindOldLacksColon();
    BindNewTail();
    RivalsAreSeparate(BIND_OLD, BIND_NEW, 12, 24);
  }

  /** After main()'s two `replace_all` calls on lan_discovery.cpp no unbridged `close(new_fd)` is left by
      the first and no unbridged `bind` by the second. */
  lemma NoPlainCallSurvives(text: string)
    ensures AllReplaced(text, CLOSE_OLD, CLOSE_NEW, 2).Ok? ==>
              Count(AllReplaced(text, CLOSE_OLD, CLOSE_NEW, 2).value, CLOSE_OLD) == 0
    ensures AllReplaced(text, BIND_OLD, BIND_NEW, 2).Ok? ==>
              Count(AllReplaced(text, BIND_OLD, BIND_NEW, 2).value, BIND_OLD) == 0
  {
    CloseIsSeparate();
    NoMatchSurvives(text, CLOSE_OLD, CLOSE_NEW);
    BindIsSeparate();
    NoMatchSurvives(text, BIND_OLD, BIND_NEW);
  }

  const BROADCAST := "    u32 LDUdpSocket::getBroadcast()"
  const BROADCAST_TEXT := "\n        return " + "ztbridge::peer_ip_host_order();\n    "
  const OPTIONS := "    Result LANDiscovery::" + "setSocketOpts(int fd)"
  const OPTIONS_TEXT := "\n        AMS_UNUSED(fd);\n" + "        return 0;\n    "
  const ADDRESS := "    Result ICommunicationService::" + "GetIpv4Address(sf::Out<u32> address, "
                   + "sf::Out<u32> netmask)"
  const ADDRESS_ASK := "\n        u32 ztAddress = 0;\n" + "        Result rc = ztbridge::"
                       + "local_ip_host_order(&ztAddress);\n"
  const ADDRESS_IF := "        if (R_FAILED(rc)) "
  const ADDRESS_FAIL := "\n            return rc;\n        "
  const ADDRESS_SET := "\n        address.SetValue(ztAddress);\n" + "        netmask.SetValue(0xFFFFFFFF);\n"
  const ADDRESS_LOG := "        LogFormat(\"get_ipv4_address " + "%x %x\", address.GetValue(), "
                       + "netmask.GetValue());\n        return rc;\n    "

  lemma AddressTextsAreBraceFree()
    ensures BraceFree(ADDRESS_ASK + ADDRESS_IF) && BraceFree(ADDRESS_FAIL)
  {
    AddressAskIsBraceFree();
    assert BraceFree(ADDRESS_IF) && BraceFree(ADDRESS_FAIL);
    BraceFreeConcat(ADDRESS_ASK, ADDRESS_IF);
  }

  lemma AddressAskIsBraceFree()
    ensures BraceFree(ADDRESS_ASK)
  {
    assert BraceFree("\n        u32 ztAddress = 0;\n") && BraceFree("        Result rc = ztbridge::");
    assert BraceFree("local_ip_host_order(&ztAddress);\n");
  }

  lemma BraceFreeConcat(a: string, b: string)
    requires BraceFree(a) && BraceFree(b)
    ensures BraceFree(a + b)
  {
  }

  lemma AddressSetIsBraceFree()
    ensures BraceFree(ADDRESS_SET)
  {
    assert BraceFree("\n        address.SetValue(ztAddress);\n")
           && BraceFree("        netmask.SetValue(0xFFFFFFFF);\n");
  }

  lemma AddressLogIsBraceFree()
    ensures BraceFree(ADDRESS_LOG)
  {
    assert BraceFree("        LogFormat(\"get_ipv4_address ") && BraceFree("%x %x\", address.GetValue(), ");
    assert BraceFree("netmask.GetValue());\n        return rc;\n    ");
  }

  lemma SignaturesAreBraceFree()
    ensures BraceFree(BROADCAST) && BraceFree(OPTIONS) && BraceFree(ADDRESS)
  {
    assert BraceFree("    Result LANDiscovery::") && BraceFree("setSocketOpts(int fd)");
    assert BraceFree("    Result ICommunicationService::") && BraceFree("GetIpv4Address(sf::Out<u32> address, ");
    assert BraceFree("sf::Out<u32> netmask)");
  }

  lemma FlatTextsAreBraceFree()
    ensures BraceFree(BROADCAST_TEXT) && BraceFree(OPTIONS_TEXT)
  {
    assert BraceFree("\n        AMS_UNUSED(fd);\n") && BraceFree("        return 0;\n    ");
    assert BraceFree("\n        return ") && BraceFree("ztbridge::peer_ip_host_order();\n    ");
  }

  /** The three `replace_function` calls of main(), run again, change nothing. */
  lemma MainRewritesAreIdempotent(text: string, signature: string, body: string)
    requires || (signature == BROADCAST && body == "{" + BROADCAST_TEXT + "}")
             || (signature == OPTIONS && body == "{" + OPTIONS_TEXT + "}")
             || (signature == ADDRESS
                 && body == "{" + (ADDRESS_ASK + ADDRESS_IF) + "{" + ADDRESS_FAIL + "}" + (ADDRESS_SET + ADDRESS_LOG)
                    + "}")
    ensures FunctionReplaced(text, signature, body).Ok? ==>
              var once := FunctionReplaced(text, signature, body).value;
              FunctionReplaced(once, signature, body) == Ok(once)
  {
    SignaturesAreBraceFree();
    FlatTextsAreBraceFree();
    AddressTextsAreBraceFree();
    AddressSetIsBraceFree();
    AddressLogIsBraceFree();
    BraceFreeConcat(ADDRESS_SET, ADDRESS_LOG);
    FlatIsBlock(BROADCAST_TEXT);
    FlatIsBlock(OPTIONS_TEXT);
    NestedIsBlock(ADDRESS_ASK + ADDRESS_IF, ADDRESS_FAIL, ADDRESS_SET + ADDRESS_LOG);
    ReplaceFunctionIsIdempotent(text, signature, body);
  }
}
