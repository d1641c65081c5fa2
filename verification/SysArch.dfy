/** All that scripts/patch-lwip-switch-thread.py does to sys_arch.c: the helper of `LwipHelper`, and between its two
    halves the trace prints and the stack size of the hand-off in `sys_thread_new`. */
module SysArch {
  import opened Text
  import opened Scan
  import opened Pattern
  import opened LwipHelper
  import opened SwitchHelper

  const NEW_HEAD := [Word("sys_thread_t"), Blank, Word("sys_thread_new"), Gap, Word("(")]
  const NEW_DEF := NEW_HEAD + [Params, Word("{")]
  const CREATE := [Word("pthread_create"), Gap, Word("("), Gap, Word("&tmp"), Gap, Word(",")]
  const WRAPPER := [Word("thread_wrapper"), Gap, Word("("), Gap, Word("void"), Gap, Word("*"), Gap, Word("arg"), Gap,
                    Word(")"), Gap, Word("{")]

  const SWITCH_H := "#include <switch.h>"
  const PTHREAD_H := "#include <pthread.h>"
  const INCLUDES := "\n#ifdef __SWITCH__\n" + "#include <stdio.h>\n" + "#include <switch.h>\n#endif"
  const DIAG := "[SWITCH-DIAG] "
  const ENTERED := DIAG + "STN: ENTER"
  const RETURNED := DIAG + "STN: AFTER_PTHREAD_CREATE"
  const INTRODUCING := DIAG + "STN: BEFORE_INTRODUCE"
  const INTRODUCED := DIAG + "STN: AFTER_INTRODUCE"
  const ALIVE := DIAG + "thread_wrapper: " + "child thread alive"
  const ATTR := "&switch_attr"
  const SUCCESS := "if (0 == code)"
  const CALL := "st = introduce_thread("

  /** A guarded print of `what`. */
  function DiagPrint(indent: string, what: string): string {
    "#ifdef __SWITCH__\n" + indent + "printf(\"" + what + "\\n\");\n" + indent + "consoleUpdate(NULL);\n#endif"
  }

  const FIX_LEAD := "#ifdef __SWITCH__\n" + "  pthread_attr_t switch_attr;\n" + "  pthread_attr_init(&switch_attr);\n"
                    + "  pthread_attr_setstacksize(" + "&switch_attr, 256 * 1024);\n" + "  code = "
  const FIX_CALL := "pthread_create(&tmp, " + "&switch_attr, thread_wrapper, " + "thread_data);"
  const FIX_REST := "\n  pthread_attr_destroy(" + "&switch_attr);\n" + "#else\n"
  const FIX_HEAD := FIX_LEAD + FIX_CALL + FIX_REST
  const FIX_END := "\n#endif"

  /** The call with its own stack size, and the original statement for hosts. */
  function StackFix(statement: string): string {
    FIX_HEAD + statement + FIX_END
  }

  function Inserted(s: string, at: nat, x: string): string
    requires at <= |s|
  {
    s[..at] + x + s[at..]
  }

  // ---------------------------------------------------------------- lines 74-168

  /** Lines 75-78. */
  function Included(s: string): string {
    if Contains(s, SWITCH_H) then s else ReplaceFirst(s, PTHREAD_H, PTHREAD_H + INCLUDES)
  }

  /** Where the body of `sys_thread_new` starts, or -1. */
  function BodyStart(s: string): (r: int)
    ensures r == -1 || 0 <= r <= |s|
  {
    var i := Search(s, NEW_DEF, 0);
    if i == -1 then -1 else MatchEnd(s, i, NEW_DEF)
  }

  function WithBody(s: string): (r: Result<(string, nat), HelperError>)
    ensures r.Ok? ==> r.value.1 <= |r.value.0|
  {
    if BodyStart(s) == -1 then Err(NewMissing) else Ok((s, BodyStart(s)))
  }

  /** Lines 81-91: the text, and where the body starts in it. */
  function EntryMarked(s: string): (r: Result<(string, nat), HelperError>)
    ensures r.Ok? ==> r.value.1 <= |r.value.0|
  {
    if BodyStart(s) == -1 || Contains(s, ENTERED) then WithBody(s)
    else WithBody(Inserted(s, BodyStart(s), "\n" + DiagPrint("  ", ENTERED)))
  }

  /** The `pthread_create` behind `at`, or -1. */
  function CreateCall(s: string, at: nat): (r: int)
    requires at <= |s|
    ensures r == -1 || at <= r <= |s|
  {
    var i := Search(s[at..], CREATE, 0);
    if i == -1 then -1 else at + i
  }

  /** Lines 95-113: where the call stands and where its statement ends. */
  function CreateSite(s: string, at: nat): Result<(nat, nat), HelperError>
    requires at <= |s|
    ensures CreateSite(s, at).Ok? ==> CreateSite(s, at).value.0 <= |s| && CreateSite(s, at).value.1 < |s|
  {
    var pos := CreateCall(s, at);
    if pos == -1 then Err(CreateMissing)
    else
      var op := Find(s, "(", pos);
      var cp := if op == -1 then -1 else CloseIndex(s, '(', ')', op);
      if cp == -1 then Err(CreateUnbalanced)
      else
        var semi := Find(s, ";", cp);
        if semi == -1 then Err(CreateOpen) else Ok((pos, semi))
  }

  function SiteAgain(s: string): (r: Result<(string, int, int), HelperError>)
    ensures r.Ok? ==> -1 <= r.value.1 <= |r.value.0| && -1 <= r.value.2 < |r.value.0|
  {
    if BodyStart(s) == -1 then Err(NewMissing)
    else
      var call := CreateCall(s, BodyStart(s));
      Ok((s, call, FindFrom(s, ";", FindFrom(s, ")", FindFrom(s, "(", call)))))
  }

  /** Lines 126-146: the text, the position of the call and of the end of its statement, -1 if not found again. */
  function StackFixed(s: string, pos: nat, semi: nat): (r: Result<(string, int, int), HelperError>)
    requires pos <= |s| && semi < |s|
    ensures r.Ok? ==> -1 <= r.value.1 <= |r.value.0| && -1 <= r.value.2 < |r.value.0|
  {
    if Contains(Slice(s, pos, semi + 1), ATTR) then Ok((s, pos, semi))
    else
      var ls := LineStart(s, pos);
      SiteAgain(s[..ls] + StackFix(Slice(s, ls, semi + 1)) + s[semi + 1..])
  }

  /** Lines 148-149. */
  function ReturnMarked(s: string, semi: int): string
    requires -1 <= semi < |s|
  {
    if Contains(s, RETURNED) then s else Inserted(s, semi + 1, "\n" + DiagPrint("  ", RETURNED))
  }

  /** Lines 153-168. */
  function IntroduceMarked(s: string, pos: int): Result<string, HelperError> {
    if Contains(s, INTRODUCING) then Ok(s)
    else
      var p := FindFrom(s, SUCCESS, pos);
      if p == -1 then Err(BlockMissing)
      else
        var call := Find(s, CALL, p);
        if call == -1 then Err(CallMissing)
        else
          var t := Inserted(s, call, DiagPrint("    ", INTRODUCING) + "\n    ");
          var end := FindFrom(t, ");", Find(t, CALL, p));
          if end == -1 then Err(CallOpen)
          else Ok(Inserted(t, end + 2, "\n" + DiagPrint("    ", INTRODUCED)))
  }

  /** Lines 74-168. */
  function HandedOff(s: string): Result<string, HelperError> {
    var entry :- EntryMarked(Included(s));
    CreateTraced(entry.0, entry.1)
  }

  /** Lines 93-168. */
  function CreateTraced(s: string, at: nat): Result<string, HelperError>
    requires at <= |s|
  {
    var site :- CreateSite(s, at);
    var fixed :- StackFixed(s, site.0, site.1);
    IntroduceMarked(ReturnMarked(fixed.0, fixed.2), fixed.1)
  }

  function Probe(): string {
    "\n" + DiagPrint("  ", ALIVE)
  }

  /** `x` put in behind the first match of `pat`. */
  function PutBehind(s: string, pat: seq<Piece>, x: string): Result<string, HelperError> {
    var i := Search(s, pat, 0);
    if i == -1 then Err(WrapperMissing) else Ok(Inserted(s, MatchEnd(s, i, pat), x))
  }

  /** Lines 283-290. */
  function Probed(s: string): Result<string, HelperError> {
    if Contains(s, ALIVE) then Ok(s) else PutBehind(s, WRAPPER, Probe())
  }

  /** Everything done to a file that lines 12-27 pick. */
  function Patched(s: string, p: Parts): Result<string, HelperError> {
    if !Contains(s, "sys_thread_new") || !Contains(s, "pthread_create") then Err(NotThisFile)
    else
      var s1 :- HelperReplaced(s, p);
      var s2 :- HandedOff(s1);
      var s3 :- Marked(s2, p);
      Probed(s3)
  }

  // ---------------------------------------------------------------- the script, step by step

  method FindCreate(s: string, at: nat) returns (r: Result<(nat, nat), HelperError>)
    requires at <= |s|
    ensures r == CreateSite(s, at)
  {
    var pos := CreateCall(s, at);
    if pos == -1 {
      return Err(CreateMissing);
    }
    var op := Find(s, "(", pos);
    var cp := -1;
    if op != -1 {
      cp := ScanBalanced(s, '(', ')', op);
    }
    if cp == -1 {
      return Err(CreateUnbalanced);
    }
    var semi := Find(s, ";", cp);
    if semi == -1 {
      return Err(CreateOpen);
    }
    r := Ok((pos, semi));
  }

  method HandOff(text: string) returns (r: Result<string, HelperError>)
    ensures r == HandedOff(text)
  {
    var entry := EntryMarked(Included(text));
    if entry.Err? {
      return Err(entry.error);
    }
    var s, at := entry.value.0, entry.value.1;
    var site := FindCreate(s, at);
    if site.Err? {
      return Err(site.error);
    }
    var fixed := StackFixed(s, site.value.0, site.value.1);
    if fixed.Err? {
      return Err(fixed.error);
    }
    s := ReturnMarked(fixed.value.0, fixed.value.2);
    r := IntroduceMarked(s, fixed.value.1);
  }

  method Patch(text: string, p: Parts) returns (r: Result<string, HelperError>)
    ensures r == Patched(text, p)
  {
    if !Contains(text, "sys_thread_new") || !Contains(text, "pthread_create") {
      return Err(NotThisFile);
    }
    r := ReplaceHelper(text, p);
    if r.Ok? {
      r := HandOff(r.value);
    }
    if r.Ok? {
      r := MarkHelper(r.value, p);
    }
    if r.Ok? {
      r := Probed(r.value);
    }
  }
}
