/** Which script a hook command invokes, and whether that script is being removed. */
module HookCommands {
  import opened Text

  // ---------- Tokens ----------

  function Word(s: string): (r: string)
    ensures r <= s && (|r| < |s| ==> IsSpace(s[|r|]))
    ensures s != "" && !IsSpace(s[0]) ==> r != ""
  {
    if s == "" || IsSpace(s[0]) then "" else [s[0]] + Word(s[1..])
  }

  /** `command.trim().split(/\s+/)` on a command that is not blank; no tokens on a blank one. */
  function Tokens(command: string): seq<string>
    decreases |command|
  {
    var rest := SkipSpace(command);
    if rest == "" then [] else [Word(rest)] + Tokens(rest[|Word(rest)|..])
  }

  predicate IsQuote(c: char) {
    c == '"' || c == '\''
  }

  /** One quote at either end is dropped. */
  function Unquoted(token: string): string {
    var t := if token != "" && IsQuote(token[0]) then token[1..] else token;
    if t != "" && IsQuote(t[|t| - 1]) then t[..|t| - 1] else t
  }

  function LastSegment(path: string): string {
    if path == "" || path[|path| - 1] in "/\\" then "" else LastSegment(path[..|path| - 1]) + [path[|path| - 1]]
  }

  function LowerChar(c: char): char {
    if 'A' <= c <= 'Z' then (c as int - 'A' as int + 'a' as int) as char else c
  }

  function Lower(s: string): string {
    if s == "" then "" else [LowerChar(s[0])] + Lower(s[1..])
  }

  const INTERPRETERS := ["python", "python3", "python.exe", "python3.exe", "py", "py.exe"]

  predicate IsPythonCommandToken(token: string) {
    Lower(LastSegment(Unquoted(token))) in INTERPRETERS
  }

  predicate IsFlag(token: string) {
    var opt := Unquoted(token);
    StartsWith(opt, "-") && '/' !in opt && !EndsWith(opt, ".py")
  }

  // ---------- The invoked script ----------

  /** The first token at or after `j` that is not an interpreter flag. */
  function SkipFlags(tokens: seq<string>, j: nat): (k: nat)
    requires j <= |tokens|
    ensures j <= k <= |tokens| && forall i | j <= i < k :: IsFlag(tokens[i])
    ensures k < |tokens| ==> !IsFlag(tokens[k])
    decreases |tokens| - j
  {
    if j < |tokens| && IsFlag(tokens[j]) then SkipFlags(tokens, j + 1) else j
  }

  function Invoked(tokens: seq<string>, i: nat): string
    requires tokens != [] && i <= |tokens|
    decreases |tokens| - i
  {
    if i == |tokens| then Unquoted(tokens[|tokens| - 1])
    else if IsPythonCommandToken(tokens[i]) && SkipFlags(tokens, i + 1) < |tokens|
    then Unquoted(tokens[SkipFlags(tokens, i + 1)])
    else Invoked(tokens, i + 1)
  }

  method ExtractInvokedScriptToken(tokens: seq<string>) returns (script: string)
    requires tokens != []
    ensures script == Invoked(tokens, 0)
  {
    for i := 0 to |tokens|
      invariant Invoked(tokens, i) == Invoked(tokens, 0)
    {
      if !IsPythonCommandToken(tokens[i]) {
        continue;
      }
      var j := i + 1;
      while j < |tokens|
        invariant i < j <= |tokens| && SkipFlags(tokens, j) == SkipFlags(tokens, i + 1)
      {
        if !IsFlag(tokens[j]) {
          break;
        }
        j := j + 1;
      }
      if j < |tokens| {
        return Unquoted(tokens[j]);
      }
    }
    script := Unquoted(tokens[|tokens| - 1]);
  }

  predicate References(script: string, deleted: string) {
    script == deleted || EndsWith(script, "/" + deleted)
  }

  predicate ReferencesAny(script: string, deletedPaths: seq<string>) {
    script != "" && exists p | p in deletedPaths :: References(script, p)
  }

  /** Does the command invoke one of the deleted scripts? */
  predicate Matches(command: string, deletedPaths: seq<string>) {
    Tokens(command) != [] && ReferencesAny(Invoked(Tokens(command), 0), deletedPaths)
  }

  method FindReference(script: string, deletedPaths: seq<string>) returns (r: bool)
    ensures r == ReferencesAny(script, deletedPaths)
  {
    if script == "" {
      return false;
    }
    for i := 0 to |deletedPaths|
      invariant forall j | 0 <= j < i :: !References(script, deletedPaths[j])
    {
      if References(script, deletedPaths[i]) {
        return true;
      }
    }
    return false;
  }

  method CommandMatchesDeletedPath(command: string, deletedPaths: seq<string>) returns (r: bool)
    ensures r == Matches(command, deletedPaths)
  {
    var tokens := Tokens(command);
    if tokens == [] {
      return false;
    }
    var script := ExtractInvokedScriptToken(tokens);
    r := FindReference(script, deletedPaths);
  }

  // ---------- What the extraction finds ----------

  lemma {:induction false} FlagsSkipped(before: seq<string>, flags: seq<string>, script: string, after: seq<string>)
    requires (forall f | f in flags :: IsFlag(f)) && !IsFlag(script)
    ensures SkipFlags(before + flags + [script] + after, |before|) == |before| + |flags|
    decreases |flags|
  {
    var tokens := before + flags + [script] + after;
    if flags != [] {
      assert tokens[|before|] == flags[0] && flags[0] in flags;
      assert tokens == (before + [flags[0]]) + flags[1..] + [script] + after;
      FlagsSkipped(before + [flags[0]], flags[1..], script, after);
    } else {
      assert tokens[|before|] == script;
    }
  }

  lemma ScriptAt(tokens: seq<string>, i: nat, k: nat)
    requires i < k < |tokens| && IsPythonCommandToken(tokens[i]) && SkipFlags(tokens, i + 1) == k
    ensures Invoked(tokens, i) == Unquoted(tokens[k])
  {
  }

  lemma {:induction false} NoInterpreterBefore(tokens: seq<string>, i: nat, k: nat)
    requires i <= k < |tokens| && forall j | i <= j < k :: !IsPythonCommandToken(tokens[j])
    ensures Invoked(tokens, i) == Invoked(tokens, k)
    decreases k - i
  {
    if i < k {
      NoInterpreterBefore(tokens, i + 1, k);
    }
  }

  /** In `… python <flags> <script> <arguments>` the script is found, whatever the arguments are. */
  lemma ScriptAfterInterpreter(before: seq<string>, python: string, flags: seq<string>, script: string, arguments: seq<string>)
    requires (forall t | t in before :: !IsPythonCommandToken(t)) && IsPythonCommandToken(python)
    requires (forall f | f in flags :: IsFlag(f)) && !IsFlag(script)
    ensures Invoked(before + [python] + flags + [script] + arguments, 0) == Unquoted(script)
  {
    var tokens := before + [python] + flags + [script] + arguments;
    assert forall j | 0 <= j < |before| :: tokens[j] == before[j];
    NoInterpreterBefore(tokens, 0, |before|);
    FlagsSkipped(before + [python], flags, script, arguments);
    assert tokens[|before|] == python && tokens[|before| + 1 + |flags|] == script;
    ScriptAt(tokens, |before|, |before| + 1 + |flags|);
  }
}
