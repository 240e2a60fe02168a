/**
 * Quoting a command line for `sh -c` (apps/run-supervisor/src/container-backend.ts), against the
 * token recognition and quoting rules of POSIX.1-2017 XCU sections 2.2.1, 2.2.2 and 2.3.
 */
module ShellQuote {
  import opened Wrappers

  // ----- The shell's side

  /** A word and whether an unquoted character in it is subject to expansion; or an operator character. */
  datatype Token = Word(text: string, active: bool) | Operator(c: char)

  /** `Broken` stands for everything the rules here do not cover: double quotes, substitutions, comments. */
  datatype Mode =
    | Between
    | InWord(text: string, active: bool)
    | InQuotes(text: string, active: bool)
    | AfterBackslash(text: string, active: bool, started: bool)
    | Broken

  datatype Lexer = Lexer(tokens: seq<Token>, mode: Mode)

  predicate IsBlank(c: char) { c == ' ' || c == '\t' }

  predicate IsOperator(c: char) {
    c == '|' || c == '&' || c == ';' || c == '<' || c == '>' || c == '(' || c == ')' || c == '\n'
  }

  predicate IsUncovered(c: char) { c == '"' || c == '$' || c == '`' }

  predicate IsActive(c: char) {
    c == '*' || c == '?' || c == '[' || c == ']' || c == '~' || c == '=' || c == '{' || c == '}' || c == '!'
  }

  function Step(l: Lexer, c: char): Lexer {
    match l.mode
    case Broken => l
    case InQuotes(text, active) =>
      l.(mode := if c == '\'' then InWord(text, active) else InQuotes(text + [c], active))
    case AfterBackslash(text, active, started) =>
      if c != '\n' then l.(mode := InWord(text + [c], active))
      else if started then l.(mode := InWord(text, active))
      else l.(mode := Between)
    case InWord(text, active) =>
      if IsBlank(c) then Lexer(l.tokens + [Word(text, active)], Between)
      else if IsOperator(c) then Lexer(l.tokens + [Word(text, active), Operator(c)], Between)
      else if IsUncovered(c) then l.(mode := Broken)
      else if c == '\'' then l.(mode := InQuotes(text, active))
      else if c == '\\' then l.(mode := AfterBackslash(text, active, true))
      else l.(mode := InWord(text + [c], active || IsActive(c)))
    case Between =>
      if IsBlank(c) then l
      else if IsOperator(c) then Lexer(l.tokens + [Operator(c)], Between)
      else if IsUncovered(c) || c == '#' then l.(mode := Broken)
      else if c == '\'' then l.(mode := InQuotes("", false))
      else if c == '\\' then l.(mode := AfterBackslash("", false, false))
      else l.(mode := InWord([c], IsActive(c)))
  }

  function Lex(l: Lexer, s: string): Lexer
    decreases |s|
  {
    if s == "" then l else Lex(Step(l, s[0]), s[1..])
  }

  /** The tokens of a script, unless it ends inside quotes or leaves the fragment. */
  function Tokens(s: string): Option<seq<Token>> {
    var l := Lex(Lexer([], Between), s);
    match l.mode
    case Between => Some(l.tokens)
    case InWord(text, active) => Some(l.tokens + [Word(text, active)])
    case _ => None
  }

  // ----- The program's side

  function EscapeQuotes(arg: string): string {
    if arg == "" then ""
    else (if arg[0] == '\'' then "'\\''" else [arg[0]]) + EscapeQuotes(arg[1..])
  }

  function ShQuote(arg: string): string {
    "'" + EscapeQuotes(arg) + "'"
  }

  function QuoteAll(args: seq<string>): seq<string> {
    if args == [] then [] else [ShQuote(args[0])] + QuoteAll(args[1..])
  }

  function Join(parts: seq<string>, separator: string): string {
    if parts == [] then ""
    else if |parts| == 1 then parts[0]
    else parts[0] + separator + Join(parts[1..], separator)
  }

  function FinalCommand(command: seq<string>, offline: bool): seq<string> {
    if offline && "--offline" !in command then command + ["--offline"] else command
  }

  /** The script of a build: the preparation steps, then the command in place of the shell. */
  function BuildScript(steps: seq<string>, command: seq<string>, offline: bool): string {
    Join(steps + ["exec " + Join(QuoteAll(FinalCommand(command, offline)), " ")], " && ")
  }

  // ----- Quoting and tokenising

  lemma {:induction false} LexConcat(l: Lexer, a: string, b: string)
    ensures Lex(l, a + b) == Lex(Lex(l, a), b)
    decreases |a|
  {
    if a == "" {
      assert a + b == b;
    } else {
      assert (a + b)[0] == a[0] && (a + b)[1..] == a[1..] + b;
      LexConcat(Step(l, a[0]), a[1..], b);
    }
  }

  lemma LexOne(l: Lexer, c: char)
    ensures Lex(l, [c]) == Step(l, c)
  {
    assert [c][1..] == "";
  }

  /** Inside quotes, an escaped argument is read as the argument. */
  lemma {:induction false} EscapedIsRead(tokens: seq<Token>, before: string, arg: string)
    ensures Lex(Lexer(tokens, InQuotes(before, false)), EscapeQuotes(arg)) == Lexer(tokens, InQuotes(before + arg, false))
    decreases |arg|
  {
    var l := Lexer(tokens, InQuotes(before, false));
    if arg == "" {
      assert before + arg == before;
    } else {
      var c, rest := arg[0], arg[1..];
      var head := if c == '\'' then "'\\''" else [c];
      var next := Lexer(tokens, InQuotes(before + [c], false));
      assert Lex(l, head) == next by {
        if c == '\'' {
          QuoteIsRead(tokens, before);
        } else {
          LexOne(l, c);
        }
      }
      LexConcat(l, head, EscapeQuotes(rest));
      EscapedIsRead(tokens, before + [c], rest);
      assert before + [c] + rest == before + arg;
    }
  }

  lemma QuoteIsRead(tokens: seq<Token>, before: string)
    ensures Lex(Lexer(tokens, InQuotes(before, false)), "'\\''") == Lexer(tokens, InQuotes(before + "'", false))
  {
    var l := Lexer(tokens, InQuotes(before, false));
    assert "'\\''" == ['\''] + (['\\'] + (['\''] + ['\'']));
    LexConcat(l, ['\''], ['\\'] + (['\''] + ['\'']));
    LexOne(l, '\'');
    var l1 := Lexer(tokens, InWord(before, false));
    LexConcat(l1, ['\\'], ['\''] + ['\'']);
    LexOne(l1, '\\');
    var l2 := Lexer(tokens, AfterBackslash(before, false, true));
    LexConcat(l2, ['\''], ['\'']);
    LexOne(l2, '\'');
    LexOne(Lexer(tokens, InWord(before + "'", false)), '\'');
  }

  /** A quoted argument is one word, exactly the argument, with nothing left to expand. */
  lemma QuotedIsOneWord(tokens: seq<Token>, arg: string)
    ensures Lex(Lexer(tokens, Between), ShQuote(arg)) == Lexer(tokens, InWord(arg, false))
  {
    var l := Lexer(tokens, Between);
    LexConcat(l, "'" + EscapeQuotes(arg), "'");
    LexConcat(l, "'", EscapeQuotes(arg));
    LexOne(l, '\'');
    EscapedIsRead(tokens, "", arg);
    assert "" + arg == arg;
    LexOne(Lexer(tokens, InQuotes(arg, false)), '\'');
  }

  function Words(args: seq<string>): seq<Token> {
    if args == [] then [] else [Word(args[0], false)] + Words(args[1..])
  }

  /** What the lexer amounts to if the script ended here. */
  ghost predicate EndsWith(l: Lexer, tokens: seq<Token>) {
    match l.mode
    case Between => l.tokens == tokens
    case InWord(text, active) => l.tokens + [Word(text, active)] == tokens
    case _ => false
  }

  lemma QuotedThenBlank(tokens: seq<Token>, arg: string, more: string)
    ensures Lex(Lexer(tokens, Between), ShQuote(arg) + " " + more) == Lex(Lexer(tokens + [Word(arg, false)], Between), more)
  {
    var l := Lexer(tokens, Between);
    LexConcat(l, ShQuote(arg) + " ", more);
    LexConcat(l, ShQuote(arg), " ");
    QuotedIsOneWord(tokens, arg);
    LexOne(Lexer(tokens, InWord(arg, false)), ' ');
  }

  lemma {:induction false} JoinedIsRead(tokens: seq<Token>, args: seq<string>)
    ensures EndsWith(Lex(Lexer(tokens, Between), Join(QuoteAll(args), " ")), tokens + Words(args))
    decreases |args|
  {
    var l := Lexer(tokens, Between);
    if args != [] {
      var arg, rest := args[0], args[1..];
      if rest == [] {
        QuotedIsOneWord(tokens, arg);
        assert Words(args) == [Word(arg, false)];
      } else {
        var more := Join(QuoteAll(rest), " ");
        assert QuoteAll(args)[1..] == QuoteAll(rest);
        QuotedThenBlank(tokens, arg, more);
        JoinedIsRead(tokens + [Word(arg, false)], rest);
        assert tokens + [Word(arg, false)] + Words(rest) == tokens + Words(args);
      }
    } else {
      assert tokens + [] == tokens;
    }
  }

  /** The shell splits the joined, quoted arguments back into exactly those arguments. */
  lemma QuotingRoundTrip(args: seq<string>)
    ensures Tokens(Join(QuoteAll(args), " ")) == Some(Words(args))
  {
    JoinedIsRead([], args);
    assert [] + Words(args) == Words(args);
  }

  lemma {:induction false} WordsInjective(a: seq<string>, b: seq<string>)
    requires Words(a) == Words(b)
    ensures a == b
    decreases |a|
  {
    if a != [] && b != [] {
      assert Words(a)[0] == Words(b)[0] && Words(a)[1..] == Words(a[1..]) && Words(b)[1..] == Words(b[1..]);
      WordsInjective(a[1..], b[1..]);
      assert a == [a[0]] + a[1..] && b == [b[0]] + b[1..];
    }
  }

  /** Two command lines that are quoted alike are the same command line. */
  lemma QuotingInjective(a: seq<string>, b: seq<string>)
    requires Join(QuoteAll(a), " ") == Join(QuoteAll(b), " ")
    ensures a == b
  {
    QuotingRoundTrip(a);
    QuotingRoundTrip(b);
    WordsInjective(a, b);
  }

  const AND_EXEC: seq<Token> := [Operator('&'), Operator('&'), Word("exec", false)]

  /** A character that simply belongs to the word it stands in. */
  predicate IsPlain(c: char) {
    !IsBlank(c) && !IsOperator(c) && !IsUncovered(c) && c != '\'' && c != '\\' && c != '#' && !IsActive(c)
  }

  lemma {:induction false} PlainIsRead(tokens: seq<Token>, before: string, word: string)
    requires forall c :: c in word ==> IsPlain(c)
    ensures Lex(Lexer(tokens, InWord(before, false)), word) == Lexer(tokens, InWord(before + word, false))
    decreases |word|
  {
    if word == "" {
      assert before + word == before;
    } else {
      assert IsPlain(word[0]);
      assert Step(Lexer(tokens, InWord(before, false)), word[0]) == Lexer(tokens, InWord(before + [word[0]], false));
      PlainIsRead(tokens, before + [word[0]], word[1..]);
      assert before + [word[0]] + word[1..] == before + word;
    }
  }

  predicate IsPlainWord(word: string) {
    word != "" && forall c :: c in word ==> IsPlain(c)
  }

  lemma WordIsRead(tokens: seq<Token>, word: string)
    requires IsPlainWord(word)
    ensures Lex(Lexer(tokens, Between), word) == Lexer(tokens, InWord(word, false))
  {
    assert IsPlain(word[0]);
    assert Step(Lexer(tokens, Between), word[0]) == Lexer(tokens, InWord([word[0]], false));
    PlainIsRead(tokens, [word[0]], word[1..]);
    assert [word[0]] + word[1..] == word;
  }

  lemma AndIsRead(l: Lexer, tokens: seq<Token>)
    requires EndsWith(l, tokens)
    ensures Lex(l, " && ") == Lexer(tokens + [Operator('&'), Operator('&')], Between)
  {
    var between := Lexer(tokens, Between);
    var one := Lexer(tokens + [Operator('&')], Between);
    var two := Lexer(tokens + [Operator('&')] + [Operator('&')], Between);
    assert " && " == " " + ("&" + ("&" + " "));
    LexConcat(l, " ", "&" + ("&" + " "));
    LexOne(l, ' ');
    LexConcat(between, "&", "&" + " ");
    LexOne(between, '&');
    LexConcat(one, "&", " ");
    LexOne(one, '&');
    LexOne(two, ' ');
    assert two.tokens == tokens + [Operator('&'), Operator('&')];
  }

  lemma WordAfter(l: Lexer, tokens: seq<Token>, before: string, word: string)
    requires Lex(l, before) == Lexer(tokens, Between) && IsPlainWord(word)
    ensures Lex(l, before + (word + " ")) == Lexer(tokens + [Word(word, false)], Between)
  {
    LexConcat(l, before, word + " ");
    LexConcat(Lexer(tokens, Between), word, " ");
    WordIsRead(tokens, word);
    LexOne(Lexer(tokens, InWord(word, false)), ' ');
  }

  lemma ExecIsPlain(word: string)
    requires word == "exec"
    ensures IsPlainWord(word)
  {
  }

  lemma ExecIsRead(l: Lexer, tokens: seq<Token>, ands: string, word: string)
    requires EndsWith(l, tokens) && ands == " && " && word == "exec"
    ensures Lex(l, ands + (word + " ")) == Lexer(tokens + AND_EXEC, Between)
  {
    var after := tokens + [Operator('&'), Operator('&')];
    AndIsRead(l, tokens);
    ExecIsPlain(word);
    WordAfter(l, after, ands, word);
    assert after + [Word(word, false)] == tokens + AND_EXEC;
  }

  lemma {:induction false} JoinLast(parts: seq<string>, last: string, separator: string)
    requires parts != []
    ensures Join(parts + [last], separator) == Join(parts, separator) + separator + last
  {
    var all := parts + [last];
    if |parts| == 1 {
      assert all[1..] == [last];
    } else {
      assert all[1..] == parts[1..] + [last];
      JoinLast(parts[1..], last, separator);
      var tail := Join(parts[1..], separator);
      assert parts[0] + separator + (tail + separator + last) == parts[0] + separator + tail + separator + last;
    }
  }

  /**
   * The tokens are those of the preparation, `&& exec`, and the arguments of the command, each one word
   * that is not expanded; then `--offline` if that is asked for and the command does not have it, and
   * nothing else.
   */
  ghost predicate RunsAfter(tokens: seq<Token>, preparation: seq<Token>, command: seq<string>, offline: bool) {
    var n := |preparation|;
    var added := if offline && "--offline" !in command then 1 else 0;
    && |tokens| == n + 3 + |command| + added
    && tokens[..n] == preparation
    && tokens[n] == Operator('&') && tokens[n + 1] == Operator('&') && tokens[n + 2] == Word("exec", false)
    && (forall i :: 0 <= i < |command| ==> tokens[n + 3 + i] == Word(command[i], false))
    && (added == 1 ==> tokens[n + 3 + |command|] == Word("--offline", false))
  }

  lemma {:induction false} WordsAt(args: seq<string>)
    ensures |Words(args)| == |args| && forall i :: 0 <= i < |args| ==> Words(args)[i] == Word(args[i], false)
  {
    if args != [] {
      WordsAt(args[1..]);
    }
  }

  lemma CommandRunsAfter(preparation: seq<Token>, command: seq<string>, offline: bool)
    ensures RunsAfter(preparation + AND_EXEC + Words(FinalCommand(command, offline)), preparation, command, offline)
  {
    var args := FinalCommand(command, offline);
    WordsAt(args);
    assert forall i :: 0 <= i < |command| ==> args[i] == command[i];
    var tokens := preparation + AND_EXEC + Words(args);
    assert forall i :: 0 <= i < |args| ==> tokens[|preparation| + 3 + i] == Words(args)[i];
  }

  /** After any preparation steps that are complete commands, the script runs exactly the command. */
  lemma BuildRunsTheCommand(steps: seq<string>, command: seq<string>, offline: bool)
    requires steps != [] && Tokens(Join(steps, " && ")).Some?
    ensures Tokens(BuildScript(steps, command, offline))
            == Some(Tokens(Join(steps, " && ")).value + AND_EXEC + Words(FinalCommand(command, offline)))
    ensures RunsAfter(Tokens(BuildScript(steps, command, offline)).value, Tokens(Join(steps, " && ")).value, command, offline)
  {
    CommandRunsAfter(Tokens(Join(steps, " && ")).value, command, offline);
    var prefix, tokens := Join(steps, " && "), Tokens(Join(steps, " && ")).value;
    var args := FinalCommand(command, offline);
    var quoted := Join(QuoteAll(args), " ");
    var ands, word := " && ", "exec";
    JoinLast(steps, "exec " + quoted, " && ");
    assert prefix + " && " + ("exec " + quoted) == prefix + (ands + (word + " ")) + quoted;
    var start := Lexer([], Between);
    LexConcat(start, prefix + (ands + (word + " ")), quoted);
    LexConcat(start, prefix, ands + (word + " "));
    ExecIsRead(Lex(start, prefix), tokens, ands, word);
    JoinedIsRead(tokens + AND_EXEC, args);
  }

  // ----- The preparation steps of a build

  /** The step that copies a dependency cache, in pieces. */
  const CACHE_STEP_0 := "mkdir -p "
  const CACHE_STEP_1 := "/output/.gradle && "
  const CACHE_STEP_2 := "tar -C /cache -cf - "
  const CACHE_STEP_3 := "--exclude=*.lock "
  const CACHE_STEP_4 := "--exclude=*.lck "
  const CACHE_STEP_5 := "--exclude=*.tmp . | "
  const CACHE_STEP_6 := "tar -C /output/"
  const CACHE_STEP_7 := ".gradle -xf -"
  const CACHE_STEP := CACHE_STEP_0 + CACHE_STEP_1 + CACHE_STEP_2 + CACHE_STEP_3
                      + CACHE_STEP_4 + CACHE_STEP_5 + CACHE_STEP_6 + CACHE_STEP_7
  const COPY_STEP := "cp -a /src/. /output/src/"

  function BuildSteps(cached: bool): seq<string> {
    (if cached then [CACHE_STEP] else []) + [COPY_STEP]
  }

  /** A character that opens neither a quotation nor anything the rules do not cover. */
  predicate OpensNothing(c: char) {
    !IsUncovered(c) && c != '\'' && c != '\\' && c != '#'
  }

  ghost predicate AllOpenNothing(s: string) {
    forall i :: 0 <= i < |s| ==> OpensNothing(s[i])
  }

  lemma {:induction false} StaysComplete(l: Lexer, s: string)
    requires (l.mode.Between? || l.mode.InWord?) && AllOpenNothing(s)
    ensures Lex(l, s).mode.Between? || Lex(l, s).mode.InWord?
    decreases |s|
  {
    if s != "" {
      assert OpensNothing(s[0]);
      StaysComplete(Step(l, s[0]), s[1..]);
    }
  }

  lemma PieceOpensNothing(s: string)
    requires s in {CACHE_STEP_0, CACHE_STEP_1, CACHE_STEP_2, CACHE_STEP_3}
    ensures AllOpenNothing(s)
  {
  }

  lemma LaterPieceOpensNothing(s: string)
    requires s in {CACHE_STEP_4, CACHE_STEP_5, CACHE_STEP_6, CACHE_STEP_7}
    ensures AllOpenNothing(s)
  {
  }

  lemma CopyStepOpensNothing(s: string)
    requires s == " && " + COPY_STEP
    ensures AllOpenNothing(s)
  {
  }

  lemma CacheStepOpensNothing()
    ensures AllOpenNothing(CACHE_STEP)
  {
    PieceOpensNothing(CACHE_STEP_0);
    PieceOpensNothing(CACHE_STEP_1);
    PieceOpensNothing(CACHE_STEP_2);
    PieceOpensNothing(CACHE_STEP_3);
    LaterPieceOpensNothing(CACHE_STEP_4);
    LaterPieceOpensNothing(CACHE_STEP_5);
    LaterPieceOpensNothing(CACHE_STEP_6);
    LaterPieceOpensNothing(CACHE_STEP_7);
  }

  lemma PreparationIsJoined(cached: bool, cache: string, copy: string)
    requires cache == CACHE_STEP && copy == COPY_STEP
    ensures Join(BuildSteps(cached), " && ") == if cached then cache + (" && " + copy) else copy
  {
    if cached {
      assert BuildSteps(cached) == [cache, copy];
      assert [cache, copy][1..] == [copy];
    } else {
      assert BuildSteps(cached) == [copy];
    }
  }

  lemma PreparationOpensNothing(cached: bool, cache: string, copy: string)
    requires cache == CACHE_STEP && copy == COPY_STEP
    ensures AllOpenNothing(Join(BuildSteps(cached), " && "))
  {
    PreparationIsJoined(cached, cache, copy);
    CopyStepOpensNothing(" && " + copy);
    assert (" && " + copy)[4..] == copy;
    if cached {
      CacheStepOpensNothing();
    }
  }

  /** With or without a dependency cache, a build runs its command and nothing else after its preparation. */
  lemma EveryBuildRunsTheCommand(cached: bool, command: seq<string>, offline: bool)
    ensures var preparation := Tokens(if cached then CACHE_STEP + (" && " + COPY_STEP) else COPY_STEP);
            var script := Tokens(BuildScript(BuildSteps(cached), command, offline));
            && preparation.Some? && script.Some?
            && RunsAfter(script.value, preparation.value, command, offline)
  {
    var steps := BuildSteps(cached);
    PreparationIsJoined(cached, CACHE_STEP, COPY_STEP);
    PreparationOpensNothing(cached, CACHE_STEP, COPY_STEP);
    StaysComplete(Lexer([], Between), Join(steps, " && "));
    BuildRunsTheCommand(steps, command, offline);
  }

  /** Puts the script together step by step. */
  method AssembleBuild(command: seq<string>, cached: bool, offline: bool) returns (script: string)
    ensures script == BuildScript(BuildSteps(cached), command, offline)
  {
    var steps := [];
    if cached {
      steps := steps + [CACHE_STEP];
    }
    steps := steps + [COPY_STEP];
    assert steps == BuildSteps(cached);
    var finalCommand := command;
    if offline && "--offline" !in finalCommand {
      finalCommand := finalCommand + ["--offline"];
    }
    steps := steps + ["exec " + Join(QuoteAll(finalCommand), " ")];
    script := Join(steps, " && ");
  }
}
