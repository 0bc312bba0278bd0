/** The shell's way from a typed line to the commands it runs one after the other. */
module Shell {
  import opened Tallies

  const MAX_TOKEN_SIZE := 64
  const MAX_NUM_TOKENS := 64
  const AND := "&&"

  predicate IsSpace(c: char) {
    c == ' ' || c == '\n' || c == '\t'
  }

  /** The tokens of a line, word being read already: whitespace ends a token, the end of the line does not. */
  function Tokens(line: string, word: string): seq<string> {
    if line == "" then []
    else if !IsSpace(line[0]) then Tokens(line[1..], word + [line[0]])
    else if word == "" then Tokens(line[1..], "")
    else [word] + Tokens(line[1..], "")
  }

  /** Every character and every token read has a place in its buffer, with one left for the end mark. */
  predicate Fits(line: string, word: string, count: nat) {
    && |word| <= MAX_TOKEN_SIZE && count < MAX_NUM_TOKENS
    && (line == "" ||
        (|word| < MAX_TOKEN_SIZE &&
         if !IsSpace(line[0]) then Fits(line[1..], word + [line[0]], count)
         else Fits(line[1..], "", if word == "" then count else count + 1)))
  }

  /** tokenize: a NULL follows the last token in the array returned. */
  method Tokenize(line: string) returns (tokens: array<Option<string>>)
    requires Fits(line, "", 0)
    ensures fresh(tokens) && Terminated(tokens[..], Tokens(line, ""))
  {
    tokens := new Option<string>[MAX_NUM_TOKENS];
    var token := new char[MAX_TOKEN_SIZE];
    var tokenIndex, tokenNo := 0, 0;
    ghost var done: seq<string> := [];
    for i := 0 to |line|
      invariant 0 <= tokenIndex <= token.Length == MAX_TOKEN_SIZE
      invariant tokens.Length == MAX_NUM_TOKENS && tokenNo == |done|
      invariant Fits(line[i..], token[..tokenIndex], tokenNo)
      invariant Tokens(line, "") == done + Tokens(line[i..], token[..tokenIndex])
      invariant forall n :: 0 <= n < tokenNo ==> tokens[n] == Some(done[n])
    {
      assert line[i..][1..] == line[i + 1..];
      var readChar := line[i];
      if IsSpace(readChar) {
        if tokenIndex != 0 {
          tokens[tokenNo] := Some(token[..tokenIndex]);
          done := done + [token[..tokenIndex]];
          tokenNo := tokenNo + 1;
          tokenIndex := 0;
        }
        assert token[..tokenIndex] == "";
      } else {
        ghost var word := token[..tokenIndex];
        token[tokenIndex] := readChar;
        tokenIndex := tokenIndex + 1;
        assert token[..tokenIndex] == word + [readChar];
      }
    }
    tokens[tokenNo] := None;
  }

  /** The array holds these tokens and then a NULL. */
  predicate Terminated(tokens: seq<Option<string>>, ts: seq<string>) {
    && |ts| < |tokens| && tokens[|ts|] == None
    && forall i :: 0 <= i < |ts| ==> tokens[i] == Some(ts[i])
  }

  /** The commands between the separators, cmd being read already.  Each separator runs what
      stands before it, even nothing; what stands after the last one runs if there is any. */
  function Commands(ts: seq<string>, cmd: seq<string>): seq<seq<string>> {
    if ts == [] then (if cmd == [] then [] else [cmd])
    else if ts[0] == AND then [cmd] + Commands(ts[1..], [])
    else Commands(ts[1..], cmd + [ts[0]])
  }

  /** The argument vector execvp is given: the tokens from the given place up to a NULL. */
  function Argv(tokens: seq<Option<string>>, from: nat): seq<string>
    decreases |tokens| - from
  {
    if from < |tokens| && tokens[from].Some? then [tokens[from].value] + Argv(tokens, from + 1) else []
  }

  lemma {:induction false} ArgvIs(tokens: seq<Option<string>>, from: nat, argv: seq<string>)
    requires from + |argv| < |tokens| && tokens[from + |argv|] == None
    requires forall k :: 0 <= k < |argv| ==> tokens[from + k] == Some(argv[k])
    ensures Argv(tokens, from) == argv
    decreases |argv|
  {
    if argv != [] {
      assert tokens[from] == Some(argv[0]);
      forall k | 0 <= k < |argv[1..]|
        ensures tokens[from + 1 + k] == Some(argv[1..][k])
      {
        assert argv[1..][k] == argv[k + 1];
      }
      ArgvIs(tokens, from + 1, argv[1..]);
    }
  }

  /** The commands run when an interrupt, if any, arrives with so many of them forked. */
  function Until(commands: seq<seq<string>>, interrupt: Option<nat>): seq<seq<string>> {
    if interrupt.Some? && interrupt.value < |commands| then commands[..interrupt.value] else commands
  }

  /** The separators overwritten with NULL: those before the interrupt. */
  predicate IsCut(ts: seq<string>, i: nat, interrupt: Option<nat>)
    requires i < |ts|
  {
    ts[i] == AND && (interrupt.Some? ==> Count(ts[..i + 1], AND) <= interrupt.value)
  }

  lemma CountNext(ts: seq<string>, i: nat)
    requires i < |ts|
    ensures Count(ts[..i + 1], AND) == Count(ts[..i], AND) + if ts[i] == AND then 1 else 0
  {
    assert ts[..i + 1] == ts[..i] + [ts[i]];
    TallyConcat(ts[..i], [ts[i]], Is(AND));
    assert Tally([ts[i]], Is(AND)) == Is(AND)(ts[i]);
  }

  lemma {:induction false} CountGrows(ts: seq<string>, i: nat, j: nat)
    requires i <= j <= |ts|
    ensures Count(ts[..i], AND) <= Count(ts[..j], AND)
  {
    if i < j {
      CountGrows(ts, i, j - 1);
      CountNext(ts, j - 1);
    }
  }

  /** What is split once the first i tokens are read, the command being read starting at the given place. */
  ghost predicate Split(ts: seq<string>, from: nat, i: nat, log: seq<seq<string>>)
    requires from <= i <= |ts|
  {
    && Commands(ts, []) == log + Commands(ts[i..], ts[from..i])
    && |log| == Count(ts[..i], AND)
  }

  lemma SplitNext(ts: seq<string>, from: nat, i: nat, log: seq<seq<string>>)
    requires from <= i < |ts| && Split(ts, from, i, log)
    ensures if ts[i] == AND then Split(ts, i + 1, i + 1, log + [ts[from..i]]) else Split(ts, from, i + 1, log)
  {
    CountNext(ts, i);
    assert ts[i..][1..] == ts[i + 1..];
    assert ts[i + 1..i + 1] == [] && ts[from..i + 1] == ts[from..i] + [ts[i]];
    var rest := Commands(ts[i + 1..], []);
    assert ts[i] == AND ==> log + ([ts[from..i]] + rest) == log + [ts[from..i]] + rest;
  }

  /** Once all is read or the interrupt has come, the command being read is the last one or not run. */
  lemma SplitDone(ts: seq<string>, from: nat, i: nat, log: seq<seq<string>>, interrupt: Option<nat>)
    requires from <= i <= |ts| && Split(ts, from, i, log) && (interrupt.Some? ==> |log| <= interrupt.value)
    requires i == |ts| || interrupt == Some(|log|)
    ensures Until(Commands(ts, []), interrupt) ==
            if from < i && interrupt != Some(|log|) then log + [ts[from..i]] else log
  {
  }

  /** Splitting stops at the end of the tokens or at the interrupt: the separators before that
      place are the cut ones. */
  lemma CutBefore(ts: seq<string>, stop: nat, interrupt: Option<nat>)
    requires stop <= |ts| && (interrupt.Some? ==> Count(ts[..stop], AND) <= interrupt.value)
    requires stop == |ts| || interrupt == Some(Count(ts[..stop], AND))
    ensures forall i :: 0 <= i < |ts| ==> (IsCut(ts, i, interrupt) <==> i < stop && ts[i] == AND)
  {
    forall i | 0 <= i < |ts|
      ensures IsCut(ts, i, interrupt) <==> i < stop && ts[i] == AND
    {
      if i < stop {
        CountGrows(ts, i + 1, stop);
      } else {
        CountGrows(ts, stop, i);
        CountNext(ts, i);
      }
    }
  }

  /** A fork, an execvp and the wait for it: what is run is the vector that starts at the given place. */
  method Execute(tokens: array<Option<string>>, command_index: nat, ghost argv: seq<string>) returns (run: seq<string>)
    requires command_index + |argv| < tokens.Length && tokens[command_index + |argv|] == None
    requires forall i :: 0 <= i < |argv| ==> tokens[command_index + i] == Some(argv[i])
    ensures run == argv
  {
    ArgvIs(tokens[..], command_index, argv);
    run := Argv(tokens[..], command_index);
  }

  /** A separator becomes NULL, and the command it ends is run. */
  method CutAndExecute(tokens: array<Option<string>>, command_index: nat, tokenCount: nat, ghost argv: seq<string>)
      returns (run: seq<string>)
    requires command_index + |argv| == tokenCount < tokens.Length
    requires forall i :: 0 <= i < |argv| ==> tokens[command_index + i] == Some(argv[i])
    modifies tokens
    ensures tokens[tokenCount] == None && run == argv
    ensures forall i :: 0 <= i < tokens.Length && i != tokenCount ==> tokens[i] == old(tokens[i])
  {
    tokens[tokenCount] := None;
    run := Execute(tokens, command_index, argv);
  }

  /** serial_process: the log records the argument vector of each command forked and waited for. */
  method SerialProcess(tokens: array<Option<string>>, ghost ts: seq<string>, interrupt: Option<nat>)
      returns (log: seq<seq<string>>)
    requires Terminated(tokens[..], ts)
    modifies tokens
    ensures log == Until(Commands(ts, []), interrupt)
    ensures log <= Commands(ts, [])
    ensures |log| == |Commands(ts, [])| || interrupt == Some(|log|)
    ensures interrupt.Some? ==> |log| <= interrupt.value
    ensures forall i :: 0 <= i < |ts| ==> tokens[i] == if IsCut(ts, i, interrupt) then None else Some(ts[i])
    ensures forall i :: |ts| <= i < tokens.Length ==> tokens[i] == old(tokens[i])
  {
    var tokenCount, command_index := 0, 0;
    var stop_execution := interrupt == Some(0);
    log := [];
    while tokens[tokenCount] != None && !stop_execution
      invariant 0 <= command_index <= tokenCount <= |ts| < tokens.Length
      invariant forall i :: command_index <= i < |ts| ==> tokens[i] == Some(ts[i])
      invariant forall i :: 0 <= i < command_index ==> tokens[i] == if ts[i] == AND then None else Some(ts[i])
      invariant forall i :: |ts| <= i < tokens.Length ==> tokens[i] == old(tokens[i])
      invariant forall i :: command_index <= i < tokenCount ==> ts[i] != AND
      invariant Split(ts, command_index, tokenCount, log)
      invariant stop_execution <==> interrupt == Some(|log|)
      invariant interrupt.Some? ==> |log| <= interrupt.value
      decreases |ts| - tokenCount
    {
      SplitNext(ts, command_index, tokenCount, log);
      if tokens[tokenCount] == Some(AND) {
        var run := CutAndExecute(tokens, command_index, tokenCount, ts[command_index..tokenCount]);
        log := log + [run];
        stop_execution := interrupt == Some(|log|);
        command_index := tokenCount + 1;
      }
      tokenCount := tokenCount + 1;
    }
    CutBefore(ts, tokenCount, interrupt);
    SplitDone(ts, command_index, tokenCount, log, interrupt);
    if command_index < tokenCount && !stop_execution {
      var run := Execute(tokens, command_index, ts[command_index..tokenCount]);
      log := log + [run];
    }
  }

  // ---- printing, which parsing inverts

  function JoinWith(parts: seq<string>, glue: string): string {
    if parts == [] then ""
    else if |parts| == 1 then parts[0]
    else parts[0] + glue + JoinWith(parts[1..], glue)
  }

  /** Words with spaces between them, commands with " && ", and a newline. */
  function Print(commands: seq<seq<string>>): string {
    JoinWith(seq(|commands|, i requires 0 <= i < |commands| => JoinWith(commands[i], " ")), " && ") + "\n"
  }

  predicate IsWord(word: string) {
    word != "" && forall c :: c in word ==> !IsSpace(c)
  }

  predicate IsCommand(cmd: seq<string>) {
    cmd != [] && forall word :: word in cmd ==> IsWord(word) && word != AND
  }

  /** The tokens of a list of commands. */
  function Join(commands: seq<seq<string>>): seq<string> {
    if commands == [] then []
    else if |commands| == 1 then commands[0]
    else commands[0] + [AND] + Join(commands[1..])
  }

  lemma {:induction false} TokensOfWord(word: string, read: string, rest: string)
    requires forall c :: c in word ==> !IsSpace(c)
    ensures Tokens(word + rest, read) == Tokens(rest, read + word)
    decreases |word|
  {
    if word == "" {
      assert word + rest == rest && read + word == read;
    } else {
      assert word[0] in word && (word + rest)[1..] == word[1..] + rest;
      TokensOfWord(word[1..], read + [word[0]], rest);
      assert read + [word[0]] + word[1..] == read + word;
    }
  }

  lemma TokensOfWordAndSpace(word: string, space: char, rest: string)
    requires IsWord(word) && IsSpace(space)
    ensures Tokens(word + ([space] + rest), "") == [word] + Tokens(rest, "")
  {
    TokensOfWord(word, "", [space] + rest);
    assert "" + word == word && ([space] + rest)[1..] == rest;
  }

  lemma {:induction false} TokensOfCommand(cmd: seq<string>, space: char, rest: string)
    requires cmd != [] && (forall word :: word in cmd ==> IsWord(word)) && IsSpace(space)
    ensures Tokens(JoinWith(cmd, " ") + ([space] + rest), "") == cmd + Tokens(rest, "")
    decreases |cmd|
  {
    assert cmd[0] in cmd;
    if |cmd| == 1 {
      TokensOfWordAndSpace(cmd[0], space, rest);
    } else {
      var more := JoinWith(cmd[1..], " ") + ([space] + rest);
      assert JoinWith(cmd, " ") + ([space] + rest) == cmd[0] + ([' '] + more);
      TokensOfWordAndSpace(cmd[0], ' ', more);
      TokensOfCommand(cmd[1..], space, rest);
    }
  }

  lemma {:induction false} TokensOfPrint(commands: seq<seq<string>>)
    requires forall cmd :: cmd in commands ==> IsCommand(cmd)
    ensures Tokens(Print(commands), "") == Join(commands)
    decreases |commands|
  {
    var lines := seq(|commands|, i requires 0 <= i < |commands| => JoinWith(commands[i], " "));
    if commands == [] {
      assert Print(commands) == "\n";
    } else {
      assert commands[0] in commands;
      if |commands| == 1 {
        TokensOfCommand(commands[0], '\n', "");
        assert Print(commands) == JoinWith(commands[0], " ") + (['\n'] + "");
      } else {
        var rest := Print(commands[1..]);
        assert lines[1..] ==
               seq(|commands[1..]|, i requires 0 <= i < |commands[1..]| => JoinWith(commands[1..][i], " "));
        assert Print(commands) == JoinWith(commands[0], " ") + ([' '] + (AND + ([' '] + rest)));
        TokensOfCommand(commands[0], ' ', AND + ([' '] + rest));
        assert AND[0] == AND[1] == '&';
        TokensOfWordAndSpace(AND, ' ', rest);
        TokensOfPrint(commands[1..]);
      }
    }
  }

  lemma {:induction false} CommandsOfWords(words: seq<string>, read: seq<string>, rest: seq<string>)
    requires AND !in words
    ensures Commands(words + rest, read) == Commands(rest, read + words)
    decreases |words|
  {
    if words == [] {
      assert words + rest == rest && read + words == read;
    } else {
      assert words[0] in words && (words + rest)[1..] == words[1..] + rest;
      CommandsOfWords(words[1..], read + [words[0]], rest);
      assert read + [words[0]] + words[1..] == read + words;
    }
  }

  lemma {:induction false} CommandsOfJoin(commands: seq<seq<string>>)
    requires forall cmd :: cmd in commands ==> cmd != [] && AND !in cmd
    ensures Commands(Join(commands), []) == commands
    decreases |commands|
  {
    if commands != [] {
      assert commands[0] in commands;
      if |commands| == 1 {
        CommandsOfWords(commands[0], [], []);
        assert commands[0] + [] == commands[0] && [] + commands[0] == commands[0];
      } else {
        var rest := [AND] + Join(commands[1..]);
        assert Join(commands) == commands[0] + rest && rest[1..] == Join(commands[1..]);
        CommandsOfWords(commands[0], [], rest);
        assert [] + commands[0] == commands[0];
        CommandsOfJoin(commands[1..]);
      }
    }
  }

  /** Parsing inverts printing: the printed line runs exactly the commands printed, in order. */
  lemma ParseInvertsPrint(commands: seq<seq<string>>)
    requires forall cmd :: cmd in commands ==> IsCommand(cmd)
    ensures Commands(Tokens(Print(commands), ""), []) == commands
  {
    TokensOfPrint(commands);
    CommandsOfJoin(commands);
  }

  lemma JoinFirst(cmd: seq<string>, rest: seq<seq<string>>)
    requires rest != []
    ensures Join([cmd] + rest) == cmd + [AND] + Join(rest)
  {
  }

  /** The tokens without a separator at their end. */
  function Trim(ts: seq<string>): seq<string> {
    if ts != [] && ts[|ts| - 1] == AND then ts[..|ts| - 1] else ts
  }

  lemma TrimFirst(word: string, rest: seq<string>)
    requires rest != []
    ensures Trim([word] + rest) == [word] + Trim(rest)
  {
    assert ([word] + rest)[..|rest|] == [word] + rest[..|rest| - 1];
  }

  /** The other way round: joining what was split gives back the tokens, but for a separator at the end. */
  lemma {:induction false} JoinInvertsSplit(ts: seq<string>, cmd: seq<string>)
    ensures Join(Commands(ts, cmd)) == cmd + Trim(ts)
    decreases |ts|
  {
    if ts == [] {
      assert cmd + [] == cmd;
    } else {
      var rest := ts[1..];
      assert ts == [ts[0]] + rest;
      if rest != [] {
        TrimFirst(ts[0], rest);
      }
      if ts[0] != AND {
        JoinInvertsSplit(rest, cmd + [ts[0]]);
      } else if rest == [] {
        assert Commands(ts, cmd) == [cmd] && cmd + [] == cmd;
      } else {
        JoinInvertsSplit(rest, []);
        SomeCommand(rest, []);
        JoinFirst(cmd, Commands(rest, []));
      }
    }
  }

  lemma {:induction false} SomeCommand(ts: seq<string>, cmd: seq<string>)
    requires ts != []
    ensures Commands(ts, cmd) != []
  {
    if ts[0] != AND && |ts| > 1 {
      SomeCommand(ts[1..], cmd + [ts[0]]);
    }
  }

  // ---- any line, whatever its whitespace

  predicate Blank(text: string) {
    forall c :: c in text ==> c == ' ' || c == '\t' || c == '\n'
  }

  predicate NoBlank(text: string) {
    forall c :: c in text ==> c != ' ' && c != '\t' && c != '\n'
  }

  /** Words, each with the whitespace that ends it. */
  function Spread(words: seq<string>, gaps: seq<string>): string
    requires |words| == |gaps|
  {
    if words == [] then "" else words[0] + (gaps[0] + Spread(words[1..], gaps[1..]))
  }

  ghost predicate Spaced(words: seq<string>, gaps: seq<string>) {
    && |words| == |gaps|
    && (forall i :: 0 <= i < |words| ==> words[i] != "" && NoBlank(words[i]))
    && (forall i :: 0 <= i < |gaps| ==> gaps[i] != "" && Blank(gaps[i]))
  }

  lemma {:induction false} TokensOfBlank(blank: string, rest: string)
    requires Blank(blank)
    ensures Tokens(blank + rest, "") == Tokens(rest, "")
    decreases |blank|
  {
    if blank == "" {
      assert blank + rest == rest;
    } else {
      assert blank[0] in blank && (blank + rest)[1..] == blank[1..] + rest;
      assert forall c :: c in blank[1..] ==> c in blank;
      TokensOfBlank(blank[1..], rest);
    }
  }

  lemma TokensOfWordAndGap(word: string, gap: string, rest: string)
    requires word != "" && NoBlank(word) && gap != "" && Blank(gap)
    ensures Tokens(word + (gap + rest), "") == [word] + Tokens(rest, "")
  {
    assert gap[0] in gap && gap + rest == [gap[0]] + (gap[1..] + rest);
    TokensOfWordAndSpace(word, gap[0], gap[1..] + rest);
    assert forall c :: c in gap[1..] ==> c in gap;
    TokensOfBlank(gap[1..], rest);
  }

  lemma {:induction false} TokensOfSpread(words: seq<string>, gaps: seq<string>, rest: string)
    requires Spaced(words, gaps)
    ensures Tokens(Spread(words, gaps) + rest, "") == words + Tokens(rest, "")
    decreases |words|
  {
    if words == [] {
      assert Spread(words, gaps) + rest == rest;
    } else {
      var more := Spread(words[1..], gaps[1..]) + rest;
      assert Spread(words, gaps) + rest == words[0] + (gaps[0] + more);
      TokensOfWordAndGap(words[0], gaps[0], more);
      TokensOfSpread(words[1..], gaps[1..], rest);
    }
  }

  /** Words with any whitespace between them and before them are the tokens of their line; what
      stands after the last whitespace is none. */
  lemma TokensOfLine(lead: string, words: seq<string>, gaps: seq<string>, last: string)
    requires Blank(lead) && Spaced(words, gaps) && NoBlank(last)
    ensures Tokens(lead + (Spread(words, gaps) + last), "") == words
  {
    TokensOfBlank(lead, Spread(words, gaps) + last);
    TokensOfSpread(words, gaps, last);
    TokensOfWord(last, "", "");
    assert last + "" == last && Tokens("", "" + last) == [];
  }

  /** Every line is of that form, so this says what the tokens of every line are. */
  lemma {:induction false} LineForm(line: string)
      returns (lead: string, words: seq<string>, gaps: seq<string>, last: string)
    ensures Blank(lead) && Spaced(words, gaps) && NoBlank(last)
    ensures line == lead + (Spread(words, gaps) + last)
    decreases |line|
  {
    if line == "" {
      lead, words, gaps, last := "", [], [], "";
    } else {
      lead, words, gaps, last := LineForm(line[1..]);
      assert line == [line[0]] + line[1..];
      if NoBlank([line[0]]) {
        lead, words, gaps, last := PrependLetter(line[0], lead, words, gaps, last);
      } else {
        assert line == ([line[0]] + lead) + (Spread(words, gaps) + last);
        lead := [line[0]] + lead;
      }
    }
  }

  /** A letter before such a line starts its first word, or is a word of its own before whitespace. */
  lemma PrependLetter(c: char, lead: string, words: seq<string>, gaps: seq<string>, last: string)
      returns (lead': string, words': seq<string>, gaps': seq<string>, last': string)
    requires NoBlank([c]) && Blank(lead) && Spaced(words, gaps) && NoBlank(last)
    ensures Blank(lead') && Spaced(words', gaps') && NoBlank(last')
    ensures lead' + (Spread(words', gaps') + last') == [c] + (lead + (Spread(words, gaps) + last))
  {
    lead' := "";
    if lead != "" {
      words', gaps', last' := [[c]] + words, [lead] + gaps, last;
      assert words'[1..] == words && gaps'[1..] == gaps;
      assert Spread(words', gaps') == [c] + (lead + Spread(words, gaps));
    } else if words == [] {
      words', gaps', last' := [], [], [c] + last;
    } else {
      words', gaps', last' := [[c] + words[0]] + words[1..], gaps, last;
      assert words'[1..] == words[1..];
      assert Spread(words', gaps') == [c] + Spread(words, gaps);
    }
  }

  // ---- commands without words

  /** A separator with nothing before it: at the start, or right after another one. */
  predicate Bare(ts: seq<string>, i: int) {
    0 <= i < |ts| && ts[i] == AND && (i == 0 || ts[i - 1] == AND)
  }

  lemma {:induction false} EmptyAmong(ts: seq<string>, cmd: seq<string>)
    ensures [] in Commands(ts, cmd) <==> exists i :: Bare(ts, i) && (i == 0 ==> cmd == [])
    decreases |ts|
  {
    if ts != [] {
      var rest, read := ts[1..], if ts[0] == AND then [] else cmd + [ts[0]];
      EmptyAmong(rest, read);
      if i :| Bare(rest, i) && (i == 0 ==> read == []) {
        assert Bare(ts, i + 1);
      }
      if i :| Bare(ts, i) && (i == 0 ==> cmd == []) && i != 0 {
        assert Bare(rest, i - 1);
      }
      if ts[0] == AND && cmd == [] {
        assert Bare(ts, 0);
      }
    }
  }

  /** A command without words is run, with no program to execute, exactly where a separator has nothing before it. */
  lemma EmptyCommandIff(ts: seq<string>)
    ensures [] in Commands(ts, []) <==> exists i :: Bare(ts, i)
  {
    EmptyAmong(ts, []);
  }

  // ---- the printed line is within the limits

  function Longest(cmd: seq<string>): nat {
    if cmd == [] then 0
    else if Longest(cmd[1..]) < |cmd[0]| then |cmd[0]| else Longest(cmd[1..])
  }

  /** A line fits the buffers if its tokens are few and short enough and the last one is ended. */
  lemma {:induction false} FitsIff(line: string, word: string, count: nat)
    requires line != "" && IsSpace(line[|line| - 1])
    ensures Fits(line, word, count) <==>
            count + |Tokens(line, word)| < 64 && Longest(Tokens(line, word)) < 64
    decreases |line|
  {
    if !IsSpace(line[0]) {
      FitsIff(line[1..], word + [line[0]], count);
      WordCounts(line[1..], word + [line[0]]);
    } else if |line| > 1 {
      FitsIff(line[1..], "", if word == "" then count else count + 1);
    }
  }

  /** A word being read ends up, maybe longer, as a token. */
  lemma {:induction false} WordCounts(line: string, word: string)
    requires line != "" && IsSpace(line[|line| - 1]) && word != ""
    ensures Tokens(line, word) != [] && |word| <= Longest(Tokens(line, word))
    decreases |line|
  {
    if !IsSpace(line[0]) {
      WordCounts(line[1..], word + [line[0]]);
    }
  }

  /** Tokenized and run, within the limits and with no interrupt: exactly the commands printed. */
  method RunPrinted(commands: seq<seq<string>>) returns (log: seq<seq<string>>)
    requires forall cmd :: cmd in commands ==> IsCommand(cmd)
    requires |Join(commands)| < MAX_NUM_TOKENS && Longest(Join(commands)) < MAX_TOKEN_SIZE
    ensures log == commands
  {
    TokensOfPrint(commands);
    FitsIff(Print(commands), "", 0);
    CommandsOfJoin(commands);
    var tokens := Tokenize(Print(commands));
    log := SerialProcess(tokens, Join(commands), None);
  }
}
