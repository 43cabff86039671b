/**
 Command lines for a remote POSIX shell: `shlex.quote`, the joined argument vector, and the extra
 `pct exec … sh -c` and `sudo … sh -c` layers (app/backends/ssh_docker_backend.py, `wrap` and the
 end of `_build_docker_run_cmd`; app/ssh_client.py, `_run`).

 The reader of these lines is a model of sections 2.2 and 2.3 of the POSIX.1-2017 Shell Command
 Language. It gives up (None) whenever the shell would interpret a character instead of passing it on.
 */
module ShellQuoting {
  import opened Options
  import opened Text

  // ------------------------------------------------------------------
  // Writing
  // ------------------------------------------------------------------

  /** The characters shlex leaves unquoted: `[\w@%+=:,./-]` in ASCII. */
  predicate Safe(c: char) {
    || IsDigit(c) || IsLower(c) || IsUpper(c)
    || c == '_' || c == '@' || c == '%' || c == '+' || c == '=' || c == ':' || c == ',' || c == '.' || c == '/' || c == '-'
  }

  predicate AllSafe(s: string) {
    forall i | 0 <= i < |s| :: Safe(s[i])
  }

  const QUOTE_MARK: char := '\''
  const ESCAPED_QUOTE: string := "'\"'\"'"

  /** `s.replace("'", "'\"'\"'")` */
  function EscapeQuotes(s: string): string {
    if s == "" then ""
    else (if s[0] == '\'' then ESCAPED_QUOTE else [s[0]]) + EscapeQuotes(s[1..])
  }

  /** `shlex.quote` */
  function Quote(s: string): string {
    if s == "" then "''"
    else if AllSafe(s) then s
    else "'" + EscapeQuotes(s) + "'"
  }

  /** `" ".join(shlex.quote(p) for p in argv)` */
  function CommandLine(argv: seq<string>): string {
    if argv == [] then ""
    else if |argv| == 1 then Quote(argv[0])
    else Quote(argv[0]) + " " + CommandLine(argv[1..])
  }

  datatype Layer = PctExec(vmid: nat) | SudoStdin | SudoNoPrompt

  /** The words in front of the quoted script: `pct exec {vmid} -- sh -c`, `sudo -S sh -c`, `sudo -n sh -c`. */
  function LayerWords(layer: Layer): seq<string> {
    match layer
    case PctExec(vmid) => ["pct", "exec", Decimal(vmid), "--", "sh", "-c"]
    case SudoStdin => ["sudo", "-S", "sh", "-c"]
    case SudoNoPrompt => ["sudo", "-n", "sh", "-c"]
  }

  function SpaceEnded(words: seq<string>): string {
    if words == [] then "" else words[0] + " " + SpaceEnded(words[1..])
  }

  function Wrap(layer: Layer, line: string): string {
    SpaceEnded(LayerWords(layer)) + Quote(line)
  }

  function WrapAll(layers: seq<Layer>, line: string): string {
    if layers == [] then line else Wrap(layers[0], WrapAll(layers[1..], line))
  }

  // ------------------------------------------------------------------
  // Reading
  // ------------------------------------------------------------------

  datatype Mode = Plain | Single | Double

  predicate Blank(c: char) {
    c == ' ' || c == '\t'
  }

  /** Unquoted, these are operators, expansions or comments. */
  predicate Special(c: char) {
    || c == '|' || c == '&' || c == ';' || c == '<' || c == '>' || c == '(' || c == ')' || c == '$' || c == '`'
    || c == '\\' || c == '*' || c == '?' || c == '[' || c == '#' || c == '~' || c == '\n'
  }

  const REDIRECT: string := "2>&1"

  /** At the start of a word: a redirection of stderr, which is no argument. */
  predicate StartsRedirect(rest: string) {
    REDIRECT <= rest && (|rest| == 4 || Blank(rest[4]))
  }

  function Scan(rest: string, mode: Mode, word: Option<string>, words: seq<string>): Option<seq<string>>
    decreases |rest|
  {
    if rest == "" then
      if mode == Plain then Some(if word.Some? then words + [word.value] else words) else None
    else
      var c, tail, sofar := rest[0], rest[1..], word.GetOr("");
      match mode
      case Plain =>
        if c == '\'' then Scan(tail, Single, Some(sofar), words)
        else if c == '"' then Scan(tail, Double, Some(sofar), words)
        else if Blank(c) then Scan(tail, Plain, None, if word.Some? then words + [word.value] else words)
        else if word.None? && StartsRedirect(rest) then Scan(rest[4..], Plain, None, words)
        else if Special(c) then None
        else Scan(tail, Plain, Some(sofar + [c]), words)
      case Single =>
        if c == '\'' then Scan(tail, Plain, word, words)
        else Scan(tail, Single, Some(sofar + [c]), words)
      case Double =>
        if c == '"' then Scan(tail, Plain, word, words)
        else if c == '$' || c == '`' || c == '\\' then None
        else Scan(tail, Double, Some(sofar + [c]), words)
  }

  /** The fields the shell passes to the command. */
  function Words(line: string): Option<seq<string>> {
    Scan(line, Plain, None, [])
  }

  /** Reserved words that need no quoting (section 2.4); as the first word of a line they are grammar. */
  const RESERVED: set<string> := {"case", "do", "done", "elif", "else", "esac", "fi", "for", "if", "in", "then", "until", "while"}

  predicate NameChar(c: char) {
    IsDigit(c) || IsLower(c) || IsUpper(c) || c == '_'
  }

  /** `NAME=value`: in front of a command name the shell takes it as an assignment (section 2.9.1). */
  predicate IsAssignment(s: string) {
    exists i | 0 < i < |s| :: s[i] == '=' && !IsDigit(s[0]) && forall j | 0 <= j < i :: NameChar(s[j])
  }

  /** The first word as it is written, quotes and all. */
  function FirstRaw(line: string): string {
    if line == "" || Blank(line[0]) then "" else [line[0]] + FirstRaw(line[1..])
  }

  predicate IsGrammar(raw: string) {
    IsAssignment(raw) || raw in RESERVED
  }

  /** The argument vector of the command a line runs, where its first word is a command name. */
  function Command(line: string): Option<seq<string>> {
    if IsGrammar(FirstRaw(line)) then None else Words(line)
  }

  /**
   How the programs themselves read such a command: `pct exec` enters the container it names and runs
   what stands behind `--`; `sudo` takes its password from its input (`-S`) or never asks (`-n`). In each
   case that is a shell, which is handed one script.
   */
  function Entered(argv: seq<string>): Option<(Layer, string)> {
    if |argv| == 7 && argv[0] == "pct" && argv[1] == "exec" && argv[3..6] == ["--", "sh", "-c"] then
      match ParseNat(argv[2])
      case None => None
      case Some(vmid) => Some((PctExec(vmid), argv[6]))
    else if |argv| == 5 && argv[0] == "sudo" && argv[2..4] == ["sh", "-c"] then
      if argv[1] == "-S" then Some((SudoStdin, argv[4]))
      else if argv[1] == "-n" then Some((SudoNoPrompt, argv[4]))
      else None
    else None
  }

  /** Where a line is run and what is run there: the layers it enters, `depth` of them, and the last vector. */
  function Arrive(line: string, depth: nat): Option<(seq<Layer>, seq<string>)>
    decreases depth
  {
    match Command(line)
    case None => None
    case Some(argv) =>
      if depth == 0 then Some(([], argv))
      else match Entered(argv)
           case None => None
           case Some((layer, script)) =>
             match Arrive(script, depth - 1)
             case None => None
             case Some((inner, last)) => Some(([layer] + inner, last))
  }

  /** The reader is no pushover: unquoted, these characters stop it, and an open quote does too. */
  lemma ReaderIsStrict(c: char, rest: string)
    requires c in {'|', '&', ';', '<', '>', '(', ')', '$', '`', '\\', '*', '?', '[', '#', '~', '\n'} && !StartsRedirect([c] + rest)
    ensures Words([c] + rest) == None
    ensures c in {'$', '`', '\\'} ==> Words(['"', c] + rest) == None
    ensures Words("'") == None && Words("\"") == None
  {
    assert ([c] + rest)[0] == c;
    var quoted := ['"', c] + rest;
    assert quoted[1..] == [c] + rest;
    assert Words(quoted) == Scan([c] + rest, Double, Some(""), []);
    assert "'"[1..] == "" && "\""[1..] == "";
  }

  // ------------------------------------------------------------------
  // The shell reads back what was written
  // ------------------------------------------------------------------

  lemma {:induction false} ScanSafe(s: string, rest: string, word: string, words: seq<string>)
    requires AllSafe(s)
    ensures Scan(s + rest, Plain, Some(word), words) == Scan(rest, Plain, Some(word + s), words)
  {
    if s == "" {
      assert s + rest == rest && word + s == word;
    } else {
      assert (s + rest)[1..] == s[1..] + rest;
      ScanSafe(s[1..], rest, word + [s[0]], words);
      assert word + [s[0]] + s[1..] == word + s;
    }
  }

  lemma {:induction false} ScanEscaped(s: string, rest: string, word: string, words: seq<string>)
    ensures Scan(EscapeQuotes(s) + "'" + rest, Single, Some(word), words) == Scan(rest, Plain, Some(word + s), words)
  {
    var line := EscapeQuotes(s) + "'" + rest;
    if s == "" {
      assert line[1..] == rest && word + s == word;
    } else {
      var tail := EscapeQuotes(s[1..]) + "'" + rest;
      if s[0] == '\'' {
        assert line == ESCAPED_QUOTE + tail;
        ScanQuoteMark(tail, word, words);
      } else {
        assert line[1..] == tail;
      }
      ScanEscaped(s[1..], rest, word + [s[0]], words);
      assert word + [s[0]] + s[1..] == word + s;
    }
  }

  /** `'"'"'` leaves the single quotes, adds one quote mark, and enters them again. */
  lemma ScanQuoteMark(tail: string, word: string, words: seq<string>)
    ensures Scan(ESCAPED_QUOTE + tail, Single, Some(word), words) == Scan(tail, Single, Some(word + "'"), words)
  {
    var l0 := ESCAPED_QUOTE + tail;
    var l1, l2, l3, l4 := "\"'\"'" + tail, "'\"'" + tail, "\"'" + tail, "'" + tail;
    assert l0[1..] == l1 && l1[1..] == l2 && l2[1..] == l3 && l3[1..] == l4 && l4[1..] == tail;
    assert Scan(l0, Single, Some(word), words) == Scan(l1, Plain, Some(word), words);
    assert Scan(l1, Plain, Some(word), words) == Scan(l2, Double, Some(word), words);
    assert Scan(l2, Double, Some(word), words) == Scan(l3, Double, Some(word + "'"), words);
    assert Scan(l3, Double, Some(word + "'"), words) == Scan(l4, Plain, Some(word + "'"), words);
  }

  lemma ScanSafeWord(s: string, rest: string, words: seq<string>)
    requires s != "" && AllSafe(s) && (rest == "" || rest[0] == ' ')
    ensures Scan(s + rest, Plain, None, words) == Scan(rest, Plain, Some(s), words)
  {
    var line := s + rest;
    var first := s[..1];
    NoRedirect(s, rest);
    assert Safe(s[0]) && line[0] == s[0] && line[1..] == s[1..] + rest;
    assert None.GetOr("") + [s[0]] == first;
    assert Scan(line, Plain, None, words) == Scan(s[1..] + rest, Plain, Some(first), words);
    ScanSafe(s[1..], rest, first, words);
    assert first + s[1..] == s;
  }

  lemma NoRedirect(s: string, rest: string)
    requires s != "" && AllSafe(s) && (rest == "" || rest[0] == ' ')
    ensures !StartsRedirect(s + rest)
  {
    var line := s + rest;
    assert |s| > 1 ==> line[1] == s[1] && Safe(s[1]);
    assert |s| == 1 && rest != "" ==> line[1] == ' ';
    assert REDIRECT[1] == '>';
  }

  /** A quoted argument at the start of a word is read as exactly that argument. */
  lemma ScanQuoted(s: string, rest: string, words: seq<string>)
    requires rest == "" || rest[0] == ' '
    ensures Scan(Quote(s) + rest, Plain, None, words) == Scan(rest, Plain, Some(s), words)
  {
    if s == "" {
      ScanSingleQuoted(s, rest, words);
      assert Quote(s) == "'" + EscapeQuotes(s) + "'";
    } else if AllSafe(s) {
      ScanSafeWord(s, rest, words);
    } else {
      ScanSingleQuoted(s, rest, words);
    }
  }

  lemma ScanSingleQuoted(s: string, rest: string, words: seq<string>)
    ensures Scan("'" + EscapeQuotes(s) + "'" + rest, Plain, None, words) == Scan(rest, Plain, Some(s), words)
  {
    var line := "'" + EscapeQuotes(s) + "'" + rest;
    assert line[0] == '\'' && line[1..] == EscapeQuotes(s) + "'" + rest;
    ScanEscaped(s, rest, "", words);
    assert "" + s == s;
  }

  /** Reading on between two words. */
  function AtWord(rest: string, words: seq<string>): Option<seq<string>> {
    Scan(rest, Plain, None, words)
  }

  /** Reading on behind a part of a word. */
  function InWord(rest: string, word: string, words: seq<string>): Option<seq<string>> {
    Scan(rest, Plain, Some(word), words)
  }

  /** A quoted argument and a space are one finished word. */
  lemma ScanQuotedWord(s: string, more: string, words: seq<string>)
    ensures AtWord(Quote(s) + (" " + more), words) == AtWord(more, words + [s])
  {
    var rest := " " + more;
    ScanQuoted(s, rest, words);
    assert rest[0] == ' ' && rest[1..] == more;
  }

  lemma Regroup(a: string, b: string, c: string, d: string)
    ensures a + b + c + d == a + (b + (c + d))
  {
  }

  /** Reading `line` adds the words of `argv`, and `rest` stands behind the last of them. */
  ghost predicate Reads(line: string, argv: seq<string>, rest: string)
    requires argv != []
  {
    forall words :: AtWord(line, words) == InWord(rest, argv[|argv| - 1], words + argv[..|argv| - 1])
  }

  lemma ReadsOneMore(first: string, more: string, argv: seq<string>, rest: string)
    requires argv != [] && Reads(more, argv, rest)
    ensures Reads(Quote(first) + (" " + more), [first] + argv, rest)
  {
    var line, all := Quote(first) + (" " + more), [first] + argv;
    forall words
      ensures AtWord(line, words) == InWord(rest, all[|all| - 1], words + all[..|all| - 1])
    {
      ScanQuotedWord(first, more, words);
      assert words + [first] + argv[..|argv| - 1] == words + all[..|all| - 1];
    }
  }

  lemma ReadsOnlyOne(s: string, rest: string)
    requires rest == "" || rest[0] == ' '
    ensures Reads(Quote(s) + rest, [s], rest)
  {
    forall words
      ensures AtWord(Quote(s) + rest, words) == InWord(rest, s, words + [s][..0])
    {
      ScanQuoted(s, rest, words);
      assert words + [s][..0] == words;
    }
  }

  /** Reading a joined vector yields the vector, whatever ends the line. */
  lemma {:induction false} ScanCommandLine(argv: seq<string>, rest: string)
    requires argv != [] && (rest == "" || rest[0] == ' ')
    ensures Reads(CommandLine(argv) + rest, argv, rest)
  {
    if |argv| == 1 {
      ReadsOnlyOne(argv[0], rest);
      assert argv == [argv[0]];
    } else {
      var first, others := argv[0], argv[1..];
      ScanCommandLine(others, rest);
      ReadsOneMore(first, CommandLine(others) + rest, others, rest);
      Regroup(Quote(first), " ", CommandLine(others), rest);
      assert argv == [first] + others;
    }
  }

  /** A line whose end adds nothing is read as its vector. */
  lemma ReadsWhole(line: string, argv: seq<string>, rest: string)
    requires argv != [] && Reads(line, argv, rest)
    requires InWord(rest, argv[|argv| - 1], argv[..|argv| - 1]) == Some(argv)
    ensures Words(line) == Some(argv)
  {
    assert AtWord(line, []) == InWord(rest, argv[|argv| - 1], [] + argv[..|argv| - 1]);
    assert [] + argv[..|argv| - 1] == argv[..|argv| - 1];
  }

  /** For all argument vectors, splitting the joined quoted command returns the vector. */
  lemma ShellReadsArgv(argv: seq<string>)
    ensures Words(CommandLine(argv)) == Some(argv)
  {
    if argv != [] {
      ScanCommandLine(argv, "");
      assert CommandLine(argv) + "" == CommandLine(argv);
      assert argv[..|argv| - 1] + [argv[|argv| - 1]] == argv;
      ReadsWhole(CommandLine(argv), argv, "");
    }
  }

  lemma RedirectEnds(word: string, words: seq<string>)
    ensures InWord(" " + REDIRECT, word, words) == Some(words + [word])
  {
    var rest := " " + REDIRECT;
    assert rest[1..] == REDIRECT && REDIRECT[4..] == "";
    assert AtWord(REDIRECT, words + [word]) == AtWord("", words + [word]);
  }

  /** The `2>&1` Keepup appends to a command is a redirection, not an argument. */
  lemma ShellReadsRedirectedArgv(argv: seq<string>)
    requires argv != []
    ensures Words(CommandLine(argv) + (" " + REDIRECT)) == Some(argv)
  {
    var rest := " " + REDIRECT;
    ScanCommandLine(argv, rest);
    RedirectEnds(argv[|argv| - 1], argv[..|argv| - 1]);
    assert argv[..|argv| - 1] + [argv[|argv| - 1]] == argv;
    ReadsWhole(CommandLine(argv) + rest, argv, rest);
  }

  /** Written out unquoted, this first word would be read as grammar. */
  predicate Grammatical(s: string) {
    AllSafe(s) && IsGrammar(s)
  }

  lemma {:induction false} FirstRawOfSafe(s: string, rest: string)
    requires AllSafe(s) && (rest == "" || rest[0] == ' ')
    ensures FirstRaw(s + rest) == s
  {
    if s == "" {
      assert s + rest == rest;
    } else {
      assert (s + rest)[1..] == s[1..] + rest;
      FirstRawOfSafe(s[1..], rest);
      assert s == [s[0]] + s[1..];
    }
  }

  lemma QuotedIsNoGrammar(raw: string)
    requires raw != "" && raw[0] == QUOTE_MARK
    ensures !IsGrammar(raw)
  {
  }

  /** Quoting hides a word from the grammar unless the word is safe as it is. */
  lemma FirstWordIsCommand(s: string, rest: string)
    requires rest == "" || rest[0] == ' '
    ensures IsGrammar(FirstRaw(Quote(s) + rest)) <==> Grammatical(s)
  {
    if s != "" && AllSafe(s) {
      FirstRawOfSafe(s, rest);
    } else {
      var line := Quote(s) + rest;
      assert line[0] == '\'';
      assert FirstRaw(line)[0] == line[0];
      QuotedIsNoGrammar(FirstRaw(line));
      assert s == "" ==> !IsGrammar(s);
    }
  }

  lemma CommandLineStarts(argv: seq<string>, rest: string) returns (more: string)
    requires argv != [] && (rest == "" || rest[0] == ' ')
    ensures CommandLine(argv) + rest == Quote(argv[0]) + more && (more == "" || more[0] == ' ')
  {
    if |argv| == 1 {
      more := rest;
    } else {
      more := " " + (CommandLine(argv[1..]) + rest);
      Regroup(Quote(argv[0]), " ", CommandLine(argv[1..]), rest);
    }
  }

  /** For all vectors, the shell runs exactly the vector unless its first word is unquoted grammar. */
  lemma ShellRunsArgv(argv: seq<string>)
    requires argv != []
    ensures Command(CommandLine(argv)) == Some(argv) <==> !Grammatical(argv[0])
    ensures Command(CommandLine(argv) + (" " + REDIRECT)) == Some(argv) <==> !Grammatical(argv[0])
  {
    ShellReadsArgv(argv);
    ShellReadsRedirectedArgv(argv);
    var more := CommandLineStarts(argv, "");
    assert CommandLine(argv) + "" == CommandLine(argv);
    FirstWordIsCommand(argv[0], more);
    more := CommandLineStarts(argv, " " + REDIRECT);
    FirstWordIsCommand(argv[0], more);
  }

  lemma {:induction false} PlainWordsThenOne(words: seq<string>, line: string)
    requires forall i | 0 <= i < |words| :: words[i] != "" && AllSafe(words[i])
    ensures CommandLine(words + [line]) == SpaceEnded(words) + Quote(line)
  {
    if words != [] {
      PlainWordsThenOne(words[1..], line);
      assert (words + [line])[1..] == words[1..] + [line];
      assert Quote(words[0]) == words[0];
    }
  }

  /** A layer's fixed text is itself a command line, ending before its one quoted argument. */
  lemma WrapIsCommandLine(layer: Layer, line: string)
    ensures Wrap(layer, line) == CommandLine(LayerWords(layer) + [line])
  {
    LayerWordsArePlain(layer);
    PlainWordsThenOne(LayerWords(layer), line);
  }

  lemma LayerWordsArePlain(layer: Layer)
    ensures forall i | 0 <= i < |LayerWords(layer)| :: LayerWords(layer)[i] != "" && AllSafe(LayerWords(layer)[i])
  {
  }

  /** Each layer, word for word: the container's own number, and the script as one last argument. */
  lemma LayerReadsAs(vmid: nat, line: string)
    ensures Words(Wrap(PctExec(vmid), line)) == Some(["pct", "exec", Decimal(vmid), "--", "sh", "-c", line])
    ensures Words(Wrap(SudoStdin, line)) == Some(["sudo", "-S", "sh", "-c", line])
    ensures Words(Wrap(SudoNoPrompt, line)) == Some(["sudo", "-n", "sh", "-c", line])
  {
    WrapReads(PctExec(vmid), line);
    WrapReads(SudoStdin, line);
    WrapReads(SudoNoPrompt, line);
    assert LayerWords(PctExec(vmid)) + [line] == ["pct", "exec", Decimal(vmid), "--", "sh", "-c", line];
    assert LayerWords(SudoStdin) + [line] == ["sudo", "-S", "sh", "-c", line];
    assert LayerWords(SudoNoPrompt) + [line] == ["sudo", "-n", "sh", "-c", line];
  }

  lemma WrapReads(layer: Layer, line: string)
    ensures Words(Wrap(layer, line)) == Some(LayerWords(layer) + [line])
  {
    WrapIsCommandLine(layer, line);
    ShellReadsArgv(LayerWords(layer) + [line]);
  }

  lemma LayerIsEntered(layer: Layer, line: string)
    ensures Entered(LayerWords(layer) + [line]) == Some((layer, line))
  {
    var argv := LayerWords(layer) + [line];
    match layer
    case PctExec(vmid) =>
      ParseOfDecimal(vmid);
      assert argv[3..6] == ["--", "sh", "-c"];
    case SudoStdin => assert argv[2..4] == ["sh", "-c"];
    case SudoNoPrompt => assert argv[2..4] == ["sh", "-c"];
  }

  /** A wrapped line enters its layer and hands it the line. */
  lemma WrapIsEntered(layer: Layer, line: string)
    ensures Command(Wrap(layer, line)) == Some(LayerWords(layer) + [line])
    ensures Entered(LayerWords(layer) + [line]) == Some((layer, line))
  {
    WrapIsCommandLine(layer, line);
    LayerIsNoGrammar(layer);
    ShellRunsArgv(LayerWords(layer) + [line]);
    LayerIsEntered(layer, line);
  }

  lemma NoAssignment(s: string)
    requires '=' !in s
    ensures !IsAssignment(s)
  {
  }

  lemma LayerIsNoGrammar(layer: Layer)
    ensures !IsGrammar(LayerWords(layer)[0])
  {
    NoAssignment(LayerWords(layer)[0]);
  }

  lemma OneMoreLayer(layer: Layer, line: string, depth: nat)
    ensures Arrive(Wrap(layer, line), depth + 1)
         == match Arrive(line, depth) case None => None case Some((inner, last)) => Some(([layer] + inner, last))
  {
    WrapIsEntered(layer, line);
  }

  /** However many layers a line passes through, it enters just those and is run there as it would be directly. */
  lemma {:induction false} LayersAreTransparent(layers: seq<Layer>, line: string)
    ensures Arrive(WrapAll(layers, line), |layers|)
         == match Command(line) case None => None case Some(argv) => Some((layers, argv))
  {
    if layers != [] {
      OneMoreLayer(layers[0], WrapAll(layers[1..], line), |layers| - 1);
      LayersAreTransparent(layers[1..], line);
      assert layers == [layers[0]] + layers[1..];
    }
  }

  /**
   The innermost program sees the argument vector Keepup built, in the place Keepup meant, with or without
   the redirection, exactly when its first word is no grammar.
   */
  lemma InnermostSeesArgv(layers: seq<Layer>, argv: seq<string>)
    requires argv != []
    ensures Arrive(WrapAll(layers, CommandLine(argv)), |layers|) == Some((layers, argv)) <==> !Grammatical(argv[0])
    ensures Arrive(WrapAll(layers, CommandLine(argv) + (" " + REDIRECT)), |layers|) == Some((layers, argv)) <==> !Grammatical(argv[0])
  {
    LayersAreTransparent(layers, CommandLine(argv));
    LayersAreTransparent(layers, CommandLine(argv) + (" " + REDIRECT));
    ShellRunsArgv(argv);
  }
}
