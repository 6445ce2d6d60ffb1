/** The Bash and Zsh dialects (`src/shell/unix.rs`): POSIX single-quoted alias
    lines and the start-up file each dialect reads. */
module Unix {
  import opened Results
  import opened Paths
  import Store

  datatype UnixShell = Bash | Zsh

  /** Display name of the dialect. */
  function Name(shell: UnixShell): string {
    match shell
    case Bash => "Bash"
    case Zsh => "Zsh"
  }

  /** The four characters that close a single-quoted string, add an escaped
      quote and reopen quoting. */
  const EscapedQuote := "'\\''"

  /** `command.replace("'", "'\\''")`: every single quote becomes `'\''`. */
  function Escape(command: string): (r: string)
    ensures |r| == |command| + 3 * multiset(command)['\'']
    ensures '\'' !in command ==> r == command
    decreases |command|
  {
    if command == [] then []
    else
      assert command == [command[0]] + command[1..];
      EscapeChar(command[0]) + Escape(command[1..])
  }

  /** What one character of the command becomes. */
  function EscapeChar(c: char): string {
    if c == '\'' then EscapedQuote else [c]
  }

  /** The alias line, identical for Bash and Zsh: `alias name='escaped'`. */
  function AliasSyntax(shell: UnixShell, name: string, command: string): (r: string)
    ensures |r| == 9 + |name| + |command| + 3 * multiset(command)['\'']
    ensures r[..6] == "alias " && r[6..6 + |name|] == name
  {
    match shell
    case Bash => "alias " + name + "='" + Escape(command) + "'"
    case Zsh => "alias " + name + "='" + Escape(command) + "'"
  }

  /** Zsh renders every alias exactly as Bash does. */
  lemma ZshMatchesBash(name: string, command: string)
    ensures AliasSyntax(Zsh, name, command) == AliasSyntax(Bash, name, command)
  {
  }

  /** Start-up file of the dialect, under the home directory. */
  function ConfigPath(shell: UnixShell, home: Option<Path>): (r: Result<Path>)
    ensures r.Ok? <==> home.Some?
    ensures r.Err? ==> r.message == HomeUnknownMessage
    ensures r.Ok? ==> r.value.parts == home.value.parts + [if shell == Bash then ".bashrc" else ".zshrc"]
  {
    match shell
    case Bash => UnderHome(home, [".bashrc"])
    case Zsh => UnderHome(home, [".zshrc"])
  }

  /** What the user is told to do after the file was written. */
  function ReloadInstructions(shell: UnixShell): string {
    match shell
    case Bash => "Restart your terminal or run: source ~/.bashrc or exec bash"
    case Zsh => "Restart your terminal or run: source ~/.zshrc"
  }

  /** Fixed facts of the two dialects: their names, and the two start-up files
      are different files. */
  lemma DialectFacts(home: Path)
    ensures Name(Bash) == "Bash" && Name(Zsh) == "Zsh"
    ensures ConfigPath(Bash, Some(home)) != ConfigPath(Zsh, Some(home))
  {
    var b := ConfigPath(Bash, Some(home)).value.parts;
    assert b[|b| - 1] == ".bashrc";
  }

  // A model of how a POSIX shell removes quotes from one word.

  /** `Some(p + x)` for `Some(x)`; a failed reading stays failed. */
  function PrependTo(p: string, o: Option<string>): Option<string> {
    match o
    case Some(x) => Some(p + x)
    case None => None
  }

  /** Quote removal as a POSIX shell does it (sections 2.2.1 and 2.2.2 of the Shell Command
      Language): inside single quotes every character is literal up to the next
      quote; outside, a backslash keeps the next character literally (a
      backslash-newline pair is removed) and a quote opens a quoted part.
      `None` when the word ends inside quotes or with a lone backslash. */
  function Unquote(s: string, quoted: bool): Option<string>
    decreases |s|
  {
    if s == [] then (if quoted then None else Some([]))
    else if quoted then
      if s[0] == '\'' then Unquote(s[1..], false)
      else PrependTo([s[0]], Unquote(s[1..], true))
    else if s[0] == '\'' then Unquote(s[1..], true)
    else if s[0] == '\\' then
      if |s| == 1 then None
      else if s[1] == '\n' then Unquote(s[2..], false)
      else PrependTo([s[1]], Unquote(s[2..], false))
    else PrependTo([s[0]], Unquote(s[1..], false))
  }

  /** Inside quotes, `'\''` reads as one quote and stays inside quotes. */
  lemma UnquoteEscapedQuote(t: string)
    ensures Unquote(EscapedQuote + t, true) == PrependTo("'", Unquote(t, true))
  {
    var s := EscapedQuote + t;
    var s1 := s[1..];
    assert s1 == "\\''" + t;
    assert s1[2..] == "'" + t;
    assert s1[2..][1..] == t;
    calc {
      Unquote(s, true);
      Unquote(s1, false);
      PrependTo([s1[1]], Unquote(s1[2..], false));
      PrependTo("'", Unquote(t, true));
    }
  }

  /** Prepending in two steps is prepending the concatenation. */
  lemma PrependToTwice(p: string, q: string, o: Option<string>)
    ensures PrependTo(p, PrependTo(q, o)) == PrependTo(p + q, o)
  {
    match o
    case None =>
    case Some(x) => assert p + (q + x) == (p + q) + x;
  }

  /** Inside quotes, any other character reads as itself. */
  lemma UnquoteQuotedChar(c: char, t: string)
    requires c != '\''
    ensures Unquote([c] + t, true) == PrependTo([c], Unquote(t, true))
  {
    assert ([c] + t)[1..] == t;
  }

  /** Concatenation is associative. */
  lemma ConcatAssoc(a: string, b: string, c: string)
    ensures (a + b) + c == a + (b + c)
  {
  }

  /** The escaped command followed by more text, split after its first character. */
  lemma EscapeFirstThen(command: string, rest: string)
    requires command != []
    ensures Escape(command) + rest == EscapeChar(command[0]) + (Escape(command[1..]) + rest)
  {
    var head, escaped := EscapeChar(command[0]), Escape(command[1..]);
    assert Escape(command) == head + escaped;
    ConcatAssoc(head, escaped, rest);
  }

  /** Escaping a quote and reading it back inside quotes gives the quote. */
  lemma UnquoteEscapedQuoteStep(command: string, rest: string)
    requires command != [] && command[0] == '\''
    ensures Unquote(Escape(command) + rest, true)
            == PrependTo("'", Unquote(Escape(command[1..]) + rest, true))
  {
    EscapeFirstThen(command, rest);
    UnquoteEscapedQuote(Escape(command[1..]) + rest);
  }

  /** Any other character is kept as it is and read back as itself. */
  lemma UnquoteEscapedCharStep(command: string, rest: string)
    requires command != [] && command[0] != '\''
    ensures Unquote(Escape(command) + rest, true)
            == PrependTo([command[0]], Unquote(Escape(command[1..]) + rest, true))
  {
    EscapeFirstThen(command, rest);
    UnquoteQuotedChar(command[0], Escape(command[1..]) + rest);
  }

  /** Reading the escaped command inside quotes consumes its first character. */
  lemma UnquoteEscapedStep(command: string, rest: string)
    requires command != []
    ensures Unquote(Escape(command) + rest, true)
            == PrependTo([command[0]], Unquote(Escape(command[1..]) + rest, true))
  {
    if command[0] == '\'' {
      UnquoteEscapedQuoteStep(command, rest);
      assert [command[0]] == "'";
    } else {
      UnquoteEscapedCharStep(command, rest);
    }
  }

  /** Inside quotes, the escaped command reads back as the command, whatever follows. */
  lemma {:induction false} UnquoteEscaped(command: string, rest: string)
    ensures Unquote(Escape(command) + rest, true) == PrependTo(command, Unquote(rest, true))
    decreases |command|
  {
    if command == [] {
      assert Escape(command) + rest == rest;
      match Unquote(rest, true)
      case None =>
      case Some(x) => assert command + x == x;
    } else {
      UnquoteEscapedStep(command, rest);
      UnquoteEscaped(command[1..], rest);
      PrependToTwice([command[0]], command[1..], Unquote(rest, true));
      assert [command[0]] + command[1..] == command;
    }
  }

  /** Unquoted characters other than quote and backslash read back as themselves. */
  lemma {:induction false} UnquotePlain(plain: string, rest: string)
    requires '\'' !in plain && '\\' !in plain
    ensures Unquote(plain + rest, false) == PrependTo(plain, Unquote(rest, false))
    decreases |plain|
  {
    if plain == [] {
      assert plain + rest == rest;
      match Unquote(rest, false)
      case None =>
      case Some(x) => assert plain + x == x;
    } else {
      var c := plain[0];
      assert plain + rest == [c] + (plain[1..] + rest);
      UnquotePlainChar(c, plain[1..] + rest);
      UnquotePlain(plain[1..], rest);
      PrependToTwice([c], plain[1..], Unquote(rest, false));
      assert [c] + plain[1..] == plain;
    }
  }

  /** Outside quotes, a character other than quote and backslash reads as itself. */
  lemma UnquotePlainChar(c: char, t: string)
    requires c != '\'' && c != '\\'
    ensures Unquote([c] + t, false) == PrependTo([c], Unquote(t, false))
  {
    assert ([c] + t)[1..] == t;
  }

  /** An opening quote switches to quoted reading. */
  lemma UnquoteOpening(t: string)
    ensures Unquote("'" + t, false) == Unquote(t, true)
  {
    assert ("'" + t)[1..] == t;
  }

  /** Round trip of the quoting: the shell reads the quoted command back as the
      command, for every command, quotes included. */
  lemma QuotedCommandRoundTrip(command: string)
    ensures Unquote("'" + Escape(command) + "'", false) == Some(command)
  {
    var escaped := Escape(command);
    assert "'" + escaped + "'" == "'" + (escaped + "'");
    UnquoteOpening(escaped + "'");
    UnquoteEscaped(command, "'");
    assert Unquote("'", true) == Some([]);
    assert command + [] == command;
  }

  /** The alias line is `alias `, then `name=`, then the quoted command. */
  lemma AliasSyntaxParts(shell: UnixShell, name: string, command: string)
    ensures AliasSyntax(shell, name, command) == "alias " + ((name + "=") + ("'" + Escape(command) + "'"))
  {
  }

  /** For a valid alias name, the word after `alias ` reads back as
      `name=command`. A valid name is letters, digits, `_` and `-` only, so the
      unquoted part holds nothing a shell would split, expand or unquote. */
  lemma AliasLineRoundTrip(shell: UnixShell, name: string, command: string)
    requires Store.ValidName(name)
    ensures Unquote(AliasSyntax(shell, name, command)[6..], false) == Some(name + "=" + command)
  {
    Store.ValidNamesAreShellSafe(name);
    var quoted := "'" + Escape(command) + "'";
    AliasSyntaxParts(shell, name, command);
    assert AliasSyntax(shell, name, command)[6..] == (name + "=") + quoted;
    UnquotePlain(name + "=", quoted);
    QuotedCommandRoundTrip(command);
  }
}
