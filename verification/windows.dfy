/** The PowerShell dialect (`src/shell/windows.rs`): alias lines that are either
    a `Set-Alias` or a function wrapper, and the profile the dialect reads. */
module Windows {
  import opened Results
  import opened Paths
  import opened Text

  /** Display name of the dialect. */
  function Name(): string {
    "PowerShell"
  }

  const FunctionHead := "function "
  const SetAliasHead := "Set-Alias -Name "
  const ValueFlag := " -Value "

  /** `Set-Alias` cannot carry arguments, pipelines or command sequences: a command
      with a space, `|` or `;` needs a function wrapper. */
  predicate NeedsFunction(command: string) {
    ' ' in command || '|' in command || ';' in command
  }

  /** The alias line: `function name { command }` or `Set-Alias -Name name -Value
      command`. The command is embedded verbatim, without any escaping. */
  function AliasSyntax(name: string, command: string): (r: string)
    ensures NeedsFunction(command) <==> (|r| >= |FunctionHead| && r[..|FunctionHead|] == FunctionHead)
    ensures NeedsFunction(command) ==>
      |r| == |name| + |command| + 14 && r[|FunctionHead| + |name| + 3..|r| - 2] == command
    ensures !NeedsFunction(command) ==>
      |r| == |name| + |command| + 24 && r[|r| - |command|..] == command
  {
    if NeedsFunction(command) then
      FunctionHead + name + " { " + command + " }"
    else
      var r := SetAliasHead + name + ValueFlag + command;
      assert r[..|FunctionHead|][0] != FunctionHead[0];
      r
  }

  /** Where each piece of the alias line sits: the name right after the keyword,
      then ` { `, the command and ` }` in a function wrapper, or ` -Value ` and the
      command in a `Set-Alias`. */
  lemma AliasSyntaxShape(name: string, command: string)
    ensures var r := AliasSyntax(name, command);
      NeedsFunction(command) ==>
        var n := |FunctionHead| + |name|;
        && r[..|FunctionHead|] == FunctionHead
        && r[|FunctionHead|..n] == name
        && r[n..n + 3] == " { "
        && r[n + 3..|r| - 2] == command
        && r[|r| - 2..] == " }"
    ensures var r := AliasSyntax(name, command);
      !NeedsFunction(command) ==>
        var n := |SetAliasHead| + |name|;
        && r[..|SetAliasHead|] == SetAliasHead
        && r[|SetAliasHead|..n] == name
        && r[n..n + |ValueFlag|] == ValueFlag
        && r[n + |ValueFlag|..] == command
  {
    var r := AliasSyntax(name, command);
    if NeedsFunction(command) {
      var n := |FunctionHead| + |name|;
      assert r == FunctionHead + name + " { " + command + " }";
      assert r[n..n + 3] == " { ";
    } else {
      var n := |SetAliasHead| + |name|;
      assert r == SetAliasHead + name + ValueFlag + command;
      assert r[n..n + |ValueFlag|] == ValueFlag;
    }
  }

  /** Which of the two forms is written depends on the command alone. */
  lemma FormIgnoresName(name1: string, name2: string, command: string)
    ensures var r1, r2 := AliasSyntax(name1, command), AliasSyntax(name2, command);
      var k := |FunctionHead|;
      (|r1| >= k && r1[..k] == FunctionHead) <==> (|r2| >= k && r2[..k] == FunctionHead)
  {
  }

  /** Reads an alias line back into its name and command; the name ends at the
      first space. */
  function ParseAliasLine(line: string): Option<(string, string)> {
    if |line| >= |FunctionHead| && line[..|FunctionHead|] == FunctionHead then
      ParseFunctionRest(line[|FunctionHead|..])
    else if |line| >= |SetAliasHead| && line[..|SetAliasHead|] == SetAliasHead then
      ParseSetAliasRest(line[|SetAliasHead|..])
    else None
  }

  /** `name { command }`, the part of a function wrapper after its keyword. */
  function ParseFunctionRest(rest: string): Option<(string, string)> {
    match Find(rest, " ")
    case None => None
    case Some(i) =>
      var after := rest[i..];
      if |after| >= 5 && after[..3] == " { " && after[|after| - 2..] == " }"
      then Some((rest[..i], after[3..|after| - 2]))
      else None
  }

  /** `name -Value command`, the part of a `Set-Alias` after `-Name `. */
  function ParseSetAliasRest(rest: string): Option<(string, string)> {
    match Find(rest, " ")
    case None => None
    case Some(i) =>
      var after := rest[i..];
      if |after| >= |ValueFlag| && after[..|ValueFlag|] == ValueFlag
      then Some((rest[..i], after[|ValueFlag|..]))
      else None
  }

  /** The first space after a space-free name is the one right after it. */
  lemma FindSpaceAfterName(name: string, tail: string)
    requires ' ' !in name && tail != [] && tail[0] == ' '
    ensures Find(name + tail, " ") == Some(|name|)
  {
    var s := name + tail;
    assert s[..|name|] == name;
    FirstCharAbsent(s, " ", 0, |name|);
    assert s[|name|..|name| + 1] == [tail[0]];
    FindIs(s, " ", |name|);
  }

  /** The body of a function wrapper reads back as its name and command. */
  lemma FunctionRestRoundTrip(name: string, command: string)
    requires ' ' !in name
    ensures ParseFunctionRest(name + " { " + command + " }") == Some((name, command))
  {
    var tail := " { " + command + " }";
    assert name + " { " + command + " }" == name + tail;
    FindSpaceAfterName(name, tail);
    assert (name + tail)[|name|..] == tail;
    assert (name + tail)[..|name|] == name;
    assert tail[3..|tail| - 2] == command;
  }

  /** The tail of a `Set-Alias` reads back as its name and command. */
  lemma SetAliasRestRoundTrip(name: string, command: string)
    requires ' ' !in name
    ensures ParseSetAliasRest(name + ValueFlag + command) == Some((name, command))
  {
    var tail := ValueFlag + command;
    assert name + ValueFlag + command == name + tail;
    FindSpaceAfterName(name, tail);
    assert (name + tail)[|name|..] == tail;
    assert (name + tail)[..|name|] == name;
    assert tail[|ValueFlag|..] == command;
  }

  /** Round trip: every alias line reads back as the name and command it was
      made from, for every name without a space (valid names have none). */
  lemma AliasLineRoundTrip(name: string, command: string)
    requires ' ' !in name
    ensures ParseAliasLine(AliasSyntax(name, command)) == Some((name, command))
  {
    if NeedsFunction(command) {
      FunctionLineRoundTrip(name, command);
    } else {
      SetAliasLineRoundTrip(name, command);
    }
  }

  /** A whole function-wrapper line reads back as its name and command. */
  lemma FunctionLineRoundTrip(name: string, command: string)
    requires ' ' !in name
    ensures ParseAliasLine(FunctionHead + name + " { " + command + " }") == Some((name, command))
  {
    var rest := name + " { " + command + " }";
    var line := FunctionHead + name + " { " + command + " }";
    assert line == FunctionHead + rest;
    assert line[..|FunctionHead|] == FunctionHead;
    assert line[|FunctionHead|..] == rest;
    FunctionRestRoundTrip(name, command);
  }

  /** A whole `Set-Alias` line reads back as its name and command. */
  lemma SetAliasLineRoundTrip(name: string, command: string)
    requires ' ' !in name
    ensures ParseAliasLine(SetAliasHead + name + ValueFlag + command) == Some((name, command))
  {
    var rest := name + ValueFlag + command;
    var line := SetAliasHead + name + ValueFlag + command;
    assert line == SetAliasHead + rest;
    assert line[..|FunctionHead|] != FunctionHead by {
      assert line[0] == 'S';
    }
    assert line[..|SetAliasHead|] == SetAliasHead;
    assert line[|SetAliasHead|..] == rest;
    SetAliasRestRoundTrip(name, command);
  }

  /** A command with arguments gets a function wrapper. */
  lemma FunctionExample()
    ensures AliasSyntax("ll", "ls -la") == "function ll { ls -la }"
  {
    assert "ls -la"[2] == ' ';
  }

  /** A bare command gets a `Set-Alias`. */
  lemma SetAliasExample()
    ensures AliasSyntax("g", "git") == "Set-Alias -Name g -Value git"
  {
    assert !NeedsFunction("git");
  }

  /** The PowerShell 7 profile under the home directory. */
  function ConfigPath(home: Option<Path>): (r: Result<Path>)
    ensures r.Ok? <==> home.Some?
    ensures r.Err? ==> r.message == HomeUnknownMessage
    ensures r.Ok? ==> r.value.parts == home.value.parts + ["Documents", "PowerShell", "Microsoft.PowerShell_profile.ps1"]
  {
    UnderHome(home, ["Documents", "PowerShell", "Microsoft.PowerShell_profile.ps1"])
  }

  /** Fixed facts of the dialect: its name, and that its profile is a `.ps1`
      script three levels below the home directory. */
  lemma DialectFacts(home: Path)
    ensures Name() == "PowerShell"
    ensures var parts := ConfigPath(Some(home)).value.parts;
      |parts| == |home.parts| + 3 && parts[|parts| - 1] == "Microsoft.PowerShell_profile.ps1"
  {
  }

  /** What the user is told to do after the profile was written. */
  const ReloadInstructions := "Restart PowerShell or run: . $PROFILE"
}
