/** How the files the tool touches sit under one home directory. */
module FileLayout {
  import opened Results
  import opened Paths
  import Unix
  import Windows
  import Store
  import Configuration

  /** With a known home, the three start-up files, the settings file and the
      default alias store are five different paths, all below the home directory.
      A custom alias-store path is not covered, and paths are compared as lists of
      components, not as files (a link can still join two of them). */
  lemma ToolFilesAreDistinct(home: Path)
    ensures var paths := [
        Unix.ConfigPath(Unix.Bash, Some(home)), Unix.ConfigPath(Unix.Zsh, Some(home)),
        Windows.ConfigPath(Some(home)), Configuration.ConfigPath(Some(home)),
        Store.StorePath(None, Some(home))];
      && (forall i :: 0 <= i < |paths| ==> paths[i].Ok? && paths[i].value.parts[..|home.parts|] == home.parts)
      && (forall i, j :: 0 <= i < j < |paths| ==> paths[i] != paths[j])
  {
    var paths := [
        Unix.ConfigPath(Unix.Bash, Some(home)), Unix.ConfigPath(Unix.Zsh, Some(home)),
        Windows.ConfigPath(Some(home)), Configuration.ConfigPath(Some(home)),
        Store.StorePath(None, Some(home))];
    var n := |home.parts|;
    assert paths[0].value.parts[n] == ".bashrc" && |paths[0].value.parts| == n + 1;
    assert paths[1].value.parts[n] == ".zshrc" && |paths[1].value.parts| == n + 1;
    assert paths[2].value.parts[n] == "Documents" && |paths[2].value.parts| == n + 3;
    assert paths[3].value.parts[n + 1] == "config.toml" && |paths[3].value.parts| == n + 2;
    assert paths[4].value.parts[n + 1] == "aliases.json" && |paths[4].value.parts| == n + 2;
  }
}
