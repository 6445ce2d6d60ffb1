/** File-system paths as sequences of components, and home-directory lookup. */
module Paths {
  import opened Results

  /** A path is the list of its components; `Join` appends one, like `PathBuf::join`
      with a relative component. */
  datatype Path = Path(parts: seq<string>)

  function Join(p: Path, component: string): (r: Path)
    ensures |r.parts| == |p.parts| + 1
    ensures r.parts[..|p.parts|] == p.parts && r.parts[|p.parts|] == component
  {
    Path(p.parts + [component])
  }

  const HomeUnknownMessage := "Cannot determine home directory"

  /** `dirs::home_dir().ok_or_else(...)`: the home directory is an input of the model;
      an unknown home is an error, never a silent default. */
  function HomeDir(home: Option<Path>): (r: Result<Path>)
    ensures r.Ok? <==> home.Some?
    ensures r.Ok? ==> r.value == home.value
    ensures r.Err? ==> r.message == HomeUnknownMessage
  {
    match home
    case Some(h) => Ok(h)
    case None => Err(HomeUnknownMessage)
  }

  /** The path `home/c1/.../cn`, or the home error. */
  function UnderHome(home: Option<Path>, components: seq<string>): (r: Result<Path>)
    ensures r.Ok? <==> home.Some?
    ensures r.Ok? ==> r.value.parts == home.value.parts + components
    ensures r.Err? ==> r.message == HomeUnknownMessage
    decreases |components|
  {
    if components == [] then HomeDir(home)
    else match UnderHome(home, components[..|components| - 1])
      case Err(m) => Err(m)
      case Ok(p) =>
        assert components == components[..|components| - 1] + [components[|components| - 1]];
        Ok(Join(p, components[|components| - 1]))
  }
}
