/** Paths as lists of components; `PathBuf::join` appends one component. How a path is
    rendered as a string (`to_string_lossy`) is not modelled. */
module Paths {
  import opened Bytes

  type Path = seq<Text>

  function Join(p: Path, name: Text): Path
  {
    p + [name]
  }

  /** `Path::new(s)` / `PathBuf::from(s)` for a path given as one string. */
  function FromText(s: Text): Path
  {
    [s]
  }

  /** The game's directory name, under Documents and under Steam's `common`. */
  const GameDir: Text := Ascii("Euro Truck Simulator 2")
}
