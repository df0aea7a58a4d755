/**
 What the theme command and the colour-scheme command of both plugin versions have in
 common: the settings key each writes and the value a picker row stores for a resource.
 */
module Commands {
  import opened PyStr
  import opened Resources

  /** What a picker row stores: the file name for themes, the full path for colour schemes. */
  datatype ValueKind = FileName | FullPath

  /** The settings key each command writes: `SwitchThemeCommand.KEY`, `SwitchColorSchemeCommand.KEY`. */
  function SettingKey(kind: ValueKind): string
  {
    match kind
    case FileName => "theme"
    case FullPath => "color_scheme"
  }

  /** The value stored for the resource `path`. */
  function ItemValue(kind: ValueKind, path: string): string
  {
    match kind
    case FileName => Leaf(path)
    case FullPath => path
  }

  function ValueFn(kind: ValueKind): string -> string
  {
    p => ItemValue(kind, p)
  }

  /** A stored value has the file name of its resource, whichever kind it is. */
  lemma ItemValueLeaf(kind: ValueKind, path: string)
    ensures Leaf(ItemValue(kind, path)) == Leaf(path)
  {
    BasenameIdempotent(path);
  }
}
