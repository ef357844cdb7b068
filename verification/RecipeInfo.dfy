/** The per-recipe information that the cache holds, one object per information class. */
module RecipeInfo {
  import opened Wrappers

  /** The attributes of CoreRecipeInfo that decide validity; `fileChecksums` lists path and flag. */
  datatype Core = Core(
    variants: seq<string>,
    timestamp: int,
    fileDepends: seq<(string, int)>,
    fileChecksums: Option<seq<(string, string)>>,
    appends: seq<string>,
    skipped: bool,
    nocache: bool,
    pv: string)

  /** The name of an information class that is not one of the two below. */
  type ExtraClass = cls: string | cls != "CoreRecipeInfo" && cls != "SiggenRecipeInfo" witness "HobRecipeInfo"

  /** `T` is what a table of signature data is stored as: in memory, sent, or restored. */
  datatype Info<+T> =
    | CoreInfo(core: Core)
    | SiggenInfo(gendeps: T, taskdeps: T, varvals: T)
    | ExtraInfo(cls: ExtraClass, data: string)

  function ClassOf<T>(info: Info<T>): string {
    match info
    case CoreInfo(_) => "CoreRecipeInfo"
    case SiggenInfo(_, _, _) => "SiggenRecipeInfo"
    case ExtraInfo(cls, _) => cls
  }

  function ClassesOf<T>(infos: seq<Info<T>>): (r: seq<string>)
    ensures |r| == |infos| && forall i | 0 <= i < |r| :: r[i] == ClassOf(infos[i])
  {
    if infos == [] then [] else [ClassOf(infos[0])] + ClassesOf(infos[1..])
  }
}
