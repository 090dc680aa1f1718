/** Names inside a lower directory, whiteout names, error numbers and the
    nondeterministic outcome of a call into a lower filesystem. */
module Names {
  datatype Option<+T> = None | Some(value: T) {
    function GetOr(default: T): T {
      if Some? then value else default
    }
  }

  // AUFS_WH_PFX; the marks of aufs are ordinary lower names with this prefix
  const WH_PFX: string := ".wh."

  const EPERM := 1
  const EIO := 5
  const ENOENT := 2
  const ENOMEM := 12
  const EBUSY := 16
  const EINVAL := 22
  const ENOSPC := 28
  const EROFS := 30
  const EDOM := 33
  const ENOTEMPTY := 39
  const ESTALE := 116

  /** An aufs directory. */
  type Dir = nat

  /** A name in an aufs directory, and on every branch that holds the directory. */
  datatype Key = Key(dir: Dir, name: string)

  /** lkup_dentry refuses such a name. */
  predicate Reserved(name: string) {
    WH_PFX <= name
  }

  /** The readdir callbacks take such a name for a whiteout: the bare prefix is not one. */
  predicate Mark(name: string) {
    |name| > |WH_PFX| && WH_PFX <= name
  }

  function Stripped(name: string): string
    requires Reserved(name)
  {
    name[|WH_PFX|..]
  }

  function WhName(name: string): (w: string)
    ensures Reserved(w) && Stripped(w) == name
    ensures name != "" ==> Mark(w)
  {
    WH_PFX + name
  }

  /** Where the whiteout of k lives: beside k, under the prefixed name. */
  function Wh(k: Key): (w: Key)
    ensures w.dir == k.dir && Reserved(w.name) && Stripped(w.name) == k.name
  {
    Key(k.dir, WhName(k.name))
  }

  lemma {:induction false} WhNameOfStripped(name: string)
    requires Reserved(name)
    ensures WhName(Stripped(name)) == name
  {
  }

  // the longest name of a lower file system
  const NAME_MAX: nat := 255

  /** A name a caller can look up: not a mark, and short enough for its own whiteout, as statfs
      says. */
  predicate Plain(k: Key) {
    !Reserved(k.name) && k.name != "" && |k.name| <= NAME_MAX - |WH_PFX|
  }

  /** Whether lower calls fail at all. Nothing is said about it, so that every statement holds both
      for lower file systems that fail anywhere and for ones that never do. */
  const FAULTS: bool

  /** The outcome of one lower call: zero, or any negative error number. */
  method LowerFault() returns (err: int)
    ensures err <= 0
    ensures !FAULTS ==> err == 0
  {
    err := 0;
    if FAULTS {
      err := *;
      if err > 0 {
        err := 0;
      }
    }
  }
}
