/** The service as its callers see it: a map from paths to values, the way a
    path is located in it, and how many clusters an operation needs. */
module FsSpec {
  import opened Bytes
  import opened FsLayout
  import opened FsTree
  import opened FsPath

  datatype Code = OK | INVALID_ARG | NOT_FOUND | STORAGE | NO_SPACE | NOT_DIR | ALREADY_EXISTS | NOT_EMPTY

  type Tree = imap<Path, Val>

  /** The parent directory and leaf name of a path, or why there are none. */
  datatype Located = Target(dir: Path, name: Name) | Fails(code: Code)

  /** Locates the leaf named by components `cs`, starting in directory `dir`. */
  ghost function Locate(m: Tree, cs: seq<Text>, dir: Path): Located {
    if cs == [] || ShortName(cs[0]).None? then Fails(INVALID_ARG)
    else
      var name := ShortName(cs[0]).value;
      if |cs| == 1 then Target(dir, name)
      else if dir + [name] !in m then Fails(NOT_FOUND)
      else if m[dir + [name]] != Directory then Fails(NOT_DIR)
      else Locate(m, cs[1..], dir + [name])
  }

  ghost function Locating(m: Tree, path: Text): Located {
    Locate(m, Components(path, 0), [])
  }

  /** The directory named by components `cs`, starting in `dir`. */
  ghost function LocateDir(m: Tree, cs: seq<Text>, dir: Path): Option<Path> {
    if cs == [] then Some(dir)
    else if ShortName(cs[0]).None? then None
    else
      var p := dir + [ShortName(cs[0]).value];
      if p in m && m[p] == Directory then LocateDir(m, cs[1..], p) else None
  }

  /** Clusters a file must have for `n` bytes to be written at offset `start`:
      those up to the one holding `start`, and those of the bytes. */
  function Needed(start: nat, n: nat): (k: nat)
    ensures start < BLOCK * k && start + n <= BLOCK * k
    ensures k > 0 && (BLOCK * (k - 1) <= start || BLOCK * (k - 1) < start + n)
  {
    var walk, bytes := start / BLOCK + 1, (start + n + BLOCK - 1) / BLOCK;
    if walk >= bytes then walk else bytes
  }

  // ---- what each operation answers and does ----
  // `free` counts the free clusters, `held` those of the object at the target,
  // and `full` says that every slot of the target's directory is taken.

  /** The target is a path the map does not have. */
  ghost predicate Creates(m: Tree, t: Located) {
    t.Target? && t.dir + [t.name] !in m
  }

  /** Where a write starts in the file at `p`. */
  ghost function WriteStart(m: Tree, p: Path, append: bool): nat {
    if append && p in m && m[p].File? then |m[p].bytes| else 0
  }

  ghost function WriteCode(m: Tree, t: Located, n: nat, append: bool, free: int, held: int, full: bool): Code {
    if t.Fails? then t.code
    else
      var p := t.dir + [t.name];
      if p !in m then (if Needed(0, n) + Extra(full) <= free then OK else NO_SPACE)
      else if m[p] == Directory then NOT_DIR
      else if Needed(WriteStart(m, p, append), n) <= free + held then OK else NO_SPACE
  }

  function Extra(full: bool): nat {
    if full then 1 else 0
  }

  function AtLeast(a: nat, b: nat): nat {
    if a < b then b else a
  }

  /** A write leaves the new bytes at its target, or behind the old ones when it
      appends, and touches no other path. A write that runs out of space changes
      nothing, except that an overwrite may have spoilt the bytes of its own file. */
  ghost predicate WriteEffect(m: Tree, t: Located, content: seq<Byte>, append: bool, free: int, held: nat, full: bool,
                              r: Code, m': Tree, free': int)
    requires r == WriteCode(m, t, |content|, append, free, held, full)
  {
    if t.Target? && r == OK then
      var p := t.dir + [t.name];
      if p !in m then
        m' == m[p := File(content)] && free' == free - Needed(0, |content|) - Extra(full)
      else
        var start := WriteStart(m, p, append);
        && m' == m[p := File(m[p].bytes[..start] + content)]
        && free' == free + held - AtLeast(if append then held else 1, Needed(start, |content|))
    else
      && free' == free
      && (m' == m || (t.Target? && r == NO_SPACE && !append && Spoilt(m, m', t.dir + [t.name])))
  }

  /** The maps differ at most in the bytes, not the length, of the file at `p`. */
  ghost predicate Spoilt(m: Tree, m': Tree, p: Path) {
    p in m && m[p].File? && p in m' && m'[p].File? && |m'[p].bytes| == |m[p].bytes| && m' == m[p := m'[p]]
  }

  ghost function MkDirCode(m: Tree, t: Located, free: int, full: bool): Code {
    if t.Fails? then t.code
    else
      var p := t.dir + [t.name];
      if p in m then (if m[p] == Directory then ALREADY_EXISTS else NOT_DIR)
      else if 1 + Extra(full) <= free then OK else NO_SPACE
  }

  ghost predicate MkDirEffect(m: Tree, t: Located, free: int, full: bool, r: Code, m': Tree, free': int)
    requires r == MkDirCode(m, t, free, full)
  {
    if t.Target? && r == OK then m' == m[t.dir + [t.name] := Directory] && free' == free - 1 - Extra(full)
    else m' == m && free' == free
  }

  ghost function ReadCode(m: Tree, t: Located, room: nat): Code {
    if t.Fails? then NOT_FOUND
    else
      var p := t.dir + [t.name];
      if p !in m then NOT_FOUND else if m[p] == Directory then NOT_DIR
      else if |m[p].bytes| > room then NO_SPACE else OK
  }

  /** The bytes of the file at the target. */
  ghost function ReadBytes(m: Tree, t: Located): seq<Byte> {
    if t.Target? && t.dir + [t.name] in m && m[t.dir + [t.name]].File? then m[t.dir + [t.name]].bytes else []
  }

  ghost function UnlinkCode(m: Tree, t: Located): Code {
    if t.Fails? then t.code
    else
      var p := t.dir + [t.name];
      if p !in m then NOT_FOUND else if m[p] == Directory then NOT_DIR else OK
  }

  ghost function RmDirCode(m: Tree, path: Text, t: Located): Code {
    if path == [] || path == [47] then INVALID_ARG
    else if t.Fails? then t.code
    else
      var p := t.dir + [t.name];
      if p !in m then NOT_FOUND
      else if m[p] != Directory then NOT_DIR
      else if exists n: Name :: p + [n] in m then NOT_EMPTY else OK
  }

  ghost predicate RemoveEffect(m: Tree, t: Located, free: int, held: int, r: Code, m': Tree, free': int) {
    if r == OK then t.Target? && m' == m - {t.dir + [t.name]} && free' == free + held
    else m' == m && free' == free
  }
}
