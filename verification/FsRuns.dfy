/** Whole runs of the service, as its callers see them. A run is a history of calls with
    the codes they returned and the states they left, failures included. What a path
    holds is decided by the calls on that path alone. */
module FsRuns {
  import opened Bytes
  import opened FsLayout
  import opened FsTree
  import opened FsPath
  import opened FsSpec
  import opened FsWrite
  import opened FsVolume
  import opened FsDirs
  import opened FsLookup
  import opened FsService

  datatype Call = Write(path: Text, content: seq<Byte>, append: bool) | MakeDir(path: Text) | Unlink(path: Text) | RmDir(path: Text)

  /** What callers can tell of a volume: the map and the number of free clusters. */
  datatype State = State(tree: Tree, free: int)

  /** A call, the clusters held at its target and whether its directory had no slot left,
      the code it returned and the state it left. */
  datatype Event = Event(call: Call, held: nat, full: bool, code: Code, after: State)

  ghost function Value(m: Tree, p: Path): Option<Val> {
    if p in m then Some(m[p]) else None
  }

  /** A step of the service: the code and the effect it promises. */
  ghost predicate Step(s: State, e: Event) {
    var m, t, m', free' := s.tree, Locating(s.tree, e.call.path), e.after.tree, e.after.free;
    match e.call
    case Write(_, content, append) =>
      && e.code == WriteCode(m, t, |content|, append, s.free, e.held, e.full)
      && WriteEffect(m, t, content, append, s.free, e.held, e.full, e.code, m', free')
    case MakeDir(_) =>
      && e.code == MkDirCode(m, t, s.free, e.full)
      && MkDirEffect(m, t, s.free, e.full, e.code, m', free')
    case Unlink(_) =>
      && e.code == UnlinkCode(m, t)
      && RemoveEffect(m, t, s.free, e.held, e.code, m', free')
    case RmDir(path) =>
      && e.code == RmDirCode(m, path, t)
      && RemoveEffect(m, t, s.free, e.held, e.code, m', free')
  }

  /** The state before call number i. */
  ghost function StateAt(s: State, h: seq<Event>, i: nat): State
    requires i <= |h|
  {
    if i == 0 then s else h[i - 1].after
  }

  ghost predicate Run(s: State, h: seq<Event>) {
    forall i :: 0 <= i < |h| ==> Step(StateAt(s, h, i), h[i])
  }

  lemma RunMore(s: State, h: seq<Event>, e: Event)
    requires Run(s, h) && Step(StateAt(s, h, |h|), e)
    ensures Run(s, h + [e]) && StateAt(s, h + [e], |h| + 1) == e.after
  {
    hide Step;
    var h' := h + [e];
    forall i | 0 <= i < |h'| ensures Step(StateAt(s, h', i), h'[i]) {
      assert StateAt(s, h', i) == StateAt(s, h, i);
    }
  }

  // ---- the path a text names ----

  /** The names of the components, if all of them are short names. */
  ghost function NamesOf(cs: seq<Text>): Option<Path> {
    if cs == [] then Some([])
    else
      var rest := NamesOf(cs[1..]);
      if ShortName(cs[0]).None? || rest.None? then None else Some([ShortName(cs[0]).value] + rest.value)
  }

  /** The path that a text names, whatever the map holds. */
  ghost function PathNamed(path: Text): Option<Path> {
    NamesOf(Components(path, 0))
  }

  lemma {:induction false} LocateNames(m: Tree, cs: seq<Text>, dir: Path)
    ensures var t := Locate(m, cs, dir);
            if t.Target? then NamesOf(cs).Some? && t.dir + [t.name] == dir + NamesOf(cs).value else t.code != OK
    decreases |cs|
  {
    var t := Locate(m, cs, dir);
    if cs != [] && ShortName(cs[0]).Some? {
      var name := ShortName(cs[0]).value;
      if |cs| > 1 { LocateNames(m, cs[1..], dir + [name]); }
      if |cs| == 1 {
        assert NamesOf(cs[1..]) == Some([]) && [name] + [] == [name];
      } else if t.Target? {
        var rest := NamesOf(cs[1..]).value;
        assert dir + [name] + rest == dir + ([name] + rest);
      }
    }
  }

  /** A call that gets as far as a target is about the path its text names. */
  lemma TargetNamed(m: Tree, path: Text)
    ensures var t := Locating(m, path); if t.Target? then PathNamed(path) == Some(t.dir + [t.name]) else t.code != OK
  {
    LocateNames(m, Components(path, 0), []);
    var t := Locating(m, path);
    if t.Target? { assert [] + PathNamed(path).value == PathNamed(path).value; }
  }

  // ---- one step ----

  /** What a call on a path makes of the value there. */
  ghost predicate Turns(v: Option<Val>, e: Event, v': Option<Val>) {
    match e.call
    case Write(_, content, append) =>
      if e.code == OK then v' == Some(File((if append && v.Some? && v.value.File? then v.value.bytes else []) + content))
      else v' == v || (!append && e.code == NO_SPACE && v.Some? && v.value.File? && v'.Some? && v'.value.File? && |v'.value.bytes| == |v.value.bytes|)
    case MakeDir(_) => if e.code == OK then v.None? && v' == Some(Directory) else v' == v
    case Unlink(_) => if e.code == OK then v.Some? && v.value.File? && v'.None? else v' == v
    case RmDir(_) => if e.code == OK then v == Some(Directory) && v'.None? else v' == v
  }

  /** A step changes at most the value at the path that its text names, as that call says. */
  lemma StepAt(s: State, e: Event, p: Path)
    requires Step(s, e)
    ensures if PathNamed(e.call.path) == Some(p) then Turns(Value(s.tree, p), e, Value(e.after.tree, p))
            else Value(e.after.tree, p) == Value(s.tree, p)
  {
    hide Locating, PathNamed;
    TargetNamed(s.tree, e.call.path);
    match e.call {
      case Write(path, content, append) => WriteAt(s, e, p);
      case MakeDir(_) =>
      case Unlink(_) =>
      case RmDir(_) =>
    }
  }

  lemma WriteAt(s: State, e: Event, p: Path)
    requires Step(s, e) && e.call.Write?
    requires var t := Locating(s.tree, e.call.path); if t.Target? then PathNamed(e.call.path) == Some(t.dir + [t.name]) else t.code != OK
    ensures if PathNamed(e.call.path) == Some(p) then Turns(Value(s.tree, p), e, Value(e.after.tree, p))
            else Value(e.after.tree, p) == Value(s.tree, p)
  {
    hide Locating, PathNamed;
    var m, t := s.tree, Locating(s.tree, e.call.path);
    if t.Target? && e.code == OK && t.dir + [t.name] == p {
      if p in m {
        assert m[p].bytes[..WriteStart(m, p, e.call.append)] == if e.call.append then m[p].bytes else [];
      } else {
        assert [] + e.call.content == e.call.content;
      }
    }
  }

  // ---- the map stays a tree ----

  /** The root is a directory, and what is not the root lies in a directory. */
  ghost predicate Closed(m: Tree) {
    && [] in m && m[[]] == Directory
    && forall p: Path :: p in m && p != [] ==> InDirectory(m, p)
  }

  ghost predicate InDirectory(m: Tree, p: Path)
    requires p != []
  {
    p[..|p| - 1] in m && m[p[..|p| - 1]] == Directory
  }

  lemma {:induction false} LocateClosed(m: Tree, cs: seq<Text>, dir: Path)
    requires dir in m && m[dir] == Directory
    ensures var t := Locate(m, cs, dir); t.Target? ==> t.dir in m && m[t.dir] == Directory
    decreases |cs|
  {
    if |cs| > 1 && Locate(m, cs, dir).Target? {
      LocateClosed(m, cs[1..], dir + [ShortName(cs[0]).value]);
    }
  }

  /** Nothing lies below a path that is no directory. */
  lemma NoneBelow(m: Tree, q: Path, p: Path)
    requires Closed(m) && q in m && q != [] && q[..|q| - 1] == p
    ensures p in m && m[p] == Directory && p + [q[|q| - 1]] == q
  {
    assert InDirectory(m, q);
  }

  lemma StepClosed(s: State, e: Event)
    requires Closed(s.tree) && Step(s, e)
    ensures Closed(e.after.tree)
  {
    hide Locate, PathNamed, Closed;
    var m, m' := s.tree, e.after.tree;
    var t := Locating(m, e.call.path);
    RootOf(m);
    LocateClosed(m, Components(e.call.path, 0), []);
    if t.Target? {
      var p := t.dir + [t.name];
      forall q: Path | q != p ensures Value(m', q) == Value(m, q) {
        TargetNamed(m, e.call.path);
        StepAt(s, e, q);
      }
      TargetNamed(m, e.call.path);
      StepAt(s, e, p);
      StepPlace(s, e, p);
      assert p[..|p| - 1] == t.dir;
      PointClosed(m, m', p);
    }
  }

  lemma RootOf(m: Tree)
    requires Closed(m)
    ensures [] in m && m[[]] == Directory
  {
  }

  /** The target of a call that removes it has nothing below; one that makes it a file was none or a file. */
  lemma StepPlace(s: State, e: Event, p: Path)
    requires Step(s, e) && Closed(s.tree)
    requires var t := Locating(s.tree, e.call.path); t.Target? && p == t.dir + [t.name]
    ensures var m, m' := s.tree, e.after.tree;
            m' == m || (p in m' && m'[p] == Directory) || (p in m && m[p] != Directory) || (p !in m)
            || (p !in m' && forall n: Name :: p + [n] !in m)
  {
    hide Locating;
  }

  /** Changing a map at one path that lies in a directory. */
  lemma PointClosed(m: Tree, m': Tree, p: Path)
    requires Closed(m) && p != [] && p[..|p| - 1] in m && m[p[..|p| - 1]] == Directory
    requires forall q: Path :: q != p ==> Value(m', q) == Value(m, q)
    requires m' == m || (p in m' && m'[p] == Directory) || (p in m && m[p] != Directory) || (p !in m)
             || (p !in m' && forall n: Name :: p + [n] !in m)
    ensures Closed(m')
  {
    RootOf(m);
    assert Value(m', []) == Value(m, []);
    forall q: Path | q in m' && q != [] ensures InDirectory(m', q) {
      var d := q[..|q| - 1];
      if q == p {
        assert |d| < |p|;
        assert Value(m', d) == Value(m, d);
      } else {
        assert Value(m', q) == Value(m, q);
        NoneBelow(m, q, d);
        if d != p { assert Value(m', d) == Value(m, d); }
      }
    }
  }

  lemma {:induction false} RunClosed(s: State, h: seq<Event>, i: nat)
    requires Run(s, h) && Closed(s.tree) && i <= |h|
    ensures Closed(StateAt(s, h, i).tree)
  {
    hide Closed, Step;
    if i > 0 {
      RunClosed(s, h, i - 1);
      assert Step(StateAt(s, h, i - 1), h[i - 1]);
      StepClosed(StateAt(s, h, i - 1), h[i - 1]);
    }
  }

  // ---- whole runs ----

  /** However a run goes, a path keeps its value while no call names it. */
  lemma {:induction false} OthersKept(s: State, h: seq<Event>, p: Path, i: nat, j: nat)
    requires Run(s, h) && i <= j <= |h|
    requires forall k :: i <= k < j ==> PathNamed(h[k].call.path) != Some(p)
    ensures Value(StateAt(s, h, j).tree, p) == Value(StateAt(s, h, i).tree, p)
    decreases j
  {
    hide Step, PathNamed;
    if i < j {
      OthersKept(s, h, p, i, j - 1);
      assert Step(StateAt(s, h, j - 1), h[j - 1]);
      StepAt(StateAt(s, h, j - 1), h[j - 1], p);
    }
  }

  /** A call that cannot take bytes away from the file at p: one on another path, an append
      whatever it returns, any mkdir and rmdir, or an unlink that failed. */
  ghost predicate Spares(e: Event, p: Path) {
    PathNamed(e.call.path) == Some(p) ==>
      match e.call
      case Write(_, _, append) => append
      case MakeDir(_) => true
      case Unlink(_) => e.code != OK
      case RmDir(_) => true
  }

  /** The bytes of the appends to p that returned OK, in their order. */
  ghost function Appended(h: seq<Event>, p: Path): seq<Byte> {
    if h == [] then []
    else Appended(h[..|h| - 1], p) + Added(h[|h| - 1], p)
  }

  /** After an overwrite that returned OK, only appends that returned OK count. */
  lemma {:induction false} AppendsCount(s: State, h: seq<Event>, p: Path, i: nat, j: nat)
    requires Run(s, h) && i < j <= |h| && PathNamed(h[i].call.path) == Some(p)
    requires h[i].call.Write? && !h[i].call.append && h[i].code == OK
    requires forall k :: i < k < j ==> Spares(h[k], p)
    ensures Value(StateAt(s, h, j).tree, p) == Some(File(h[i].call.content + Appended(h[i + 1..j], p)))
    decreases j
  {
    hide Step, PathNamed, Appended, Turns, Spares, Added;
    var before, e := StateAt(s, h, j - 1), h[j - 1];
    assert Step(before, e);
    StepAt(before, e, p);
    if j == i + 1 {
      assert h[i + 1..j] == [];
      FirstWrite(Value(before.tree, p), e, Value(e.after.tree, p), p);
    } else {
      AppendsCount(s, h, p, i, j - 1);
      AppendedMore(h[i + 1..j], p);
      assert h[i + 1..j][..j - i - 2] == h[i + 1..j - 1];
      assert Spares(e, p);
      OneMore(Value(before.tree, p), e, Value(e.after.tree, p), p, h[i].call.content, Appended(h[i + 1..j - 1], p));
    }
  }

  ghost function Added(e: Event, p: Path): seq<Byte> {
    if e.call.Write? && e.code == OK && PathNamed(e.call.path) == Some(p) then e.call.content else []
  }

  lemma FirstWrite(v: Option<Val>, e: Event, v': Option<Val>, p: Path)
    requires e.call.Write? && !e.call.append && e.code == OK && Turns(v, e, v')
    ensures v' == Some(File(e.call.content + Appended([], p)))
  {
    assert [] + e.call.content == e.call.content == e.call.content + [];
  }

  lemma AppendedMore(h: seq<Event>, p: Path)
    requires h != []
    ensures Appended(h, p) == Appended(h[..|h| - 1], p) + Added(h[|h| - 1], p)
  {
  }

  lemma OneMore(v: Option<Val>, e: Event, v': Option<Val>, p: Path, a: seq<Byte>, b: seq<Byte>)
    requires v == Some(File(a + b)) && Spares(e, p)
    requires if PathNamed(e.call.path) == Some(p) then Turns(v, e, v') else v' == v
    ensures v' == Some(File(a + (b + Added(e, p))))
  {
    hide PathNamed;
    assert a + (b + []) == a + b;
    if e.call.Write? { assert (a + b) + e.call.content == a + (b + e.call.content); }
  }

  lemma {:induction false} ClosedPrefix(m: Tree, p: Path, k: nat)
    requires Closed(m) && p in m && k < |p|
    ensures p[..k] in m && m[p[..k]] == Directory
    decreases |p| - k
  {
    if k + 1 == |p| {
      assert InDirectory(m, p);
    } else {
      ClosedPrefix(m, p, k + 1);
      assert InDirectory(m, p[..k + 1]);
      assert p[..k + 1][..k] == p[..k];
    }
  }

  lemma {:induction false} NamesLocate(m: Tree, cs: seq<Text>, dir: Path)
    requires Closed(m) && cs != [] && NamesOf(cs).Some? && dir + NamesOf(cs).value in m
    ensures var t := Locate(m, cs, dir); t.Target? && t.dir + [t.name] == dir + NamesOf(cs).value
    decreases |cs|
  {
    var name, rest := ShortName(cs[0]).value, NamesOf(cs[1..]).value;
    var p := dir + NamesOf(cs).value;
    if |cs| == 1 {
      assert rest == [] && [name] + [] == [name];
    } else {
      assert |rest| > 0;
      ClosedPrefix(m, p, |dir| + 1);
      assert p[..|dir| + 1] == dir + [name] && dir + [name] + rest == p;
      NamesLocate(m, cs[1..], dir + [name]);
    }
  }

  /** A text that names a path of the map leads there. */
  lemma NamedTarget(m: Tree, path: Text, p: Path)
    requires Closed(m) && PathNamed(path) == Some(p) && p in m && p != []
    ensures var t := Locating(m, path); t.Target? && t.dir + [t.name] == p
  {
    assert [] + p == p;
    NamesLocate(m, Components(path, 0), []);
  }

  // ---- which texts name one path, and what the codes say ----

  /** Components that are short names and can be read back from them. */
  ghost predicate Legible(cs: seq<Text>) {
    forall k :: 0 <= k < |cs| ==> ShortName(cs[k]).Some? && Readable(cs[k])
  }

  lemma {:induction false} NamesOfAll(cs: seq<Text>)
    requires forall k :: 0 <= k < |cs| ==> ShortName(cs[k]).Some?
    ensures NamesOf(cs).Some? && |NamesOf(cs).value| == |cs|
    ensures forall k :: 0 <= k < |cs| ==> NamesOf(cs).value[k] == ShortName(cs[k]).value
    decreases |cs|
  {
    if cs != [] { NamesOfAll(cs[1..]); }
  }

  lemma LegibleParts(cs: seq<Text>)
    requires Legible(cs)
    ensures Parts(cs) && forall k :: 0 <= k < |cs| ==> |cs[k]| <= 15
  {
    forall k | 0 <= k < |cs| ensures |cs[k]| <= 15 && forall i :: 0 <= i < |cs[k]| ==> !IsSep(cs[k][i]) {
      ShortNameFits(cs[k]);
      assert IsShortName(cs[k]);
    }
  }

  /** Two texts name one path exactly when their components are equal up to case, whatever
      separators stand between them. */
  lemma SamePathIff(gaps: seq<Text>, cs: seq<Text>, gaps': seq<Text>, cs': seq<Text>)
    requires |gaps| == |cs| + 1 && Gaps(gaps) && Legible(cs) && |gaps'| == |cs'| + 1 && Gaps(gaps') && Legible(cs')
    ensures PathNamed(Spelled(gaps, cs)) == PathNamed(Spelled(gaps', cs')) <==>
            |cs| == |cs'| && forall k :: 0 <= k < |cs| ==> SameUpToCase(cs[k], cs'[k])
  {
    hide Spelled, Components, ShortName, SameUpToCase, Readable, NamesOf, Gaps, Parts;
    LegibleParts(cs);
    LegibleParts(cs');
    Splits(gaps, cs, |cs|);
    Splits(gaps', cs', |cs'|);
    assert cs[..|cs|] == cs && cs'[..|cs'|] == cs';
    NamesOfAll(cs);
    NamesOfAll(cs');
    if |cs| == |cs'| {
      var p, q := NamesOf(cs).value, NamesOf(cs').value;
      forall k | 0 <= k < |cs| ensures p[k] == q[k] <==> SameUpToCase(cs[k], cs'[k]) {
        SameNameIff(cs[k], cs'[k]);
      }
      assert p == q <==> forall k :: 0 <= k < |cs| ==> p[k] == q[k];
    }
  }

  ghost predicate IsDirectory(m: Tree, p: Path) {
    Value(m, p) == Some(Directory)
  }

  /** Every link of the path above it and below link `from` is a directory. */
  ghost predicate Leads(m: Tree, p: Path, from: nat) {
    forall j :: from < j < |p| ==> IsDirectory(m, p[..j])
  }

  /** What stands at the first link of the path that is no directory, from link `from` on. */
  ghost predicate StopsAt(m: Tree, p: Path, from: nat, k: nat, code: Code) {
    && from < k < |p| && (forall j :: from < j < k ==> IsDirectory(m, p[..j])) && !IsDirectory(m, p[..k])
    && code == if Value(m, p[..k]).None? then NOT_FOUND else NOT_DIR
  }

  lemma {:induction false} LocateWalks(m: Tree, cs: seq<Text>, dir: Path)
    requires cs != [] && NamesOf(cs).Some?
    ensures var t, p := Locate(m, cs, dir), dir + NamesOf(cs).value;
            |p| > |dir| &&
            if t.Target? then t == Target(p[..|p| - 1], p[|p| - 1]) && Leads(m, p, |dir|)
            else exists k: nat :: StopsAt(m, p, |dir|, k, t.code)
    decreases |cs|
  {
    var name, rest := ShortName(cs[0]).value, NamesOf(cs[1..]).value;
    var t, p := Locate(m, cs, dir), dir + NamesOf(cs).value;
    if |cs| == 1 {
      assert rest == [] && p == dir + [name];
      assert p[..|p| - 1] == dir;
    } else {
      var n := |dir| + 1;
      assert p[..n] == dir + [name] && dir + [name] + rest == p;
      if IsDirectory(m, dir + [name]) {
        LocateWalks(m, cs[1..], dir + [name]);
        if t.Fails? {
          var k: nat :| StopsAt(m, p, n, k, t.code);
          assert StopsAt(m, p, |dir|, k, t.code);
        }
      } else {
        assert |rest| > 0;
        assert StopsAt(m, p, |dir|, n, t.code);
      }
    }
  }

  /** A text that names a path is located there when every link above it is a directory;
      otherwise the first that is not decides the code. */
  lemma LocatedIff(m: Tree, path: Text, p: Path)
    requires PathNamed(path) == Some(p) && p != []
    ensures var t := Locating(m, path);
            if Leads(m, p, 0) then t == Target(p[..|p| - 1], p[|p| - 1])
            else t.Fails? && exists k: nat :: StopsAt(m, p, 0, k, t.code)
  {
    hide Locate, Components, Leads, StopsAt, IsDirectory;
    LocateWalks(m, Components(path, 0), []);
    assert [] + p == p;
    var t := Locating(m, path);
    if t.Fails? {
      var k: nat :| StopsAt(m, p, 0, k, t.code);
      StopsShort(m, p, k, t.code);
    }
  }

  lemma StopsShort(m: Tree, p: Path, k: nat, code: Code)
    requires StopsAt(m, p, 0, k, code)
    ensures !Leads(m, p, 0)
  {
    assert !IsDirectory(m, p[..k]);
  }

  /** Clusters of 512 bytes for `n` bytes behind `start`, and at least the one that holds `start`. */
  function ClustersFor(start: nat, n: nat): nat {
    if n == 0 then start / 512 + 1 else (start + n + 511) / 512
  }

  lemma NeededIs(start: nat, n: nat)
    ensures Needed(start, n) == ClustersFor(start, n)
  {
  }

  /** The code a call on a path returns when the links above it are directories, from
      what the path holds, the clusters free and held, and the slots of the directory. */
  lemma CodeIs(s: State, e: Event, p: Path)
    requires Step(s, e) && PathNamed(e.call.path) == Some(p) && p != [] && Leads(s.tree, p, 0)
    ensures var v, more := Value(s.tree, p), if e.full then 1 else 0;
            match e.call
            case Write(_, c, append) =>
              if v == Some(Directory) then e.code == NOT_DIR
              else if v.None? then e.code == if ClustersFor(0, |c|) + more <= s.free then OK else NO_SPACE
              else e.code == if ClustersFor(if append then |v.value.bytes| else 0, |c|) <= s.free + e.held then OK else NO_SPACE
            case MakeDir(_) =>
              if v == Some(Directory) then e.code == ALREADY_EXISTS
              else if v.Some? then e.code == NOT_DIR
              else e.code == if 1 + more <= s.free then OK else NO_SPACE
            case Unlink(_) => e.code == if v.None? then NOT_FOUND else if v == Some(Directory) then NOT_DIR else OK
            case RmDir(path) =>
              if v.None? then e.code == NOT_FOUND
              else if v != Some(Directory) then e.code == NOT_DIR
              else e.code == if exists n: Name :: Value(s.tree, p + [n]).Some? then NOT_EMPTY else OK
  {
    hide Locating, PathNamed, Needed, Leads;
    LocatedIff(s.tree, e.call.path, p);
    assert p[..|p| - 1] + [p[|p| - 1]] == p;
    match e.call {
      case Write(_, c, append) =>
        NeededIs(0, |c|);
        NeededIs(WriteStart(s.tree, p, append), |c|);
      case MakeDir(_) =>
      case Unlink(_) =>
      case RmDir(path) =>
        NamesNone(path);
        var child := exists n: Name :: p + [n] in s.tree;
        assert child <==> exists n: Name :: Value(s.tree, p + [n]).Some? by {
          if n: Name :| Value(s.tree, p + [n]).Some? { assert p + [n] in s.tree; }
          if n: Name :| p + [n] in s.tree { assert Value(s.tree, p + [n]).Some?; }
        }
    }
  }

  lemma NamesNone(path: Text)
    ensures path == [] || path == [47] ==> PathNamed(path) == Some([])
  {
    if path == [47] { NextIs(path, 0, 1, 1); }
  }

  /** The code and the bytes of a read, from what the text names and what the path holds. */
  lemma ReadIs(m: Tree, path: Text, room: nat)
    requires Closed(m)
    ensures var t, v := Locating(m, path), if PathNamed(path).Some? && PathNamed(path).value != [] then Value(m, PathNamed(path).value) else None;
            && ReadCode(m, t, room) == (if v.None? then NOT_FOUND else if v.value == Directory then NOT_DIR
                                        else if |v.value.bytes| > room then NO_SPACE else OK)
            && (v.Some? && v.value.File? ==> ReadBytes(m, t) == v.value.bytes)
  {
    hide Closed, Locating, PathNamed;
    TargetNamed(m, path);
    var named := PathNamed(path);
    if named.Some? && named.value != [] && named.value in m { NamedTarget(m, path, named.value); }
  }

  lemma {:induction false} DirWalks(m: Tree, cs: seq<Text>, dir: Path)
    ensures LocateDir(m, cs, dir).Some? <==> NamesOf(cs).Some? && AllDirectories(m, dir + NamesOf(cs).value, |dir|)
    ensures LocateDir(m, cs, dir).Some? ==> LocateDir(m, cs, dir).value == dir + NamesOf(cs).value
    decreases |cs|
  {
    if cs == [] {
      assert dir + [] == dir;
    } else if ShortName(cs[0]).Some? {
      var name := ShortName(cs[0]).value;
      var q := dir + [name];
      DirWalks(m, cs[1..], q);
      if NamesOf(cs[1..]).Some? {
        var rest := NamesOf(cs[1..]).value;
        var p := dir + NamesOf(cs).value;
        assert p == q + rest && p[..|dir| + 1] == q;
        assert AllDirectories(m, p, |dir|) <==> IsDirectory(m, q) && AllDirectories(m, p, |q|);
      }
    }
  }

  /** Every link of the path below link `from`, itself included, is a directory. */
  ghost predicate AllDirectories(m: Tree, p: Path, from: nat) {
    forall j :: from < j <= |p| ==> IsDirectory(m, p[..j])
  }

  /** A text leads to a directory exactly when it names a path that is one, as are all above it. */
  lemma DirLocatedIff(m: Tree, path: Text, p: Path)
    ensures LocateDir(m, Components(path, 0), []) == Some(p) <==> PathNamed(path) == Some(p) && AllDirectories(m, p, 0)
  {
    hide LocateDir, Components, NamesOf, AllDirectories;
    DirWalks(m, Components(path, 0), []);
    if PathNamed(path).Some? { assert [] + PathNamed(path).value == PathNamed(path).value; }
  }

  /** Call i overwrote the file that the text names and returned OK, and no later call can
      have taken bytes away from it. */
  ghost predicate WroteAt(h: seq<Event>, i: nat, path: Text) {
    && i < |h| && h[i].call.Write? && h[i].call.path == path && !h[i].call.append && h[i].code == OK
    && PathNamed(path).Some? && forall k :: i < k < |h| ==> Spares(h[k], PathNamed(path).value)
  }

  /** The bytes written then and those of the appends that returned OK since. */
  ghost function Expected(h: seq<Event>, i: nat, path: Text): seq<Byte>
    requires WroteAt(h, i, path)
  {
    h[i].call.content + Appended(h[i + 1..], PathNamed(path).value)
  }

  /** Reading back: after an overwrite that returned OK, and whatever calls follow that do
      not take bytes away from the file, failed ones included, reading gives the bytes
      written and those of the appends that returned OK. */
  lemma ReadBack(s: State, h: seq<Event>, i: nat, path: Text, room: nat)
    requires Run(s, h) && Closed(s.tree) && WroteAt(h, i, path)
    ensures var m, bytes := StateAt(s, h, |h|).tree, Expected(h, i, path);
            && ReadBytes(m, Locating(m, path)) == bytes
            && ReadCode(m, Locating(m, path), room) == if |bytes| <= room then OK else NO_SPACE
  {
    hide PathNamed, Step, Closed, Locating;
    var p, m := PathNamed(path).value, StateAt(s, h, |h|).tree;
    AppendsCount(s, h, p, i, |h|);
    assert h[i + 1..|h|] == h[i + 1..];
    RunClosed(s, h, |h|);
    RootOf(m);
    NamedTarget(m, path, p);
  }

  // ---- the service's histories ----

  lemma ContentsClosed(data: seq<Sector>, objs: Objs)
    requires |data| == FAT_ENTRIES && TreeInv(objs) && AllSized(objs)
    ensures Closed(Contents(data, objs))
  {
    hide TreeInv, AllSized, Child;
    var m := Contents(data, objs);
    assert Resolve(objs, []) == Some(ROOT);
    RootDir(objs);
    assert At(data, objs, []) == Some(Directory);
    forall p: Path | p in m && p != [] ensures InDirectory(m, p) {
      var q := p[..|p| - 1];
      assert At(data, objs, p).Some?;
      assert At(data, objs, q) == Some(Directory);
    }
  }

  lemma RootDir(objs: Objs)
    requires TreeInv(objs)
    ensures ROOT in objs && objs[ROOT].isDir
  {
  }

  /** A client of the service, and the history of its calls since it started. */
  class Client {
    const fs: FileService
    ghost const start: State
    ghost var history: seq<Event>

    /** The service is consistent, and the history is a run that leads to its present state. */
    ghost predicate Valid()
      reads this, fs, fs.dev
    {
      && fs.Valid() && Run(start, history) && Closed(start.tree)
      && StateAt(start, history, |history|) == State(fs.View(), fs.Free())
    }

    /** A client of a device that holds no volume yet. */
    constructor (device: Device)
      requires device.Big() && !BootValid(device.blocks[0])
      ensures Valid() && history == [] && start.tree == imap[[] := Directory] && fresh(fs) && fs.dev == device
    {
      var service := new FileService(device);
      fs, history, start := service, [], State(service.View(), service.Free());
    }

    /** A client of a service that is in use already. */
    constructor Join(service: FileService)
      requires service.Valid()
      ensures Valid() && history == [] && fs == service && start == State(fs.View(), fs.Free())
    {
      hide Closed, FileService.View, FileService.Valid, FileService.Free;
      fs, history, start := service, [], State(service.View(), service.Free());
      new;
      ServiceClosed(fs);
    }

    /** Records a call that kept the service consistent. */
    ghost method Record(s: State, e: Event)
      requires Run(start, history) && Closed(start.tree) && StateAt(start, history, |history|) == s && Step(s, e)
      requires fs.Valid() && e.after == State(fs.View(), fs.Free())
      modifies `history
      ensures Valid() && history == old(history) + [e]
    {
      hide Step, Closed, Run, FileService.View, FileService.Valid, FileService.Free;
      RunMore(start, history, e);
      history := history + [e];
    }

    /** A write, unless it makes an entry that lookups do not see, joins the history. */
    method Write(path: Text, content: seq<Byte>, append: bool) returns (r: Code)
      requires Valid()
      modifies this, fs, fs.dev
      ensures !(r == OK && Creates(old(fs.View()), old(fs.Target(path))) && old(fs.Hidden(path))) ==>
                Valid() && history == old(history) + [Event(Call.Write(path, content, append), old(fs.Held(path)), old(fs.NoSlot(path)), r, State(fs.View(), fs.Free()))]
    {
      hide Run, Closed, FileService.View, FileService.Hidden, FileService.Target, FileService.Held, FileService.NoSlot, FileService.Valid, WriteEffect, WriteCode, Locating;
      ghost var s, held, full, hidden := State(fs.View(), fs.Free()), fs.Held(path), fs.NoSlot(path), Creates(fs.View(), fs.Target(path)) && fs.Hidden(path);
      ghost var t := fs.Target(path);
      TargetIs(fs, path);
      r := fs.WriteFileBytes(path, content, append);
      if !(r == OK && hidden) {
        Record(s, Event(Call.Write(path, content, append), held, full, r, State(fs.View(), fs.Free())));
      }
    }

    method MakeDir(path: Text) returns (r: Code)
      requires Valid()
      modifies this, fs, fs.dev
      ensures !(r == OK && old(fs.Hidden(path))) ==>
                Valid() && history == old(history) + [Event(Call.MakeDir(path), 0, old(fs.NoSlot(path)), r, State(fs.View(), fs.Free()))]
    {
      hide Run, Closed, FileService.View, FileService.Hidden, FileService.Target, FileService.Held, FileService.NoSlot, FileService.Valid, MkDirEffect, MkDirCode, Locating;
      ghost var s, full, hidden := State(fs.View(), fs.Free()), fs.NoSlot(path), fs.Hidden(path);
      TargetIs(fs, path);
      r := fs.MkDir(path);
      if !(r == OK && hidden) {
        Record(s, Event(Call.MakeDir(path), 0, full, r, State(fs.View(), fs.Free())));
      }
    }

    method Unlink(path: Text) returns (r: Code)
      requires Valid()
      modifies this, fs, fs.dev
      ensures Valid() && history == old(history) + [Event(Call.Unlink(path), old(fs.Held(path)), false, r, State(fs.View(), fs.Free()))]
    {
      hide Run, Closed, FileService.View, FileService.Target, FileService.Held, FileService.Valid, RemoveEffect, UnlinkCode, Locating;
      ghost var s, held := State(fs.View(), fs.Free()), fs.Held(path);
      TargetIs(fs, path);
      r := fs.Unlink(path);
      Record(s, Event(Call.Unlink(path), held, false, r, State(fs.View(), fs.Free())));
    }

    method RmDir(path: Text) returns (r: Code)
      requires Valid()
      modifies this, fs, fs.dev
      ensures Valid() && history == old(history) + [Event(Call.RmDir(path), old(fs.Held(path)), false, r, State(fs.View(), fs.Free()))]
    {
      hide Run, Closed, FileService.View, FileService.Target, FileService.Held, FileService.Valid, RemoveEffect, RmDirCode, Locating;
      ghost var s, held := State(fs.View(), fs.Free()), fs.Held(path);
      TargetIs(fs, path);
      r := fs.RmDir(path);
      Record(s, Event(Call.RmDir(path), held, false, r, State(fs.View(), fs.Free())));
    }

    /** Reading answers from the state that the history leads to, and adds nothing to it. */
    method Read(path: Text, out: array<Byte>) returns (r: Code, len: nat)
      requires Valid()
      modifies fs.dev, out
      ensures Valid()
      ensures var m := StateAt(start, history, |history|).tree;
              && r == ReadCode(m, Locating(m, path), out.Length)
              && (r != OK ==> out[..] == old(out[..]))
              && (r == OK ==> len == |ReadBytes(m, Locating(m, path))| <= out.Length
                              && out[..] == ReadBytes(m, Locating(m, path)) + old(out[..])[len..])
    {
      hide Run, Closed, FileService.View, FileService.Target, FileService.Valid, Locating, ReadCode, ReadBytes;
      TargetIs(fs, path);
      r, len := fs.ReadFileBytes(path, out);
    }

    /** What a client that wrote a file, and appended to it, reads back, whatever else it
        called and whatever failed since. */
    method ReadWritten(path: Text, out: array<Byte>, ghost i: nat) returns (r: Code, len: nat)
      requires Valid() && WroteAt(history, i, path)
      modifies fs.dev, out
      ensures Valid()
      ensures var bytes := Expected(history, i, path);
              if |bytes| <= out.Length then r == OK && len == |bytes| && out[..len] == bytes else r == NO_SPACE && out[..] == old(out[..])
    {
      hide Run, Closed, FileService.View, FileService.Valid, Locating, ReadCode, ReadBytes, WroteAt, Expected;
      ReadBack(start, history, i, path, out.Length);
      r, len := Read(path, out);
    }
  }

  lemma TargetIs(fs: FileService, path: Text)
    requires fs.Valid()
    ensures fs.Target(path) == Locating(fs.View(), path)
  {
  }

  lemma ServiceClosed(fs: FileService)
    requires fs.Valid()
    ensures Closed(fs.View())
  {
    hide Inv, Closed, Contents;
    if BootValid(fs.dev.blocks[0]) {
      var fat, data := Stored(fs.dev), fs.dev.Data();
      InvSized(fat, data, fs.objs, fs.own);
      InvTree(fat, data, fs.objs, fs.own);
      MappedIs(fat, data, fs.objs, fs.own);
    } else {
      FsFormat.FreshTree();
    }
    ContentsClosed(fs.dev.Data(), fs.objs);
  }

  lemma InvTree(fat: seq<int>, data: seq<Sector>, objs: Objs, own: Own)
    requires Inv(fat, data, objs, own)
    ensures TreeInv(objs)
  {
  }
}
