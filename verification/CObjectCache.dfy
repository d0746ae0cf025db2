/** The two-level cache for compiled C files: the dependency list is stored under the flags
    and the main file, the object under the contents of every file on that list. */
module CObjectCache {
  import opened Options
  import opened Sequences

  type Path = nat
  type Content = nat
  type FileSystem = map<Path, Content>

  /** One call of the cached compiler. `thinlto` changes the flags and the file extension. */
  datatype Request = Request(path: Path, cflags: seq<string>, thinlto: bool)

  /** The object produced and the files the compiler reports to have read. */
  datatype CompileResult = Compiled(obj: nat, deps: seq<Path>) | CompileError
  type Compiler = (Request, FileSystem) -> CompileResult

  /** Cache keys; hashing is injective, so a key is what is hashed. */
  datatype DepKey = DepKey(path: Path, content: Content, cflags: seq<string>)
  datatype ObjKey = ObjKey(dep: DepKey, files: map<Path, Content>, thinlto: bool)

  datatype State = State(fs: FileSystem, depfiles: map<DepKey, seq<Path>>, objects: map<ObjKey, nat>)

  datatype Result = Object(obj: nat) | Error

  // ---------------------------------------------------------------------------
  // Dependency lists

  function Insert(p: Path, ps: seq<Path>): seq<Path> {
    if ps == [] then [p] else if p <= ps[0] then [p] + ps else [ps[0]] + Insert(p, ps[1..])
  }

  function Sorted(ps: seq<Path>): seq<Path> {
    if ps == [] then [] else Insert(ps[0], Sorted(ps[1..]))
  }

  function Unique(ps: seq<Path>): seq<Path> {
    if ps == [] then []
    else
      var u := Unique(ps[..|ps| - 1]);
      if ps[|ps| - 1] in u then u else u + [ps[|ps| - 1]]
  }

  /** Sorted and uniqued, with the main file added. */
  function DependencySlice(deps: seq<Path>, path: Path): seq<Path> {
    Sorted(Unique(deps + [path]))
  }

  lemma {:induction false} InsertMembers(p: Path, ps: seq<Path>)
    ensures forall x :: x in Insert(p, ps) <==> x == p || x in ps
  {
    if ps != [] && p > ps[0] {
      InsertMembers(p, ps[1..]);
      assert ps == [ps[0]] + ps[1..];
    }
  }

  lemma {:induction false} SortedMembers(ps: seq<Path>)
    ensures forall x :: x in Sorted(ps) <==> x in ps
  {
    if ps != [] {
      SortedMembers(ps[1..]);
      InsertMembers(ps[0], Sorted(ps[1..]));
      assert ps == [ps[0]] + ps[1..];
    }
  }

  lemma {:induction false} UniqueMembers(ps: seq<Path>)
    ensures forall x :: x in Unique(ps) <==> x in ps
  {
    if ps != [] {
      UniqueMembers(ps[..|ps| - 1]);
      assert ps == ps[..|ps| - 1] + [ps[|ps| - 1]];
    }
  }

  lemma SliceMembers(deps: seq<Path>, path: Path)
    ensures forall x :: x in DependencySlice(deps, path) <==> x == path || x in deps
  {
    UniqueMembers(deps + [path]);
    SortedMembers(Unique(deps + [path]));
  }

  ghost predicate Increasing(ps: seq<Path>) {
    forall i, j :: 0 <= i < j < |ps| ==> ps[i] < ps[j]
  }

  lemma {:induction false} UniqueIsDistinct(ps: seq<Path>)
    ensures Distinct(Unique(ps))
  {
    if ps != [] {
      UniqueIsDistinct(ps[..|ps| - 1]);
    }
  }

  lemma {:induction false} InsertIncreases(p: Path, ps: seq<Path>)
    requires Increasing(ps) && p !in ps
    ensures Increasing(Insert(p, ps))
  {
    if ps != [] && p > ps[0] {
      var rest := Insert(p, ps[1..]);
      InsertIncreases(p, ps[1..]);
      InsertMembers(p, ps[1..]);
      forall j | 0 <= j < |rest| ensures ps[0] < rest[j] {
        assert rest[j] in rest;
      }
    }
  }

  lemma {:induction false} SortedIncreases(ps: seq<Path>)
    requires Distinct(ps)
    ensures Increasing(Sorted(ps))
  {
    if ps != [] {
      SortedIncreases(ps[1..]);
      SortedMembers(ps[1..]);
      assert ps[0] !in ps[1..];
      InsertIncreases(ps[0], Sorted(ps[1..]));
    }
  }

  /** The list is sorted without duplicates and holds exactly the reported files and the source. */
  lemma SliceIsSortedSet(deps: seq<Path>, path: Path)
    ensures Increasing(DependencySlice(deps, path))
    ensures forall x :: x in DependencySlice(deps, path) <==> x == path || x in deps
  {
    UniqueIsDistinct(deps + [path]);
    SortedIncreases(Unique(deps + [path]));
    SliceMembers(deps, path);
  }

  /** The contents of all listed files, if they all exist. */
  function Contents(fs: FileSystem, ps: seq<Path>): (r: Option<map<Path, Content>>)
    ensures r.Some? <==> forall p :: p in ps ==> p in fs
    ensures r.Some? ==> r.value.Keys == (set p | p in ps) && forall p :: p in r.value ==> r.value[p] == fs[p]
  {
    if forall p :: p in ps ==> p in fs then Some(map p | p in ps && p in fs :: fs[p]) else None
  }

  // ---------------------------------------------------------------------------
  // One build

  /** What compiling without a cache gives now. */
  function Fresh(cc: Compiler, fs: FileSystem, req: Request): Result {
    if req.path !in fs then Error
    else match cc(req, fs)
      case CompileError => Error
      case Compiled(obj, deps) => if Contents(fs, DependencySlice(deps, req.path)).None? then Error else Object(obj)
  }

  function KeyOf(s: State, req: Request): DepKey
    requires req.path in s.fs
  {
    DepKey(req.path, s.fs[req.path], req.cflags)
  }

  function Lookup(s: State, req: Request): Option<nat>
    requires req.path in s.fs
  {
    var dk := KeyOf(s, req);
    if dk !in s.depfiles then None
    else
      var files := Contents(s.fs, s.depfiles[dk]);
      if files.Some? && ObjKey(dk, files.value, req.thinlto) in s.objects
      then Some(s.objects[ObjKey(dk, files.value, req.thinlto)])
      else None
  }

  function CompileAndStore(cc: Compiler, s: State, req: Request): (State, Result)
    requires req.path in s.fs
  {
    match cc(req, s.fs)
    case CompileError => (s, Error)
    case Compiled(obj, deps) =>
      var dk, slice := KeyOf(s, req), DependencySlice(deps, req.path);
      var s1 := s.(depfiles := s.depfiles[dk := slice]);
      var files := Contents(s.fs, slice);
      if files.None? then (s1, Error)
      else (s1.(objects := s.objects[ObjKey(dk, files.value, req.thinlto) := obj]), Object(obj))
  }

  function Build(cc: Compiler, s: State, req: Request): (State, Result) {
    if req.path !in s.fs then (s, Error)
    else
      var hit := Lookup(s, req);
      if hit.Some? then (s, Object(hit.value)) else CompileAndStore(cc, s, req)
  }

  // ---------------------------------------------------------------------------
  // Histories

  /** Between builds the files may change in any way. */
  datatype Event = Edit(fs: FileSystem) | BuildEvent(req: Request)

  function After(cc: Compiler, fs: FileSystem, h: seq<Event>): State {
    if h == [] then State(fs, map[], map[])
    else
      var s := After(cc, fs, h[..|h| - 1]);
      match h[|h| - 1]
      case Edit(fs') => s.(fs := fs')
      case BuildEvent(req) => Build(cc, s, req).0
  }

  /** Every build, after every history, returns what a fresh compile would return. */
  ghost predicate AlwaysFresh(cc: Compiler) {
    forall fs, h, req :: Build(cc, After(cc, fs, h), req).1 == Fresh(cc, After(cc, fs, h).fs, req)
  }

  ghost predicate Agree(fs: FileSystem, fs': FileSystem, ps: seq<Path>) {
    forall p :: p in ps ==> p in fs && p in fs' && fs[p] == fs'[p]
  }

  /** The result of a successful compile depends only on the files it reports: any file system
      that agrees on them gives the same object. A compiler that also looks for files that do
      not exist violates this. */
  ghost predicate DeterminedByReads(cc: Compiler) {
    forall req: Request, fs, fs' :: Determined(cc, req, fs, fs')
  }

  ghost predicate Determined(cc: Compiler, req: Request, fs: FileSystem, fs': FileSystem) {
    cc(req, fs).Compiled? && Agree(fs, fs', DependencySlice(cc(req, fs).deps, req.path)) ==>
      Fresh(cc, fs', req) == Object(cc(req, fs).obj)
  }

  /** A stored object was compiled from files with exactly the contents in its key. */
  ghost predicate Justified(cc: Compiler, k: ObjKey, obj: nat) {
    exists fs :: JustifiedBy(cc, k, obj, fs)
  }

  ghost predicate JustifiedBy(cc: Compiler, k: ObjKey, obj: nat, fs: FileSystem) {
    var req := Request(k.dep.path, k.dep.cflags, k.thinlto);
    && cc(req, fs).Compiled? && cc(req, fs).obj == obj
    && Contents(fs, DependencySlice(cc(req, fs).deps, k.dep.path)) == Some(k.files)
  }

  ghost predicate Inv(cc: Compiler, s: State) {
    forall k :: k in s.objects ==> Justified(cc, k, s.objects[k])
  }

  lemma StoreInv(cc: Compiler, s: State, req: Request)
    requires Inv(cc, s) && req.path in s.fs
    ensures Inv(cc, CompileAndStore(cc, s, req).0)
  {
    match cc(req, s.fs)
    case CompileError =>
    case Compiled(obj, deps) =>
      var dk, files := KeyOf(s, req), Contents(s.fs, DependencySlice(deps, req.path));
      if files.Some? {
        assert JustifiedBy(cc, ObjKey(dk, files.value, req.thinlto), obj, s.fs);
      }
  }

  lemma {:induction false} AfterInv(cc: Compiler, fs: FileSystem, h: seq<Event>)
    ensures Inv(cc, After(cc, fs, h))
  {
    if h != [] {
      var s := After(cc, fs, h[..|h| - 1]);
      AfterInv(cc, fs, h[..|h| - 1]);
      match h[|h| - 1]
      case Edit(_) =>
      case BuildEvent(req) =>
        if req.path in s.fs && Lookup(s, req).None? {
          StoreInv(cc, s, req);
        }
    }
  }

  lemma HitIsFresh(cc: Compiler, s: State, req: Request)
    requires DeterminedByReads(cc) && Inv(cc, s) && req.path in s.fs && Lookup(s, req).Some?
    ensures Fresh(cc, s.fs, req) == Object(Lookup(s, req).value)
  {
    var dk := KeyOf(s, req);
    var files := Contents(s.fs, s.depfiles[dk]).value;
    var k := ObjKey(dk, files, req.thinlto);
    assert Justified(cc, k, s.objects[k]);
    var fs :| JustifiedBy(cc, k, s.objects[k], fs);
    var slice := DependencySlice(cc(req, fs).deps, req.path);
    forall p | p in slice ensures p in fs && p in s.fs && fs[p] == s.fs[p] {
      assert p in files;
    }
    assert Determined(cc, req, fs, s.fs);
  }

  /** A build that agrees with a fresh compile in one state but not in the next. */
  lemma StaleHit(cc: Compiler, req: Request, fs: FileSystem, fs': FileSystem)
    requires !Determined(cc, req, fs, fs')
    ensures var s := After(cc, fs, [BuildEvent(req), Edit(fs')]);
      Build(cc, s, req).1 != Fresh(cc, s.fs, req)
  {
    var h := [BuildEvent(req), Edit(fs')];
    var obj, slice := cc(req, fs).obj, DependencySlice(cc(req, fs).deps, req.path);
    SliceMembers(cc(req, fs).deps, req.path);
    assert req.path in slice;
    assert h[..1] == [BuildEvent(req)] && h[..1][..0] == [];
    var s0 := After(cc, fs, []);
    assert After(cc, fs, h[..1]) == Build(cc, s0, req).0;
    var s := After(cc, fs, h);
    assert s == Build(cc, s0, req).0.(fs := fs');
    assert Contents(fs, slice).value == Contents(fs', slice).value;
    assert Lookup(s, req) == Some(obj);
  }

  /** Over all histories the cache is indistinguishable from recompiling exactly when the
      compiler's result is determined by the files it reports. */
  lemma AlwaysFreshIffDetermined(cc: Compiler)
    ensures AlwaysFresh(cc) <==> DeterminedByReads(cc)
  {
    if DeterminedByReads(cc) {
      forall fs, h, req ensures Build(cc, After(cc, fs, h), req).1 == Fresh(cc, After(cc, fs, h).fs, req) {
        var s := After(cc, fs, h);
        AfterInv(cc, fs, h);
        if req.path in s.fs && Lookup(s, req).Some? {
          HitIsFresh(cc, s, req);
        }
      }
    } else {
      var req: Request, fs, fs' :| !Determined(cc, req, fs, fs');
      StaleHit(cc, req, fs, fs');
    }
  }

  /** A header found on the second include path, and the same header later added to the first:
      the compiler reports only the file it found. */
  function IncludeSearch(req: Request, fs: FileSystem): CompileResult {
    if 1 in fs then Compiled(fs[1], [1]) else if 2 in fs then Compiled(fs[2], [2]) else CompileError
  }

  lemma AddedHeaderIsMissed()
    ensures !AlwaysFresh(IncludeSearch)
  {
    var req, fs, fs' := Request(0, [], false), map[0 := 0, 2 := 7], map[0 := 0, 1 := 9, 2 := 7];
    SliceMembers([2], 0);
    assert !Determined(IncludeSearch, req, fs, fs');
    AlwaysFreshIffDetermined(IncludeSearch);
  }

  // ---------------------------------------------------------------------------
  // The code

  class Cache {
    var fs: FileSystem
    var depfiles: map<DepKey, seq<Path>>
    var objects: map<ObjKey, nat>

    ghost function View(): State
      reads this
    {
      State(fs, depfiles, objects)
    }

    constructor (fs: FileSystem)
      ensures View() == State(fs, map[], map[])
    {
      this.fs, depfiles, objects := fs, map[], map[];
    }

    /** Reads all listed files; fails when one is missing. */
    method HashFiles(paths: seq<Path>) returns (hashes: Option<map<Path, Content>>)
      ensures hashes == Contents(fs, paths)
    {
      var files: map<Path, Content> := map[];
      var k := 0;
      while k < |paths|
        invariant 0 <= k <= |paths|
        invariant Contents(fs, paths[..k]) == Some(files)
      {
        if paths[k] !in fs {
          assert paths[k] in paths;
          return None;
        }
        assert paths[..k + 1] == paths[..k] + [paths[k]];
        files := files[paths[k] := fs[paths[k]]];
        assert Contents(fs, paths[..k + 1]).value == files;
        k := k + 1;
      }
      assert paths[..k] == paths;
      return Some(files);
    }

    /** Creates the sorted and uniqued slice of dependencies. */
    method CollectDependencies(deps: seq<Path>, path: Path) returns (slice: seq<Path>)
      ensures slice == DependencySlice(deps, path)
    {
      var all := deps + [path];
      var seen: set<Path> := {};
      slice := [];
      var k := 0;
      while k < |all|
        invariant 0 <= k <= |all|
        invariant slice == Unique(all[..k]) && seen == set p | p in slice
      {
        assert all[..k + 1][..k] == all[..k];
        if all[k] !in seen {
          seen := seen + {all[k]};
          slice := slice + [all[k]];
        }
        k := k + 1;
      }
      assert all[..k] == all;
      slice := Sorted(slice);
    }

    /** `compileAndCacheCFile`. */
    method CompileAndCacheCFile(cc: Compiler, req: Request) returns (r: Result)
      modifies this`depfiles, this`objects
      ensures (View(), r) == Build(cc, old(View()), req)
    {
      if req.path !in fs {
        return Error;
      }
      var dk := DepKey(req.path, fs[req.path], req.cflags);
      if dk in depfiles {
        var files := HashFiles(depfiles[dk]);
        if files.Some? && ObjKey(dk, files.value, req.thinlto) in objects {
          return Object(objects[ObjKey(dk, files.value, req.thinlto)]);
        }
      }
      match cc(req, fs) {
        case CompileError => return Error;
        case Compiled(obj, deps) =>
          var slice := CollectDependencies(deps, req.path);
          depfiles := depfiles[dk := slice];
          var files := HashFiles(slice);
          if files.None? {
            return Error;
          }
          objects := objects[ObjKey(dk, files.value, req.thinlto) := obj];
          return Object(obj);
      }
    }
  }
}
