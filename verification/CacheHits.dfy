/** When the object cache saves work: a repeated build is answered from the store, whatever was
    built in between, unless a build of the same file has replaced its list of dependencies. */
module CacheHits {
  import opened Options
  import opened CObjectCache

  function From(cc: Compiler, s: State, h: seq<Event>): State
    decreases |h|
  {
    if h == [] then s else From(cc, Next(cc, s, h[0]), h[1..])
  }

  function Next(cc: Compiler, s: State, e: Event): State {
    match e
    case Edit(fs) => s.(fs := fs)
    case BuildEvent(req) => Build(cc, s, req).0
  }

  /** The build is answered without running the compiler. */
  predicate IsHit(s: State, req: Request, obj: nat) {
    req.path in s.fs && Lookup(s, req) == Some(obj)
  }

  /** The list of dependencies under `k.dep` is `slice` and the object under `k` is `obj`. */
  ghost predicate Keeps(s: State, slice: seq<Path>, k: ObjKey, obj: nat) {
    k.dep in s.depfiles && s.depfiles[k.dep] == slice && k in s.objects && s.objects[k] == obj
  }

  /** The event does not replace the list of dependencies `slice` under `dk` by another one. */
  ghost predicate Leaves(cc: Compiler, s: State, e: Event, dk: DepKey, slice: seq<Path>) {
    var writes :=
      && e.BuildEvent? && e.req.path in s.fs && KeyOf(s, e.req) == dk
      && Lookup(s, e.req).None? && cc(e.req, s.fs).Compiled?;
    writes ==> DependencySlice(cc(e.req, s.fs).deps, e.req.path) == slice
  }

  ghost predicate AllLeave(cc: Compiler, s: State, h: seq<Event>, dk: DepKey, slice: seq<Path>)
    decreases |h|
  {
    h == [] || (Leaves(cc, s, h[0], dk, slice) && AllLeave(cc, Next(cc, s, h[0]), h[1..], dk, slice))
  }

  lemma StepKeeps(cc: Compiler, s: State, e: Event, slice: seq<Path>, k: ObjKey, obj: nat)
    requires Keeps(s, slice, k, obj) && Leaves(cc, s, e, k.dep, slice)
    ensures Keeps(Next(cc, s, e), slice, k, obj)
  {
  }

  lemma {:induction false} RunKeeps(cc: Compiler, s: State, h: seq<Event>, slice: seq<Path>, k: ObjKey, obj: nat)
    requires Keeps(s, slice, k, obj) && AllLeave(cc, s, h, k.dep, slice)
    ensures Keeps(From(cc, s, h), slice, k, obj)
    decreases |h|
  {
    hide Next, Keeps, Leaves;
    if h != [] {
      StepKeeps(cc, s, h[0], slice, k, obj);
      RunKeeps(cc, Next(cc, s, h[0]), h[1..], slice, k, obj);
    }
  }

  /** A successful build leaves its object where a repetition finds it. */
  lemma BuildStores(cc: Compiler, s: State, req: Request)
    requires Build(cc, s, req).1.Object?
    ensures var (s', r) := Build(cc, s, req);
      && req.path in s'.fs && s'.fs == s.fs && KeyOf(s', req) in s'.depfiles && IsHit(s', req, r.obj)
  {
  }

  /** After a successful build, any history of edits and other builds, and a return of the listed
      files to their contents, the build is answered from the store with the same object, as long as
      no build in between replaces its list of dependencies. */
  lemma RepeatedBuildHits(cc: Compiler, s: State, req: Request, h: seq<Event>)
    requires Build(cc, s, req).1.Object?
    requires var s1 := Build(cc, s, req).0;
      && req.path in s1.fs && KeyOf(s1, req) in s1.depfiles
      && var slice, s2 := s1.depfiles[KeyOf(s1, req)], From(cc, s1, h);
         && AllLeave(cc, s1, h, KeyOf(s1, req), slice)
         && Agree(s.fs, s2.fs, slice) && req.path in s2.fs && s2.fs[req.path] == s.fs[req.path]
    ensures var s2 := From(cc, Build(cc, s, req).0, h);
      Build(cc, s2, req) == (s2, Build(cc, s, req).1)
  {
    var (s1, r) := Build(cc, s, req);
    BuildStores(cc, s, req);
    var dk := KeyOf(s1, req);
    var slice := s1.depfiles[dk];
    var files := Contents(s1.fs, slice).value;
    var k := ObjKey(dk, files, req.thinlto);
    RunKeeps(cc, s1, h, slice, k, r.obj);
    var s2 := From(cc, s1, h);
    hide From, Build;
    assert Contents(s2.fs, slice).value == files;
    assert IsHit(s2, req, r.obj);
    HitAnswers(cc, s2, req, r.obj);
  }

  lemma HitAnswers(cc: Compiler, s: State, req: Request, obj: nat)
    requires IsHit(s, req, obj)
    ensures Build(cc, s, req) == (s, Object(obj))
  {
  }

  // ---------------------------------------------------------------------------
  // Without edits, only the other kind of object for the same file can interfere

  function Builds(reqs: seq<Request>): seq<Event> {
    seq(|reqs|, i requires 0 <= i < |reqs| => BuildEvent(reqs[i]))
  }

  function Other(req: Request): Request {
    req.(thinlto := !req.thinlto)
  }

  /** Compiling with and without ThinLTO reads the same files, or one of them fails. */
  ghost predicate SameReads(cc: Compiler, fs: FileSystem, req: Request) {
    cc(Other(req), fs).Compiled? && cc(req, fs).Compiled? ==>
      DependencySlice(cc(Other(req), fs).deps, req.path) == DependencySlice(cc(req, fs).deps, req.path)
  }

  lemma {:induction false} BuildsLeave(cc: Compiler, s: State, reqs: seq<Request>, req: Request, slice: seq<Path>)
    requires req.path in s.fs && SameReads(cc, s.fs, req)
    requires cc(req, s.fs).Compiled? && slice == DependencySlice(cc(req, s.fs).deps, req.path)
    ensures AllLeave(cc, s, Builds(reqs), KeyOf(s, req), slice) && From(cc, s, Builds(reqs)).fs == s.fs
    decreases |reqs|
  {
    if reqs != [] {
      var e := BuildEvent(reqs[0]);
      assert Builds(reqs)[0] == e && Builds(reqs)[1..] == Builds(reqs[1..]);
      if reqs[0].path in s.fs && KeyOf(s, reqs[0]) == KeyOf(s, req) {
        assert reqs[0] == req || reqs[0] == Other(req);
      }
      assert Leaves(cc, s, e, KeyOf(s, req), slice);
      BuildsLeave(cc, Next(cc, s, e), reqs[1..], req, slice);
    }
  }

  function Empty(fs: FileSystem): State {
    State(fs, map[], map[])
  }

  /** After its first build, with the files left alone, every later build of a request is answered from
      the store, whatever else is built in between, if and only if compiling the file with and without
      ThinLTO reads the same files. */
  lemma StoreServesIffSameReads(cc: Compiler, fs: FileSystem, req: Request)
    requires Build(cc, Empty(fs), req).1.Object?
    ensures (forall reqs :: IsHit(From(cc, Build(cc, Empty(fs), req).0, Builds(reqs)), req,
                                  Build(cc, Empty(fs), req).1.obj))
      <==> SameReads(cc, fs, req)
  {
    var (s1, r) := Build(cc, Empty(fs), req);
    FirstBuild(cc, fs, req);
    if SameReads(cc, fs, req) {
      forall reqs ensures IsHit(From(cc, s1, Builds(reqs)), req, r.obj) {
        ServedAfter(cc, fs, req, reqs);
      }
    } else {
      Evicted(cc, fs, req);
      assert !IsHit(From(cc, s1, Builds([Other(req)])), req, r.obj);
    }
  }

  lemma FirstBuild(cc: Compiler, fs: FileSystem, req: Request)
    requires Build(cc, Empty(fs), req).1.Object?
    ensures req.path in fs && cc(req, fs).Compiled?
    ensures var slice, dk := DependencySlice(cc(req, fs).deps, req.path), KeyOf(Empty(fs), req);
      && Contents(fs, slice).Some?
      && Build(cc, Empty(fs), req) ==
           (State(fs, map[dk := slice], map[ObjKey(dk, Contents(fs, slice).value, req.thinlto) := cc(req, fs).obj]),
            Object(cc(req, fs).obj))
  {
  }

  lemma ServedAfter(cc: Compiler, fs: FileSystem, req: Request, reqs: seq<Request>)
    requires Build(cc, Empty(fs), req).1.Object? && SameReads(cc, fs, req)
    ensures IsHit(From(cc, Build(cc, Empty(fs), req).0, Builds(reqs)), req, Build(cc, Empty(fs), req).1.obj)
  {
    hide From, Builds, SameReads, AllLeave;
    FirstBuild(cc, fs, req);
    var (s1, r) := Build(cc, Empty(fs), req);
    var slice, dk := DependencySlice(cc(req, fs).deps, req.path), KeyOf(s1, req);
    var files := Contents(fs, slice).value;
    BuildsLeave(cc, s1, reqs, req, slice);
    RunKeeps(cc, s1, Builds(reqs), slice, ObjKey(dk, files, req.thinlto), r.obj);
  }

  /** The build of the other kind replaces the list of dependencies. */
  lemma Evicted(cc: Compiler, fs: FileSystem, req: Request)
    requires Build(cc, Empty(fs), req).1.Object? && !SameReads(cc, fs, req)
    ensures !IsHit(From(cc, Build(cc, Empty(fs), req).0, Builds([Other(req)])), req, Build(cc, Empty(fs), req).1.obj)
  {
    FirstBuild(cc, fs, req);
    var (s1, r) := Build(cc, Empty(fs), req);
    var dk, slice := KeyOf(s1, req), DependencySlice(cc(req, fs).deps, req.path);
    var slice' := DependencySlice(cc(Other(req), fs).deps, req.path);
    var s2 := Build(cc, s1, Other(req)).0;
    OneBuild(cc, s1, Other(req));
    hide From, Builds;
    assert Lookup(s1, Other(req)).None?;
    assert s2.depfiles[dk] == slice';
    DifferentSlices(cc(req, fs).deps, cc(Other(req), fs).deps, req.path);
    if Contents(fs, slice').Some? {
      assert Contents(fs, slice').value.Keys != Contents(fs, slice).value.Keys;
    }
  }

  lemma OneBuild(cc: Compiler, s: State, req: Request)
    ensures From(cc, s, Builds([req])) == Build(cc, s, req).0
  {
    var h := Builds([req]);
    assert h == [BuildEvent(req)] && h[1..] == [];
  }

  lemma DifferentSlices(a: seq<Path>, b: seq<Path>, path: Path)
    requires DependencySlice(a, path) != DependencySlice(b, path)
    ensures (set p | p in DependencySlice(a, path)) != (set p | p in DependencySlice(b, path))
  {
    var x, y := DependencySlice(a, path), DependencySlice(b, path);
    SliceIsSortedSet(a, path);
    SliceIsSortedSet(b, path);
    var xs, ys := set p | p in x, set p | p in y;
    if xs == ys {
      forall p ensures p in x <==> p in y {
        assert (p in xs <==> p in x) && (p in ys <==> p in y);
      }
      SameIncreasing(x, y);
    }
  }

  /** Increasing lists with the same elements are equal. */
  lemma {:induction false} SameIncreasing(x: seq<Path>, y: seq<Path>)
    requires Increasing(x) && Increasing(y) && forall p :: p in x <==> p in y
    ensures x == y
    decreases |x|
  {
    assert y != [] ==> y[0] in y;
    if x != [] {
      assert x[0] in x && x[0] in y && y != [] && y[0] in y && y[0] in x;
      assert x == [x[0]] + x[1..] && y == [y[0]] + y[1..];
      assert x[0] == y[0];
      assert x[0] !in x[1..] && y[0] !in y[1..];
      forall p ensures p in x[1..] <==> p in y[1..] {
        assert p in x <==> p == x[0] || p in x[1..];
        assert p in y <==> p == y[0] || p in y[1..];
      }
      SameIncreasing(x[1..], y[1..]);
    }
  }

  /** A compiler that reads one more file with ThinLTO. */
  function ExtraRead(req: Request, fs: FileSystem): CompileResult {
    Compiled(7, if req.thinlto then [1] else [])
  }

  lemma AlternatingBuildsMiss(fs: FileSystem, req: Request)
    requires fs == map[0 := 5, 1 := 6] && req == Request(0, [], false)
    ensures Build(ExtraRead, Empty(fs), req).1 == Object(7)
    ensures exists reqs :: !IsHit(From(ExtraRead, Build(ExtraRead, Empty(fs), req).0, Builds(reqs)), req, 7)
  {
    SliceMembers([1], 0);
    SliceMembers([], 0);
    assert 1 in DependencySlice([1], 0) && 1 !in DependencySlice([], 0);
    assert !SameReads(ExtraRead, fs, req);
    assert Contents(fs, DependencySlice([], 0)).Some?;
    assert Build(ExtraRead, Empty(fs), req).1 == Object(7);
    StoreServesIffSameReads(ExtraRead, fs, req);
  }
}
