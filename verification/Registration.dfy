/**
  Worker registration: Validate (frankenphp.go) checks a list of worker declarations on small taken-name
  and taken-path tables, Init registers the same list in the real tables (worker.go, server.go).
 */
module Registration {
  import opened Options

  /** A declaration; server None is a global worker. */
  datatype Declaration = Declaration(name: string, fileName: string, server: Option<nat>, hasMatcher: bool)

  datatype Worker = Worker(name: string, fileName: string, declared: string, server: Option<nat>, hasMatcher: bool)

  datatype Error =
    | InvalidFile
    | DuplicateGlobalFile
    | MatcherWithoutServer
    | DuplicateServerFile
    | DuplicateName
    | AddWorkerDuplicate            // the error of Server.addWorker itself

  type PathKey = (Option<nat>, string)

  /** A file system that does not change: `absolute` makes a name absolute, or fails; `resolved` follows the
      symbolic links of an absolute name. */
  datatype FileSystem = FileSystem(absolute: string -> Option<string>, resolved: string -> string)

  ghost predicate Idempotent(fs: FileSystem) {
    forall f :: fs.resolved(fs.resolved(f)) == fs.resolved(f)
  }

  /** resolveWorkerFile */
  function Resolve(fs: FileSystem, o: Declaration): Option<Worker> {
    match fs.absolute(o.fileName)
    case None => None
    case Some(declared) =>
      var file := fs.resolved(declared);
      Some(Worker(if o.name == "" then file else o.name, file, declared, o.server, o.hasMatcher))
  }

  /** checkWorkerDeclaration */
  function Check(w: Worker, nameTaken: bool, pathTaken: bool): Option<Error> {
    if w.server.None? && pathTaken then Some(DuplicateGlobalFile)
    else if w.server.None? && w.hasMatcher then Some(MatcherWithoutServer)
    else if w.server.Some? && !w.hasMatcher && pathTaken then Some(DuplicateServerFile)
    else if nameTaken then Some(DuplicateName)
    else None
  }

  /* ---------- Validate ---------- */

  datatype Taken = Taken(names: set<string>, paths: set<PathKey>)

  function Take(v: Taken, w: Worker): Taken {
    Taken(v.names + {w.name}, if w.hasMatcher then v.paths else v.paths + {(w.server, w.fileName)})
  }

  function ValidateFrom(fs: FileSystem, opts: seq<Declaration>, v: Taken): Option<Error>
    decreases |opts|
  {
    if opts == [] then None else
    match Resolve(fs, opts[0])
    case None => Some(InvalidFile)
    case Some(w) =>
      match Check(w, w.name in v.names, (w.server, w.fileName) in v.paths)
      case Some(e) => Some(e)
      case None => ValidateFrom(fs, opts[1..], Take(v, w))
  }

  method Validate(fs: FileSystem, opts: seq<Declaration>) returns (err: Option<Error>)
    ensures err == ValidateFrom(fs, opts, Taken({}, {}))
  {
    var takenNames: set<string> := {};
    var takenPaths: set<PathKey> := {};
    for i := 0 to |opts|
      invariant ValidateFrom(fs, opts, Taken({}, {})) == ValidateFrom(fs, opts[i..], Taken(takenNames, takenPaths))
    {
      assert opts[i..][1..] == opts[i + 1..];
      var w := Resolve(fs, opts[i]);
      if w.None? {
        return Some(InvalidFile);
      }
      var e := Check(w.value, w.value.name in takenNames, (w.value.server, w.value.fileName) in takenPaths);
      if e.Some? {
        return e;
      }
      takenNames := takenNames + {w.value.name};
      if !w.value.hasMatcher {
        takenPaths := takenPaths + {(w.value.server, w.value.fileName)};
      }
    }
    err := None;
  }

  /* ---------- Init: the real tables ---------- */

  /** All workers in order, by name, and by server and path (a global worker has server None). */
  datatype Tables = Tables(workers: seq<Worker>, byName: map<string, Worker>, byPath: map<PathKey, Worker>)

  const EMPTY := Tables([], map[], map[])

  /** The two path keys of a worker. */
  function WritePaths(t: Tables, w: Worker): Tables {
    t.(byPath := t.byPath[(w.server, w.fileName) := w][(w.server, w.declared) := w])
  }

  function Listed(t: Tables, w: Worker): Tables {
    t.(workers := t.workers + [w], byName := t.byName[w.name := w])
  }

  function Register(t: Tables, w: Worker): (Tables, Option<Error>) {
    match Check(w, w.name in t.byName, (w.server, w.fileName) in t.byPath)
    case Some(e) => (t, Some(e))
    case None =>
      var t1 := Listed(t, w);
      if w.server.None? then (WritePaths(t1, w), None)
      else if w.hasMatcher then (t1, None)
      else if (w.server, w.fileName) in t1.byPath then (t1, Some(AddWorkerDuplicate))
      else (WritePaths(t1, w), None)
  }

  function RegisterFrom(fs: FileSystem, opts: seq<Declaration>, t: Tables): (Tables, Option<Error>)
    decreases |opts|
  {
    if opts == [] then (t, None) else
    match Resolve(fs, opts[0])
    case None => (t, Some(InvalidFile))
    case Some(w) =>
      var (t1, e) := Register(t, w);
      if e.Some? then (t1, e) else RegisterFrom(fs, opts[1..], t1)
  }

  class Registry {
    var tables: Tables

    /** initWorkers, up to the start of the threads: the tables are made afresh and filled in place. */
    method InitWorkers(fs: FileSystem, opts: seq<Declaration>) returns (err: Option<Error>)
      modifies this
      ensures (tables, err) == RegisterFrom(fs, opts, EMPTY)
    {
      tables := EMPTY;
      for i := 0 to |opts|
        invariant RegisterFrom(fs, opts, EMPTY) == RegisterFrom(fs, opts[i..], tables)
      {
        assert opts[i..][1..] == opts[i + 1..];
        var w := Resolve(fs, opts[i]);
        if w.None? {
          return Some(InvalidFile);
        }
        err := AddWorker(w.value);
        if err.Some? {
          return;
        }
      }
      err := None;
    }

    method AddWorker(w: Worker) returns (err: Option<Error>)
      modifies this
      ensures (tables, err) == Register(old(tables), w)
    {
      err := Check(w, w.name in tables.byName, (w.server, w.fileName) in tables.byPath);
      if err.Some? {
        return;
      }
      tables := tables.(workers := tables.workers + [w], byName := tables.byName[w.name := w]);
      if w.server.Some? && w.hasMatcher {
        return None;
      }
      if w.server.Some? && (w.server, w.fileName) in tables.byPath {
        return Some(AddWorkerDuplicate);
      }
      tables := WritePaths(tables, w);
      err := None;
    }
  }

  /* ---------- both accept the same lists ---------- */

  /** A path key leads to a worker of that server whose file the path resolves to; the taken paths are
      the file names among the keys. */
  ghost predicate Related(fs: FileSystem, v: Taken, t: Tables) {
    && v.names == t.byName.Keys
    && (forall k | k in t.byPath ::
          var w := t.byPath[k];
          w.server == k.0 && fs.resolved(k.1) == w.fileName && (k.0, w.fileName) in v.paths)
    && (forall k | k in v.paths :: k in t.byPath && fs.resolved(k.1) == k.1)
  }

  lemma SamePathAnswer(fs: FileSystem, v: Taken, t: Tables, w: Worker)
    requires Idempotent(fs) && Related(fs, v, t) && w.fileName == fs.resolved(w.declared)
    ensures (w.server, w.fileName) in v.paths <==> (w.server, w.fileName) in t.byPath
    ensures (w.server, w.declared) in t.byPath ==> (w.server, w.fileName) in t.byPath
  {
    var k := (w.server, w.fileName);
    if k in t.byPath {
      assert fs.resolved(fs.resolved(w.declared)) == fs.resolved(w.declared);
    }
  }

  /** A worker without a matcher whose path is free: its two keys are new, and lead to it. */
  lemma WritePathsOk(fs: FileSystem, v: Taken, t: Tables, w: Worker)
    requires Related(fs, v, t) && w.fileName == fs.resolved(w.declared) == fs.resolved(w.fileName)
    requires (w.server, w.fileName) !in t.byPath && (w.server, w.declared) !in t.byPath && !w.hasMatcher
    ensures Related(fs, Take(v, w), WritePaths(Listed(t, w), w))
    ensures forall k | k in t.byPath :: k in WritePaths(t, w).byPath && WritePaths(t, w).byPath[k] == t.byPath[k]
  {
    var t1 := WritePaths(Listed(t, w), w);
    var v1 := Take(v, w);
    assert v1.names == t1.byName.Keys;
    forall k | k in t1.byPath
      ensures t1.byPath[k].server == k.0 && fs.resolved(k.1) == t1.byPath[k].fileName && (k.0, t1.byPath[k].fileName) in v1.paths
    {
      if k in t.byPath {
        assert t1.byPath[k] == t.byPath[k];
      } else {
        assert t1.byPath[k] == w;
      }
    }
  }

  lemma ListedOk(fs: FileSystem, v: Taken, t: Tables, w: Worker)
    requires Related(fs, v, t) && w.hasMatcher
    ensures Related(fs, Take(v, w), Listed(t, w))
  {
    assert Take(v, w).names == Listed(t, w).byName.Keys;
  }

  /** A registration that is not refused writes the path keys exactly for a worker without a matcher. */
  lemma RegisterResult(t: Tables, w: Worker)
    ensures var e := Check(w, w.name in t.byName, (w.server, w.fileName) in t.byPath);
            Register(t, w) == (if e.Some? then t else if w.hasMatcher then Listed(t, w) else WritePaths(Listed(t, w), w), e)
  {
  }

  /** One registration: the same answer as Validate, never addWorker's own error, and the path entries
      that were there keep their workers. */
  lemma RegisterAgrees(fs: FileSystem, v: Taken, t: Tables, w: Worker)
    requires Idempotent(fs) && Related(fs, v, t) && w.fileName == fs.resolved(w.declared)
    ensures var (t1, e) := Register(t, w);
            && e == Check(w, w.name in v.names, (w.server, w.fileName) in v.paths)
            && (e.None? ==> Related(fs, Take(v, w), t1))
            && forall k | k in t.byPath :: k in t1.byPath && t1.byPath[k] == t.byPath[k]
  {
    SamePathAnswer(fs, v, t, w);
    RegisterResult(t, w);
    if Register(t, w).1.None? {
      if w.hasMatcher {
        ListedOk(fs, v, t, w);
      } else {
        assert fs.resolved(fs.resolved(w.declared)) == fs.resolved(w.declared);
        WritePathsOk(fs, v, t, w);
      }
    }
  }

  lemma {:induction false} RegisterFromAgrees(fs: FileSystem, opts: seq<Declaration>, v: Taken, t: Tables)
    requires Idempotent(fs) && Related(fs, v, t)
    ensures RegisterFrom(fs, opts, t).1 == ValidateFrom(fs, opts, v)
    ensures RegisterFrom(fs, opts, t).1 != Some(AddWorkerDuplicate)
    ensures forall k | k in t.byPath ::
              k in RegisterFrom(fs, opts, t).0.byPath && RegisterFrom(fs, opts, t).0.byPath[k] == t.byPath[k]
    decreases |opts|
  {
    if opts != [] && Resolve(fs, opts[0]).Some? {
      var w := Resolve(fs, opts[0]).value;
      RegisterAgrees(fs, v, t, w);
      var (t1, e) := Register(t, w);
      if e.None? {
        RegisterFromAgrees(fs, opts[1..], Take(v, w), t1);
      }
    }
  }

  /** Validate and Init give the same answer on every list of declarations, error included; the duplicate
      error of addWorker is unreachable. */
  lemma ValidateAgreesWithInit(fs: FileSystem, opts: seq<Declaration>)
    requires Idempotent(fs)
    ensures ValidateFrom(fs, opts, Taken({}, {})) == RegisterFrom(fs, opts, EMPTY).1
    ensures RegisterFrom(fs, opts, EMPTY).1 != Some(AddWorkerDuplicate)
  {
    RegisterFromAgrees(fs, opts, Taken({}, {}), EMPTY);
  }

  lemma {:induction false} RegisterPrefix(fs: FileSystem, opts: seq<Declaration>, n: nat, t: Tables)
    requires n <= |opts| && RegisterFrom(fs, opts, t).1.None?
    ensures RegisterFrom(fs, opts[..n], t).1.None?
    ensures RegisterFrom(fs, opts, t) == RegisterFrom(fs, opts[n..], RegisterFrom(fs, opts[..n], t).0)
    decreases n
  {
    if n > 0 {
      var w := Resolve(fs, opts[0]).value;
      assert opts[..n][1..] == opts[1..][..n - 1] && opts[1..][n - 1..] == opts[n..];
      RegisterPrefix(fs, opts[1..], n - 1, Register(t, w).0);
    } else {
      assert opts[..n] == [] && opts[n..] == opts;
    }
  }

  /** Once a path leads to a worker, it leads to that worker for the rest of the registration. */
  lemma {:induction false} PathsAreNeverOverwritten(fs: FileSystem, opts: seq<Declaration>, n: nat, k: PathKey)
    requires Idempotent(fs) && n <= |opts| && RegisterFrom(fs, opts, EMPTY).1.None?
    requires k in RegisterFrom(fs, opts[..n], EMPTY).0.byPath
    ensures k in RegisterFrom(fs, opts, EMPTY).0.byPath
    ensures RegisterFrom(fs, opts, EMPTY).0.byPath[k] == RegisterFrom(fs, opts[..n], EMPTY).0.byPath[k]
  {
    RegisterPrefix(fs, opts, n, EMPTY);
    var v := RelatedAfter(fs, opts[..n], Taken({}, {}), EMPTY);
    RegisterFromAgrees(fs, opts[n..], v, RegisterFrom(fs, opts[..n], EMPTY).0);
  }

  lemma {:induction false} RelatedAfter(fs: FileSystem, opts: seq<Declaration>, v: Taken, t: Tables) returns (v1: Taken)
    requires Idempotent(fs) && Related(fs, v, t) && RegisterFrom(fs, opts, t).1.None?
    ensures Related(fs, v1, RegisterFrom(fs, opts, t).0)
    decreases |opts|
  {
    if opts == [] {
      v1 := v;
    } else {
      var w := Resolve(fs, opts[0]).value;
      RegisterAgrees(fs, v, t, w);
      v1 := RelatedAfter(fs, opts[1..], Take(v, w), Register(t, w).0);
    }
  }

  /* ---------- which lists are accepted ---------- */

  /** Two workers may be declared together: different names, and not the same file on the same server
      unless a matcher tells them apart. */
  predicate Compatible(a: Worker, b: Worker) {
    a.name != b.name && (a.hasMatcher || b.hasMatcher || a.server != b.server || a.fileName != b.fileName)
  }

  /** A declaration that is fine by itself: its file resolves, and only a scoped worker has a matcher. */
  predicate Sound(fs: FileSystem, o: Declaration) {
    Resolve(fs, o).Some? && (o.server.None? ==> !o.hasMatcher)
  }

  ghost predicate FitsTaken(v: Taken, w: Worker) {
    w.name !in v.names && (w.hasMatcher || (w.server, w.fileName) !in v.paths)
  }

  ghost predicate AllFit(fs: FileSystem, opts: seq<Declaration>, v: Taken) {
    && (forall i | 0 <= i < |opts| :: Sound(fs, opts[i]) && FitsTaken(v, Resolve(fs, opts[i]).value))
    && (forall i, j | 0 <= i < j < |opts| :: Compatible(Resolve(fs, opts[i]).value, Resolve(fs, opts[j]).value))
  }

  lemma FitsTakenIff(v: Taken, w: Worker, x: Worker)
    ensures FitsTaken(Take(v, w), x) <==> FitsTaken(v, x) && Compatible(w, x)
  {
  }

  lemma AllFitHead(fs: FileSystem, opts: seq<Declaration>, v: Taken)
    requires opts != [] && Sound(fs, opts[0]) && FitsTaken(v, Resolve(fs, opts[0]).value)
    ensures AllFit(fs, opts, v) <==> AllFit(fs, opts[1..], Take(v, Resolve(fs, opts[0]).value))
  {
    var w, rest := Resolve(fs, opts[0]).value, opts[1..];
    assert forall i | 0 <= i < |rest| :: rest[i] == opts[i + 1];
    forall x
      ensures FitsTaken(Take(v, w), x) <==> FitsTaken(v, x) && Compatible(w, x)
    {
      FitsTakenIff(v, w, x);
    }
    if AllFit(fs, rest, Take(v, w)) {
      forall i | 0 <= i < |opts|
        ensures Sound(fs, opts[i]) && FitsTaken(v, Resolve(fs, opts[i]).value)
      {
        if i > 0 { assert Sound(fs, rest[i - 1]); }
      }
      forall i, j | 0 <= i < j < |opts|
        ensures Compatible(Resolve(fs, opts[i]).value, Resolve(fs, opts[j]).value)
      {
        assert Sound(fs, rest[j - 1]);
        if i > 0 { assert rest[i - 1] == opts[i]; }
      }
    }
    if AllFit(fs, opts, v) {
      forall i | 0 <= i < |rest|
        ensures Sound(fs, rest[i]) && FitsTaken(Take(v, w), Resolve(fs, rest[i]).value)
      {
        assert Sound(fs, opts[i + 1]) && Compatible(w, Resolve(fs, opts[i + 1]).value);
      }
    }
  }

  lemma {:induction false} AcceptedFromIff(fs: FileSystem, opts: seq<Declaration>, v: Taken)
    ensures ValidateFrom(fs, opts, v).None? <==> AllFit(fs, opts, v)
    decreases |opts|
  {
    if opts != [] {
      if Sound(fs, opts[0]) && FitsTaken(v, Resolve(fs, opts[0]).value) {
        AllFitHead(fs, opts, v);
        AcceptedFromIff(fs, opts[1..], Take(v, Resolve(fs, opts[0]).value));
      }
    }
  }

  /** A list is accepted if and only if each declaration is fine by itself and any two are compatible. */
  lemma AcceptedIff(fs: FileSystem, opts: seq<Declaration>)
    ensures ValidateFrom(fs, opts, Taken({}, {})).None?
       <==> (forall i | 0 <= i < |opts| :: Sound(fs, opts[i]))
            && (forall i, j | 0 <= i < j < |opts| && Sound(fs, opts[i]) && Sound(fs, opts[j]) ::
                  Compatible(Resolve(fs, opts[i]).value, Resolve(fs, opts[j]).value))
  {
    AcceptedFromIff(fs, opts, Taken({}, {}));
  }

  /** Which error is reported: a path that is taken comes before a matcher without a server, and both before
      a name that is taken; a matcher makes the path of a scoped worker irrelevant. */
  lemma ReportedError(w: Worker, nameTaken: bool, pathTaken: bool)
    ensures Check(w, nameTaken, pathTaken) == Some(DuplicateGlobalFile) <==> w.server.None? && pathTaken
    ensures Check(w, nameTaken, pathTaken) == Some(MatcherWithoutServer) <==> w.server.None? && !pathTaken && w.hasMatcher
    ensures Check(w, nameTaken, pathTaken) == Some(DuplicateServerFile) <==> w.server.Some? && pathTaken && !w.hasMatcher
    ensures Check(w, nameTaken, pathTaken) == Some(DuplicateName)
       <==> nameTaken && !(pathTaken && !w.hasMatcher) && !(w.server.None? && (pathTaken || w.hasMatcher))
  {
  }

  /* ---------- what the tables hold afterwards ---------- */

  /** A declaration is resolved to the real file; a worker without a name is named after that file. */
  lemma ResolvesTo(fs: FileSystem, o: Declaration)
    ensures Resolve(fs, o).Some? <==> fs.absolute(o.fileName).Some?
    ensures Resolve(fs, o).Some? ==>
              var w := Resolve(fs, o).value;
              && w.declared == fs.absolute(o.fileName).value && w.fileName == fs.resolved(w.declared)
              && w.name == (if o.name == "" then w.fileName else o.name)
              && w.server == o.server && w.hasMatcher == o.hasMatcher
  {
  }

  /** Worker w is listed, found by its name, and, unless it has a matcher, by both of its paths. */
  ghost predicate Found(t: Tables, w: Worker) {
    && w.name in t.byName && t.byName[w.name] == w
    && (!w.hasMatcher ==> (w.server, w.fileName) in t.byPath && t.byPath[(w.server, w.fileName)] == w)
    && (!w.hasMatcher ==> (w.server, w.declared) in t.byPath && t.byPath[(w.server, w.declared)] == w)
  }

  /** Nothing else is found. */
  ghost predicate Exact(t: Tables) {
    && (forall k | 0 <= k < |t.workers| :: Found(t, t.workers[k]))
    && (forall name | name in t.byName :: t.byName[name] in t.workers && t.byName[name].name == name)
    && (forall k | k in t.byPath ::
          var w := t.byPath[k];
          w in t.workers && !w.hasMatcher && k.0 == w.server && k.1 in {w.fileName, w.declared})
  }

  lemma FoundStays(t: Tables, t1: Tables, x: Worker)
    requires Found(t, x)
    requires forall name | name in t.byName :: name in t1.byName && t1.byName[name] == t.byName[name]
    requires forall k | k in t.byPath :: k in t1.byPath && t1.byPath[k] == t.byPath[k]
    ensures Found(t1, x)
  {
  }

  lemma AllFound(t: Tables, t1: Tables, w: Worker)
    requires Exact(t) && t1.workers == t.workers + [w] && Found(t1, w)
    requires forall name | name in t.byName :: name in t1.byName && t1.byName[name] == t.byName[name]
    requires forall k | k in t.byPath :: k in t1.byPath && t1.byPath[k] == t.byPath[k]
    ensures forall k | 0 <= k < |t1.workers| :: Found(t1, t1.workers[k])
    ensures w in t1.workers && forall x | x in t.workers :: x in t1.workers
  {
    forall k | 0 <= k < |t1.workers|
      ensures Found(t1, t1.workers[k])
    {
      if k < |t.workers| {
        FoundStays(t, t1, t.workers[k]);
      }
    }
    assert t1.workers[|t.workers|] == w;
  }

  lemma RegisterExact(fs: FileSystem, v: Taken, t: Tables, w: Worker)
    requires Idempotent(fs) && Related(fs, v, t) && w.fileName == fs.resolved(w.declared) && Exact(t)
    requires Register(t, w).1.None?
    ensures Register(t, w).0.workers == t.workers + [w] && Exact(Register(t, w).0)
  {
    RegisterAgrees(fs, v, t, w);
    RegisterResult(t, w);
    AllFound(t, Register(t, w).0, w);
  }

  lemma {:induction false} RegisterFromExact(fs: FileSystem, opts: seq<Declaration>, v: Taken, t: Tables)
    requires Idempotent(fs) && Related(fs, v, t) && Exact(t) && RegisterFrom(fs, opts, t).1.None?
    ensures Exact(RegisterFrom(fs, opts, t).0)
    decreases |opts|
  {
    if opts != [] {
      var w := Resolve(fs, opts[0]).value;
      RegisterAgrees(fs, v, t, w);
      RegisterExact(fs, v, t, w);
      RegisterFromExact(fs, opts[1..], Take(v, w), Register(t, w).0);
    }
  }

  /** The workers a list of declarations stands for. */
  function ResolveAll(fs: FileSystem, opts: seq<Declaration>): Option<seq<Worker>>
    decreases |opts|
  {
    if opts == [] then Some([]) else
    match (Resolve(fs, opts[0]), ResolveAll(fs, opts[1..]))
    case (Some(w), Some(ws)) => Some([w] + ws)
    case _ => None
  }

  lemma {:induction false} RegisterFromLists(fs: FileSystem, opts: seq<Declaration>, t: Tables)
    requires RegisterFrom(fs, opts, t).1.None?
    ensures ResolveAll(fs, opts).Some?
    ensures RegisterFrom(fs, opts, t).0.workers == t.workers + ResolveAll(fs, opts).value
    decreases |opts|
  {
    if opts != [] {
      var w := Resolve(fs, opts[0]).value;
      RegisterResult(t, w);
      RegisterFromLists(fs, opts[1..], Register(t, w).0);
    }
  }

  /** After a successful registration the workers are the resolved declarations, in order; each is found by
      its name and, unless it has a matcher, by its real and its declared path; and nothing else is found. */
  lemma RegisteredTables(fs: FileSystem, opts: seq<Declaration>)
    requires Idempotent(fs) && RegisterFrom(fs, opts, EMPTY).1.None?
    ensures Exact(RegisterFrom(fs, opts, EMPTY).0)
    ensures Some(RegisterFrom(fs, opts, EMPTY).0.workers) == ResolveAll(fs, opts)
  {
    RegisterFromExact(fs, opts, Taken({}, {}), EMPTY);
    RegisterFromLists(fs, opts, EMPTY);
    assert EMPTY.workers + ResolveAll(fs, opts).value == ResolveAll(fs, opts).value;
  }
}
