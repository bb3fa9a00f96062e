/**
  Splitting a request path into the script and PATH_INFO (cgi.go splitPos and splitCgiPath,
  requestoptions.go normalizeSplitPath), as sections 4.1.5 and 4.1.13 of RFC 3875 ask.
 */
module ScriptSplit {
  import opened Options
  import opened Paths

  const PHP: Path := [46, 112, 104, 112]    // ".php"

  function Lower(c: byte): byte {
    if 65 <= c <= 90 then c + 32 else c
  }

  function LowerAll(s: Path): Path {
    seq(|s|, i requires 0 <= i < |s| => Lower(s[i]))
  }

  predicate Ascii(s: Path) {
    forall i | 0 <= i < |s| :: s[i] < 128
  }

  predicate SameLetter(c: byte, want: byte) {
    c < 128 && Lower(c) == want
  }

  /** The split string occurs at i, comparing ASCII letters without case; other bytes never match. */
  predicate OccursAt(path: Path, split: Path, i: nat) {
    split != [] && i + |split| <= |path|
    && forall j | 0 <= j < |split| :: SameLetter(path[i + j], split[j])
  }

  /** ... and ends the path or a whole segment. */
  predicate SplitsAt(path: Path, split: Path, i: nat) {
    OccursAt(path, split, i) && (i + |split| == |path| || path[i + |split|] == SLASH)
  }

  /* ---------- splitPos ---------- */

  /** The least index from i on where the split string splits the path, or -1. */
  function FirstFrom(path: Path, split: Path, i: nat): (r: int)
    requires i <= |path|
    ensures -1 <= r <= |path|
    decreases |path| - i
  {
    if SplitsAt(path, split, i) then i
    else if i == |path| then -1
    else FirstFrom(path, split, i + 1)
  }

  function FirstEntry(path: Path, splits: seq<Path>): (r: int) {
    if splits == [] then -1 else
    var i := FirstFrom(path, splits[0], 0);
    if i >= 0 then i + |splits[0]| else FirstEntry(path, splits[1..])
  }

  function SplitPos(path: Path, splits: seq<Path>): int {
    if splits == [] then 0 else FirstEntry(path, splits)
  }

  ghost predicate NeverSplits(path: Path, split: Path) {
    forall i: nat :: !SplitsAt(path, split, i)
  }

  /** Entry k splits the path at i, and neither an earlier entry nor an earlier index does. */
  ghost predicate FirstSplit(path: Path, splits: seq<Path>, k: nat, i: nat) {
    && k < |splits| && SplitsAt(path, splits[k], i)
    && (forall j | 0 <= j < i :: !SplitsAt(path, splits[k], j))
    && (forall j | 0 <= j < k :: NeverSplits(path, splits[j]))
  }

  lemma {:induction false} FirstFromIsLeast(path: Path, split: Path, i: nat)
    requires i <= |path|
    ensures var r := FirstFrom(path, split, i);
            && (r >= 0 ==> r >= i && SplitsAt(path, split, r) && forall j | i <= j < r :: !SplitsAt(path, split, j))
            && (r < 0 ==> forall j: nat | i <= j :: !SplitsAt(path, split, j))
    decreases |path| - i
  {
    if !SplitsAt(path, split, i) && i < |path| {
      FirstFromIsLeast(path, split, i + 1);
    }
  }

  /** splitPos returns the end of the first split, in list order and then by index, or -1. */
  lemma {:induction false} SplitPosIsFirst(path: Path, splits: seq<Path>)
    requires splits != []
    ensures var pos := SplitPos(path, splits);
            if pos == -1 then forall k | 0 <= k < |splits| :: NeverSplits(path, splits[k])
            else exists k: nat, i: nat :: FirstSplit(path, splits, k, i) && pos == i + |splits[k]|
  {
    FirstFromIsLeast(path, splits[0], 0);
    var i := FirstFrom(path, splits[0], 0);
    if i >= 0 {
      assert FirstSplit(path, splits, 0, i);
    } else {
      assert NeverSplits(path, splits[0]);
      var rest := splits[1..];
      if rest != [] { SplitPosIsFirst(path, rest); }
      if FirstEntry(path, rest) != -1 {
        var k: nat, j: nat :| FirstSplit(path, rest, k, j) && SplitPos(path, rest) == j + |rest[k]|;
        forall m | 0 <= m < k + 1
          ensures NeverSplits(path, splits[m])
        {
          if m > 0 { assert splits[m] == rest[m - 1]; }
        }
        assert FirstSplit(path, splits, k + 1, j);
      } else {
        forall m | 0 <= m < |splits|
          ensures NeverSplits(path, splits[m])
        {
          if m > 0 { assert splits[m] == rest[m - 1]; }
        }
      }
    }
  }

  /** The nested index loops of splitPos. */
  method FindSplitPos(path: Path, splits: seq<Path>) returns (pos: int)
    ensures pos == SplitPos(path, splits)
  {
    if |splits| == 0 {
      return 0;
    }
    for k := 0 to |splits|
      invariant FirstEntry(path, splits[k..]) == FirstEntry(path, splits)
    {
      var split := splits[k];
      assert splits[k..][1..] == splits[k + 1..];
      if |split| == 0 || |split| > |path| {
        NoRoom(path, split, 0);
        continue;
      }
      var i := 0;
      while i <= |path| - |split|
        invariant 0 <= i <= |path| - |split| + 1
        invariant FirstFrom(path, split, i) == FirstFrom(path, split, 0)
      {
        var matches := true;
        var j := 0;
        while j < |split|
          invariant 0 <= j <= |split| && matches
          invariant forall m | 0 <= m < j :: SameLetter(path[i + m], split[m])
        {
          var c := path[i + j];
          if c >= 128 || Lower(c) != split[j] {
            matches := false;
            break;
          }
          j := j + 1;
        }
        if !matches {
          assert !SameLetter(path[i + j], split[j]);
        }
        assert matches <==> OccursAt(path, split, i);
        if matches {
          pos := i + |split|;
          if pos == |path| || path[pos] == SLASH {
            return;
          }
        }
        i := i + 1;
      }
      NoRoom(path, split, i);
    }
    pos := -1;
  }

  lemma {:induction false} NoRoom(path: Path, split: Path, i: nat)
    requires i <= |path| && (split == [] || i + |split| > |path|)
    ensures FirstFrom(path, split, i) == -1
    decreases |path| - i
  {
    if i < |path| {
      NoRoom(path, split, i + 1);
    }
  }

  /** Changing the case of ASCII letters never changes where a path is split. */
  lemma SplitPosIgnoresCase(path: Path, splits: seq<Path>)
    ensures SplitPos(LowerAll(path), splits) == SplitPos(path, splits)
  {
    FirstEntryIgnoresCase(path, splits);
  }

  lemma {:induction false} FirstEntryIgnoresCase(path: Path, splits: seq<Path>)
    ensures FirstEntry(LowerAll(path), splits) == FirstEntry(path, splits)
  {
    if splits != [] {
      FirstFromIgnoresCase(path, splits[0], 0);
      FirstEntryIgnoresCase(path, splits[1..]);
    }
  }

  lemma {:induction false} FirstFromIgnoresCase(path: Path, split: Path, i: nat)
    requires i <= |path|
    ensures FirstFrom(LowerAll(path), split, i) == FirstFrom(path, split, i)
    decreases |path| - i
  {
    assert SplitsAt(LowerAll(path), split, i) <==> SplitsAt(path, split, i);
    if i < |path| {
      FirstFromIgnoresCase(path, split, i + 1);
    }
  }

  /** ASCII letters in upper case. */
  function UpperAll(s: Path): Path {
    seq(|s|, i requires 0 <= i < |s| => if 97 <= s[i] <= 122 then s[i] - 32 else s[i])
  }

  /** Nor does writing a path in upper case: "/INDEX.PHP" is split by ".php". */
  lemma SplitPosIgnoresUpperCase(path: Path, splits: seq<Path>)
    ensures SplitPos(UpperAll(path), splits) == SplitPos(path, splits)
  {
    SplitPosIgnoresCase(path, splits);
    SplitPosIgnoresCase(UpperAll(path), splits);
    assert LowerAll(UpperAll(path)) == LowerAll(path);
  }

  /* ---------- normalizeSplitPath ---------- */

  /** Lower-cases the entries in place; stops at the first entry with a byte outside ASCII, which is
      left as it was, like all those after it. */
  method NormalizeSplitPath(splits: array<Path>) returns (ok: bool, ghost bad: nat)
    modifies splits
    ensures ok <==> forall k | 0 <= k < splits.Length :: Ascii(old(splits[k]))
    ensures bad <= splits.Length && (ok ==> bad == splits.Length)
    ensures !ok ==> bad < splits.Length && !Ascii(old(splits[bad]))
    ensures forall k | 0 <= k < bad :: Ascii(old(splits[k])) && splits[k] == LowerAll(old(splits[k]))
    ensures forall k | bad <= k < splits.Length :: splits[k] == old(splits[k])
  {
    bad := 0;
    for i := 0 to splits.Length
      invariant bad == i
      invariant forall k | 0 <= k < i :: Ascii(old(splits[k])) && splits[k] == LowerAll(old(splits[k]))
      invariant forall k | i <= k < splits.Length :: splits[k] == old(splits[k])
    {
      var split := splits[i];
      var b: Path := [];
      for j := 0 to |split|
        invariant b == LowerAll(split)[..j] && Ascii(split[..j])
      {
        var c := split[j];
        if c >= 128 {
          assert split == old(splits[i]);
          return false, i;
        }
        b := b + [Lower(c)];
      }
      assert split[..|split|] == split && b == LowerAll(split);
      assert split == old(splits[i]) && Ascii(split);
      splits[i] := b;
      bad := i + 1;
    }
    ok := true;
  }

  /** The same ASCII byte, but for the case of a letter. */
  predicate SameButCase(c: byte, d: byte) {
    c < 128 && Lower(c) == Lower(d)
  }

  lemma LoweredOccurs(path: Path, split: Path, i: nat)
    requires split != [] && i + |split| <= |path| && OccursAt(path, LowerAll(split), i)
    ensures forall j | 0 <= j < |split| :: SameButCase(path[i + j], split[j])
  {
    forall j | 0 <= j < |split|
      ensures SameButCase(path[i + j], split[j])
    {
      assert SameLetter(path[i + j], LowerAll(split)[j]);
    }
  }

  /** A normalized entry matches without regard to case on either side, and is normalized already. */
  lemma NormalizedMatching(path: Path, split: Path, i: nat)
    requires Ascii(split) && split != [] && i + |split| <= |path|
    ensures OccursAt(path, LowerAll(split), i) <==> forall j | 0 <= j < |split| :: SameButCase(path[i + j], split[j])
    ensures LowerAll(LowerAll(split)) == LowerAll(split)
  {
    var low := LowerAll(split);
    if OccursAt(path, low, i) {
      LoweredOccurs(path, split, i);
    }
    if forall j | 0 <= j < |split| :: SameButCase(path[i + j], split[j]) {
      forall j | 0 <= j < |low|
        ensures SameLetter(path[i + j], low[j])
      {
        assert SameButCase(path[i + j], split[j]);
      }
    }
    assert LowerAll(low) == low;
  }

  /* ---------- splitCgiPath ---------- */

  datatype Worker = Worker(id: nat, fileName: Path)

  predicate HasPrefix(s: Path, prefix: Path) {
    |prefix| <= |s| && s[..|prefix|] == prefix
  }

  predicate HasSuffix(s: Path, suffix: Path) {
    |suffix| <= |s| && s[|s| - |suffix|..] == suffix
  }

  function TrimSuffix(s: Path, suffix: Path): Path {
    if HasSuffix(s, suffix) then s[..|s| - |suffix|] else s
  }

  /** Which worker serves a script file: the server's own, else a global one. */
  function WorkerFor(server: map<Path, Worker>, global: map<Path, Worker>, file: Path): Option<Worker> {
    if file in server then Some(server[file]) else if file in global then Some(global[file]) else None
  }

  /** A worker of the server comes before a global one, and no worker serves a file that is in neither table. */
  lemma ServerWorkerComesFirst(server: map<Path, Worker>, global: map<Path, Worker>, file: Path)
    ensures file in server ==> WorkerFor(server, global, file) == Some(server[file])
    ensures file !in server && file in global ==> WorkerFor(server, global, file) == Some(global[file])
    ensures WorkerFor(server, global, file).None? <==> file !in server.Keys + global.Keys
  {
  }

  /** SCRIPT_NAME of a pre-assigned worker below the document root. */
  predicate BelowRoot(fileName: Path, root: Path) {
    HasPrefix(fileName, root) && |root| < |fileName| && fileName[|root|] == SLASH
  }

  lemma BelowRootIff(fileName: Path, root: Path)
    ensures BelowRoot(fileName, root) <==> exists rest | Rooted(rest) :: fileName == root + rest
    ensures BelowRoot(fileName, root) ==> fileName == root + fileName[|root|..]
  {
    if BelowRoot(fileName, root) {
      assert fileName == root + fileName[|root|..] && Rooted(fileName[|root|..]);
    }
  }

  class RequestContext {
    var documentRoot: Path
    var splitPath: Option<seq<Path>>
    var worker: Option<Worker>
    var docURI: Path
    var pathInfo: Path
    var scriptName: Path
    var scriptFilename: Path

    /** The split strings in force. */
    function Splits(): seq<Path>
      reads this
    {
      if splitPath.Some? then splitPath.value else [PHP]
    }

    /** False is ErrInvalidScriptPath: no split matches, so the path names no script. */
    method SplitCgiPath(urlPath: Path, serverWorkers: map<Path, Worker>, globalWorkers: map<Path, Worker>)
      returns (ok: bool)
      modifies this`docURI, this`pathInfo, this`scriptName, this`scriptFilename, this`worker
      ensures var path := CleanRequestPath(urlPath);
              var pos := SplitPos(path, if splitPath.None? then [PHP] else splitPath.value);
              match old(worker)
              case None =>
                && ok == (pos != -1)
                && (!ok ==> unchanged(this))
                && (ok ==> 0 <= pos <= |path| && docURI == path[..pos] && pathInfo == path[pos..]
                           && scriptName == EnsureLeadingSlash(path[..pos])
                           && scriptFilename == SanitizedPathJoin(documentRoot, scriptName)
                           && worker == WorkerFor(serverWorkers, globalWorkers, scriptFilename))
              case Some(w) =>
                && ok && worker == old(worker) && scriptFilename == w.fileName
                && (if exists rest | Rooted(rest) :: w.fileName == documentRoot + rest
                    then w.fileName == documentRoot + scriptName
                         && (pos == -1 ==> docURI == old(docURI) && pathInfo == old(pathInfo))
                         && (pos != -1 ==> docURI + pathInfo == path && |docURI| == pos)
                    else docURI == [] && pathInfo == [] && scriptName == old(scriptName))
    {
      var path := CleanRequestPath(urlPath);
      var pos := FindSplitPos(path, Splits());
      SplitPosInRange(path, Splits());
      if pos > -1 {
        docURI, pathInfo := path[..pos], path[pos..];
      }
      if worker.Some? {
        var file := worker.value.fileName;
        scriptFilename := file;
        BelowRootIff(file, documentRoot);
        if BelowRoot(file, documentRoot) {
          scriptName := file[|documentRoot|..];
        } else {
          docURI, pathInfo := [], [];
        }
        return true;
      }
      if pos == -1 {
        return false;
      }
      TrimSplit(path, pos);
      scriptName := EnsureLeadingSlash(TrimSuffix(path, pathInfo));
      scriptFilename := SanitizedPathJoin(documentRoot, scriptName);
      worker := WorkerFor(serverWorkers, globalWorkers, scriptFilename);
      ok := true;
    }
  }

  lemma SplitPosInRange(path: Path, splits: seq<Path>)
    ensures -1 <= SplitPos(path, splits) <= |path|
  {
    if splits != [] { SplitPosIsFirst(path, splits); }
  }

  lemma TrimSplit(path: Path, pos: int)
    requires 0 <= pos <= |path|
    ensures TrimSuffix(path, path[pos..]) == path[..pos]
  {
    assert path[|path| - |path[pos..]|..] == path[pos..];
  }

  /** PATH_INFO is empty or starts with a slash, except when the split list is empty and the path is
      neither empty nor rooted. */
  lemma PathInfoStartsWithSlashIff(path: Path, splits: seq<Path>)
    requires SplitPos(path, splits) != -1
    ensures -1 < SplitPos(path, splits) <= |path|
    ensures var pathInfo := path[SplitPos(path, splits)..];
            (pathInfo == [] || pathInfo[0] == SLASH) <==> splits != [] || path == [] || path[0] == SLASH
  {
    if splits != [] {
      SplitPosIsFirst(path, splits);
    }
  }

  /** Such a path: "a" with an empty list, whose PATH_INFO is "a". */
  lemma PathInfoWithoutSlash()
    ensures SplitPos([97], []) == 0 && [97 as byte][0..] == [97] && [97 as byte][0] != SLASH
  {
  }

  /** SCRIPT_NAME followed by PATH_INFO is the cleaned path again, unless a slash had to be put in front
      of a script name: that happens exactly for a path without a leading slash that a split matches. */
  lemma ScriptAndPathInfoRebuildIff(path: Path, splits: seq<Path>)
    requires SplitPos(path, splits) != -1
    ensures -1 < SplitPos(path, splits) <= |path|
    ensures var pos := SplitPos(path, splits);
            EnsureLeadingSlash(path[..pos]) + path[pos..] == path <==> splits == [] || Rooted(path)
  {
    SplitPosInRange(path, splits);
    var pos := SplitPos(path, splits);
    if splits != [] {
      SplitPosIsFirst(path, splits);
      assert pos > 0;
      var name := path[..pos];
      if path[0] != SLASH {
        assert |EnsureLeadingSlash(name) + path[pos..]| == |path| + 1;
      }
    }
  }

  /** Such a path: "a.php/b", of which script name and PATH_INFO make "/a.php/b". */
  lemma UnrootedPathGainsSlash(path: Path)
    requires path == [97, 46, 112, 104, 112, 47, 98]
    ensures SplitPos(path, [PHP]) == 5 && EnsureLeadingSlash(path[..5]) + path[5..] == [SLASH] + path
  {
    PhpIsFoundAtOne(path);
    assert FirstFrom(path, PHP, 0) == FirstFrom(path, PHP, 1);
    var name := path[..5];
    assert name[0] == 97;
    assert [SLASH] + name + path[5..] == [SLASH] + path;
  }

  lemma PhpIsFoundAtOne(path: Path)
    requires path == [97, 46, 112, 104, 112, 47, 98]
    ensures !SplitsAt(path, PHP, 0) && SplitsAt(path, PHP, 1)
  {
    assert !SameLetter(path[0 + 0], PHP[0]);
    assert SameLetter(path[1], PHP[0]) && SameLetter(path[2], PHP[1]) && SameLetter(path[3], PHP[2]) && SameLetter(path[4], PHP[3]);
  }

  /** For a request path with its leading slash, any split list rebuilds the path. */
  lemma RootedPathIsRebuilt(urlPath: Path, splits: seq<Path>)
    requires Rooted(urlPath) && SplitPos(CleanRequestPath(urlPath), splits) != -1
    ensures var path := CleanRequestPath(urlPath);
            var pos := SplitPos(path, splits);
            && -1 < pos <= |path|
            && EnsureLeadingSlash(path[..pos]) + path[pos..] == path
            && (path[pos..] == [] || path[pos] == SLASH)
  {
    RequestPathIsDotFree(urlPath);
    ScriptAndPathInfoRebuildIff(CleanRequestPath(urlPath), splits);
    PathInfoStartsWithSlashIff(CleanRequestPath(urlPath), splits);
  }
}
