/**
  Lexical path handling on POSIX: path.Clean by its documented rules, as a walk over segments, and the
  functions of cgi.go built on it (cleanRequestPath, sanitizedPathJoin).
 */
module Paths {

  type byte = b: int | 0 <= b < 256
  type Path = seq<byte>

  const SLASH: byte := 47
  const DOT: byte := 46
  const DOTDOT: Path := [DOT, DOT]

  /* ---------- segments ---------- */

  function Split(s: Path): (r: seq<Path>)
    ensures r != []
  {
    if s == [] then [[]]
    else if s[0] == SLASH then [[]] + Split(s[1..])
    else var r := Split(s[1..]); [[s[0]] + r[0]] + r[1..]
  }

  function Join(segs: seq<Path>): Path {
    if segs == [] then []
    else if |segs| == 1 then segs[0]
    else segs[0] + [SLASH] + Join(segs[1..])
  }

  predicate Whole(seg: Path) {
    SLASH !in seg
  }

  lemma {:induction false} SplitIsWhole(s: Path)
    ensures forall k | 0 <= k < |Split(s)| :: Whole(Split(s)[k])
  {
    if s != [] {
      SplitIsWhole(s[1..]);
      var r := Split(s[1..]);
      if s[0] != SLASH {
        forall k | 0 <= k < |Split(s)|
          ensures Whole(Split(s)[k])
        {
          if k > 0 { assert Split(s)[k] == r[k]; } else { assert Whole(r[0]); }
        }
      } else {
        forall k | 0 <= k < |Split(s)|
          ensures Whole(Split(s)[k])
        {
          if k > 0 { assert Split(s)[k] == r[k - 1]; }
        }
      }
    }
  }

  /** Splitting at a slash splits both sides. */
  lemma {:induction false} SplitAtSlash(a: Path, b: Path)
    ensures Split(a + [SLASH] + b) == Split(a) + Split(b)
  {
    var s := a + [SLASH] + b;
    if a == [] {
      assert s[1..] == b;
    } else {
      assert s[1..] == a[1..] + [SLASH] + b;
      SplitAtSlash(a[1..], b);
    }
  }

  lemma {:induction false} SplitWhole(seg: Path)
    requires Whole(seg)
    ensures Split(seg) == [seg]
  {
    if seg != [] {
      SplitWhole(seg[1..]);
      assert [seg[0]] + seg[1..] == seg;
    }
  }

  lemma {:induction false} SplitJoin(segs: seq<Path>)
    requires segs != [] && forall k | 0 <= k < |segs| :: Whole(segs[k])
    ensures Split(Join(segs)) == segs
  {
    SplitWhole(segs[0]);
    if |segs| > 1 {
      SplitJoin(segs[1..]);
      SplitAtSlash(segs[0], Join(segs[1..]));
      assert segs == [segs[0]] + segs[1..];
    }
  }

  lemma {:induction false} JoinSplit(s: Path)
    ensures Join(Split(s)) == s
  {
    if s != [] {
      JoinSplit(s[1..]);
      var r := Split(s[1..]);
      if s[0] == SLASH {
        assert Split(s)[1..] == r;
        assert s == [SLASH] + s[1..];
      } else {
        assert Split(s)[1..] == r[1..];
        if |r| == 1 {
          assert s == [s[0]] + r[0];
        } else {
          assert Join(r) == r[0] + [SLASH] + Join(r[1..]);
          assert s == [s[0]] + s[1..];
        }
      }
    }
  }

  /* ---------- path.Clean ---------- */

  /** One segment, after the segments kept so far. */
  function Push(rooted: bool, kept: seq<Path>, seg: Path): seq<Path> {
    if seg == [] || seg == [DOT] then kept
    else if seg == DOTDOT then
      if kept != [] && kept[|kept| - 1] != DOTDOT then kept[..|kept| - 1]
      else if rooted then kept
      else kept + [seg]
    else kept + [seg]
  }

  function Walk(rooted: bool, kept: seq<Path>, segs: seq<Path>): seq<Path>
    decreases |segs|
  {
    if segs == [] then kept else Walk(rooted, Push(rooted, kept, segs[0]), segs[1..])
  }

  function Render(rooted: bool, kept: seq<Path>): Path {
    if rooted then [SLASH] + Join(kept) else if kept == [] then [DOT] else Join(kept)
  }

  predicate Rooted(p: Path) {
    p != [] && p[0] == SLASH
  }

  function Kept(p: Path): seq<Path> {
    Walk(Rooted(p), [], Split(p))
  }

  function Clean(p: Path): Path {
    if p == [] then [DOT] else Render(Rooted(p), Kept(p))
  }

  lemma {:induction false} WalkConcat(rooted: bool, kept: seq<Path>, a: seq<Path>, b: seq<Path>)
    ensures Walk(rooted, kept, a + b) == Walk(rooted, Walk(rooted, kept, a), b)
    decreases |a|
  {
    if a == [] {
      assert a + b == b;
    } else {
      assert (a + b)[1..] == a[1..] + b;
      WalkConcat(rooted, Push(rooted, kept, a[0]), a[1..], b);
    }
  }

  /** A segment that names something: not empty, not a dot segment. */
  predicate Plain(seg: Path) {
    Whole(seg) && seg != [] && seg != [DOT] && seg != DOTDOT
  }

  /** Plain segments are all kept. */
  lemma {:induction false} WalkPlain(rooted: bool, kept: seq<Path>, segs: seq<Path>)
    requires forall k | 0 <= k < |segs| :: Plain(segs[k])
    ensures Walk(rooted, kept, segs) == kept + segs
    decreases |segs|
  {
    if segs == [] {
      assert kept + segs == kept;
    } else {
      assert Plain(segs[0]);
      assert kept + segs == kept + [segs[0]] + segs[1..];
      WalkPlain(rooted, kept + [segs[0]], segs[1..]);
    }
  }

  /** What a rooted walk keeps is plain: no dot segment survives. */
  lemma {:induction false} RootedWalkIsPlain(kept: seq<Path>, segs: seq<Path>)
    requires forall k | 0 <= k < |kept| :: Plain(kept[k])
    requires forall k | 0 <= k < |segs| :: Whole(segs[k])
    ensures forall k | 0 <= k < |Walk(true, kept, segs)| :: Plain(Walk(true, kept, segs)[k])
    decreases |segs|
  {
    if segs != [] {
      assert Whole(segs[0]);
      RootedWalkIsPlain(Push(true, kept, segs[0]), segs[1..]);
    }
  }

  /* ---------- the documented rules of path.Clean ---------- */

  lemma WalkOne(rooted: bool, kept: seq<Path>, seg: Path)
    ensures Walk(rooted, kept, [seg]) == Push(rooted, kept, seg)
  {
    assert [seg][1..] == [];
  }

  /** Rules 1 and 2: an empty segment and a "." segment can be taken away anywhere. */
  lemma EmptyAndDotVanish(rooted: bool, a: seq<Path>, seg: Path, b: seq<Path>)
    requires seg == [] || seg == [DOT]
    ensures Walk(rooted, [], a + [seg] + b) == Walk(rooted, [], a + b)
  {
    WalkConcat(rooted, [], a + [seg], b);
    WalkConcat(rooted, [], a, [seg]);
    WalkConcat(rooted, [], a, b);
    WalkOne(rooted, Walk(rooted, [], a), seg);
  }

  /** Rule 3: an inner ".." goes away together with the segment in front of it. */
  lemma ParentCancels(rooted: bool, a: seq<Path>, seg: Path, b: seq<Path>)
    requires Plain(seg)
    ensures Walk(rooted, [], a + [seg] + [DOTDOT] + b) == Walk(rooted, [], a + b)
  {
    var k := Walk(rooted, [], a);
    WalkConcat(rooted, [], a + [seg] + [DOTDOT], b);
    WalkConcat(rooted, [], a + [seg], [DOTDOT]);
    WalkConcat(rooted, [], a, [seg]);
    WalkConcat(rooted, [], a, b);
    WalkOne(rooted, k, seg);
    WalkOne(rooted, k + [seg], DOTDOT);
    assert (k + [seg])[..|k|] == k;
  }

  /** Rule 4: a ".." at the root goes away. */
  lemma ParentOfRootVanishes(b: seq<Path>)
    ensures Walk(true, [], [DOTDOT] + b) == Walk(true, [], b)
  {
    WalkConcat(true, [], [DOTDOT], b);
    WalkOne(true, [], DOTDOT);
  }

  /** Nothing is left for the rules to take away: n ".." segments, none if rooted, then plain ones. */
  predicate Canonical(rooted: bool, segs: seq<Path>, n: nat) {
    && n <= |segs| && (rooted ==> n == 0)
    && (forall k | 0 <= k < n :: segs[k] == DOTDOT)
    && (forall k | n <= k < |segs| :: Plain(segs[k]))
  }

  lemma {:induction false} WalkIsCanonical(rooted: bool, kept: seq<Path>, n: nat, segs: seq<Path>) returns (m: nat)
    requires Canonical(rooted, kept, n) && forall k | 0 <= k < |segs| :: Whole(segs[k])
    ensures Canonical(rooted, Walk(rooted, kept, segs), m)
    decreases |segs|
  {
    if segs == [] {
      m := n;
    } else {
      assert Whole(segs[0]);
      var next := Push(rooted, kept, segs[0]);
      m := WalkIsCanonical(rooted, next, if next != [] && next[|next| - 1] == DOTDOT then |next| else n, segs[1..]);
    }
  }

  /** A canonical segment is kept when it comes after the canonical ones in front of it. */
  lemma PushKeepsCanonical(rooted: bool, kept: seq<Path>, seg: Path, n: nat)
    requires Canonical(rooted, kept + [seg], n)
    ensures Push(rooted, kept, seg) == kept + [seg]
  {
    var segs, last := kept + [seg], |kept|;
    assert segs[last] == seg;
    if n <= last {
      assert Plain(segs[last]);
    } else if kept != [] {
      assert segs[last - 1] == DOTDOT && kept[last - 1] == segs[last - 1];
    }
  }

  lemma CanonicalInit(rooted: bool, kept: seq<Path>, seg: Path, n: nat)
    requires Canonical(rooted, kept + [seg], n)
    ensures Canonical(rooted, kept, if n > |kept| then |kept| else n)
  {
    var segs := kept + [seg];
    assert forall k | 0 <= k < |kept| :: kept[k] == segs[k];
  }

  /** A canonical sequence of segments is left alone. */
  lemma {:induction false} CanonicalIsFixed(rooted: bool, segs: seq<Path>, n: nat)
    requires Canonical(rooted, segs, n)
    ensures Walk(rooted, [], segs) == segs
  {
    if segs != [] {
      var init, seg := segs[..|segs| - 1], segs[|segs| - 1];
      assert segs == init + [seg];
      CanonicalInit(rooted, init, seg, n);
      CanonicalIsFixed(rooted, init, if n > |init| then |init| else n);
      WalkConcat(rooted, [], init, [seg]);
      WalkOne(rooted, init, seg);
      PushKeepsCanonical(rooted, init, seg, n);
    }
  }

  lemma CanonicalIsWhole(rooted: bool, segs: seq<Path>, n: nat)
    requires Canonical(rooted, segs, n)
    ensures forall k | 0 <= k < |segs| :: Whole(segs[k])
  {
  }

  lemma JoinStart(segs: seq<Path>)
    requires segs != [] && segs[0] != [] && Whole(segs[0])
    ensures Join(segs) != [] && Join(segs)[0] == segs[0][0] != SLASH
  {
    assert segs[0][0] in segs[0];
  }

  /** A cleaned path is rooted exactly when the path was, its segments are canonical, and cleaning it
      again changes nothing. */
  lemma CleanIsIdempotent(p: Path)
    ensures Clean(Clean(p)) == Clean(p) && Rooted(Clean(p)) == Rooted(p)
  {
    if p != [] {
      SplitIsWhole(p);
      var kept, r := Kept(p), Rooted(p);
      var n := WalkIsCanonical(r, [], 0, Split(p));
      CanonicalIsWhole(r, kept, n);
      CanonicalIsFixed(r, kept, n);
      if r {
        SplitRooted(kept);
      } else if kept != [] {
        SplitJoin(kept);
        JoinStart(kept);
      } else {
        DotStaysDot();
      }
    } else {
      DotStaysDot();
    }
  }

  lemma SplitRender(rooted: bool, segs: seq<Path>)
    requires forall k | 0 <= k < |segs| :: Whole(segs[k])
    ensures rooted ==> Split(Render(rooted, segs)) == [[]] + (if segs == [] then [[]] else segs)
    ensures !rooted ==> Split(Render(rooted, segs)) == if segs == [] then [[DOT]] else segs
  {
    if rooted {
      assert ([SLASH] + Join(segs))[1..] == Join(segs);
    }
    if segs == [] {
      SplitWhole([DOT]);
    } else {
      SplitJoin(segs);
    }
  }

  /** The segments of a cleaned path are those the rules leave, after a leading slash if it had one; if the
      rules leave nothing of a path without one, it is ".". */
  lemma CleanSegments(p: Path)
    requires p != []
    ensures var left := Walk(Rooted(p), [], Split(p));
            if Rooted(p) then Rooted(Clean(p)) && Split(Clean(p)) == [[]] + (if left == [] then [[]] else left)
            else Split(Clean(p)) == if left == [] then [[DOT]] else left
  {
    SplitIsWhole(p);
    var left, r := Walk(Rooted(p), [], Split(p)), Rooted(p);
    var n := WalkIsCanonical(r, [], 0, Split(p));
    CanonicalIsWhole(r, left, n);
    SplitRender(r, left);
  }

  lemma DotStaysDot()
    ensures Clean([DOT]) == [DOT]
  {
    SplitWhole([DOT]);
    WalkOne(false, [], [DOT]);
  }

  /* ---------- cleanRequestPath ---------- */

  predicate EndsInSlash(p: Path) {
    p != [] && p[|p| - 1] == SLASH
  }

  predicate HasSlashDot(p: Path) {
    exists i | 0 <= i < |p| - 1 :: p[i] == SLASH && p[i + 1] == DOT
  }

  function CleanRequestPath(p: Path): Path {
    if !HasSlashDot(p) then p else
    var cleaned := Clean([SLASH] + p);
    if cleaned != [SLASH] && EndsInSlash(p) then cleaned + [SLASH] else cleaned
  }

  predicate IsDotSegment(seg: Path) {
    seg == [DOT] || seg == DOTDOT
  }

  predicate DotFree(p: Path) {
    forall k | 0 <= k < |Split(p)| :: !IsDotSegment(Split(p)[k])
  }

  lemma SlashDotStep(p: Path)
    requires p != []
    ensures HasSlashDot(p) <==> (|p| > 1 && p[0] == SLASH && p[1] == DOT) || HasSlashDot(p[1..])
  {
    var q := p[1..];
    if i :| 0 <= i < |q| - 1 && q[i] == SLASH && q[i + 1] == DOT { assert p[i + 1] == SLASH && p[i + 2] == DOT; }
    if i :| 0 < i < |p| - 1 && p[i] == SLASH && p[i + 1] == DOT { assert q[i - 1] == SLASH && q[i] == DOT; }
  }

  /** "/." occurs in a path exactly when a segment after the first starts with a dot. */
  lemma {:induction false} SlashDotIff(p: Path)
    ensures HasSlashDot(p) <==> exists k | 0 < k < |Split(p)| :: Split(p)[k] != [] && Split(p)[k][0] == DOT
  {
    if p != [] {
      var q := p[1..];
      var r := Split(q);
      SlashDotIff(q);
      var here := |p| > 1 && p[0] == SLASH && p[1] == DOT;
      SlashDotStep(p);
      if p[0] == SLASH {
        FirstByte(q);
        assert here <==> r[0] != [] && r[0][0] == DOT;
        assert Split(p) == [[]] + r;
        assert forall k | 0 < k < |Split(p)| :: Split(p)[k] == r[k - 1];
        if k :| 0 < k < |r| && r[k] != [] && r[k][0] == DOT { assert Split(p)[k + 1] == r[k]; }
        if here { assert Split(p)[1] == r[0]; }
      } else {
        assert forall k | 0 < k < |r| :: Split(p)[k] == r[k];
      }
    }
  }

  /** The first segment starts with the path's first byte, unless that is a slash. */
  lemma FirstByte(q: Path)
    ensures q != [] && q[0] != SLASH <==> Split(q)[0] != []
    ensures Split(q)[0] != [] ==> Split(q)[0][0] == q[0]
  {
  }

  /** The segments a cleaned request path has, after the leading slash. */
  function RequestSegments(p: Path): (r: seq<Path>) {
    Walk(true, [], Split(p))
  }

  lemma RequestSegmentsArePlain(p: Path)
    ensures forall k | 0 <= k < |RequestSegments(p)| :: Plain(RequestSegments(p)[k])
  {
    SplitIsWhole(p);
    RootedWalkIsPlain([], Split(p));
  }

  lemma CleanWithSlash(p: Path)
    ensures Clean([SLASH] + p) == [SLASH] + Join(RequestSegments(p))
  {
    var s := [SLASH] + p;
    assert s[1..] == p;
    assert Split(s)[1..] == Split(p);
  }

  lemma WalkSkipsEmpty(kept: seq<Path>, segs: seq<Path>)
    ensures Walk(true, kept, [[]] + segs) == Walk(true, kept, segs)
  {
    assert ([[]] + segs)[1..] == segs;
  }

  lemma SplitRooted(segs: seq<Path>)
    requires forall k | 0 <= k < |segs| :: Plain(segs[k])
    ensures Split([SLASH] + Join(segs)) == [[]] + (if segs == [] then [[]] else segs)
    ensures Walk(true, [], Split([SLASH] + Join(segs))) == segs
  {
    var p := [SLASH] + Join(segs);
    assert p[1..] == Join(segs);
    assert Split(p) == [[]] + Split(Join(segs));
    WalkSkipsEmpty([], Split(Join(segs)));
    if segs == [] {
      assert [Join(segs)] + segs == [Join(segs)];
      WalkSkipsEmpty([], segs);
    } else {
      SplitJoin(segs);
      WalkPlain(true, [], segs);
      assert [] + segs == segs;
    }
  }

  /** "/" + segs joined, with or without a final slash. */
  function Rendered(segs: seq<Path>, slash: bool): Path {
    [SLASH] + Join(segs) + (if slash then [SLASH] else [])
  }

  lemma SplitRendered(segs: seq<Path>, slash: bool)
    requires forall k | 0 <= k < |segs| :: Plain(segs[k])
    ensures forall k | 0 <= k < |Split(Rendered(segs, slash))| :: !IsDotSegment(Split(Rendered(segs, slash))[k])
    ensures Walk(true, [], Split(Rendered(segs, slash))) == segs
    ensures EndsInSlash(Rendered(segs, slash)) <==> slash || segs == []
  {
    SplitRooted(segs);
    var p := [SLASH] + Join(segs);
    if segs != [] { LastByteIsNotSlash(segs); }
    if slash {
      assert Rendered(segs, slash) == p + [SLASH] + [];
      SplitAtSlash(p, []);
      WalkConcat(true, [], Split(p), [[]]);
    } else {
      assert Rendered(segs, slash) == p;
    }
  }

  lemma {:induction false} LastByteIsNotSlash(segs: seq<Path>)
    requires segs != [] && forall k | 0 <= k < |segs| :: Plain(segs[k])
    ensures Join(segs) != [] && Join(segs)[|Join(segs)| - 1] != SLASH
  {
    assert Plain(segs[0]);
    if |segs| > 1 {
      LastByteIsNotSlash(segs[1..]);
    } else {
      assert segs[0][|segs[0]| - 1] in segs[0];
    }
  }

  /** cleanRequestPath leaves no "." or ".." segment, except in a path that it does not touch because
      "/." does not occur in it, and whose first segment is one: such a path has no leading slash. */
  lemma NoDotSegmentLeftIff(p: Path)
    ensures DotFree(CleanRequestPath(p)) <==> HasSlashDot(p) || !IsDotSegment(Split(p)[0])
  {
    SlashDotIff(p);
    if HasSlashDot(p) {
      RequestSegmentsArePlain(p);
      CleanWithSlash(p);
      var segs := RequestSegments(p);
      var slash := Clean([SLASH] + p) != [SLASH] && EndsInSlash(p);
      SplitRendered(segs, slash);
      assert CleanRequestPath(p) == Rendered(segs, slash);
    } else {
      forall k | 0 < k < |Split(p)|
        ensures !IsDotSegment(Split(p)[k])
      {
        assert Split(p)[k] == [] || Split(p)[k][0] != DOT;
      }
    }
  }

  /** Such a path: "..". */
  lemma DotDotIsLeftAlone()
    ensures CleanRequestPath(DOTDOT) == DOTDOT && !DotFree(DOTDOT)
  {
    SplitWhole(DOTDOT);
    NoDotSegmentLeftIff(DOTDOT);
  }

  /** The segments of a rooted path without its final slash. */
  predicate HasSegments(p: Path, segs: seq<Path>) {
    Rooted(p) && (Split(p) == [[]] + segs || Split(p) == [[]] + segs + [[]])
  }

  /** Where "/." occurs, the result has exactly the segments that path.Clean's rules leave of the path, after
      a leading slash, and ends in a slash exactly if the path does or nothing is left; elsewhere the path
      is returned as it is. */
  lemma CleanedSegments(p: Path)
    ensures HasSlashDot(p) ==>
              var left := Walk(true, [], Split(p));
              && HasSegments(CleanRequestPath(p), left)
              && (EndsInSlash(CleanRequestPath(p)) <==> left == [] || EndsInSlash(p))
    ensures !HasSlashDot(p) ==> CleanRequestPath(p) == p
  {
    if HasSlashDot(p) {
      RequestSegmentsArePlain(p);
      CleanWithSlash(p);
      var left := RequestSegments(p);
      SplitRooted(left);
      var bare := [SLASH] + Join(left);
      var slash := bare != [SLASH] && EndsInSlash(p);
      assert CleanRequestPath(p) == Rendered(left, slash);
      SplitRendered(left, slash);
      if left == [] {
        assert bare == [SLASH];
        assert Rendered(left, slash) == bare;
        assert [[]] + left + [[]] == [[]] + [[]];
      } else {
        LastByteIsNotSlash(left);
        SplitAtSlash(bare, []);
        assert slash ==> Rendered(left, slash) == bare + [SLASH] + [];
        assert !slash ==> Rendered(left, slash) == bare;
      }
    }
  }

  /** For a request path with its leading slash, no dot segment is ever left. */
  lemma RequestPathIsDotFree(p: Path)
    requires Rooted(p)
    ensures DotFree(CleanRequestPath(p)) && Rooted(CleanRequestPath(p))
  {
    NoDotSegmentLeftIff(p);
    FirstByte(p);
    CleanWithSlash(p);
  }

  /** Cleaning a request path twice is cleaning it once, for every path. */
  lemma CleanRequestPathIsIdempotent(p: Path)
    ensures CleanRequestPath(CleanRequestPath(p)) == CleanRequestPath(p)
  {
    if HasSlashDot(p) {
      RequestSegmentsArePlain(p);
      CleanWithSlash(p);
      var segs := RequestSegments(p);
      var cleaned := [SLASH] + Join(segs);
      var slash := cleaned != [SLASH] && EndsInSlash(p);
      var r := CleanRequestPath(p);
      assert r == Rendered(segs, slash);
      SplitRendered(segs, slash);
      CleanWithSlash(r);
      assert RequestSegments(r) == segs;
      if segs == [] {
        assert r == [SLASH];
      } else {
        LastByteIsNotSlash(segs);
      }
    }
  }

  /* ---------- sanitizedPathJoin ---------- */

  function EnsureLeadingSlash(p: Path): Path {
    if p == [] || p[0] == SLASH then p else [SLASH] + p
  }

  function SanitizedPathJoin(root: Path, reqPath: Path): Path {
    var base := if root == [] then [DOT] else root;
    var relPath := Clean(EnsureLeadingSlash(reqPath))[1..];
    var joined := Clean(base + [SLASH] + relPath);
    if EndsInSlash(reqPath) && |reqPath| > 1 then joined + [SLASH] else joined
  }

  lemma RelativeSegments(reqPath: Path)
    ensures forall k | 0 <= k < |RequestSegments(reqPath)| :: Plain(RequestSegments(reqPath)[k])
    ensures Clean(EnsureLeadingSlash(reqPath))[1..] == Join(RequestSegments(reqPath))
  {
    RequestSegmentsArePlain(reqPath);
    if reqPath != [] && reqPath[0] == SLASH {
      var segs := Split(reqPath);
      assert segs == [[]] + Split(reqPath[1..]);
      assert Clean(reqPath) == [SLASH] + Join(RequestSegments(reqPath));
    } else if reqPath != [] {
      CleanWithSlash(reqPath);
    }
  }

  /** The joined path is the cleaned root continued by plain segments only: whatever the request path,
      the result never leaves the root. */
  lemma JoinStaysUnderRoot(root: Path, reqPath: Path)
    ensures var base := if root == [] then [DOT] else root;
            var below := RequestSegments(reqPath);
            && (forall k | 0 <= k < |below| :: Plain(below[k]))
            && Clean(base) == Render(Rooted(base), Kept(base))
            && SanitizedPathJoin(root, reqPath)
               == Render(Rooted(base), Kept(base) + below)
                  + (if EndsInSlash(reqPath) && |reqPath| > 1 then [SLASH] else [])
  {
    var base := if root == [] then [DOT] else root;
    var below := RequestSegments(reqPath);
    RelativeSegments(reqPath);
    var rel := Join(below);
    var full := base + [SLASH] + rel;
    assert full[0] == base[0];
    SplitAtSlash(base, rel);
    WalkConcat(Rooted(base), [], Split(base), Split(rel));
    if below == [] {
      assert Kept(base) + below == Kept(base);
    } else {
      SplitJoin(below);
      WalkPlain(Rooted(base), Kept(base), below);
    }
    assert Clean(full) == Render(Rooted(base), Kept(base) + below);
  }

  /** The segments of a root: an empty one is the current directory. */
  function RootSegments(root: Path): seq<Path> {
    Walk(Rooted(root), [], if root == [] then [[DOT]] else Split(root))
  }

  /** The same on segments: the joined path has the segments of the cleaned root, then those of the request
      path that the rules leave, and ends in a slash exactly as the request path asks. */
  lemma JoinedSegments(root: Path, reqPath: Path)
    ensures var all := RootSegments(root) + Walk(true, [], Split(reqPath));
            var end: seq<Path> := if EndsInSlash(reqPath) && |reqPath| > 1 then [[]] else [];
            var joined := SanitizedPathJoin(root, reqPath);
            && (Rooted(root) ==> Split(joined) == [[]] + (if all == [] then [[]] else all) + end)
            && (!Rooted(root) ==> Split(joined) == (if all == [] then [[DOT]] else all) + end)
  {
    JoinStaysUnderRoot(root, reqPath);
    var base := if root == [] then [DOT] else root;
    RootIsWhole(root);
    WholeTogether(Kept(base), RequestSegments(reqPath));
    SplitRender(Rooted(base), Kept(base) + RequestSegments(reqPath));
    SplitWithEnd(Render(Rooted(base), Kept(base) + RequestSegments(reqPath)), EndsInSlash(reqPath) && |reqPath| > 1);
  }

  lemma RootIsWhole(root: Path)
    ensures var base := if root == [] then [DOT] else root;
            Kept(base) == RootSegments(root) && Rooted(base) == Rooted(root) && forall k | 0 <= k < |Kept(base)| :: Whole(Kept(base)[k])
  {
    var base := if root == [] then [DOT] else root;
    SplitIsWhole(base);
    SplitWhole([DOT]);
    var n := WalkIsCanonical(Rooted(base), [], 0, Split(base));
    CanonicalIsWhole(Rooted(base), Kept(base), n);
  }

  lemma SplitWithEnd(bare: Path, slash: bool)
    ensures Split(bare + (if slash then [SLASH] else [])) == Split(bare) + (if slash then [[]] else [])
  {
    SplitAtSlash(bare, []);
    assert bare + [SLASH] + [] == bare + [SLASH] && bare + [] == bare;
  }

  lemma WholeTogether(a: seq<Path>, b: seq<Path>)
    requires (forall k | 0 <= k < |a| :: Whole(a[k])) && forall k | 0 <= k < |b| :: Plain(b[k])
    ensures forall k | 0 <= k < |a + b| :: Whole((a + b)[k])
  {
  }
}
