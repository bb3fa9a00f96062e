/**
  Cleaning the escaped form of a path against cleaning the decoded one (cgi.go
  escapedPathSelectsAnotherScript, on POSIX).
 */
module EscapedPaths {
  import opened Options
  import opened Paths
  import opened ScriptSplit

  const PERCENT: byte := 37
  const STAR: Path := [42]

  /* ---------- percent encoding ---------- */

  /** The bytes the default encoding of a path leaves alone: '/' and '.' are among them, '%' is not. */
  predicate Encoding(keep: set<byte>) {
    SLASH in keep && DOT in keep && PERCENT !in keep
  }

  function HexDigit(n: nat): byte
    requires n < 16
  {
    if n < 10 then 48 + n else 55 + n
  }

  function HexValue(c: byte): Option<nat> {
    if 48 <= c <= 57 then Some(c - 48)
    else if 65 <= c <= 70 then Some(c - 55)
    else if 97 <= c <= 102 then Some(c - 87)
    else None
  }

  function EscapeByte(keep: set<byte>, c: byte): Path {
    if c in keep then [c] else [PERCENT, HexDigit(c / 16), HexDigit(c % 16)]
  }

  function Escape(keep: set<byte>, s: Path): Path {
    if s == [] then [] else EscapeByte(keep, s[0]) + Escape(keep, s[1..])
  }

  /** url.PathUnescape */
  function Unescape(s: Path): Option<Path> {
    if s == [] then Some([])
    else if s[0] != PERCENT then
      match Unescape(s[1..])
      case Some(r) => Some([s[0]] + r)
      case None => None
    else if |s| < 3 || HexValue(s[1]).None? || HexValue(s[2]).None? then None
    else
      match Unescape(s[3..])
      case Some(r) => Some([16 * HexValue(s[1]).value + HexValue(s[2]).value] + r)
      case None => None
  }

  lemma {:induction false} UnescapeEscape(keep: set<byte>, s: Path)
    requires Encoding(keep)
    ensures Unescape(Escape(keep, s)) == Some(s)
  {
    if s != [] {
      UnescapeEscape(keep, s[1..]);
      var e, rest := EscapeByte(keep, s[0]), Escape(keep, s[1..]);
      assert (e + rest)[|e|..] == rest;
      assert [s[0]] + s[1..] == s;
      if s[0] !in keep {
        HexRoundTrip(s[0]);
      }
    }
  }

  lemma HexRoundTrip(c: byte)
    ensures HexValue(HexDigit(c / 16)) == Some(c / 16) && HexValue(HexDigit(c % 16)) == Some(c % 16)
  {
  }

  lemma EscapeInjective(keep: set<byte>, s: Path, t: Path)
    requires Encoding(keep) && Escape(keep, s) == Escape(keep, t)
    ensures s == t
  {
    UnescapeEscape(keep, s);
    UnescapeEscape(keep, t);
  }

  lemma {:induction false} EscapeConcat(keep: set<byte>, a: Path, b: Path)
    ensures Escape(keep, a + b) == Escape(keep, a) + Escape(keep, b)
  {
    if a == [] {
      assert a + b == b;
    } else {
      assert (a + b)[1..] == a[1..] + b;
      EscapeConcat(keep, a[1..], b);
      assert EscapeByte(keep, a[0]) + (Escape(keep, a[1..]) + Escape(keep, b)) == Escape(keep, a) + Escape(keep, b);
    }
  }

  lemma EscapeKept(keep: set<byte>, c: byte)
    requires c in keep
    ensures Escape(keep, [c]) == [c]
  {
    assert [c][1..] == [];
  }

  /* ---------- escaping commutes with the walk over segments ---------- */

  function EscapeAll(keep: set<byte>, segs: seq<Path>): seq<Path> {
    seq(|segs|, k requires 0 <= k < |segs| => Escape(keep, segs[k]))
  }

  lemma EscapeAllCons(keep: set<byte>, seg: Path, segs: seq<Path>)
    ensures EscapeAll(keep, [seg] + segs) == [Escape(keep, seg)] + EscapeAll(keep, segs)
  {
  }

  lemma {:induction false} SplitEscape(keep: set<byte>, s: Path)
    requires Encoding(keep)
    ensures Split(Escape(keep, s)) == EscapeAll(keep, Split(s))
  {
    if s != [] {
      SplitEscape(keep, s[1..]);
      var rest, r := Escape(keep, s[1..]), Split(s[1..]);
      var e := EscapeByte(keep, s[0]);
      if s[0] == SLASH {
        assert Escape(keep, s)[1..] == rest;
        EscapeAllCons(keep, [], r);
      } else {
        SplitAfterPiece(e, rest);
        EscapeSegment(keep, s[0], r);
      }
    }
  }

  lemma EscapeSegment(keep: set<byte>, c: byte, r: seq<Path>)
    requires r != []
    ensures EscapeAll(keep, [[c] + r[0]] + r[1..])
         == [EscapeByte(keep, c) + EscapeAll(keep, r)[0]] + EscapeAll(keep, r)[1..]
  {
    assert ([c] + r[0])[1..] == r[0];
    EscapeAllCons(keep, [c] + r[0], r[1..]);
    EscapeAllCons(keep, r[0], r[1..]);
    assert [r[0]] + r[1..] == r;
  }

  /** Bytes without a slash in front of a path extend its first segment. */
  lemma {:induction false} SplitAfterPiece(piece: Path, rest: Path)
    requires SLASH !in piece
    ensures Split(piece + rest) == [piece + Split(rest)[0]] + Split(rest)[1..]
  {
    if piece == [] {
      assert piece + rest == rest && piece + Split(rest)[0] == Split(rest)[0];
      assert [Split(rest)[0]] + Split(rest)[1..] == Split(rest);
    } else {
      assert (piece + rest)[1..] == piece[1..] + rest;
      SplitAfterPiece(piece[1..], rest);
      assert [piece[0]] + (piece[1..] + Split(rest)[0]) == piece + Split(rest)[0];
    }
  }

  lemma EscapeFixesDots(keep: set<byte>, seg: Path)
    requires Encoding(keep)
    ensures Escape(keep, seg) == [] <==> seg == []
    ensures Escape(keep, seg) == [DOT] <==> seg == [DOT]
    ensures Escape(keep, seg) == DOTDOT <==> seg == DOTDOT
  {
    EscapeKept(keep, DOT);
    EscapeConcat(keep, [DOT], [DOT]);
    assert [DOT] + [DOT] == DOTDOT;
    if Escape(keep, seg) == [DOT] { EscapeInjective(keep, seg, [DOT]); }
    if Escape(keep, seg) == DOTDOT { EscapeInjective(keep, seg, DOTDOT); }
    if seg != [] { assert EscapeByte(keep, seg[0]) != []; }
  }

  lemma PushEscape(keep: set<byte>, kept: seq<Path>, seg: Path)
    requires Encoding(keep)
    ensures Push(true, EscapeAll(keep, kept), Escape(keep, seg)) == EscapeAll(keep, Push(true, kept, seg))
  {
    EscapeFixesDots(keep, seg);
    if kept != [] {
      EscapeFixesDots(keep, kept[|kept| - 1]);
    }
    var pushed := Push(true, kept, seg);
    assert Push(true, EscapeAll(keep, kept), Escape(keep, seg)) == EscapeAll(keep, pushed);
  }

  lemma {:induction false} WalkEscape(keep: set<byte>, kept: seq<Path>, segs: seq<Path>)
    requires Encoding(keep)
    ensures Walk(true, EscapeAll(keep, kept), EscapeAll(keep, segs)) == EscapeAll(keep, Walk(true, kept, segs))
    decreases |segs|
  {
    if segs != [] {
      PushEscape(keep, kept, segs[0]);
      assert EscapeAll(keep, segs)[1..] == EscapeAll(keep, segs[1..]);
      WalkEscape(keep, Push(true, kept, segs[0]), segs[1..]);
    }
  }

  lemma {:induction false} JoinEscape(keep: set<byte>, segs: seq<Path>)
    requires Encoding(keep)
    ensures Join(EscapeAll(keep, segs)) == Escape(keep, Join(segs))
  {
    if |segs| == 1 {
    } else if |segs| > 1 {
      JoinEscape(keep, segs[1..]);
      assert EscapeAll(keep, segs)[1..] == EscapeAll(keep, segs[1..]);
      EscapeKept(keep, SLASH);
      EscapeConcat(keep, segs[0], [SLASH]);
      EscapeConcat(keep, segs[0] + [SLASH], Join(segs[1..]));
    }
  }

  lemma RequestSegmentsEscape(keep: set<byte>, p: Path)
    requires Encoding(keep)
    ensures RequestSegments(Escape(keep, p)) == EscapeAll(keep, RequestSegments(p))
  {
    SplitEscape(keep, p);
    WalkEscape(keep, [], Split(p));
    assert EscapeAll(keep, []) == [];
  }

  lemma SlashDotEscape(keep: set<byte>, p: Path)
    requires Encoding(keep)
    ensures HasSlashDot(Escape(keep, p)) <==> HasSlashDot(p)
  {
    SlashDotIff(p);
    SlashDotIff(Escape(keep, p));
    SplitEscape(keep, p);
    forall k | 0 <= k < |Split(p)|
      ensures var s := Split(p)[k];
              var e := Escape(keep, s);
              e != [] && e[0] == DOT <==> s != [] && s[0] == DOT
    {
    }
    var es := Split(Escape(keep, p));
    assert |es| == |Split(p)| && forall k | 0 <= k < |es| :: es[k] == Escape(keep, Split(p)[k]);
  }

  lemma {:induction false} FinalSlashEscape(keep: set<byte>, p: Path)
    requires Encoding(keep)
    ensures EndsInSlash(Escape(keep, p)) <==> EndsInSlash(p)
  {
    if p != [] {
      var n := |p| - 1;
      EscapeConcat(keep, p[..n], [p[n]]);
      assert p == p[..n] + [p[n]];
      assert Escape(keep, [p[n]]) == EscapeByte(keep, p[n]) by { assert [p[n]][1..] == []; }
    }
  }

  /** Cleaning the escaped form of a path gives the escaped form of the cleaned path. */
  lemma CleanEscape(keep: set<byte>, p: Path)
    requires Encoding(keep)
    ensures CleanRequestPath(Escape(keep, p)) == Escape(keep, CleanRequestPath(p))
  {
    var e := Escape(keep, p);
    SlashDotEscape(keep, p);
    if HasSlashDot(p) {
      CleanWithSlash(p);
      CleanWithSlash(e);
      RequestSegmentsEscape(keep, p);
      var body := Join(RequestSegments(p));
      JoinEscape(keep, RequestSegments(p));
      EscapeKept(keep, SLASH);
      EscapeConcat(keep, [SLASH], body);
      EscapeConcat(keep, [SLASH] + body, [SLASH]);
      FinalSlashEscape(keep, p);
      if [SLASH] + Escape(keep, body) == [SLASH] {
        EscapeInjective(keep, [SLASH] + body, [SLASH]);
      }
    }
  }

  /* ---------- escapedPathSelectsAnotherScript ---------- */

  function ScriptPart(path: Path, splits: seq<Path>): Path {
    var pos := SplitPos(path, splits);
    if 0 <= pos <= |path| then path[..pos] else path
  }

  /** URL.EscapedPath: RawPath if it is a valid encoding of the path, else the default encoding. */
  function EscapedPath(keep: set<byte>, path: Path, rawPath: Path, validRaw: bool): Path {
    if rawPath != [] && validRaw && Unescape(rawPath) == Some(path) then rawPath
    else if path == STAR then STAR
    else Escape(keep, path)
  }

  /** The comparison, without the early return. */
  predicate OtherScript(path: Path, escaped: Path, splits: seq<Path>) {
    match Unescape(CleanRequestPath(escaped))
    case None => true
    case Some(e) => ScriptPart(CleanRequestPath(path), splits) != ScriptPart(e, splits)
  }

  /** The code, with the early return on an empty RawPath. */
  predicate SelectsAnotherScript(keep: set<byte>, path: Path, rawPath: Path, validRaw: bool, splits: seq<Path>) {
    rawPath != [] && OtherScript(path, EscapedPath(keep, path, rawPath, validRaw), splits)
  }

  /** Unescaping the cleaned default encoding gives back the cleaned path: the default encoding never
      selects another script. */
  lemma DefaultEncodingSelectsSameScript(keep: set<byte>, path: Path, splits: seq<Path>)
    requires Encoding(keep)
    ensures Unescape(CleanRequestPath(Escape(keep, path))) == Some(CleanRequestPath(path))
    ensures !OtherScript(path, Escape(keep, path), splits)
  {
    CleanEscape(keep, path);
    UnescapeEscape(keep, CleanRequestPath(path));
  }

  /** The early return is sound: the answer is always that of the full comparison. */
  lemma EarlyReturnIsSound(keep: set<byte>, path: Path, rawPath: Path, validRaw: bool, splits: seq<Path>)
    requires Encoding(keep)
    ensures SelectsAnotherScript(keep, path, rawPath, validRaw, splits)
       <==> OtherScript(path, EscapedPath(keep, path, rawPath, validRaw), splits)
  {
    if rawPath == [] {
      if path == STAR {
        assert Unescape(STAR) == Some(STAR) by { assert STAR[1..] == [] && [STAR[0]] + STAR[1..] == STAR; }
      } else {
        DefaultEncodingSelectsSameScript(keep, path, splits);
      }
    }
  }

  /** The part of a path up to the end of its first split, or all of it. */
  ghost predicate IsScriptOf(script: Path, path: Path, splits: seq<Path>) {
    var pos := SplitPos(path, splits);
    if pos == -1 then script == path else 0 <= pos <= |path| && script == path[..pos]
  }

  /** Cleaned separately, the decoded and the encoded path name the same script. */
  ghost predicate SameScript(path: Path, raw: Path, splits: seq<Path>) {
    exists decoded, script ::
      Unescape(CleanRequestPath(raw)) == Some(decoded)
      && IsScriptOf(script, CleanRequestPath(path), splits) && IsScriptOf(script, decoded, splits)
  }

  lemma ScriptPartIs(path: Path, splits: seq<Path>)
    ensures IsScriptOf(ScriptPart(path, splits), path, splits)
  {
    SplitPosInRange(path, splits);
  }

  /** Another script is selected if and only if RawPath is a valid encoding of the path, other than the
      default one, and cleaning it before decoding leads to a different script than cleaning after. */
  lemma SelectsAnotherScriptIff(keep: set<byte>, path: Path, rawPath: Path, validRaw: bool, splits: seq<Path>)
    requires Encoding(keep)
    ensures SelectsAnotherScript(keep, path, rawPath, validRaw, splits)
       <==> rawPath != [] && validRaw && Unescape(rawPath) == Some(path) && !SameScript(path, rawPath, splits)
  {
    EarlyReturnIsSound(keep, path, [], validRaw, splits);
    ScriptPartIs(CleanRequestPath(path), splits);
    match Unescape(CleanRequestPath(rawPath))
    case Some(decoded) => ScriptPartIs(decoded, splits);
    case None =>
  }

  /** A percent sign and two hexadecimal digits, in either case, stand for their byte. */
  lemma HexInEitherCase(c: byte, high: byte, low: byte)
    requires high in {if c / 16 < 10 then 48 + c / 16 else 55 + c / 16, if c / 16 < 10 then 48 + c / 16 else 87 + c / 16}
    requires low in {if c % 16 < 10 then 48 + c % 16 else 55 + c % 16, if c % 16 < 10 then 48 + c % 16 else 87 + c % 16}
    ensures Unescape([PERCENT, high, low]) == Some([c])
  {
    var s := [PERCENT, high, low];
    assert HexValue(s[1]) == Some(c / 16) && HexValue(s[2]) == Some(c % 16);
    assert s[3..] == [] && Unescape(s[3..]) == Some([]);
    assert [c] + [] == [c];
  }
}
