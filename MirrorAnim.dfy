// Left/right mirroring of animation clips
// (unity/IzFbxTools/Editor/Core/Anim/MirrorAnimGenerator.cs).
//
// The asset path of a clip is given as a string.

module MirrorAnim {
  import opened Strings
  import opened Wrappers
  import opened AnimClip

  /** Lines 14-24: the suffixes naming left and right, and whether to shift the cycle offset. */
  datatype MirrorAnimGenerator = MirrorAnimGenerator(suffixL: string, suffixR: string, shiftCycleOffset: bool)

  // ------------------------------------------------------------------------------------------
  // Names and file paths (lines 100-125)

  /** Lines 121-125: `tgt` is longer than `last` and ends with it. */
  predicate IsEqualLastStr(tgt: string, last: string)
  {
    |last| < |tgt| && tgt[|tgt| - |last|..] == last
  }

  /** Lines 100-104. */
  function MirrorName(g: MirrorAnimGenerator, src: string): string
  {
    if IsEqualLastStr(src, g.suffixL) then src[..|src| - 1] + "R"
    else if IsEqualLastStr(src, g.suffixR) then src[..|src| - 1] + "L"
    else src + "_Mirror"
  }

  /** The suffixes differ only in a last letter `L` or `R`, as `mirrorName` assumes. */
  predicate LetterSuffixes(g: MirrorAnimGenerator)
  {
    && |g.suffixL| > 0 && |g.suffixR| > 0
    && g.suffixL[..|g.suffixL| - 1] == g.suffixR[..|g.suffixR| - 1]
    && g.suffixL[|g.suffixL| - 1] == 'L' && g.suffixR[|g.suffixR| - 1] == 'R'
  }

  /** Mirroring the name of a left or right clip twice gives the name back. */
  lemma MirrorNameInvolutive(g: MirrorAnimGenerator, src: string)
    requires LetterSuffixes(g)
    requires IsEqualLastStr(src, g.suffixL) || IsEqualLastStr(src, g.suffixR)
    ensures MirrorName(g, MirrorName(g, src)) == src
  {
    if IsEqualLastStr(src, g.suffixL) {
      MirrorNameLeft(g, src);
    } else {
      MirrorNameRight(g, src);
    }
  }

  lemma MirrorNameLeft(g: MirrorAnimGenerator, src: string)
    requires LetterSuffixes(g) && IsEqualLastStr(src, g.suffixL)
    ensures MirrorName(g, src) == src[..|src| - 1] + "R"
    ensures IsEqualLastStr(MirrorName(g, src), g.suffixR) && !IsEqualLastStr(MirrorName(g, src), g.suffixL)
  {
    var m := src[..|src| - 1] + "R";
    SwapLastLetter(src, g.suffixL, g.suffixR);
    assert [g.suffixR[|g.suffixR| - 1]] == "R";
    assert m[|m| - 1] == 'R' != g.suffixL[|g.suffixL| - 1];
  }

  lemma MirrorNameRight(g: MirrorAnimGenerator, src: string)
    requires LetterSuffixes(g) && IsEqualLastStr(src, g.suffixR) && !IsEqualLastStr(src, g.suffixL)
    ensures MirrorName(g, src) == src[..|src| - 1] + "L"
    ensures IsEqualLastStr(MirrorName(g, src), g.suffixL)
  {
    SwapLastLetter(src, g.suffixR, g.suffixL);
    assert [g.suffixL[|g.suffixL| - 1]] == "L";
  }

  /** Replacing the last letter of a name that ends in `from` by the last letter of `to`, where
      the two differ only there, gives a name that ends in `to`. */
  lemma SwapLastLetter(src: string, from: string, to: string)
    requires |from| == |to| > 0 && from[..|from| - 1] == to[..|to| - 1] && IsEqualLastStr(src, from)
    ensures IsEqualLastStr(src[..|src| - 1] + [to[|to| - 1]], to)
  {
    var n := |to|;
    var m := src[..|src| - 1] + [to[n - 1]];
    forall k | 0 <= k < n
      ensures m[|m| - n..][k] == to[k]
    {
      if k < n - 1 {
        assert m[|m| - n + k] == src[|src| - n + k] == src[|src| - n..][k];
        assert from[k] == from[..n - 1][k] && to[k] == to[..n - 1][k];
      }
    }
  }

  /** Lines 110-111: the leading part of the path up to and including its last `/`, or its last
      `\` when it has no `/`; empty when it has neither. */
  function Directory(srcPath: string): (d: string)
    ensures StartsWith(srcPath, d)
    ensures '/' !in srcPath[|d|..]
    ensures '/' in srcPath ==> EndsWith(d, "/")
    ensures '/' !in srcPath ==> '\\' !in srcPath[|d|..] && ('\\' in srcPath <==> EndsWith(d, "\\"))
    ensures d == "" <==> '/' !in srcPath && '\\' !in srcPath
  {
    var idx := LastIndexOf(srcPath, '/');
    var idx := if idx == -1 then LastIndexOf(srcPath, '\\') else idx;
    if idx == -1 then "" else srcPath[..idx + 1]
  }

  /** Lines 107-118: the mirrored clip's file sits in the source clip's directory. */
  function MirrorFPath(g: MirrorAnimGenerator, srcPath: string, srcName: string): (r: string)
    ensures r == Directory(srcPath) + MirrorName(g, srcName) + ".anim"
  {
    var idx := LastIndexOf(srcPath, '/');
    var idx := if idx == -1 then LastIndexOf(srcPath, '\\') else idx;
    var name := MirrorName(g, srcName);
    if idx == -1 then
      assert Directory(srcPath) == "" && "" + name == name;
      name + ".anim"
    else
      assert Directory(srcPath) == srcPath[..idx + 1];
      srcPath[..idx + 1] + name + ".anim"
  }

  // ------------------------------------------------------------------------------------------
  // Bone paths (lines 53-68)

  /** A mirrored path with the two flags `proc` derives beside it. */
  datatype MirroredPath = MirroredPath(path: string, isLR: bool, isCenter: bool)

  /** Lines 57-63: a path ending in one suffix loses two characters and gains the other suffix.
      A path shorter than two characters that still ends in a suffix makes `Substring` throw. */
  function SwapEnd(g: MirrorAnimGenerator, path: string): Option<(string, bool)>
  {
    if EndsWith(path, g.suffixL) then
      if |path| < 2 then None else Some((path[..|path| - 2] + g.suffixR, true))
    else if EndsWith(path, g.suffixR) then
      if |path| < 2 then None else Some((path[..|path| - 2] + g.suffixL, true))
    else Some((path, false))
  }

  /** Lines 64-66: the three `Replace` calls, with a line break marking what the first one
      produced so that the second one leaves it alone. */
  function SwapDirsByReplace(path: string, suffixL: string, suffixR: string): string
  {
    ReplaceChar(Replace(Replace(path, suffixL + "/", suffixR + "\n/"), suffixR + "/", suffixL + "\n/"), '\n', "")
  }

  /** Line 67 as written: the second test repeats the first. */
  predicate IsCenterAsWritten(isLR: bool, path: string, suffixL: string, suffixR: string)
  {
    !isLR && !Contains(path, suffixL + "/") && !Contains(path, suffixL + "/")
  }

  /** Line 67 as intended: neither a left nor a right directory lies on the path. */
  predicate IsCenter(isLR: bool, path: string, suffixL: string, suffixR: string)
  {
    !isLR && !Contains(path, suffixL + "/") && !Contains(path, suffixR + "/")
  }

  /** Lines 53-68 as written. */
  function MirrorPathAsWritten(g: MirrorAnimGenerator, path: string): Option<MirroredPath>
  {
    match SwapEnd(g, path)
    case None => None
    case Some((p, isLR)) =>
      var q := SwapDirsByReplace(p, g.suffixL, g.suffixR);
      Some(MirroredPath(q, isLR, IsCenterAsWritten(isLR, q, g.suffixL, g.suffixR)))
  }

  /** Lines 53-68, with the center test of line 67 as intended. */
  function MirrorPath(g: MirrorAnimGenerator, path: string): Option<MirroredPath>
  {
    match SwapEnd(g, path)
    case None => None
    case Some((p, isLR)) =>
      var q := SwapDirsByReplace(p, g.suffixL, g.suffixR);
      Some(MirroredPath(q, isLR, IsCenter(isLR, q, g.suffixL, g.suffixR)))
  }

  /** The suffix pair the involution results need: two distinct two-character suffixes (the
      length `Substring` on lines 59 and 62 drops) free of `/` and of the line break used as a
      mark. */
  predicate SuffixPair(g: MirrorAnimGenerator)
  {
    && |g.suffixL| == 2 && |g.suffixR| == 2 && g.suffixL != g.suffixR
    && '/' !in g.suffixL && '/' !in g.suffixR && '\n' !in g.suffixL && '\n' !in g.suffixR
  }

  // ------------------------------------------------------------------------------------------
  // What the three `Replace` calls compute: each directory name mirrored on its own

  /** One directory name: a name ending in `a` ends in `b` instead, and the other way round. */
  function MirrorSegment(seg: string, a: string, b: string): string
  {
    if EndsWith(seg, a) then seg[..|seg| - |a|] + b
    else if EndsWith(seg, b) then seg[..|seg| - |b|] + a
    else seg
  }

  /** Every name followed by a `/` mirrored; the name after the last `/` is left alone. */
  function SwapDirs(s: string, a: string, b: string): string
    decreases |s|
  {
    var k := IndexOf(s, '/');
    if k < 0 then s else MirrorSegment(s[..k], a, b) + "/" + SwapDirs(s[k + 1..], a, b)
  }

  /** A character absent from the name and both suffixes is absent from the mirrored name. */
  lemma MirrorSegmentFree(seg: string, a: string, b: string, c: char)
    requires c !in seg && c !in a && c !in b
    ensures c !in MirrorSegment(seg, a, b)
  {
    if EndsWith(seg, a) {
      assert seg == seg[..|seg| - |a|] + a;
    } else if EndsWith(seg, b) {
      assert seg == seg[..|seg| - |b|] + b;
    }
  }

  /** A character absent from `s` is absent from both sides of position `k` and is not `s[k]`. */
  lemma NotInParts(s: string, k: int, c: char)
    requires 0 <= k < |s| && c !in s
    ensures c !in s[..k] && c !in s[k + 1..] && c != s[k]
  {
    assert s == s[..k] + [s[k]] + s[k + 1..];
  }

  /** A character absent from the path and both suffixes is absent from the swapped path. */
  lemma {:induction false} SwapDirsFree(s: string, a: string, b: string, c: char)
    requires c !in s && c !in a && c !in b
    ensures c !in SwapDirs(s, a, b)
    decreases |s|
  {
    var k := IndexOf(s, '/');
    if k >= 0 {
      var seg, rest := s[..k], s[k + 1..];
      NotInParts(s, k, c);
      assert s == seg + "/" + rest;
      MirrorSegmentFree(seg, a, b, c);
      SwapDirsFree(rest, a, b, c);
      SwapDirsCons(seg, rest, a, b);
      NotInJoin(MirrorSegment(seg, a, b), SwapDirs(rest, a, b), c);
    }
  }

  lemma NotInJoin(m: string, r: string, c: char)
    requires c !in m && c !in r && c != '/'
    ensures c !in m + "/" + r
  {
  }

  lemma SwapDirsCons(seg: string, rest: string, a: string, b: string)
    requires '/' !in seg
    ensures SwapDirs(seg + "/" + rest, a, b) == MirrorSegment(seg, a, b) + "/" + SwapDirs(rest, a, b)
  {
    var s := seg + "/" + rest;
    forall p | 0 <= p < |seg|
      ensures s[p] != '/'
    {
      assert s[p] == seg[p];
    }
    IndexOfAt(s, '/', |seg|);
    assert s[..|seg|] == seg && s[|seg| + 1..] == rest;
  }

  /** For `|seg| > 0`: `seg` ends in `x` when it is `x` or its tail ends in `x`. */
  lemma EndsWithTail(seg: string, x: string)
    requires |seg| > 0
    ensures EndsWith(seg, x) <==> seg == x || EndsWith(seg[1..], x)
  {
    if EndsWith(seg[1..], x) {
      assert seg[|seg| - |x|..] == seg[1..][|seg| - 1 - |x|..];
    }
    if EndsWith(seg, x) && seg != x {
      assert seg[|seg| - |x|..] == x;
      assert |x| < |seg|;
      assert seg[1..][|seg| - 1 - |x|..] == seg[|seg| - |x|..];
    }
  }

  /** A path starting with a name and a `/` starts with `x/` exactly when the name is `x`. */
  lemma SlashPatternAtStart(seg: string, rest: string, x: string)
    requires '/' !in seg && '/' !in x
    ensures StartsWith(seg + "/" + rest, x + "/") <==> seg == x
  {
    var s := seg + "/" + rest;
    var pat := x + "/";
    if seg == x {
      assert s[..|pat|] == pat;
    }
    if StartsWith(s, pat) {
      forall p | 0 <= p < |seg|
        ensures s[p] != '/'
      {
        assert s[p] == seg[p];
      }
      forall p | 0 <= p < |x|
        ensures s[p] != '/'
      {
        assert s[p] == s[..|pat|][p] == pat[p] == x[p];
      }
      assert s[|seg|] == '/';
      assert s[|x|] == s[..|pat|][|x|] == pat[|x|] == '/';
      assert |seg| == |x|;
      assert s[..|seg|] == seg;
      assert s[..|x|] == s[..|pat|][..|x|] == pat[..|x|] == x;
    }
  }

  /** Replacing `x/` in a path whose first name is `seg`: the first name is handled alone. */
  lemma {:induction false} ReplaceSegment(seg: string, rest: string, x: string, r: string)
    requires '/' !in seg && '/' !in x
    ensures Replace(seg + "/" + rest, x + "/", r)
         == (if EndsWith(seg, x) then seg[..|seg| - |x|] + r else seg + "/") + Replace(rest, x + "/", r)
    decreases |seg|
  {
    SlashPatternAtStart(seg, rest, x);
    if |seg + "/" + rest| < |x + "/"| {
      ReplaceSegmentShort(seg, rest, x, r);
    } else if seg == x {
      ReplaceSegmentMatch(seg, rest, x, r);
    } else if |seg| == 0 {
      ReplaceStep(seg + "/" + rest, x + "/", r);
      assert (seg + "/" + rest)[1..] == rest;
    } else {
      ReplaceStep(seg + "/" + rest, x + "/", r);
      assert (seg + "/" + rest)[1..] == seg[1..] + "/" + rest;
      ReplaceSegment(seg[1..], rest, x, r);
      ReplaceSegmentTail(seg, rest, x, r);
    }
  }

  lemma ReplaceStep(s: string, pat: string, r: string)
    requires 0 < |pat| <= |s| && !StartsWith(s, pat)
    ensures Replace(s, pat, r) == [s[0]] + Replace(s[1..], pat, r)
  {
  }

  lemma ReplaceSegmentShort(seg: string, rest: string, x: string, r: string)
    requires |seg + "/" + rest| < |x + "/"|
    ensures Replace(seg + "/" + rest, x + "/", r) == seg + "/" + Replace(rest, x + "/", r)
    ensures !EndsWith(seg, x)
  {
    assert Replace(rest, x + "/", r) == rest;
  }

  lemma ReplaceSegmentMatch(seg: string, rest: string, x: string, r: string)
    requires seg == x
    ensures Replace(seg + "/" + rest, x + "/", r) == seg[..|seg| - |x|] + r + Replace(rest, x + "/", r)
  {
    var s := seg + "/" + rest;
    assert s[..|x + "/"|] == x + "/" && s[|x + "/"|..] == rest;
    assert seg[..|seg| - |x|] == [];
  }

  /** The first character of a name other than `x` is kept in front of the rest. */
  lemma ReplaceSegmentTail(seg: string, rest: string, x: string, r: string)
    requires |seg| > 0 && seg != x
    ensures [seg[0]] + ((if EndsWith(seg[1..], x) then seg[1..][..|seg| - 1 - |x|] + r else seg[1..] + "/")
                        + Replace(rest, x + "/", r))
         == (if EndsWith(seg, x) then seg[..|seg| - |x|] + r else seg + "/") + Replace(rest, x + "/", r)
  {
    EndsWithTail(seg, x);
    var tail := Replace(rest, x + "/", r);
    if EndsWith(seg, x) {
      var a := seg[1..][..|seg| - 1 - |x|];
      assert seg[..|seg| - |x|] == [seg[0]] + a;
      assert [seg[0]] + ((a + r) + tail) == ([seg[0]] + a + r) + tail;
    } else {
      var b := seg[1..] + "/";
      assert seg + "/" == [seg[0]] + b;
      assert [seg[0]] + (b + tail) == ([seg[0]] + b) + tail;
    }
  }

  /** A pattern ending in `/` does not occur in a name. */
  lemma {:induction false} ReplaceNoSlash(s: string, x: string, r: string)
    requires '/' !in s
    ensures Replace(s, x + "/", r) == s
    decreases |s|
  {
    var pat := x + "/";
    if |s| >= |pat| {
      assert s[..|pat|][|x|] == s[|x|] != pat[|x|];
      ReplaceNoSlash(s[1..], x, r);
      assert s == [s[0]] + s[1..];
    }
  }

  /** A path starting with a name contains `x/` when the name ends in `x` or the rest contains it. */
  lemma {:induction false} ContainsSegment(seg: string, rest: string, x: string)
    requires '/' !in seg && '/' !in x
    ensures Contains(seg + "/" + rest, x + "/") <==> EndsWith(seg, x) || Contains(rest, x + "/")
    decreases |seg|
  {
    var s := seg + "/" + rest;
    SlashPatternAtStart(seg, rest, x);
    if |seg| == 0 {
      assert s[1..] == rest;
    } else {
      EndsWithTail(seg, x);
      assert s[1..] == seg[1..] + "/" + rest;
      ContainsSegment(seg[1..], rest, x);
    }
  }

  lemma {:induction false} ContainsNoSlash(s: string, x: string)
    requires '/' !in s
    ensures !Contains(s, x + "/")
    decreases |s|
  {
    var pat := x + "/";
    if |pat| <= |s| {
      assert s[..|pat|][|x|] == s[|x|] != pat[|x|];
    }
    if |s| > 0 {
      ContainsNoSlash(s[1..], x);
    }
  }

  /** Removing the mark after a mirrored name. */
  lemma DropMark(u: string, rest: string)
    requires '\n' !in u
    ensures ReplaceChar(u + "\n/" + rest, '\n', "") == u + "/" + ReplaceChar(rest, '\n', "")
  {
    ReplaceCharConcat(u, "\n/" + rest, '\n', "");
    ReplaceCharAbsent(u, '\n', "");
    assert "\n/" + rest == ['\n'] + ("/" + rest) && "/" + rest == ['/'] + rest;
    ReplaceCharHead('\n', "/" + rest, '\n', "");
    ReplaceCharHead('/', rest, '\n', "");
    assert u + "\n/" + rest == u + ("\n/" + rest);
  }

  lemma KeepName(u: string, rest: string)
    requires '\n' !in u
    ensures ReplaceChar(u + "/" + rest, '\n', "") == u + "/" + ReplaceChar(rest, '\n', "")
  {
    ReplaceCharConcat(u, "/" + rest, '\n', "");
    ReplaceCharAbsent(u, '\n', "");
    assert "/" + rest == ['/'] + rest;
    ReplaceCharHead('/', rest, '\n', "");
    assert u + "/" + rest == u + ("/" + rest);
  }

  /** Lines 64-66 mirror every directory name and nothing else: the mark added by the first
      `Replace` keeps the second from undoing it, and the third removes the marks. */
  lemma {:induction false} SwapDirsByReplaceMeaning(p: string, a: string, b: string)
    requires '/' !in a && '/' !in b && '\n' !in a && '\n' !in b && '\n' !in p && |b| > 0
    ensures SwapDirsByReplace(p, a, b) == SwapDirs(p, a, b)
    decreases |p|
  {
    var k := IndexOf(p, '/');
    if k < 0 {
      ReplaceNoSlash(p, a, b + "\n/");
      ReplaceNoSlash(p, b, a + "\n/");
      ReplaceCharAbsent(p, '\n', "");
    } else {
      var seg, rest := p[..k], p[k + 1..];
      assert p == seg + "/" + rest;
      assert '\n' !in seg && '\n' !in rest;
      SwapDirsByReplaceMeaning(rest, a, b);
      SwapDirsByReplaceCons(seg, rest, a, b);
    }
  }

  /** The three `Replace` calls handle the first name of a path on its own. */
  lemma SwapDirsByReplaceCons(seg: string, rest: string, a: string, b: string)
    requires '/' !in a && '/' !in b && '\n' !in a && '\n' !in b && |b| > 0
    requires '/' !in seg && '\n' !in seg
    ensures SwapDirsByReplace(seg + "/" + rest, a, b) == MirrorSegment(seg, a, b) + "/" + SwapDirsByReplace(rest, a, b)
  {
    var r1 := Replace(rest, a + "/", b + "\n/");
    ReplaceSegment(seg, rest, a, b + "\n/");
    if EndsWith(seg, a) {
      MarkLeft(seg, rest, a, b);
    } else if EndsWith(seg, b) {
      ReplaceSegment(seg, r1, b, a + "\n/");
      MarkRight(seg, Replace(r1, b + "/", a + "\n/"), a, b);
    } else {
      ReplaceSegment(seg, r1, b, a + "\n/");
      KeepName(seg, Replace(r1, b + "/", a + "\n/"));
    }
  }

  lemma MarkLeft(seg: string, rest: string, a: string, b: string)
    requires '/' !in a && '/' !in b && '\n' !in a && '\n' !in b && |b| > 0
    requires '/' !in seg && '\n' !in seg && EndsWith(seg, a)
    requires Replace(seg + "/" + rest, a + "/", b + "\n/")
          == seg[..|seg| - |a|] + (b + "\n/") + Replace(rest, a + "/", b + "\n/")
    ensures SwapDirsByReplace(seg + "/" + rest, a, b) == seg[..|seg| - |a|] + b + "/" + SwapDirsByReplace(rest, a, b)
  {
    var r1 := Replace(rest, a + "/", b + "\n/");
    var r2 := Replace(r1, b + "/", a + "\n/");
    var u := seg[..|seg| - |a|] + b;
    var seg1 := u + "\n";
    MarkJoin(seg[..|seg| - |a|], b, r1);
    MarkEndsNoName(u, b);
    ReplaceSegment(seg1, r1, b, a + "\n/");
    MarkJoin(seg[..|seg| - |a|], b, r2);
    DropMark(u, r2);
  }

  lemma MarkJoin(w: string, b: string, r: string)
    ensures w + (b + "\n/") + r == (w + b + "\n") + "/" + r == (w + b) + "\n/" + r
  {
  }

  /** A name followed by the mark does not end in a suffix. */
  lemma MarkEndsNoName(u: string, b: string)
    requires '\n' !in b && |b| > 0
    ensures !EndsWith(u + "\n", b)
  {
    var t := u + "\n";
    assert b[|b| - 1] in b;
    if |b| <= |t| {
      assert t[|t| - |b|..][|b| - 1] == '\n';
    }
  }

  lemma MarkRight(seg: string, r2: string, a: string, b: string)
    requires '\n' !in a && '\n' !in seg && EndsWith(seg, b)
    ensures ReplaceChar(seg[..|seg| - |b|] + (a + "\n/") + r2, '\n', "")
         == seg[..|seg| - |b|] + a + "/" + ReplaceChar(r2, '\n', "")
  {
    var u := seg[..|seg| - |b|] + a;
    assert seg[..|seg| - |b|] + (a + "\n/") + r2 == u + "\n/" + r2;
    DropMark(u, r2);
  }

  // ------------------------------------------------------------------------------------------
  // Mirroring twice gives the path back

  lemma MirrorSegmentInvolutive(seg: string, a: string, b: string)
    requires |a| == |b| && a != b
    ensures MirrorSegment(MirrorSegment(seg, a, b), a, b) == seg
    ensures EndsWith(MirrorSegment(seg, a, b), a) || EndsWith(MirrorSegment(seg, a, b), b)
        <==> EndsWith(seg, a) || EndsWith(seg, b)
  {
    var m := MirrorSegment(seg, a, b);
    if EndsWith(seg, a) {
      assert m[|m| - |a|..] == b && m[..|m| - |b|] == seg[..|seg| - |a|];
      assert seg == seg[..|seg| - |a|] + a;
    } else if EndsWith(seg, b) {
      assert m[|m| - |a|..] == a && m[..|m| - |a|] == seg[..|seg| - |b|];
      assert seg == seg[..|seg| - |b|] + b;
    }
  }

  lemma {:induction false} SwapDirsInvolutive(s: string, a: string, b: string)
    requires |a| == |b| && a != b && '/' !in a && '/' !in b
    ensures SwapDirs(SwapDirs(s, a, b), a, b) == s
    decreases |s|
  {
    var k := IndexOf(s, '/');
    if k >= 0 {
      var seg, rest := s[..k], s[k + 1..];
      assert s == seg + "/" + rest;
      MirrorSegmentFree(seg, a, b, '/');
      SwapDirsCons(MirrorSegment(seg, a, b), SwapDirs(rest, a, b), a, b);
      MirrorSegmentInvolutive(seg, a, b);
      SwapDirsInvolutive(rest, a, b);
    }
  }

  /** A path holds a left or a right directory before and after the swap alike. */
  lemma {:induction false} SwapDirsKeepsSides(s: string, a: string, b: string)
    requires |a| == |b| && a != b && '/' !in a && '/' !in b
    ensures Contains(SwapDirs(s, a, b), a + "/") || Contains(SwapDirs(s, a, b), b + "/")
        <==> Contains(s, a + "/") || Contains(s, b + "/")
    decreases |s|
  {
    var k := IndexOf(s, '/');
    if k >= 0 {
      var seg, rest := s[..k], s[k + 1..];
      assert s == seg + "/" + rest;
      var m := MirrorSegment(seg, a, b);
      MirrorSegmentInvolutive(seg, a, b);
      ContainsSegment(seg, rest, a);
      ContainsSegment(seg, rest, b);
      MirrorSegmentFree(seg, a, b, '/');
      ContainsSegment(m, SwapDirs(rest, a, b), a);
      ContainsSegment(m, SwapDirs(rest, a, b), b);
      SwapDirsKeepsSides(rest, a, b);
    }
  }

  /** A path with no left and no right directory is not changed by the swap. */
  lemma {:induction false} SwapDirsCenter(s: string, a: string, b: string)
    requires '/' !in a && '/' !in b
    requires !Contains(s, a + "/") && !Contains(s, b + "/")
    ensures SwapDirs(s, a, b) == s
    decreases |s|
  {
    var k := IndexOf(s, '/');
    if k >= 0 {
      var seg, rest := s[..k], s[k + 1..];
      assert s == seg + "/" + rest;
      ContainsSegment(seg, rest, a);
      ContainsSegment(seg, rest, b);
      SwapDirsCenter(rest, a, b);
    }
  }

  lemma EndsWithAfterSlash(u: string, y: string, x: string)
    requires |x| == 2 && '/' !in x
    ensures EndsWith(u + "/" + y, x) <==> EndsWith(y, x)
  {
    var t := u + "/" + y;
    if |y| >= 2 {
      assert t[|t| - 2..] == y[|y| - 2..];
    } else if |t| >= 2 {
      assert t[|t| - 2..][1 - |y|] == '/';
    }
  }

  /** Lines 57-63 only look at the end of the path. */
  lemma SwapEndCons(g: MirrorAnimGenerator, u: string, y: string)
    requires SuffixPair(g)
    ensures SwapEnd(g, u + "/" + y).Some? && SwapEnd(g, y).Some?
    ensures SwapEnd(g, u + "/" + y).value == (u + "/" + SwapEnd(g, y).value.0, SwapEnd(g, y).value.1)
  {
    var t := u + "/" + y;
    EndsWithAfterSlash(u, y, g.suffixL);
    EndsWithAfterSlash(u, y, g.suffixR);
    if EndsWith(y, g.suffixL) {
      assert t[..|t| - 2] + g.suffixR == u + "/" + (y[..|y| - 2] + g.suffixR);
    } else if EndsWith(y, g.suffixR) {
      assert t[..|t| - 2] + g.suffixL == u + "/" + (y[..|y| - 2] + g.suffixL);
    }
  }

  /** Lines 57-63 twice give the path back. */
  lemma SwapEndInvolutive(g: MirrorAnimGenerator, path: string)
    requires SuffixPair(g)
    ensures SwapEnd(g, path).Some?
    ensures SwapEnd(g, SwapEnd(g, path).value.0) == Some((path, SwapEnd(g, path).value.1))
  {
    var q := SwapEnd(g, path).value.0;
    if EndsWith(path, g.suffixL) {
      assert q[|q| - 2..] == g.suffixR && q[..|q| - 2] == path[..|path| - 2];
      assert path == path[..|path| - 2] + g.suffixL;
    } else if EndsWith(path, g.suffixR) {
      assert q[|q| - 2..] == g.suffixL && q[..|q| - 2] == path[..|path| - 2];
      assert path == path[..|path| - 2] + g.suffixR;
    }
  }

  /** The end swap and the directory swap commute. */
  lemma {:induction false} SwapEndSwapDirs(g: MirrorAnimGenerator, s: string)
    requires SuffixPair(g)
    ensures SwapEnd(g, s).Some? && SwapEnd(g, SwapDirs(s, g.suffixL, g.suffixR)).Some?
    ensures SwapEnd(g, SwapDirs(s, g.suffixL, g.suffixR)).value
         == (SwapDirs(SwapEnd(g, s).value.0, g.suffixL, g.suffixR), SwapEnd(g, s).value.1)
    decreases |s|
  {
    var k := IndexOf(s, '/');
    if k < 0 {
      SwapEndName(g, s);
    } else {
      var seg, rest := s[..k], s[k + 1..];
      assert s == seg + "/" + rest;
      SwapEndSwapDirs(g, rest);
      SwapEndSwapDirsCons(g, seg, rest);
    }
  }

  /** A path without `/` stays without one. */
  lemma SwapEndName(g: MirrorAnimGenerator, s: string)
    requires SuffixPair(g) && '/' !in s
    ensures SwapEnd(g, s).Some?
    ensures SwapDirs(SwapEnd(g, s).value.0, g.suffixL, g.suffixR) == SwapEnd(g, s).value.0
  {
    SwapEndInvolutive(g, s);
    var q := SwapEnd(g, s).value.0;
    assert q == s || q == s[..|s| - 2] + g.suffixL || q == s[..|s| - 2] + g.suffixR;
    assert '/' !in q;
  }

  lemma SwapEndSwapDirsCons(g: MirrorAnimGenerator, seg: string, rest: string)
    requires SuffixPair(g) && '/' !in seg
    requires SwapEnd(g, rest).Some? && SwapEnd(g, SwapDirs(rest, g.suffixL, g.suffixR)).Some?
    requires SwapEnd(g, SwapDirs(rest, g.suffixL, g.suffixR)).value
          == (SwapDirs(SwapEnd(g, rest).value.0, g.suffixL, g.suffixR), SwapEnd(g, rest).value.1)
    ensures SwapEnd(g, seg + "/" + rest).Some? && SwapEnd(g, SwapDirs(seg + "/" + rest, g.suffixL, g.suffixR)).Some?
    ensures SwapEnd(g, SwapDirs(seg + "/" + rest, g.suffixL, g.suffixR)).value
         == (SwapDirs(SwapEnd(g, seg + "/" + rest).value.0, g.suffixL, g.suffixR), SwapEnd(g, seg + "/" + rest).value.1)
  {
    var a, b := g.suffixL, g.suffixR;
    SwapEndCons(g, seg, rest);
    var q := SwapEnd(g, rest).value.0;
    SwapDirsCons(seg, rest, a, b);
    SwapDirsCons(seg, q, a, b);
    SwapEndCons(g, MirrorSegment(seg, a, b), SwapDirs(rest, a, b));
  }

  /** Lines 53-68, corrected: mirroring a mirrored path gives the path back with the same
      flags, so a curve is negated the same way in both directions. */
  lemma MirrorPathInvolutive(g: MirrorAnimGenerator, path: string)
    requires SuffixPair(g) && '\n' !in path
    ensures MirrorPath(g, path).Some?
    ensures var m := MirrorPath(g, path).value;
      MirrorPath(g, m.path) == Some(MirroredPath(path, m.isLR, m.isCenter))
  {
    var a, b := g.suffixL, g.suffixR;
    SwapEndInvolutive(g, path);
    var (p1, lr) := SwapEnd(g, path).value;
    SwapDirsByReplaceMeaning(p1, a, b);
    SwapEndSwapDirs(g, p1);
    SwapDirsFree(path, a, b, '\n');
    SwapDirsByReplaceMeaning(SwapDirs(path, a, b), a, b);
    SwapDirsInvolutive(path, a, b);
    SwapDirsKeepsSides(path, a, b);
  }

  /** Lines 53-68, corrected: a center bone keeps its path. */
  lemma CenterPathUnchanged(g: MirrorAnimGenerator, path: string)
    requires SuffixPair(g) && '\n' !in path
    ensures MirrorPath(g, path).Some?
    ensures MirrorPath(g, path).value.isCenter ==> MirrorPath(g, path).value.path == path
  {
    var a, b := g.suffixL, g.suffixR;
    SwapEndInvolutive(g, path);
    SwapDirsByReplaceMeaning(SwapEnd(g, path).value.0, a, b);
    var m := MirrorPath(g, path).value;
    if m.isCenter {
      SwapDirsKeepsSides(path, a, b);
      SwapDirsCenter(path, a, b);
    }
  }

  // ------------------------------------------------------------------------------------------
  // The center test as written

  /** A bone under a left directory (`Hips/Leg_L/Foot` with the default suffixes) mirrors to
      the right directory and, on line 67 as written, counts as a center bone there, since only
      the left suffix is tested; mirrored back it does not. Its `m_LocalPosition.x` is negated
      one way only. With the test as intended neither way counts as center. */
  lemma CenterTestAsWrittenNotSymmetric(g: MirrorAnimGenerator, root: string, stem: string, bone: string)
    requires SuffixPair(g)
    requires '/' !in root && '/' !in stem && '/' !in bone
    requires '\n' !in root && '\n' !in stem && '\n' !in bone
    requires !EndsWith(root, g.suffixL) && !EndsWith(root, g.suffixR)
    requires !EndsWith(bone, g.suffixL) && !EndsWith(bone, g.suffixR)
    ensures var left := root + "/" + (stem + g.suffixL) + "/" + bone;
      var right := root + "/" + (stem + g.suffixR) + "/" + bone;
      && MirrorPathAsWritten(g, left) == Some(MirroredPath(right, false, true))
      && MirrorPathAsWritten(g, right) == Some(MirroredPath(left, false, false))
      && MirrorPath(g, left) == Some(MirroredPath(right, false, false))
  {
    var a, b := g.suffixL, g.suffixR;
    var left := root + "/" + (stem + a) + "/" + bone;
    var right := root + "/" + (stem + b) + "/" + bone;
    LegPath(g, root, stem + a, bone);
    LegPath(g, root, stem + b, bone);
    LegMirrored(stem, a, b);
    LegMirrored(stem, b, a);
    LegContains(root, stem + b, bone, a);
    LegContains(root, stem + a, bone, a);
    LegContains(root, stem + b, bone, b);
    EndsWithAppend(stem, a);
    EndsWithAppend(stem, b);
  }

  /** A path of three names: the end swap leaves it alone and the swap mirrors the middle one. */
  lemma LegPath(g: MirrorAnimGenerator, root: string, leg: string, bone: string)
    requires SuffixPair(g)
    requires '/' !in root && '/' !in leg && '/' !in bone
    requires '\n' !in root && '\n' !in leg && '\n' !in bone
    requires !EndsWith(root, g.suffixL) && !EndsWith(root, g.suffixR)
    requires !EndsWith(bone, g.suffixL) && !EndsWith(bone, g.suffixR)
    ensures var p := root + "/" + leg + "/" + bone;
      && SwapEnd(g, p) == Some((p, false))
      && SwapDirsByReplace(p, g.suffixL, g.suffixR) == root + "/" + MirrorSegment(leg, g.suffixL, g.suffixR) + "/" + bone
  {
    var a, b := g.suffixL, g.suffixR;
    var p := root + "/" + leg + "/" + bone;
    EndsWithAfterSlash(root + "/" + leg, bone, a);
    EndsWithAfterSlash(root + "/" + leg, bone, b);
    LegSwapDirs(root, leg, bone, a, b);
    SwapDirsByReplaceMeaning(p, a, b);
  }

  lemma LegSwapDirs(root: string, leg: string, bone: string, a: string, b: string)
    requires '/' !in root && '/' !in leg && '/' !in bone
    requires !EndsWith(root, a) && !EndsWith(root, b)
    ensures SwapDirs(root + "/" + leg + "/" + bone, a, b) == root + "/" + MirrorSegment(leg, a, b) + "/" + bone
  {
    var rest := leg + "/" + bone;
    var m := MirrorSegment(leg, a, b);
    SwapDirsLast(leg, bone, a, b);
    SwapDirsCons(root, rest, a, b);
    assert MirrorSegment(root, a, b) == root;
    SlashJoin(root, leg, bone);
    SlashJoin(root, m, bone);
  }

  lemma SlashJoin(x: string, y: string, z: string)
    ensures x + "/" + y + "/" + z == x + "/" + (y + "/" + z)
  {
  }

  lemma SwapDirsLast(leg: string, bone: string, a: string, b: string)
    requires '/' !in leg && '/' !in bone
    ensures SwapDirs(leg + "/" + bone, a, b) == MirrorSegment(leg, a, b) + "/" + bone
  {
    SwapDirsCons(leg, bone, a, b);
    assert SwapDirs(bone, a, b) == bone;
  }

  lemma LegMirrored(stem: string, a: string, b: string)
    requires |a| == |b| && a != b
    ensures MirrorSegment(stem + a, a, b) == stem + b && MirrorSegment(stem + a, b, a) == stem + b
  {
    var l := stem + a;
    assert l[|l| - |a|..] == a && l[..|l| - |a|] == stem;
    assert l[|l| - |b|..] != b;
  }

  /** A path of three names contains `x/` exactly when its first or second name ends in `x`. */
  lemma LegContains(root: string, leg: string, bone: string, x: string)
    requires '/' !in root && '/' !in leg && '/' !in bone && '/' !in x
    ensures Contains(root + "/" + leg + "/" + bone, x + "/") <==> EndsWith(root, x) || EndsWith(leg, x)
  {
    assert root + "/" + leg + "/" + bone == root + "/" + (leg + "/" + bone);
    ContainsSegment(root, leg + "/" + bone, x);
    ContainsSegment(leg, bone, x);
    ContainsNoSlash(bone, x);
  }

  // ------------------------------------------------------------------------------------------
  // Keys and curves (lines 44-97)

  /** Lines 75-81: position x is negated for left/right and center bones, rotation y and z
      always. */
  predicate Negates(propertyName: string, m: MirroredPath)
  {
    || ((m.isLR || m.isCenter) && propertyName == "m_LocalPosition.x")
    || propertyName == "m_LocalRotation.y" || propertyName == "m_LocalRotation.z"
  }

  /** Lines 74-86: a key keeps its time; value and tangents change sign when `negate`. */
  function MirrorKey(k: Keyframe, negate: bool): Keyframe
  {
    if negate then k.(value := -k.value, inTangent := -k.inTangent, outTangent := -k.outTangent)
    else k
  }

  function MirrorKeys(keys: seq<Keyframe>, negate: bool): seq<Keyframe>
  {
    seq(|keys|, i requires 0 <= i < |keys| => MirrorKey(keys[i], negate))
  }

  /** Lines 70-89 for a binding whose path mirrors to `m`: only the path changes, and the keys
      as `Negates` says. */
  function CurveFor(c: Curve, m: MirroredPath): Curve
  {
    Curve(c.binding.(path := m.path), MirrorKeys(c.keys, Negates(c.binding.propertyName, m)))
  }

  /** Lines 44-89 for one curve, as written; `None` where mirroring the path throws. */
  function MirrorCurve(g: MirrorAnimGenerator, c: Curve): Option<Curve>
  {
    match MirrorPathAsWritten(g, c.binding.path)
    case None => None
    case Some(m) => Some(CurveFor(c, m))
  }

  predicate AllMirror(g: MirrorAnimGenerator, cs: seq<Curve>)
  {
    forall i :: 0 <= i < |cs| ==> MirrorCurve(g, cs[i]).Some?
  }

  function MirrorCurves(g: MirrorAnimGenerator, cs: seq<Curve>): Option<seq<Curve>>
  {
    if AllMirror(g, cs) then Some(seq(|cs|, i requires 0 <= i < |cs| => MirrorCurve(g, cs[i]).value))
    else None
  }

  /** Lines 26-97 as written: the mirrored clip, or `None` where `proc` throws. */
  function MirrorClip(g: MirrorAnimGenerator, src: Clip): Option<Clip>
  {
    match MirrorCurves(g, src.curves)
    case None => None
    case Some(curves) => Some(Clip(MirrorName(g, src.name), curves, src.refCurves))
  }

  // ------------------------------------------------------------------------------------------
  // Curves and clips with the center test of line 67 as intended

  function MirrorCurveCorrected(g: MirrorAnimGenerator, c: Curve): Option<Curve>
  {
    match MirrorPath(g, c.binding.path)
    case None => None
    case Some(m) => Some(CurveFor(c, m))
  }

  predicate AllMirrorCorrected(g: MirrorAnimGenerator, cs: seq<Curve>)
  {
    forall i :: 0 <= i < |cs| ==> MirrorCurveCorrected(g, cs[i]).Some?
  }

  function MirrorCurvesCorrected(g: MirrorAnimGenerator, cs: seq<Curve>): Option<seq<Curve>>
  {
    if AllMirrorCorrected(g, cs) then Some(seq(|cs|, i requires 0 <= i < |cs| => MirrorCurveCorrected(g, cs[i]).value))
    else None
  }

  function MirrorClipCorrected(g: MirrorAnimGenerator, src: Clip): Option<Clip>
  {
    match MirrorCurvesCorrected(g, src.curves)
    case None => None
    case Some(curves) => Some(Clip(MirrorName(g, src.name), curves, src.refCurves))
  }

  /** Both center tests give the same mirrored path and side flag; the one as written also
      flags every path the intended one flags, and flags more only where the mirrored path
      holds a right directory. */
  lemma MirrorPathAsWrittenAgrees(g: MirrorAnimGenerator, path: string)
    ensures MirrorPathAsWritten(g, path).Some? <==> MirrorPath(g, path).Some?
    ensures MirrorPath(g, path).Some? ==>
      var w, m := MirrorPathAsWritten(g, path).value, MirrorPath(g, path).value;
      && w.path == m.path && w.isLR == m.isLR
      && (m.isCenter ==> w.isCenter)
      && (w.isCenter && !m.isCenter ==> Contains(m.path, g.suffixR + "/"))
  {
  }

  /** The center flag only decides the sign of `m_LocalPosition.x`, so every other curve is
      mirrored alike by both tests. */
  lemma MirrorCurveAgrees(g: MirrorAnimGenerator, c: Curve)
    requires c.binding.propertyName != "m_LocalPosition.x"
    ensures MirrorCurve(g, c) == MirrorCurveCorrected(g, c)
  {
    MirrorPathAsWrittenAgrees(g, c.binding.path);
  }

  /** Lines 26-97: every float curve is mirrored in source order, and the reference curves
      are copied; `None` where mirroring a path throws. */
  method Proc(g: MirrorAnimGenerator, src: Clip) returns (dst: Option<Clip>)
    ensures dst == MirrorClip(g, src)
  {
    var curves: seq<Curve> := [];
    for i := 0 to |src.curves|
      invariant |curves| == i
      invariant forall j :: 0 <= j < i ==>
        MirrorCurve(g, src.curves[j]).Some? && curves[j] == MirrorCurve(g, src.curves[j]).value
    {
      var c := ProcCurve(g, src.curves[i]);
      if c.None? {
        return None;
      }
      curves := curves + [c.value];
    }
    assert curves == MirrorCurves(g, src.curves).value;
    var refCurves: seq<RefCurve> := [];
    for i := 0 to |src.refCurves|
      invariant refCurves == src.refCurves[..i]
    {
      refCurves := refCurves + [src.refCurves[i]];
    }
    assert src.refCurves[..|src.refCurves|] == src.refCurves;
    dst := Some(Clip(MirrorName(g, src.name), curves, refCurves));
  }

  /** Lines 65-89 for one binding: the path is mirrored, then every key in turn. */
  method ProcCurve(g: MirrorAnimGenerator, c: Curve) returns (r: Option<Curve>)
    ensures r == MirrorCurve(g, c)
  {
    var m := MirrorPathAsWritten(g, c.binding.path);
    if m.None? {
      return None;
    }
    var negate := Negates(c.binding.propertyName, m.value);
    var keys: seq<Keyframe> := [];
    for j := 0 to |c.keys|
      invariant |keys| == j
      invariant forall t :: 0 <= t < j ==> keys[t] == MirrorKey(c.keys[t], negate)
    {
      var k := c.keys[j];
      if negate {
        k := k.(value := -k.value, inTangent := -k.inTangent, outTangent := -k.outTangent);
      }
      keys := keys + [k];
    }
    assert keys == MirrorKeys(c.keys, negate);
    r := Some(Curve(c.binding.(path := m.value.path), keys));
  }

  lemma MirrorKeysInvolutive(keys: seq<Keyframe>, negate: bool)
    ensures MirrorKeys(MirrorKeys(keys, negate), negate) == keys
  {
  }

  /** With the center test as intended, a curve mirrored twice is the curve again. */
  lemma MirrorCurveInvolutive(g: MirrorAnimGenerator, c: Curve)
    requires SuffixPair(g) && '\n' !in c.binding.path
    ensures MirrorCurveCorrected(g, c).Some?
    ensures MirrorCurveCorrected(g, MirrorCurveCorrected(g, c).value) == Some(c)
  {
    MirrorPathInvolutive(g, c.binding.path);
    var m := MirrorPath(g, c.binding.path).value;
    MirrorKeysInvolutive(c.keys, Negates(c.binding.propertyName, m));
  }

  /** With the center test as intended, curves mirrored twice are the curves again. */
  lemma MirrorCurvesInvolutive(g: MirrorAnimGenerator, cs: seq<Curve>)
    requires SuffixPair(g)
    requires forall i :: 0 <= i < |cs| ==> '\n' !in cs[i].binding.path
    ensures MirrorCurvesCorrected(g, cs).Some?
    ensures MirrorCurvesCorrected(g, MirrorCurvesCorrected(g, cs).value) == Some(cs)
  {
    forall i | 0 <= i < |cs|
      ensures MirrorCurveCorrected(g, cs[i]).Some?
      ensures MirrorCurveCorrected(g, MirrorCurveCorrected(g, cs[i]).value) == Some(cs[i])
    {
      MirrorCurveInvolutive(g, cs[i]);
    }
    var once := MirrorCurvesCorrected(g, cs).value;
    assert AllMirrorCorrected(g, once);
    assert MirrorCurvesCorrected(g, once).value == cs;
  }

  /** With the center test as intended, a clip mirrored twice has its curves and reference
      curves back, and its name back when it ends in a suffix. */
  lemma MirrorClipInvolutive(g: MirrorAnimGenerator, src: Clip)
    requires SuffixPair(g)
    requires forall i :: 0 <= i < |src.curves| ==> '\n' !in src.curves[i].binding.path
    ensures MirrorClipCorrected(g, src).Some?
    ensures var twice := MirrorClipCorrected(g, MirrorClipCorrected(g, src).value);
      && twice.Some? && twice.value.curves == src.curves && twice.value.refCurves == src.refCurves
      && (LetterSuffixes(g) && (IsEqualLastStr(src.name, g.suffixL) || IsEqualLastStr(src.name, g.suffixR))
          ==> twice.value.name == src.name)
  {
    MirrorCurvesInvolutive(g, src.curves);
    if LetterSuffixes(g) && (IsEqualLastStr(src.name, g.suffixL) || IsEqualLastStr(src.name, g.suffixR)) {
      MirrorNameInvolutive(g, src.name);
    }
  }

  /** As written, the `m_LocalPosition.x` curve of a bone under a left directory comes back
      from two mirrorings negated: the first flags the right-side path as center and negates
      the keys, the second does not undo it. With the test as intended it comes back as it
      was. */
  lemma MirrorCurveAsWrittenNotInvolutive(g: MirrorAnimGenerator, root: string, stem: string, bone: string, c: Curve)
    requires SuffixPair(g)
    requires '/' !in root && '/' !in stem && '/' !in bone
    requires '\n' !in root && '\n' !in stem && '\n' !in bone
    requires !EndsWith(root, g.suffixL) && !EndsWith(root, g.suffixR)
    requires !EndsWith(bone, g.suffixL) && !EndsWith(bone, g.suffixR)
    requires c.binding.path == root + "/" + (stem + g.suffixL) + "/" + bone
    requires c.binding.propertyName == "m_LocalPosition.x"
    requires |c.keys| > 0 && c.keys[0].value != 0.0
    ensures MirrorCurve(g, c).Some?
    ensures MirrorCurve(g, MirrorCurve(g, c).value) == Some(c.(keys := MirrorKeys(c.keys, true)))
    ensures MirrorCurve(g, MirrorCurve(g, c).value) != Some(c)
    ensures MirrorCurveCorrected(g, MirrorCurveCorrected(g, c).value) == Some(c)
  {
    CenterTestAsWrittenNotSymmetric(g, root, stem, bone);
    MirrorCurveInvolutive(g, c);
    var once := MirrorCurve(g, c).value;
    assert once.keys == MirrorKeys(c.keys, true);
    assert MirrorKeys(once.keys, false) == once.keys;
    assert once.keys[0].value == -c.keys[0].value;
  }
}
