// Visibility animation from flag bones
// (unity/IzFbxTools/Editor/Core/Anim/VisibilityAnimGenerator.cs).
//
// A bone whose path matches the generator's pattern drives, through its `m_LocalScale.x`
// curve, the `m_Enabled` flag of the renderers its pattern captures name. The regular
// expression engine is an oracle: `matchOf` gives the matched text of a path, or `None` when
// the path does not match, and `capturesOf` the captures of group 1 for a matched text.
// `getCombinedName` is an oracle too: its n-th call returns `combinedName(n)`.

module VisibilityAnim {
  import opened Strings
  import opened Wrappers
  import opened AnimClip

  /** The bone pattern, as the regular expression engine applies it. */
  datatype Regex = Regex(matchOf: string -> Option<string>, capturesOf: string -> seq<string>)

  /** Lines 46-61: the renderers one flag bone drives, and the single combined target when the
      renderers are merged. */
  datatype VisTargetObjInfo = VisTargetObjInfo(srcObjNames: seq<string>, combinedTgtName: Option<string>)

  /** The part of the generator `proc` updates: the cache of target infos (line 72), the
      number of `getCombinedName` calls so far, and the number of errors logged. */
  datatype VisState = VisState(infos: map<string, VisTargetObjInfo>, calls: nat, errors: nat)

  // ------------------------------------------------------------------------------------------
  // Partial name matching (lines 63-70)

  /** Line 63: a name starting or ending with `*` is a partial-match format. */
  predicate IsPartialMatchFmt(srcObjName: string)
  {
    |srcObjName| != 0 && (srcObjName[0] == '*' || srcObjName[|srcObjName| - 1] == '*')
  }

  /** Lines 66-70: a leading `*` matches any prefix, otherwise a trailing `*` matches any
      suffix, otherwise the names must be equal. An empty `srcObjName` makes line 67 throw. */
  predicate IsPartialMatch(srcObjName: string, tgtName: string)
    requires |srcObjName| > 0
  {
    if srcObjName[0] == '*' then EndsWith(tgtName, srcObjName[1..])
    else if srcObjName[|srcObjName| - 1] == '*' then StartsWith(tgtName, srcObjName[..|srcObjName| - 1])
    else srcObjName == tgtName
  }

  /** What a leading `*` stands for: any text in front of the rest. */
  lemma LeadingStarMeaning(rest: string, tgtName: string)
    ensures IsPartialMatch("*" + rest, tgtName) <==> exists front :: tgtName == front + rest
  {
    assert ("*" + rest)[0] == '*' && ("*" + rest)[1..] == rest;
    if IsPartialMatch("*" + rest, tgtName) {
      var front := tgtName[..|tgtName| - |rest|];
      assert tgtName == front + rest;
    }
    if exists front :: tgtName == front + rest {
      var front :| tgtName == front + rest;
      assert tgtName[|tgtName| - |rest|..] == rest;
    }
  }

  /** What a trailing `*` stands for, when there is no leading one: any text after the rest. */
  lemma TrailingStarMeaning(stem: string, tgtName: string)
    requires |stem| == 0 || stem[0] != '*'
    ensures IsPartialMatch(stem + "*", tgtName) <==> exists back :: tgtName == stem + back
  {
    var s := stem + "*";
    assert s[|s| - 1] == '*' && s[..|s| - 1] == stem;
    assert |stem| > 0 ==> s[0] == stem[0];
    if IsPartialMatch(s, tgtName) {
      var back := tgtName[|stem|..];
      assert tgtName == stem + back;
    }
    if exists back :: tgtName == stem + back {
      var back :| tgtName == stem + back;
      assert tgtName[..|stem|] == stem;
    }
  }

  /** A name that is not a partial-match format matches itself only. */
  lemma PlainNameMatchesItself(srcObjName: string, tgtName: string)
    requires |srcObjName| > 0 && !IsPartialMatchFmt(srcObjName)
    ensures IsPartialMatch(srcObjName, tgtName) <==> srcObjName == tgtName
  {
  }

  /** `*x*` is read as a leading `*` only: the target must end in `x*`. */
  lemma BothStarsIsSuffixMatch(x: string, tgtName: string)
    ensures IsPartialMatchFmt("*" + x + "*")
    ensures IsPartialMatch("*" + x + "*", tgtName) <==> EndsWith(tgtName, x + "*")
  {
    var s := "*" + x + "*";
    assert s[0] == '*' && s[1..] == x + "*";
  }

  // ------------------------------------------------------------------------------------------
  // The renderers of one flag bone (lines 106-116)

  /** Lines 111-112: the targetable names a partial format matches, in list order. */
  function MatchingNames(names: seq<string>, cap: string): seq<string>
    requires |cap| > 0
  {
    if |names| == 0 then []
    else
      var last := names[|names| - 1];
      MatchingNames(names[..|names| - 1], cap) + (if IsPartialMatch(cap, last) then [last] else [])
  }

  /** Lines 107-116: every capture in turn adds its names; a partial format without a
      targetable list adds none. */
  function SrcObjNames(caps: seq<string>, targetable: Option<seq<string>>): seq<string>
  {
    if |caps| == 0 then []
    else
      var cap := caps[|caps| - 1];
      SrcObjNames(caps[..|caps| - 1], targetable)
      + (if !IsPartialMatchFmt(cap) then [cap]
         else if targetable.None? then []
         else MatchingNames(targetable.value, cap))
  }

  /** Line 110: one error per partial format when no targetable list is set. */
  function ErrorsFor(caps: seq<string>, targetable: Option<seq<string>>): nat
  {
    if |caps| == 0 then 0
    else ErrorsFor(caps[..|caps| - 1], targetable)
         + (if IsPartialMatchFmt(caps[|caps| - 1]) && targetable.None? then 1 else 0)
  }

  /** The names a partial format keeps are exactly the listed names it matches. */
  lemma {:induction false} MatchingNamesMeaning(names: seq<string>, cap: string, n: string)
    requires |cap| > 0
    ensures n in MatchingNames(names, cap) <==> n in names && IsPartialMatch(cap, n)
    decreases |names|
  {
    if |names| > 0 {
      var init := names[..|names| - 1];
      MatchingNamesMeaning(init, cap, n);
      assert names == init + [names[|names| - 1]];
    }
  }

  /** Matching keeps list order: it distributes over joined lists. */
  lemma {:induction false} MatchingNamesAppend(a: seq<string>, b: seq<string>, cap: string)
    requires |cap| > 0
    ensures MatchingNames(a + b, cap) == MatchingNames(a, cap) + MatchingNames(b, cap)
    decreases |b|
  {
    if |b| > 0 {
      var init := b[..|b| - 1];
      assert (a + b)[..|a + b| - 1] == a + init;
      MatchingNamesAppend(a, init, cap);
    } else {
      assert a + b == a;
    }
  }

  /** The contribution of one capture. */
  predicate Names(cap: string, targetable: Option<seq<string>>, n: string)
  {
    if !IsPartialMatchFmt(cap) then n == cap
    else targetable.Some? && n in targetable.value && IsPartialMatch(cap, n)
  }

  /** A name is a renderer of the bone exactly when some capture contributes it. */
  lemma {:induction false} SrcObjNamesMeaning(caps: seq<string>, targetable: Option<seq<string>>, n: string)
    ensures n in SrcObjNames(caps, targetable) <==> exists i :: 0 <= i < |caps| && Names(caps[i], targetable, n)
    decreases |caps|
  {
    if |caps| > 0 {
      var init, cap := caps[..|caps| - 1], caps[|caps| - 1];
      SrcObjNamesMeaning(init, targetable, n);
      if IsPartialMatchFmt(cap) && targetable.Some? {
        MatchingNamesMeaning(targetable.value, cap, n);
      }
      if exists i :: 0 <= i < |caps| && Names(caps[i], targetable, n) {
        var i :| 0 <= i < |caps| && Names(caps[i], targetable, n);
        if i < |init| {
          assert init[i] == caps[i];
        }
      }
      if exists i :: 0 <= i < |init| && Names(init[i], targetable, n) {
        var i :| 0 <= i < |init| && Names(init[i], targetable, n);
        assert caps[i] == init[i];
      }
    }
  }

  /** Without a targetable list, the plain captures are the renderers and every partial format
      logs one error. */
  lemma {:induction false} NoTargetableList(caps: seq<string>)
    ensures SrcObjNames(caps, None) == Plain(caps)
    ensures ErrorsFor(caps, None) == |caps| - |Plain(caps)|
    decreases |caps|
  {
    if |caps| > 0 {
      NoTargetableList(caps[..|caps| - 1]);
    }
  }

  /** The captures that are not partial formats, in order. */
  function Plain(caps: seq<string>): (r: seq<string>)
    ensures |r| <= |caps|
  {
    if |caps| == 0 then []
    else Plain(caps[..|caps| - 1]) + (if IsPartialMatchFmt(caps[|caps| - 1]) then [] else [caps[|caps| - 1]])
  }

  // ------------------------------------------------------------------------------------------
  // One binding (lines 89-134)

  /** Lines 121-127: the curve that switches one renderer on and off. */
  function MakeCurve(path: string, keys: seq<Keyframe>): Curve
  {
    Curve(Binding(path, "m_Enabled", "SkinnedMeshRenderer"), keys)
  }

  function MakeCurves(paths: seq<string>, keys: seq<Keyframe>): seq<Curve>
  {
    seq(|paths|, i requires 0 <= i < |paths| => MakeCurve(paths[i], keys))
  }

  /** Every cached entry that must carry a combined name carries one. */
  predicate Consistent(rgx: Regex, combinedName: Option<nat -> string>, infos: map<string, VisTargetObjInfo>)
  {
    forall k :: k in infos && combinedName.Some? && |rgx.capturesOf(k)| != 1 ==> infos[k].combinedTgtName.Some?
  }

  /** `b` keeps every entry of `a` unchanged. */
  predicate Keeps(a: map<string, VisTargetObjInfo>, b: map<string, VisTargetObjInfo>)
  {
    forall k :: k in a ==> k in b && b[k] == a[k]
  }

  /** Lines 91-98: the matched text of a flag bone's `m_LocalScale.x` curve. */
  function FlagOf(rgx: Regex, c: Curve): Option<string>
  {
    match rgx.matchOf(c.binding.path)
    case None => None
    case Some(v) => if c.binding.propertyName == "m_LocalScale.x" then Some(v) else None
  }

  /** Lines 100-118: the entry for a matched text, made on its first sight and reused after. */
  function Entry(rgx: Regex, combinedName: Option<nat -> string>, targetable: Option<seq<string>>,
                 st: VisState, v: string): (r: (VisState, VisTargetObjInfo))
    requires Consistent(rgx, combinedName, st.infos)
    ensures Consistent(rgx, combinedName, r.0.infos) && v in r.0.infos && r.0.infos[v] == r.1
    ensures Keeps(st.infos, r.0.infos) && forall k :: k in r.0.infos ==> k in st.infos || k == v
    ensures v in st.infos ==> r.0 == st
    ensures combinedName.Some? && |rgx.capturesOf(v)| != 1 ==> r.1.combinedTgtName.Some?
  {
    var caps := rgx.capturesOf(v);
    if v in st.infos then (st, st.infos[v])
    else
      var info := VisTargetObjInfo(SrcObjNames(caps, targetable), None);
      var errors := st.errors + ErrorsFor(caps, targetable);
      if combinedName.None? || |caps| == 1 then
        (VisState(st.infos[v := info], st.calls, errors), info)
      else
        var info := info.(combinedTgtName := Some(combinedName.value(st.calls)));
        (VisState(st.infos[v := info], st.calls + 1, errors), info)
  }

  /** The curves written for a flag bone: one per renderer, or one for the combined target. */
  function FlagCurves(rgx: Regex, combinedName: Option<nat -> string>, v: string, info: VisTargetObjInfo,
                      keys: seq<Keyframe>): seq<Curve>
    requires combinedName.Some? && |rgx.capturesOf(v)| != 1 ==> info.combinedTgtName.Some?
  {
    if combinedName.None? || |rgx.capturesOf(v)| == 1 then MakeCurves(info.srcObjNames, keys)
    else [MakeCurve(info.combinedTgtName.value, keys)]
  }

  /** Lines 89-134 for one binding: the new state and the curves written to the clip. */
  function Step(rgx: Regex, combinedName: Option<nat -> string>, targetable: Option<seq<string>>,
                st: VisState, c: Curve): (r: (VisState, seq<Curve>))
    requires Consistent(rgx, combinedName, st.infos)
    ensures Consistent(rgx, combinedName, r.0.infos) && Keeps(st.infos, r.0.infos)
    ensures forall k :: k in r.0.infos <==> k in st.infos || FlagOf(rgx, c) == Some(k)
    ensures FlagOf(rgx, c).None? || FlagOf(rgx, c).value in st.infos ==> r.0 == st
  {
    match rgx.matchOf(c.binding.path)
    case None => (st, [c])
    case Some(v) =>
      if c.binding.propertyName != "m_LocalScale.x" then (st, [])
      else
        var (st', info) := Entry(rgx, combinedName, targetable, st, v);
        (st', FlagCurves(rgx, combinedName, v, info, c.keys))
  }

  /** Lines 89-134: all bindings in turn. The cache only grows: an entry, once made, is never
      changed. */
  function Run(rgx: Regex, combinedName: Option<nat -> string>, targetable: Option<seq<string>>,
               st: VisState, cs: seq<Curve>): (r: (VisState, seq<Curve>))
    requires Consistent(rgx, combinedName, st.infos)
    ensures Consistent(rgx, combinedName, r.0.infos) && Keeps(st.infos, r.0.infos)
  {
    if |cs| == 0 then (st, [])
    else
      var (st1, out1) := Run(rgx, combinedName, targetable, st, cs[..|cs| - 1]);
      var (st2, out2) := Step(rgx, combinedName, targetable, st1, cs[|cs| - 1]);
      (st2, out1 + out2)
  }

  /** The cache after a run holds the earlier entries and one entry per flag bone of the clip,
      and nothing else. */
  lemma {:induction false} RunKeys(rgx: Regex, combinedName: Option<nat -> string>, targetable: Option<seq<string>>,
                                   st: VisState, cs: seq<Curve>, k: string)
    requires Consistent(rgx, combinedName, st.infos)
    ensures k in Run(rgx, combinedName, targetable, st, cs).0.infos
        <==> k in st.infos || exists i :: 0 <= i < |cs| && FlagOf(rgx, cs[i]) == Some(k)
    decreases |cs|
  {
    if |cs| > 0 {
      var init := cs[..|cs| - 1];
      RunKeys(rgx, combinedName, targetable, st, init, k);
      if exists i :: 0 <= i < |cs| && FlagOf(rgx, cs[i]) == Some(k) {
        var i :| 0 <= i < |cs| && FlagOf(rgx, cs[i]) == Some(k);
        if i < |init| {
          assert init[i] == cs[i];
        }
      }
      if exists i :: 0 <= i < |init| && FlagOf(rgx, init[i]) == Some(k) {
        var i :| 0 <= i < |init| && FlagOf(rgx, init[i]) == Some(k);
        assert cs[i] == init[i];
      }
    }
  }

  /** A clip whose flag bones are all cached leaves the generator as it was: no entry is made,
      `getCombinedName` is not called and no error is logged. */
  lemma {:induction false} RunCached(rgx: Regex, combinedName: Option<nat -> string>, targetable: Option<seq<string>>,
                                     st: VisState, cs: seq<Curve>)
    requires Consistent(rgx, combinedName, st.infos)
    requires forall i :: 0 <= i < |cs| && FlagOf(rgx, cs[i]).Some? ==> FlagOf(rgx, cs[i]).value in st.infos
    ensures Run(rgx, combinedName, targetable, st, cs).0 == st
    decreases |cs|
  {
    if |cs| > 0 {
      var init := cs[..|cs| - 1];
      assert forall i :: 0 <= i < |init| ==> init[i] == cs[i];
      RunCached(rgx, combinedName, targetable, st, init);
    }
  }

  /** Against a cache that already holds every entry a run makes, the run writes the same
      curves and changes nothing. */
  lemma {:induction false} RunAgainst(rgx: Regex, combinedName: Option<nat -> string>, targetable: Option<seq<string>>,
                                      st: VisState, cache: VisState, cs: seq<Curve>)
    requires Consistent(rgx, combinedName, st.infos) && Consistent(rgx, combinedName, cache.infos)
    requires Keeps(Run(rgx, combinedName, targetable, st, cs).0.infos, cache.infos)
    ensures Run(rgx, combinedName, targetable, cache, cs) == (cache, Run(rgx, combinedName, targetable, st, cs).1)
    decreases |cs|
  {
    if |cs| > 0 {
      var init, c := cs[..|cs| - 1], cs[|cs| - 1];
      var t := Run(rgx, combinedName, targetable, st, init).0;
      RunAgainst(rgx, combinedName, targetable, st, cache, init);
      match FlagOf(rgx, c)
      case None =>
      case Some(v) =>
        var (t', info) := Entry(rgx, combinedName, targetable, t, v);
        assert cache.infos[v] == info;
    }
  }

  /** Processing a clip a second time writes the same curves and leaves the generator as the
      first time left it. */
  lemma RunIdempotent(rgx: Regex, combinedName: Option<nat -> string>, targetable: Option<seq<string>>,
                      st: VisState, cs: seq<Curve>)
    requires Consistent(rgx, combinedName, st.infos)
    ensures var first := Run(rgx, combinedName, targetable, st, cs);
      Run(rgx, combinedName, targetable, first.0, cs) == first
  {
    var first := Run(rgx, combinedName, targetable, st, cs);
    RunAgainst(rgx, combinedName, targetable, st, first.0, cs);
  }

  /** Lines 91-95: a curve on a bone the pattern does not match is written unchanged; every
      other curve written switches a renderer with a flag bone's `m_LocalScale.x` keys. */
  lemma {:induction false} RunCurves(rgx: Regex, combinedName: Option<nat -> string>, targetable: Option<seq<string>>,
                                     st: VisState, cs: seq<Curve>)
    requires Consistent(rgx, combinedName, st.infos)
    ensures var out := Run(rgx, combinedName, targetable, st, cs).1;
      && (forall i :: 0 <= i < |cs| && rgx.matchOf(cs[i].binding.path).None? ==> cs[i] in out)
      && (forall o :: o in out ==>
            (o in cs && rgx.matchOf(o.binding.path).None?)
            || (o.binding.propertyName == "m_Enabled" && o.binding.typeName == "SkinnedMeshRenderer"
                && exists i :: 0 <= i < |cs| && FlagOf(rgx, cs[i]).Some? && cs[i].keys == o.keys))
    decreases |cs|
  {
    if |cs| > 0 {
      var init, c := cs[..|cs| - 1], cs[|cs| - 1];
      RunCurves(rgx, combinedName, targetable, st, init);
      var t := Run(rgx, combinedName, targetable, st, init).0;
      StepCurves(rgx, combinedName, targetable, t, c);
      forall i | 0 <= i < |init|
        ensures init[i] == cs[i]
      {
      }
    }
  }

  /** Lines 91-133 for one curve `c`: an unmatched curve is written unchanged, and every other
      curve written switches a renderer with `c`'s keys, `c` being a flag bone's curve. */
  lemma StepCurves(rgx: Regex, combinedName: Option<nat -> string>, targetable: Option<seq<string>>,
                   st: VisState, c: Curve)
    requires Consistent(rgx, combinedName, st.infos)
    ensures var out := Step(rgx, combinedName, targetable, st, c).1;
      && (rgx.matchOf(c.binding.path).None? ==> out == [c])
      && (forall o :: o in out ==>
            (o == c && rgx.matchOf(c.binding.path).None?)
            || (o.binding.propertyName == "m_Enabled" && o.binding.typeName == "SkinnedMeshRenderer"
                && FlagOf(rgx, c).Some? && c.keys == o.keys))
  {
  }

  // ------------------------------------------------------------------------------------------
  // The generator (lines 22-145)

  class VisibilityAnimGenerator {
    /** Line 24, compiled as on line 82. */
    const rgx: Regex
    /** Line 32: `None` for null; otherwise its n-th call returns the function's value at n. */
    const getCombinedName: Option<nat -> string>
    /** Line 40: `None` for null. */
    const visTargetableNames: Option<seq<string>>
    /** Line 72. */
    var visTargetObjInfos: map<string, VisTargetObjInfo>
    /** How many times `getCombinedName` has been called. */
    var combinedCalls: nat
    /** How many times line 110 has logged its error. */
    var loggedErrors: nat

    ghost predicate Valid()
      reads this
    {
      Consistent(rgx, getCombinedName, visTargetObjInfos)
    }

    function State(): VisState
      reads this
    {
      VisState(visTargetObjInfos, combinedCalls, loggedErrors)
    }

    /** Lines 74-76, with the two public settings given at once. */
    constructor (rgx: Regex, getCombinedName: Option<nat -> string>, visTargetableNames: Option<seq<string>>)
      ensures Valid()
      ensures this.rgx == rgx && this.getCombinedName == getCombinedName && this.visTargetableNames == visTargetableNames
      ensures visTargetObjInfos == map[] && combinedCalls == 0 && loggedErrors == 0
    {
      this.rgx := rgx;
      this.getCombinedName := getCombinedName;
      this.visTargetableNames := visTargetableNames;
      visTargetObjInfos := map[];
      combinedCalls := 0;
      loggedErrors := 0;
    }

    /** Lines 78-145: the curves written to the destination clip, binding by binding, then the
        reference curves copied; the cache, the calls and the errors move on as `Run` says. */
    method Proc(src: Clip) returns (curves: seq<Curve>, refCurves: seq<RefCurve>)
      requires Valid()
      modifies this
      ensures Valid()
      ensures (State(), curves) == Run(rgx, getCombinedName, visTargetableNames, old(State()), src.curves)
      ensures refCurves == src.refCurves
    {
      var st := State();
      curves := [];
      for i := 0 to |src.curves|
        invariant Consistent(rgx, getCombinedName, st.infos)
        invariant (st, curves) == Run(rgx, getCombinedName, visTargetableNames, old(State()), src.curves[..i])
      {
        var out;
        st, out := ProcBinding(st, src.curves[i]);
        assert src.curves[..i + 1][..i] == src.curves[..i];
        curves := curves + out;
      }
      assert src.curves[..|src.curves|] == src.curves;
      visTargetObjInfos, combinedCalls, loggedErrors := st.infos, st.calls, st.errors;
      refCurves := [];
      for i := 0 to |src.refCurves|
        invariant refCurves == src.refCurves[..i]
      {
        refCurves := refCurves + [src.refCurves[i]];
      }
      assert src.refCurves[..|src.refCurves|] == src.refCurves;
    }

    /** Lines 90-133 for one binding. */
    method ProcBinding(st: VisState, c: Curve) returns (st': VisState, out: seq<Curve>)
      requires Consistent(rgx, getCombinedName, st.infos)
      ensures (st', out) == Step(rgx, getCombinedName, visTargetableNames, st, c)
    {
      var m := rgx.matchOf(c.binding.path);
      if m.None? {
        return st, [c];
      }
      if c.binding.propertyName != "m_LocalScale.x" {
        return st, [];
      }
      var v := m.value;
      var vtoi;
      st', vtoi := GetEntry(st, v);
      out := EmitCurves(v, vtoi, c.keys);
    }

    /** Lines 100-118: the cached entry for `v`, made and counted on its first sight. */
    method GetEntry(st: VisState, v: string) returns (st': VisState, vtoi: VisTargetObjInfo)
      requires Consistent(rgx, getCombinedName, st.infos)
      ensures (st', vtoi) == Entry(rgx, getCombinedName, visTargetableNames, st, v)
    {
      var caps := rgx.capturesOf(v);
      st' := st;
      if v !in st.infos {
        var names, errors := CollectSrcObjNames(caps);
        vtoi := VisTargetObjInfo(names, None);
        st' := st'.(errors := st.errors + errors);
        if getCombinedName.Some? && |caps| != 1 {
          vtoi := vtoi.(combinedTgtName := Some(getCombinedName.value(st.calls)));
          st' := st'.(calls := st.calls + 1);
        }
        st' := st'.(infos := st.infos[v := vtoi]);
      } else {
        vtoi := st.infos[v];
      }
    }

    /** Lines 128-133: one combined curve, or one curve per renderer. */
    method EmitCurves(v: string, vtoi: VisTargetObjInfo, keys: seq<Keyframe>) returns (out: seq<Curve>)
      requires getCombinedName.Some? && |rgx.capturesOf(v)| != 1 ==> vtoi.combinedTgtName.Some?
      ensures out == FlagCurves(rgx, getCombinedName, v, vtoi, keys)
    {
      if getCombinedName.None? || |rgx.capturesOf(v)| == 1 {
        out := [];
        for j := 0 to |vtoi.srcObjNames|
          invariant out == MakeCurves(vtoi.srcObjNames[..j], keys)
        {
          out := out + [MakeCurve(vtoi.srcObjNames[j], keys)];
        }
        assert vtoi.srcObjNames[..|vtoi.srcObjNames|] == vtoi.srcObjNames;
      } else {
        out := [MakeCurve(vtoi.combinedTgtName.value, keys)];
      }
    }

    /** Lines 106-116: the renderers the captures name, and the errors logged on the way. */
    method CollectSrcObjNames(caps: seq<string>) returns (names: seq<string>, errors: nat)
      ensures names == SrcObjNames(caps, visTargetableNames)
      ensures errors == ErrorsFor(caps, visTargetableNames)
    {
      names, errors := [], 0;
      for i := 0 to |caps|
        invariant names == SrcObjNames(caps[..i], visTargetableNames)
        invariant errors == ErrorsFor(caps[..i], visTargetableNames)
      {
        var cap := caps[i];
        assert caps[..i + 1][..i] == caps[..i];
        if IsPartialMatchFmt(cap) {
          if visTargetableNames.None? {
            errors := errors + 1;
          } else {
            var list := visTargetableNames.value;
            var found: seq<string> := [];
            for j := 0 to |list|
              invariant found == MatchingNames(list[..j], cap)
            {
              assert list[..j + 1][..j] == list[..j];
              if IsPartialMatch(cap, list[j]) {
                found := found + [list[j]];
              }
            }
            assert list[..|list|] == list;
            names := names + found;
          }
        } else {
          names := names + [cap];
        }
      }
      assert caps[..|caps|] == caps;
    }
  }
}
