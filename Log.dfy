// The IzFbxTools log accumulator (unity/IzFbxTools/Editor/Core/Log.cs): a text
// buffer, a running line count and two per-mesh counters bumped by the edge
// merger. The StringBuilder is its text; the static `_instance` slot is an
// object of its own (`LogSlot`).

module Log {
  import opened Strings

  /** What the log reads from a Unity mesh: its name and the length of its index buffer. */
  datatype MeshInfo = MeshInfo(name: string, indexCount: nat)

  function Verdict(isSuccess: bool): string
  {
    if isSuccess then "[成功]" else "[失敗]"
  }

  /** The two lines written between the reports of two meshes. */
  const Separator: seq<string> := ["------------------", ""]

  /** The four lines `endOneEdgeMerge` writes. */
  function EdgeMergeReport(isSuccess: bool, src: MeshInfo, dst: MeshInfo, edges: int, corners: int): (ls: seq<string>)
    ensures |ls| == 4
    ensures '\n' !in src.name && '\n' !in dst.name ==> OneLineEach(ls)
  {
    [ EdgeMergeHeadline(isSuccess, src, dst),
      PolygonLine(src.indexCount, dst.indexCount),
      "溶接エッジ数: " + IntToString(edges),
      "溶接コーナー数: " + IntToString(corners) ]
  }

  function PolygonLine(srcIndices: nat, dstIndices: nat): (s: string)
    ensures '\n' !in s
  {
    "ポリゴン数: " + IntToString(srcIndices / 3) + " → " + IntToString(dstIndices / 3)
  }

  function EdgeMergeHeadline(isSuccess: bool, src: MeshInfo, dst: MeshInfo): (s: string)
    ensures '\n' !in src.name && '\n' !in dst.name ==> '\n' !in s
  {
    "エッジ融合" + Verdict(isSuccess) + " : " + src.name + " → " + dst.name
  }

  /** The lines `endCombineMesh` writes: a header, one indented line per source mesh, the destination. */
  function CombineReport(isSuccess: bool, srcMeshes: seq<MeshInfo>, dst: MeshInfo): (ls: seq<string>)
    ensures |ls| == 2 + |srcMeshes|
    ensures NamesOneLine(srcMeshes) && '\n' !in dst.name ==> OneLineEach(ls)
  {
    [CombineHeader(isSuccess)] + SourceLines(srcMeshes) + [CombineFooter(dst)]
  }

  function CombineHeader(isSuccess: bool): (s: string)
    ensures '\n' !in s
  {
    "メッシュ結合" + Verdict(isSuccess)
  }

  function CombineFooter(dst: MeshInfo): (s: string)
    ensures '\n' !in dst.name ==> '\n' !in s
  {
    "     → " + dst.name
  }

  function SourceLines(srcMeshes: seq<MeshInfo>): (ls: seq<string>)
    ensures |ls| == |srcMeshes|
    ensures NamesOneLine(srcMeshes) ==> OneLineEach(ls)
  {
    seq(|srcMeshes|, i requires 0 <= i < |srcMeshes| => "    " + srcMeshes[i].name)
  }

  predicate NamesOneLine(meshes: seq<MeshInfo>)
  {
    forall i :: 0 <= i < |meshes| ==> '\n' !in meshes[i].name
  }

  class Log {
    var text: string
    var lineCnt: int
    var mergedEdgeCnt: int
    var mergedCornerCnt: int

    /** `lineCnt` is the number of lines of the text. */
    ghost predicate Counted()
      reads this
    {
      lineCnt == Newlines(text)
    }

    constructor ()
      ensures text == "" && lineCnt == 0 && mergedEdgeCnt == 0 && mergedCornerCnt == 0
      ensures Counted()
    {
      text := "";
      lineCnt := 0;
      mergedEdgeCnt := 0;
      mergedCornerCnt := 0;
    }

    /** Clears the text and the line count; the counters are left as they are. */
    method Reset()
      modifies this
      ensures text == "" && lineCnt == 0
      ensures mergedEdgeCnt == old(mergedEdgeCnt) && mergedCornerCnt == old(mergedCornerCnt)
      ensures Counted()
    {
      text := "";
      lineCnt := 0;
    }

    /** Zeroes both counters and, unless the text is empty, writes the separator. */
    method BeginOneEdgeMerge()
      modifies this
      ensures mergedEdgeCnt == 0 && mergedCornerCnt == 0
      ensures old(text) == "" ==> text == "" && lineCnt == old(lineCnt)
      ensures old(text) != "" ==> text == AppendLines(old(text), Separator) && lineCnt == old(lineCnt) + 2
      ensures old(Counted()) ==> Counted()
    {
      mergedEdgeCnt := 0;
      mergedCornerCnt := 0;
      if |text| != 0 {
        AppendLinesCount(text, Separator);
        text := AppendLine(AppendLine(text, Separator[0]), Separator[1]);
        lineCnt := lineCnt + 2;
      }
    }

    method CountMergedEdge()
      modifies this
      ensures mergedEdgeCnt == old(mergedEdgeCnt) + 1
      ensures mergedCornerCnt == old(mergedCornerCnt) && text == old(text) && lineCnt == old(lineCnt)
    {
      mergedEdgeCnt := mergedEdgeCnt + 1;
    }

    method CountMergedCorner()
      modifies this
      ensures mergedCornerCnt == old(mergedCornerCnt) + 1
      ensures mergedEdgeCnt == old(mergedEdgeCnt) && text == old(text) && lineCnt == old(lineCnt)
    {
      mergedCornerCnt := mergedCornerCnt + 1;
    }

    /** Writes the four-line report of one mesh, the last two lines carrying the counters. */
    method EndOneEdgeMerge(isSuccess: bool, src: MeshInfo, dst: MeshInfo)
      modifies this
      ensures text == AppendLines(old(text), EdgeMergeReport(isSuccess, src, dst, mergedEdgeCnt, mergedCornerCnt))
      ensures lineCnt == old(lineCnt) + 4
      ensures mergedEdgeCnt == old(mergedEdgeCnt) && mergedCornerCnt == old(mergedCornerCnt)
      ensures old(Counted()) && '\n' !in src.name && '\n' !in dst.name ==> Counted()
    {
      var ls := EdgeMergeReport(isSuccess, src, dst, mergedEdgeCnt, mergedCornerCnt);
      ghost var t0 := text;
      text := AppendLine(text, ls[0]);
      text := AppendLine(text, ls[1]);
      text := AppendLine(text, ls[2]);
      text := AppendLine(text, ls[3]);
      AppendFourLines(t0, ls);
      if '\n' !in src.name && '\n' !in dst.name {
        AppendLinesCount(t0, ls);
      }
      lineCnt := lineCnt + 4;
    }

    /** Writes a header, one line per source mesh and the destination: `2 + |srcMeshes|` lines. */
    method EndCombineMesh(isSuccess: bool, srcMeshes: seq<MeshInfo>, dst: MeshInfo)
      modifies this
      ensures text == AppendLines(old(text), CombineReport(isSuccess, srcMeshes, dst))
      ensures lineCnt == old(lineCnt) + 2 + |srcMeshes|
      ensures mergedEdgeCnt == old(mergedEdgeCnt) && mergedCornerCnt == old(mergedCornerCnt)
      ensures old(Counted()) && NamesOneLine(srcMeshes) && '\n' !in dst.name ==> Counted()
    {
      ghost var t0 := text;
      ghost var ls := CombineReport(isSuccess, srcMeshes, dst);
      ghost var lines := SourceLines(srcMeshes);
      text := AppendLine(text, CombineHeader(isSuccess));
      ghost var t1 := text;
      assert t1 == AppendLines(t0, [CombineHeader(isSuccess)]);
      for i := 0 to |srcMeshes|
        invariant text == AppendLines(t1, lines[..i])
        invariant lineCnt == old(lineCnt) && mergedEdgeCnt == old(mergedEdgeCnt) && mergedCornerCnt == old(mergedCornerCnt)
      {
        AppendLinesStep(t1, lines, i);
        text := AppendLine(text, "    " + srcMeshes[i].name);
      }
      assert lines[..|srcMeshes|] == lines;
      text := AppendLine(text, CombineFooter(dst));
      AppendLinesConcat(t0, [CombineHeader(isSuccess)], lines);
      AppendLinesConcat(t0, [CombineHeader(isSuccess)] + lines, [CombineFooter(dst)]);
      if NamesOneLine(srcMeshes) && '\n' !in dst.name {
        AppendLinesCount(t0, ls);
      }
      lineCnt := lineCnt + 2 + |srcMeshes|;
    }

    /** The text built so far; it has `lineCnt` lines while the count is kept. */
    function GetResultStr(): (r: string)
      reads this
      ensures Counted() ==> Newlines(r) == lineCnt
    {
      text
    }
  }

  /** The static `_instance` slot, filled on first use. */
  class LogSlot {
    var instance: Log?

    constructor ()
      ensures instance == null
    {
      instance := null;
    }

    /** The one log object: made on first request, the same object on every later one. */
    method Instance() returns (l: Log)
      modifies this
      ensures old(instance) != null ==> l == old(instance)
      ensures old(instance) == null ==> fresh(l) && l.text == "" && l.lineCnt == 0
      ensures instance == l
    {
      if instance == null {
        instance := new Log();
      }
      l := instance;
    }
  }
}
