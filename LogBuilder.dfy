// The ToonMeshEdgeMerger log accumulator
// (unity/ToonMeshEdgeMerger/Editor/LogBuilder.cs). Unlike the IzFbxTools log it
// keeps references to the source and destination meshes given at the start
// of a run and reads their name and triangle count only when the run ends, so
// a mesh changed in between is reported as it is at the end.

module LogBuilder {
  import opened Strings

  /** The part of a Unity mesh the log reads. */
  class Mesh {
    var name: string
    var triangles: seq<int>

    constructor (name: string, triangles: seq<int>)
      ensures this.name == name && this.triangles == triangles
    {
      this.name := name;
      this.triangles := triangles;
    }
  }

  const Separator: seq<string> := ["------------------", ""]

  function Verdict(isSuccess: bool): string
  {
    if isSuccess then "[成功]" else "[失敗]"
  }

  function Headline(isSuccess: bool, srcName: string, dstName: string): (s: string)
    ensures '\n' !in srcName && '\n' !in dstName ==> '\n' !in s
  {
    Verdict(isSuccess) + " : " + srcName + " → " + dstName
  }

  function PolygonLine(srcIndices: nat, dstIndices: nat): (s: string)
    ensures '\n' !in s
  {
    "ポリゴン数: " + IntToString(srcIndices / 3) + " → " + IntToString(dstIndices / 3)
  }

  /** The four lines `endOneProc` writes, from the meshes' state at that moment. */
  function ProcReport(isSuccess: bool, srcName: string, srcIndices: nat, dstName: string, dstIndices: nat,
                      edges: int, corners: int): (ls: seq<string>)
    ensures |ls| == 4
    ensures '\n' !in srcName && '\n' !in dstName ==> OneLineEach(ls)
  {
    [ Headline(isSuccess, srcName, dstName),
      PolygonLine(srcIndices, dstIndices),
      "溶接エッジ数: " + IntToString(edges),
      "溶接コーナー数: " + IntToString(corners) ]
  }

  class LogBuilder {
    var text: string
    var lineCnt: int
    var srcMesh: Mesh?
    var dstMesh: Mesh?
    var mergedEdgeCnt: int
    var mergedCornerCnt: int

    /** `lineCnt` is the number of lines of the text. */
    ghost predicate Counted()
      reads this
    {
      lineCnt == Newlines(text)
    }

    constructor ()
      ensures text == "" && lineCnt == 0 && srcMesh == null && dstMesh == null
      ensures mergedEdgeCnt == 0 && mergedCornerCnt == 0
      ensures Counted()
    {
      text := "";
      lineCnt := 0;
      srcMesh := null;
      dstMesh := null;
      mergedEdgeCnt := 0;
      mergedCornerCnt := 0;
    }

    /** Clears the text and the line count; the stored meshes and counters stay. */
    method Reset()
      modifies this
      ensures text == "" && lineCnt == 0
      ensures srcMesh == old(srcMesh) && dstMesh == old(dstMesh)
      ensures mergedEdgeCnt == old(mergedEdgeCnt) && mergedCornerCnt == old(mergedCornerCnt)
      ensures Counted()
    {
      text := "";
      lineCnt := 0;
    }

    /** Remembers the two meshes, zeroes the counters and, unless the text is empty, writes the separator. */
    method BeginOneProc(src: Mesh, dst: Mesh)
      modifies this
      ensures srcMesh == src && dstMesh == dst
      ensures mergedEdgeCnt == 0 && mergedCornerCnt == 0
      ensures old(text) == "" ==> text == "" && lineCnt == old(lineCnt)
      ensures old(text) != "" ==> text == AppendLines(old(text), Separator) && lineCnt == old(lineCnt) + 2
      ensures old(Counted()) ==> Counted()
    {
      srcMesh := src;
      dstMesh := dst;
      mergedEdgeCnt := 0;
      mergedCornerCnt := 0;
      if |text| != 0 {
        AppendLinesCount(text, Separator);
        text := AppendLine(AppendLine(text, Separator[0]), Separator[1]);
        lineCnt := lineCnt + 2;
      }
    }

    method CountMergedEdge()
      modifies this
      ensures mergedEdgeCnt == old(mergedEdgeCnt) + 1
      ensures mergedCornerCnt == old(mergedCornerCnt) && text == old(text) && lineCnt == old(lineCnt)
      ensures srcMesh == old(srcMesh) && dstMesh == old(dstMesh)
    {
      mergedEdgeCnt := mergedEdgeCnt + 1;
    }

    method CountMergedCorner()
      modifies this
      ensures mergedCornerCnt == old(mergedCornerCnt) + 1
      ensures mergedEdgeCnt == old(mergedEdgeCnt) && text == old(text) && lineCnt == old(lineCnt)
      ensures srcMesh == old(srcMesh) && dstMesh == old(dstMesh)
    {
      mergedCornerCnt := mergedCornerCnt + 1;
    }

    /**
     * Writes four lines naming the stored meshes as they are now, their
     * triangle counts and the two counters. A run that was never begun
     * dereferences null in the source, hence the precondition.
     */
    method EndOneProc(isSuccess: bool)
      requires srcMesh != null && dstMesh != null
      modifies this
      ensures srcMesh == old(srcMesh) && dstMesh == old(dstMesh)
      ensures text == AppendLines(old(text), ProcReport(isSuccess, srcMesh.name, |srcMesh.triangles|,
                                                        dstMesh.name, |dstMesh.triangles|, mergedEdgeCnt, mergedCornerCnt))
      ensures lineCnt == old(lineCnt) + 4
      ensures mergedEdgeCnt == old(mergedEdgeCnt) && mergedCornerCnt == old(mergedCornerCnt)
      ensures old(Counted()) && '\n' !in srcMesh.name && '\n' !in dstMesh.name ==> Counted()
    {
      var ls := ProcReport(isSuccess, srcMesh.name, |srcMesh.triangles|, dstMesh.name, |dstMesh.triangles|,
                           mergedEdgeCnt, mergedCornerCnt);
      var t := text;
      t := AppendLine(t, ls[0]);
      t := AppendLine(t, ls[1]);
      t := AppendLine(t, ls[2]);
      t := AppendLine(t, ls[3]);
      AppendFourLines(text, ls);
      if '\n' !in srcMesh.name && '\n' !in dstMesh.name {
        AppendLinesCount(text, ls);
      }
      text, lineCnt := t, lineCnt + 4;
    }

    /** The text built so far; it has `lineCnt` lines while the count is kept. */
    function GetResultStr(): (r: string)
      reads this
      ensures Counted() ==> Newlines(r) == lineCnt
    {
      text
    }
  }
}
