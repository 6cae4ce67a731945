// The name-to-id scan over a Unity asset's YAML text
// (unity/IzFbxTools/Editor/Core/YamlParser.cs, `makeNameIdMap`).
//
// The text arrives already split into lines, as `StringReader.ReadLine` would return them. A
// `Dictionary.Add` of a name already present throws; the scan then yields `None`.

module YamlParser {
  import opened Strings
  import opened Wrappers

  /** The asset type read from the line after a header: only meshes and animation clips are
      tracked. */
  datatype Kind = Untracked | MeshSection | AnimSection

  /** The two maps `makeNameIdMap` fills: asset name to file id. */
  datatype Maps = Maps(mesh: map<string, string>, anim: map<string, string>)

  const HeaderPrefix := "--- !u!"
  const NamePrefix := "  m_Name: "
  const MeshTypeLine := "Mesh:"
  const AnimTypeLine := "AnimationClip:"

  predicate IsHeader(line: string)
  {
    StartsWith(line, HeaderPrefix)
  }

  predicate IsNameLine(line: string)
  {
    StartsWith(line, NamePrefix)
  }

  /** Line 97: the name is the text after the name prefix. */
  function NameOf(line: string): string
    requires IsNameLine(line)
  {
    line[|NamePrefix|..]
  }

  lemma NameOfSplits(line: string)
    requires IsNameLine(line)
    ensures line == NamePrefix + NameOf(line)
  {
    assert line == line[..|NamePrefix|] + line[|NamePrefix|..];
  }

  /** Line 79: the id is the text after the first `&`; without one, the whole line. */
  function HeaderId(line: string): string
  {
    var k := IndexOf(line, '&');
    if k >= 0 then line[k + 1..] else line
  }

  lemma HeaderIdAfterAmpersand(line: string)
    ensures '&' !in line ==> HeaderId(line) == line
    ensures '&' in line ==>
      exists k :: 0 <= k < |line| && line[k] == '&' && '&' !in line[..k] && HeaderId(line) == line[k + 1..]
  {
    var k := IndexOf(line, '&');
    if k >= 0 {
      assert line[k] == '&' && '&' !in line[..k];
    }
  }

  /** Lines 83-89. */
  function KindOf(typeLine: string): Kind
  {
    if typeLine == MeshTypeLine then MeshSection
    else if typeLine == AnimTypeLine then AnimSection
    else Untracked
  }

  function TypeLine(kind: Kind): string
    requires kind != Untracked
  {
    if kind == MeshSection then MeshTypeLine else AnimTypeLine
  }

  /** Lines 100-104: the map of the section's kind. */
  function MapOf(maps: Maps, kind: Kind): map<string, string>
    requires kind != Untracked
  {
    if kind == MeshSection then maps.mesh else maps.anim
  }

  /** Lines 100-104: `name -> id` added to the map of the section's kind. */
  function Record(maps: Maps, kind: Kind, name: string, id: string): (r: Maps)
    requires kind != Untracked
    ensures MapOf(r, kind) == MapOf(maps, kind)[name := id]
    ensures kind == MeshSection ==> r.anim == maps.anim
    ensures kind == AnimSection ==> r.mesh == maps.mesh
  {
    if kind == MeshSection then maps.(mesh := maps.mesh[name := id]) else maps.(anim := maps.anim[name := id])
  }

  /** The scan of lines 74-111 from line `i`, with the current id, the current section's kind
      and the maps filled so far. */
  function ScanFrom(lines: seq<string>, i: nat, id: string, kind: Kind, maps: Maps): Option<Maps>
    decreases |lines| - i
  {
    if |lines| <= i then Some(maps)
    else if IsHeader(lines[i]) then
      if |lines| <= i + 1 then Some(maps)
      else ScanFrom(lines, i + 2, HeaderId(lines[i]), KindOf(lines[i + 1]), maps)
    else if kind != Untracked && IsNameLine(lines[i]) then
      var name := NameOf(lines[i]);
      if name in MapOf(maps, kind) then None
      else ScanFrom(lines, i + 1, id, Untracked, Record(maps, kind, name, id))
    else ScanFrom(lines, i + 1, id, kind, maps)
  }

  function Scan(lines: seq<string>): Option<Maps>
  {
    ScanFrom(lines, 0, "", Untracked, Maps(map[], map[]))
  }

  /** Lines 62-112: the read-line loop. */
  method MakeNameIdMap(lines: seq<string>) returns (r: Option<Maps>)
    ensures r == Scan(lines)
  {
    var meshNameIdMap: map<string, string> := map[];
    var animNameIdMap: map<string, string> := map[];
    var id := "";
    var assetType := Untracked;
    var i := 0;
    while i < |lines|
      invariant i <= |lines|
      invariant ScanFrom(lines, i, id, assetType, Maps(meshNameIdMap, animNameIdMap)) == Scan(lines)
      decreases |lines| - i
    {
      var line := lines[i];
      i := i + 1;
      if IsHeader(line) {
        id := HeaderId(line);
        if i < |lines| {
          line := lines[i];
          i := i + 1;
          assetType := KindOf(line);
        } else {
          assetType := Untracked;
        }
      } else if assetType != Untracked {
        if IsNameLine(line) {
          var name := NameOf(line);
          if assetType == MeshSection {
            if name in meshNameIdMap {
              return None;
            }
            meshNameIdMap := meshNameIdMap[name := id];
          } else if assetType == AnimSection {
            if name in animNameIdMap {
              return None;
            }
            animNameIdMap := animNameIdMap[name := id];
          }
          assetType := Untracked;
        }
      }
    }
    return Some(Maps(meshNameIdMap, animNameIdMap));
  }

  // ------------------------------------------------------------------------------------------
  // Which name lines the scan records

  /** Line `p` is read at the top of the loop (line 75) rather than as the type line of a header
      (line 82): the first line is, and after a start line comes the next line, or the line after
      the type line when the start line is a header. */
  predicate IsStart(lines: seq<string>, p: nat)
    decreases p
  {
    || p == 0
    || (1 <= p <= |lines| && !IsHeader(lines[p - 1]) && IsStart(lines, p - 1))
    || (2 <= p <= |lines| && IsHeader(lines[p - 2]) && IsStart(lines, p - 2))
  }

  /** The header at `j` opened a section whose type line is `typeLine`, and nothing between that
      type line and line `i` is a header or a name line. */
  predicate OpenSince(lines: seq<string>, j: int, i: int, typeLine: string)
  {
    && 0 <= j && j + 1 < i <= |lines| && IsHeader(lines[j]) && lines[j + 1] == typeLine
    && (forall p {:trigger IsHeader(lines[p])} :: j + 1 < p < i ==> !IsHeader(lines[p]))
    && (forall p {:trigger IsNameLine(lines[p])} :: j + 1 < p < i ==> !IsNameLine(lines[p]))
  }

  /** A section of `kind`, opened by a header the scan reads at line `j`, is still open at line
      `i`. */
  predicate Open(lines: seq<string>, j: nat, i: nat, kind: Kind)
  {
    kind != Untracked && IsStart(lines, j) && OpenSince(lines, j, i, TypeLine(kind))
  }

  /** Line `k` is the first name line of a section of `kind` whose header is line `j`. */
  predicate FirstName(lines: seq<string>, j: nat, k: nat, kind: Kind)
  {
    Open(lines, j, k, kind) && k < |lines| && IsNameLine(lines[k])
  }

  /** A header, a name line and a type line differ in their first character. */
  lemma LineClasses(line: string)
    ensures IsHeader(line) ==> !IsNameLine(line)
    ensures line == MeshTypeLine || line == AnimTypeLine ==> !IsHeader(line) && !IsNameLine(line)
  {
    if IsHeader(line) {
      assert line[0] == line[..|HeaderPrefix|][0] == '-';
    }
    if IsNameLine(line) {
      assert line[0] == line[..|NamePrefix|][0] == ' ';
    }
  }

  /** The line after a header the scan reads is taken as its type line, never read as a start. */
  lemma {:induction false} TypeLineNotStart(lines: seq<string>, p: nat)
    ensures IsStart(lines, p) && p < |lines| && IsHeader(lines[p]) ==> !IsStart(lines, p + 1)
    decreases p
  {
    if p >= 1 {
      TypeLineNotStart(lines, p - 1);
    }
  }

  lemma HeaderOpens(lines: seq<string>, i: nat)
    requires i + 1 < |lines| && IsHeader(lines[i]) && KindOf(lines[i + 1]) != Untracked
    ensures OpenSince(lines, i, i + 2, TypeLine(KindOf(lines[i + 1])))
  {
  }

  lemma StaysOpen(lines: seq<string>, j: int, i: nat, typeLine: string)
    requires OpenSince(lines, j, i, typeLine) && i < |lines|
    requires !IsHeader(lines[i]) && !IsNameLine(lines[i])
    ensures OpenSince(lines, j, i + 1, typeLine)
  {
  }

  /** At most one header opens the section open at line `i`. */
  lemma OpenerUnique(lines: seq<string>, j1: nat, j2: nat, i: nat, kind1: Kind, kind2: Kind)
    requires Open(lines, j1, i, kind1) && Open(lines, j2, i, kind2)
    ensures j1 == j2 && kind1 == kind2
  {
    LineClasses(lines[j1 + 1]);
    LineClasses(lines[j2 + 1]);
  }

  /** What the scan knows on reaching start line `i` with `kind` and `id`: the open section with
      its header at `j` and that header's id, or no open section at all. */
  ghost predicate ScanState(lines: seq<string>, i: nat, id: string, j: nat, kind: Kind)
  {
    && i <= |lines| && IsStart(lines, i)
    && (kind != Untracked ==> Open(lines, j, i, kind) && HeaderId(lines[j]) == id)
    && (kind == Untracked ==> forall j': nat, kind': Kind :: !Open(lines, j', i, kind'))
  }

  lemma InitialState(lines: seq<string>)
    ensures ScanState(lines, 0, "", 0, Untracked)
  {
  }

  /** Lines 76-89: a header followed by a line opens the section its type line names. */
  lemma HeaderState(lines: seq<string>, i: nat, id: string, j: nat, kind: Kind)
    requires ScanState(lines, i, id, j, kind) && i + 1 < |lines| && IsHeader(lines[i])
    ensures ScanState(lines, i + 2, HeaderId(lines[i]), i, KindOf(lines[i + 1]))
  {
    if KindOf(lines[i + 1]) != Untracked {
      HeaderOpens(lines, i);
    } else {
      UntrackedHeaderOpensNothing(lines, i, i + 2);
    }
  }

  /** A header whose type line is neither tracked type leaves no section open. */
  lemma UntrackedHeaderOpensNothing(lines: seq<string>, i: nat, next: nat)
    requires i + 1 < |lines| && IsHeader(lines[i]) && KindOf(lines[i + 1]) == Untracked && next == i + 2
    ensures forall j': nat, kind': Kind :: !Open(lines, j', next, kind')
  {
    forall j': nat, kind': Kind
      ensures !Open(lines, j', next, kind')
    {
      LineClasses(lines[i]);
    }
  }

  /** Lines 94-108: the first name line of a section closes it. */
  lemma NameState(lines: seq<string>, i: nat, id: string, j: nat, kind: Kind)
    requires ScanState(lines, i, id, j, kind) && i < |lines| && !IsHeader(lines[i])
    requires kind != Untracked && IsNameLine(lines[i])
    ensures ScanState(lines, i + 1, id, j, Untracked)
  {
    var next := i + 1;
    assert IsStart(lines, next);
    forall j': nat, kind': Kind
      ensures !Open(lines, j', next, kind')
    {
      LineClasses(lines[i]);
      assert Open(lines, j', next, kind') ==> j' + 1 == i;
    }
  }

  /** Line 91: any other line keeps the section open, or keeps none open. */
  lemma OtherState(lines: seq<string>, i: nat, id: string, j: nat, kind: Kind)
    requires ScanState(lines, i, id, j, kind) && i < |lines| && !IsHeader(lines[i])
    requires !(kind != Untracked && IsNameLine(lines[i]))
    ensures ScanState(lines, i + 1, id, j, kind)
  {
    if kind != Untracked {
      StaysOpen(lines, j, i, TypeLine(kind));
    } else {
      var next := i + 1;
      forall j': nat, kind': Kind
        ensures !Open(lines, j', next, kind')
      {
        TypeLineNotStart(lines, j');
        assert Open(lines, j', next, kind') && j' + 1 < i ==> Open(lines, j', i, kind');
      }
    }
  }

  /** A recorded name line: the kind of its section, the name, the header's id, and the
      positions of the header and of the name line. */
  datatype Entry = Entry(kind: Kind, name: string, id: string, header: nat, line: nat)

  /** The name lines `ScanFrom` records from line `i` on, in order, whether or not a duplicate
      stops it there; `j` is the line of the current header. */
  function EntriesFrom(lines: seq<string>, i: nat, id: string, j: nat, kind: Kind): (es: seq<Entry>)
    ensures forall a :: 0 <= a < |es| ==> es[a].kind != Untracked
    decreases |lines| - i
  {
    if |lines| <= i then []
    else if IsHeader(lines[i]) then
      if |lines| <= i + 1 then [] else EntriesFrom(lines, i + 2, HeaderId(lines[i]), i, KindOf(lines[i + 1]))
    else if kind != Untracked && IsNameLine(lines[i]) then
      [Entry(kind, NameOf(lines[i]), id, j, i)] + EntriesFrom(lines, i + 1, id, j, Untracked)
    else EntriesFrom(lines, i + 1, id, j, kind)
  }

  /** Lines 100-103: the entries added in order, each with `Dictionary.Add`, failing on the
      first name already in its kind's map. */
  function Apply(es: seq<Entry>, maps: Maps): Option<Maps>
    requires forall a :: 0 <= a < |es| ==> es[a].kind != Untracked
  {
    if es == [] then Some(maps)
    else if es[0].name in MapOf(maps, es[0].kind) then None
    else Apply(es[1..], Record(maps, es[0].kind, es[0].name, es[0].id))
  }

  /** The scan is its entries added to the maps it starts from. */
  lemma {:induction false} ScanFromEntries(lines: seq<string>, i: nat, id: string, j: nat, kind: Kind, maps: Maps)
    ensures ScanFrom(lines, i, id, kind, maps) == Apply(EntriesFrom(lines, i, id, j, kind), maps)
    decreases |lines| - i
  {
    if i < |lines| {
      if IsHeader(lines[i]) {
        if i + 1 < |lines| {
          ScanFromEntries(lines, i + 2, HeaderId(lines[i]), i, KindOf(lines[i + 1]), maps);
        }
      } else if kind != Untracked && IsNameLine(lines[i]) {
        var name := NameOf(lines[i]);
        var rest := EntriesFrom(lines, i + 1, id, j, Untracked);
        assert ([Entry(kind, name, id, j, i)] + rest)[1..] == rest;
        ScanFromEntries(lines, i + 1, id, j, Untracked, Record(maps, kind, name, id));
      } else {
        ScanFromEntries(lines, i + 1, id, j, kind, maps);
      }
    }
  }

  /** Two entries of the same kind carry the same name. */
  predicate Clash(es: seq<Entry>)
  {
    exists a, b :: 0 <= a < b < |es| && es[a].kind == es[b].kind && es[a].name == es[b].name
  }

  /** Some entry's name is already in the map of its kind. */
  predicate Taken(es: seq<Entry>, maps: Maps)
    requires forall a :: 0 <= a < |es| ==> es[a].kind != Untracked
  {
    exists a :: 0 <= a < |es| && es[a].name in MapOf(maps, es[a].kind)
  }

  /** Adding the entries fails exactly when one clashes with the maps or with another entry. */
  lemma ApplyFails(es: seq<Entry>, maps: Maps)
    requires forall a :: 0 <= a < |es| ==> es[a].kind != Untracked
    ensures Apply(es, maps) == None <==> Taken(es, maps) || Clash(es)
  {
    if Apply(es, maps) == None {
      FailureClashes(es, maps);
    } else if Taken(es, maps) || Clash(es) {
      ClashFails(es, maps);
    }
  }

  lemma {:induction false} FailureClashes(es: seq<Entry>, maps: Maps)
    requires forall a :: 0 <= a < |es| ==> es[a].kind != Untracked
    requires Apply(es, maps) == None
    ensures Taken(es, maps) || Clash(es)
  {
    var e, rest := es[0], es[1..];
    if e.name in MapOf(maps, e.kind) {
      assert Taken(es, maps);
    } else {
      var maps' := Record(maps, e.kind, e.name, e.id);
      FailureClashes(rest, maps');
      if Taken(rest, maps') {
        var a :| 0 <= a < |rest| && rest[a].name in MapOf(maps', rest[a].kind);
        assert es[a + 1] == rest[a];
        if rest[a].kind == e.kind && rest[a].name == e.name {
          assert Clash(es);
        } else {
          assert MapOf(maps', rest[a].kind) == MapOf(maps, rest[a].kind)[e.name := e.id]
                 || MapOf(maps', rest[a].kind) == MapOf(maps, rest[a].kind);
          assert Taken(es, maps);
        }
      } else {
        var a, b :| 0 <= a < b < |rest| && rest[a].kind == rest[b].kind && rest[a].name == rest[b].name;
        assert es[a + 1] == rest[a] && es[b + 1] == rest[b];
      }
    }
  }

  lemma {:induction false} ClashFails(es: seq<Entry>, maps: Maps)
    requires forall a :: 0 <= a < |es| ==> es[a].kind != Untracked
    requires Taken(es, maps) || Clash(es)
    ensures Apply(es, maps) == None
  {
    var e, rest := es[0], es[1..];
    if e.name !in MapOf(maps, e.kind) {
      var maps' := Record(maps, e.kind, e.name, e.id);
      if Taken(es, maps) {
        var a :| 0 <= a < |es| && es[a].name in MapOf(maps, es[a].kind);
        assert rest[a - 1] == es[a];
        assert MapOf(maps', es[a].kind) == MapOf(maps, es[a].kind)[e.name := e.id]
               || MapOf(maps', es[a].kind) == MapOf(maps, es[a].kind);
        assert Taken(rest, maps');
      } else {
        var a, b :| 0 <= a < b < |es| && es[a].kind == es[b].kind && es[a].name == es[b].name;
        assert rest[b - 1] == es[b];
        if a == 0 {
          assert Taken(rest, maps');
        } else {
          assert rest[a - 1] == es[a];
          assert Clash(rest);
        }
      }
      ClashFails(rest, maps');
    }
  }

  /** Adding the entries successfully keeps the old entries and maps every entry's name to its
      id in the map of its kind. */
  lemma {:induction false} ApplyRecords(es: seq<Entry>, maps: Maps, m: Maps)
    requires forall a :: 0 <= a < |es| ==> es[a].kind != Untracked
    requires Apply(es, maps) == Some(m)
    ensures SubMaps(maps, m)
    ensures forall a :: 0 <= a < |es| ==>
      es[a].name in MapOf(m, es[a].kind) && MapOf(m, es[a].kind)[es[a].name] == es[a].id
  {
    if es != [] {
      var maps' := Record(maps, es[0].kind, es[0].name, es[0].id);
      ApplyRecords(es[1..], maps', m);
      SubMapsTrans(maps, maps', m);
      forall a | 0 <= a < |es|
        ensures es[a].name in MapOf(m, es[a].kind) && MapOf(m, es[a].kind)[es[a].name] == es[a].id
      {
        if a > 0 {
          assert es[a] == es[1..][a - 1];
        }
      }
    }
  }

  /** `e` is the first name line of a section the scan opens, with that line's name and its
      header's id. */
  predicate EntryOf(lines: seq<string>, e: Entry)
  {
    FirstName(lines, e.header, e.line, e.kind) && e.name == NameOf(lines[e.line]) && e.id == HeaderId(lines[e.header])
  }

  /** Every entry is sound and lies at or after line `i`. */
  predicate SoundFrom(lines: seq<string>, i: nat, es: seq<Entry>)
  {
    forall a :: 0 <= a < |es| ==> i <= es[a].line && EntryOf(lines, es[a])
  }

  predicate InLineOrder(es: seq<Entry>)
  {
    forall a, b :: 0 <= a < b < |es| ==> es[a].line < es[b].line
  }

  /** Every entry is the first name line of a section the scan opens, with that line's name and
      its header's id, and the entries come in line order. */
  lemma {:induction false} EntriesSound(lines: seq<string>, i: nat, id: string, j: nat, kind: Kind)
    requires ScanState(lines, i, id, j, kind)
    ensures var es := EntriesFrom(lines, i, id, j, kind);
      SoundFrom(lines, i, es) && InLineOrder(es)
    decreases |lines| - i, 1
  {
    if i < |lines| {
      if IsHeader(lines[i]) {
        if i + 1 < |lines| {
          HeaderEntries(lines, i, id, j, kind);
          EntriesSound(lines, i + 2, HeaderId(lines[i]), i, KindOf(lines[i + 1]));
          SoundLater(lines, i, i + 2, EntriesFrom(lines, i, id, j, kind));
        }
      } else if kind != Untracked && IsNameLine(lines[i]) {
        SoundAtName(lines, i, id, j, kind);
      } else {
        OtherEntries(lines, i, id, j, kind);
        EntriesSound(lines, i + 1, id, j, kind);
        SoundLater(lines, i, i + 1, EntriesFrom(lines, i, id, j, kind));
      }
    }
  }

  lemma {:induction false} SoundAtName(lines: seq<string>, i: nat, id: string, j: nat, kind: Kind)
    requires ScanState(lines, i, id, j, kind) && i < |lines| && !IsHeader(lines[i])
    requires kind != Untracked && IsNameLine(lines[i])
    ensures var es := EntriesFrom(lines, i, id, j, kind);
      SoundFrom(lines, i, es) && InLineOrder(es)
    decreases |lines| - i, 0
  {
    NameState(lines, i, id, j, kind);
    EntriesSound(lines, i + 1, id, j, Untracked);
    var e, rest := Entry(kind, NameOf(lines[i]), id, j, i), EntriesFrom(lines, i + 1, id, j, Untracked);
    NameEntry(lines, i, id, j, kind);
    ConsSound(lines, i, e, rest);
  }

  /** The name line the scan is at, in an open section, gives a sound entry ahead of the rest. */
  lemma NameEntry(lines: seq<string>, i: nat, id: string, j: nat, kind: Kind)
    requires ScanState(lines, i, id, j, kind) && i < |lines| && !IsHeader(lines[i])
    requires kind != Untracked && IsNameLine(lines[i])
    ensures EntryOf(lines, Entry(kind, NameOf(lines[i]), id, j, i))
    ensures EntriesFrom(lines, i, id, j, kind) == [Entry(kind, NameOf(lines[i]), id, j, i)] + EntriesFrom(lines, i + 1, id, j, Untracked)
  {
  }

  /** At a header the scan reads, it records what it records from past the type line. */
  lemma HeaderEntries(lines: seq<string>, i: nat, id: string, j: nat, kind: Kind)
    requires ScanState(lines, i, id, j, kind) && i + 1 < |lines| && IsHeader(lines[i])
    ensures ScanState(lines, i + 2, HeaderId(lines[i]), i, KindOf(lines[i + 1]))
    ensures EntriesFrom(lines, i, id, j, kind) == EntriesFrom(lines, i + 2, HeaderId(lines[i]), i, KindOf(lines[i + 1]))
  {
    HeaderState(lines, i, id, j, kind);
  }

  /** At any other line it skips, it records what it records from the next line. */
  lemma OtherEntries(lines: seq<string>, i: nat, id: string, j: nat, kind: Kind)
    requires ScanState(lines, i, id, j, kind) && i < |lines| && !IsHeader(lines[i])
    requires !(kind != Untracked && IsNameLine(lines[i]))
    ensures ScanState(lines, i + 1, id, j, kind)
    ensures EntriesFrom(lines, i, id, j, kind) == EntriesFrom(lines, i + 1, id, j, kind)
  {
    OtherState(lines, i, id, j, kind);
  }

  lemma SoundLater(lines: seq<string>, i: nat, i': nat, es: seq<Entry>)
    requires i <= i' && SoundFrom(lines, i', es)
    ensures SoundFrom(lines, i, es)
  {
  }

  /** An entry for line `i` put before sound entries from later lines keeps them sound and in
      order. */
  lemma ConsSound(lines: seq<string>, i: nat, e: Entry, rest: seq<Entry>)
    requires e.line == i && EntryOf(lines, e)
    requires SoundFrom(lines, i + 1, rest) && InLineOrder(rest)
    ensures SoundFrom(lines, i, [e] + rest) && InLineOrder([e] + rest)
  {
    ConsSoundFrom(lines, i, e, rest);
    ConsInOrder(i, e, rest);
  }

  lemma ConsSoundFrom(lines: seq<string>, i: nat, e: Entry, rest: seq<Entry>)
    requires e.line == i && EntryOf(lines, e) && SoundFrom(lines, i + 1, rest)
    ensures SoundFrom(lines, i, [e] + rest)
  {
    var es := [e] + rest;
    forall a | 0 <= a < |es|
      ensures i <= es[a].line && EntryOf(lines, es[a])
    {
      if a > 0 {
        assert es[a] == rest[a - 1];
      }
    }
  }

  lemma ConsInOrder(i: nat, e: Entry, rest: seq<Entry>)
    requires e.line == i && InLineOrder(rest)
    requires forall a :: 0 <= a < |rest| ==> i < rest[a].line
    ensures InLineOrder([e] + rest)
  {
    var es := [e] + rest;
    forall a, b | 0 <= a < b < |es|
      ensures es[a].line < es[b].line
    {
      assert es[b] == rest[b - 1];
      if a > 0 {
        assert es[a] == rest[a - 1];
      }
    }
  }


  /** A first name line at or after a header the scan reads lies past that header's type line,
      and its own header is that header or a later one. */
  lemma PastHeader(lines: seq<string>, i: nat, j': nat, k: nat, kind': Kind)
    requires IsStart(lines, i) && i < |lines| && IsHeader(lines[i])
    requires i <= k && FirstName(lines, j', k, kind')
    ensures i + 1 < |lines| && i + 2 <= k && (j' == i || i + 2 <= j')
  {
    LineClasses(lines[i]);
    LineClasses(lines[j' + 1]);
    TypeLineNotStart(lines, i);
  }

  /** A first name line after a name line has its header after that name line. */
  lemma PastName(lines: seq<string>, i: nat, j': nat, k: nat, kind': Kind)
    requires FirstName(lines, j', k, kind') && i < k && IsNameLine(lines[i])
    ensures i < j'
  {
    LineClasses(lines[i]);
    LineClasses(lines[j' + 1]);
  }

  /** A first name line at or after a start line `i` that the scan skips lies after `i`. */
  lemma PastOther(lines: seq<string>, i: nat, id: string, j: nat, kind: Kind, j': nat, k: nat, kind': Kind)
    requires ScanState(lines, i, id, j, kind) && i < |lines| && !IsHeader(lines[i])
    requires !(kind != Untracked && IsNameLine(lines[i]))
    requires i <= k && FirstName(lines, j', k, kind')
    ensures i < k
  {
  }

  /** Some entry is the name line `k` of the section of `kind` whose header is line `j`. */
  predicate Covers(es: seq<Entry>, j: nat, k: nat, kind: Kind)
  {
    exists a :: 0 <= a < |es| && es[a].line == k && es[a].header == j && es[a].kind == kind
  }

  lemma CoversHead(e: Entry, rest: seq<Entry>, j: nat, k: nat, kind: Kind)
    requires e.line == k && e.header == j && e.kind == kind
    ensures Covers([e] + rest, j, k, kind)
  {
    assert ([e] + rest)[0] == e;
  }

  lemma CoversTail(e: Entry, rest: seq<Entry>, j: nat, k: nat, kind: Kind)
    requires Covers(rest, j, k, kind)
    ensures Covers([e] + rest, j, k, kind)
  {
    var a :| 0 <= a < |rest| && rest[a].line == k && rest[a].header == j && rest[a].kind == kind;
    assert ([e] + rest)[a + 1] == rest[a];
  }

  /** Every first name line at or after line `i` of a section the scan opens is an entry. */
  lemma {:induction false} EntriesComplete(lines: seq<string>, i: nat, id: string, j: nat, kind: Kind,
                                           j': nat, k: nat, kind': Kind)
    requires ScanState(lines, i, id, j, kind)
    requires i <= k && FirstName(lines, j', k, kind')
    ensures Covers(EntriesFrom(lines, i, id, j, kind), j', k, kind')
    decreases |lines| - i, 1
  {
    if IsHeader(lines[i]) {
      CompleteAtHeader(lines, i, id, j, kind, j', k, kind');
    } else if kind != Untracked && IsNameLine(lines[i]) {
      if k == i {
        CompleteAtOwnName(lines, i, id, j, kind, j', k, kind');
      } else {
        CompleteAfterName(lines, i, id, j, kind, j', k, kind');
      }
    } else {
      PastOther(lines, i, id, j, kind, j', k, kind');
      OtherState(lines, i, id, j, kind);
      EntriesComplete(lines, i + 1, id, j, kind, j', k, kind');
      assert EntriesFrom(lines, i, id, j, kind) == EntriesFrom(lines, i + 1, id, j, kind);
    }
  }

  lemma {:induction false} CompleteAtHeader(lines: seq<string>, i: nat, id: string, j: nat, kind: Kind,
                                            j': nat, k: nat, kind': Kind)
    requires ScanState(lines, i, id, j, kind) && i < |lines| && IsHeader(lines[i])
    requires i <= k && FirstName(lines, j', k, kind')
    ensures Covers(EntriesFrom(lines, i, id, j, kind), j', k, kind')
    decreases |lines| - i, 0
  {
    AtHeader(lines, i, id, j, kind, j', k, kind');
    EntriesComplete(lines, i + 2, HeaderId(lines[i]), i, KindOf(lines[i + 1]), j', k, kind');
  }

  /** At a header the scan reads, it moves on past the type line, before any first name line
      still ahead. */
  lemma AtHeader(lines: seq<string>, i: nat, id: string, j: nat, kind: Kind, j': nat, k: nat, kind': Kind)
    requires ScanState(lines, i, id, j, kind) && i < |lines| && IsHeader(lines[i])
    requires i <= k && FirstName(lines, j', k, kind')
    ensures i + 2 <= k
    ensures ScanState(lines, i + 2, HeaderId(lines[i]), i, KindOf(lines[i + 1]))
    ensures EntriesFrom(lines, i, id, j, kind) == EntriesFrom(lines, i + 2, HeaderId(lines[i]), i, KindOf(lines[i + 1]))
  {
    PastHeader(lines, i, j', k, kind');
    HeaderState(lines, i, id, j, kind);
  }

  /** The name line the scan is at is the entry it records. */
  lemma CompleteAtOwnName(lines: seq<string>, i: nat, id: string, j: nat, kind: Kind,
                          j': nat, k: nat, kind': Kind)
    requires ScanState(lines, i, id, j, kind) && i < |lines| && !IsHeader(lines[i])
    requires kind != Untracked && IsNameLine(lines[i])
    requires k == i && FirstName(lines, j', k, kind')
    ensures Covers(EntriesFrom(lines, i, id, j, kind), j', k, kind')
  {
    OpenerUnique(lines, j, j', i, kind, kind');
    CoversHead(Entry(kind, NameOf(lines[i]), id, j, i), EntriesFrom(lines, i + 1, id, j, Untracked), j', k, kind');
  }

  lemma {:induction false} CompleteAfterName(lines: seq<string>, i: nat, id: string, j: nat, kind: Kind,
                                             j': nat, k: nat, kind': Kind)
    requires ScanState(lines, i, id, j, kind) && i < |lines| && !IsHeader(lines[i])
    requires kind != Untracked && IsNameLine(lines[i])
    requires i < k && FirstName(lines, j', k, kind')
    ensures Covers(EntriesFrom(lines, i, id, j, kind), j', k, kind')
    decreases |lines| - i, 0
  {
    PastName(lines, i, j', k, kind');
    NameState(lines, i, id, j, kind);
    EntriesComplete(lines, i + 1, id, j, Untracked, j', k, kind');
    CoversTail(Entry(kind, NameOf(lines[i]), id, j, i), EntriesFrom(lines, i + 1, id, j, Untracked), j', k, kind');
  }

  /** The entries of the whole scan. */
  function Entries(lines: seq<string>): seq<Entry>
  {
    EntriesFrom(lines, 0, "", 0, Untracked)
  }

  /** Each entry of the whole scan is sound. */
  lemma EntryAt(lines: seq<string>, a: nat)
    requires a < |Entries(lines)|
    ensures EntryOf(lines, Entries(lines)[a])
  {
    InitialState(lines);
    EntriesSound(lines, 0, "", 0, Untracked);
  }

  lemma EntriesInOrder(lines: seq<string>)
    ensures InLineOrder(Entries(lines))
  {
    InitialState(lines);
    EntriesSound(lines, 0, "", 0, Untracked);
  }

  /** Every first name line of a section the scan opens is an entry of the whole scan. */
  lemma EntriesCover(lines: seq<string>, j: nat, k: nat, kind: Kind)
    requires FirstName(lines, j, k, kind)
    ensures Covers(Entries(lines), j, k, kind)
  {
    InitialState(lines);
    EntriesComplete(lines, 0, "", 0, Untracked, j, k, kind);
  }

  /** The scan's entries are exactly the first name lines of the sections it opens, in order. */
  lemma EntriesExact(lines: seq<string>)
    ensures var es := Entries(lines);
      && (forall a :: 0 <= a < |es| ==> EntryOf(lines, es[a]))
      && InLineOrder(es)
      && (forall j: nat, k: nat, kind: Kind :: FirstName(lines, j, k, kind) ==> Covers(es, j, k, kind))
  {
    forall a | 0 <= a < |Entries(lines)|
      ensures EntryOf(lines, Entries(lines)[a])
    {
      EntryAt(lines, a);
    }
    EntriesInOrder(lines);
    forall j: nat, k: nat, kind: Kind | FirstName(lines, j, k, kind)
      ensures Covers(Entries(lines), j, k, kind)
    {
      EntriesCover(lines, j, k, kind);
    }
  }

  /** Two first name lines of sections of the same kind carry the same name. */
  ghost predicate NamedTwice(lines: seq<string>)
  {
    exists j1: nat, k1: nat, j2: nat, k2: nat, kind: Kind ::
      FirstName(lines, j1, k1, kind) && FirstName(lines, j2, k2, kind) && k1 < k2 && NameOf(lines[k1]) == NameOf(lines[k2])
  }

  /** A failing scan met a name twice. */
  lemma FailureNamedTwice(lines: seq<string>)
    requires Scan(lines).None?
    ensures NamedTwice(lines)
  {
    var es, empty := Entries(lines), Maps(map[], map[]);
    ScanFromEntries(lines, 0, "", 0, Untracked, empty);
    ApplyFails(es, empty);
    assert !Taken(es, empty);
    var a, b :| 0 <= a < b < |es| && es[a].kind == es[b].kind && es[a].name == es[b].name;
    EntryAt(lines, a);
    EntryAt(lines, b);
    EntriesInOrder(lines);
    assert es[a].line < es[b].line;
  }

  /** Every entry's name is the name on its line. */
  predicate NamedByLine(lines: seq<string>, es: seq<Entry>)
  {
    forall a :: 0 <= a < |es| ==> es[a].line < |lines| && IsNameLine(lines[es[a].line]) && es[a].name == NameOf(lines[es[a].line])
  }

  lemma EntriesNamed(lines: seq<string>)
    ensures NamedByLine(lines, Entries(lines)) && InLineOrder(Entries(lines))
  {
    forall a | 0 <= a < |Entries(lines)|
      ensures var e := Entries(lines)[a]; e.line < |lines| && IsNameLine(lines[e.line]) && e.name == NameOf(lines[e.line])
    {
      EntryAt(lines, a);
    }
    EntriesInOrder(lines);
  }

  lemma OrderedIndices(es: seq<Entry>, a: nat, b: nat)
    requires InLineOrder(es) && a < |es| && b < |es| && es[a].line < es[b].line
    ensures a < b
  {
  }

  /** Two first name lines of the same kind and name give two entries that clash. */
  lemma PairClash(lines: seq<string>, j1: nat, k1: nat, j2: nat, k2: nat, kind: Kind)
    requires FirstName(lines, j1, k1, kind) && FirstName(lines, j2, k2, kind)
    requires k1 < k2 && NameOf(lines[k1]) == NameOf(lines[k2])
    ensures Clash(Entries(lines))
  {
    var es := Entries(lines);
    EntriesNamed(lines);
    EntriesCover(lines, j1, k1, kind);
    EntriesCover(lines, j2, k2, kind);
    var a :| 0 <= a < |es| && es[a].line == k1 && es[a].header == j1 && es[a].kind == kind;
    var b :| 0 <= b < |es| && es[b].line == k2 && es[b].header == j2 && es[b].kind == kind;
    OrderedIndices(es, a, b);
  }

  /** A name met twice makes the scan fail. */
  lemma NamedTwiceFails(lines: seq<string>)
    ensures NamedTwice(lines) ==> Scan(lines).None?
  {
    if NamedTwice(lines) {
      var empty := Maps(map[], map[]);
      var j1: nat, k1: nat, j2: nat, k2: nat, kind: Kind :|
        FirstName(lines, j1, k1, kind) && FirstName(lines, j2, k2, kind) && k1 < k2 && NameOf(lines[k1]) == NameOf(lines[k2]);
      PairClash(lines, j1, k1, j2, k2, kind);
      ScanFromEntries(lines, 0, "", 0, Untracked, empty);
      ApplyFails(Entries(lines), empty);
    }
  }

  /** Lines 100-103: the scan fails exactly when the first name lines of two sections of the
      same kind carry the same name, the second `Dictionary.Add` of that name throwing. */
  lemma ScanFailsIff(lines: seq<string>)
    ensures Scan(lines).None? <==>
      exists j1: nat, k1: nat, j2: nat, k2: nat, kind: Kind ::
        FirstName(lines, j1, k1, kind) && FirstName(lines, j2, k2, kind) && k1 < k2 && NameOf(lines[k1]) == NameOf(lines[k2])
  {
    if Scan(lines).None? {
      FailureNamedTwice(lines);
    } else {
      NamedTwiceFails(lines);
    }
  }

  /** Lines 94-103: after a successful scan, the name of every first name line of a section of
      a tracked kind is in the map of that kind, mapped to the id of the section's header. */
  lemma ScanRecordsAll(lines: seq<string>)
    ensures Scan(lines).Some? ==>
      forall j: nat, k: nat, kind: Kind :: FirstName(lines, j, k, kind) ==>
        && NameOf(lines[k]) in MapOf(Scan(lines).value, kind)
        && MapOf(Scan(lines).value, kind)[NameOf(lines[k])] == HeaderId(lines[j])
  {
    if Scan(lines).Some? {
      var es, m := Entries(lines), Scan(lines).value;
      ScanFromEntries(lines, 0, "", 0, Untracked, Maps(map[], map[]));
      ApplyRecords(es, Maps(map[], map[]), m);
      forall j: nat, k: nat, kind: Kind | FirstName(lines, j, k, kind)
        ensures NameOf(lines[k]) in MapOf(m, kind) && MapOf(m, kind)[NameOf(lines[k])] == HeaderId(lines[j])
      {
        EntriesCover(lines, j, k, kind);
        var a :| 0 <= a < |es| && es[a].line == k && es[a].header == j && es[a].kind == kind;
        EntryAt(lines, a);
      }
    }
  }

  // ------------------------------------------------------------------------------------------
  // Every recorded name comes from such a line

  /** `name` and `id` come from the first name line of a section of `kind` the scan opens, and
      `id` from that section's header. */
  ghost predicate Sourced(lines: seq<string>, name: string, id: string, kind: Kind)
  {
    exists j: nat, k: nat :: FirstName(lines, j, k, kind) && NameOf(lines[k]) == name && HeaderId(lines[j]) == id
  }

  ghost predicate AllSourced(lines: seq<string>, maps: Maps)
  {
    && (forall name :: name in maps.mesh ==> Sourced(lines, name, maps.mesh[name], MeshSection))
    && (forall name :: name in maps.anim ==> Sourced(lines, name, maps.anim[name], AnimSection))
  }

  predicate SubMaps(a: Maps, b: Maps)
  {
    && (forall name :: name in a.mesh ==> name in b.mesh && b.mesh[name] == a.mesh[name])
    && (forall name :: name in a.anim ==> name in b.anim && b.anim[name] == a.anim[name])
  }

  lemma SubMapsTrans(a: Maps, b: Maps, c: Maps)
    requires SubMaps(a, b) && SubMaps(b, c)
    ensures SubMaps(a, c)
  {
  }

  /** Some entry of `kind` carries `name`. */
  predicate Listed(es: seq<Entry>, kind: Kind, name: string)
  {
    exists a :: 0 <= a < |es| && es[a].kind == kind && es[a].name == name
  }

  /** Adding the entries adds no name but theirs. */
  lemma {:induction false} ApplyAddsOnlyEntries(es: seq<Entry>, maps: Maps, m: Maps)
    requires forall a :: 0 <= a < |es| ==> es[a].kind != Untracked
    requires Apply(es, maps) == Some(m)
    ensures forall name :: name in m.mesh ==> name in maps.mesh || Listed(es, MeshSection, name)
    ensures forall name :: name in m.anim ==> name in maps.anim || Listed(es, AnimSection, name)
  {
    if es != [] {
      var e, rest := es[0], es[1..];
      var maps' := Record(maps, e.kind, e.name, e.id);
      ApplyAddsOnlyEntries(rest, maps', m);
      forall kind, name | kind != Untracked && Listed(rest, kind, name)
        ensures Listed(es, kind, name)
      {
        var a :| 0 <= a < |rest| && rest[a].kind == kind && rest[a].name == name;
        assert es[a + 1] == rest[a];
      }
      assert e == es[0];
    }
  }

  /** Lines 72-108: each recorded name is the text after `  m_Name: ` on the first name line of
      a `Mesh:` (or `AnimationClip:`) section the scan opens, and its id is that of the
      section's header. */
  lemma ScanSourced(lines: seq<string>)
    requires Scan(lines).Some?
    ensures AllSourced(lines, Scan(lines).value)
  {
    var es, empty, m := Entries(lines), Maps(map[], map[]), Scan(lines).value;
    ScanFromEntries(lines, 0, "", 0, Untracked, empty);
    ApplyAddsOnlyEntries(es, empty, m);
    ApplyRecords(es, empty, m);
    forall name | name in m.mesh
      ensures Sourced(lines, name, m.mesh[name], MeshSection)
    {
      var a :| 0 <= a < |es| && es[a].kind == MeshSection && es[a].name == name;
      EntryAt(lines, a);
      EntrySourced(lines, es[a]);
    }
    forall name | name in m.anim
      ensures Sourced(lines, name, m.anim[name], AnimSection)
    {
      var a :| 0 <= a < |es| && es[a].kind == AnimSection && es[a].name == name;
      EntryAt(lines, a);
      EntrySourced(lines, es[a]);
    }
  }

  lemma EntrySourced(lines: seq<string>, e: Entry)
    requires EntryOf(lines, e)
    ensures Sourced(lines, e.name, e.id, e.kind)
  {
  }

  /** Lines 91-110: without a header, lines outside a tracked section change nothing. */
  lemma {:induction false} UntrackedLinesIgnored(lines: seq<string>, i: nat, id: string, maps: Maps)
    requires forall p :: i <= p < |lines| ==> !IsHeader(lines[p])
    ensures ScanFrom(lines, i, id, Untracked, maps) == Some(maps)
    decreases |lines| - i
  {
    if i < |lines| {
      UntrackedLinesIgnored(lines, i + 1, id, maps);
    }
  }

  lemma HeaderStep(lines: seq<string>, i: nat, id: string, kind: Kind, maps: Maps)
    requires i + 1 < |lines| && IsHeader(lines[i])
    ensures ScanFrom(lines, i, id, kind, maps) == ScanFrom(lines, i + 2, HeaderId(lines[i]), KindOf(lines[i + 1]), maps)
  {
  }

  lemma NameStep(lines: seq<string>, i: nat, id: string, kind: Kind, maps: Maps, name: string)
    requires i < |lines| && kind != Untracked && lines[i] == NamePrefix + name
    ensures ScanFrom(lines, i, id, kind, maps)
         == if name in MapOf(maps, kind) then None else ScanFrom(lines, i + 1, id, Untracked, Record(maps, kind, name, id))
  {
    NameLine(lines[i], name);
  }

  lemma OtherStep(lines: seq<string>, i: nat, id: string, maps: Maps)
    requires i < |lines| && !IsHeader(lines[i])
    ensures ScanFrom(lines, i, id, Untracked, maps) == ScanFrom(lines, i + 1, id, Untracked, maps)
  {
  }

  /** A header line for an object of class `classId` with file id `id`. */
  function Header(classId: string, id: string): string
  {
    HeaderPrefix + classId + " &" + id
  }

  /** Lines 100-104: one name may be used once by a mesh and once by an animation clip. */
  lemma SameNameInBothMaps(name: string, meshId: string, animId: string)
    ensures Scan([Header("43", meshId), MeshTypeLine, NamePrefix + name, Header("74", animId), AnimTypeLine, NamePrefix + name])
         == Some(Maps(map[name := meshId], map[name := animId]))
  {
    var lines := [Header("43", meshId), MeshTypeLine, NamePrefix + name, Header("74", animId), AnimTypeLine, NamePrefix + name];
    var m0 := Maps(map[], map[]);
    var m1 := Record(m0, MeshSection, name, meshId);
    HeaderLine("43", meshId);
    HeaderStep(lines, 0, "", Untracked, m0);
    NameStep(lines, 2, meshId, MeshSection, m0, name);
    HeaderLine("74", animId);
    HeaderStep(lines, 3, meshId, Untracked, m1);
    NameStep(lines, 5, animId, AnimSection, m1, name);
  }

  /** Lines 100-101: a second mesh with the same name makes `Dictionary.Add` throw. */
  lemma DuplicateMeshNameFails(name: string, id1: string, id2: string)
    ensures Scan([Header("43", id1), MeshTypeLine, NamePrefix + name, Header("43", id2), MeshTypeLine, NamePrefix + name]) == None
  {
    var lines := [Header("43", id1), MeshTypeLine, NamePrefix + name, Header("43", id2), MeshTypeLine, NamePrefix + name];
    var m0 := Maps(map[], map[]);
    var m1 := Record(m0, MeshSection, name, id1);
    HeaderLine("43", id1);
    HeaderStep(lines, 0, "", Untracked, m0);
    NameStep(lines, 2, id1, MeshSection, m0, name);
    HeaderLine("43", id2);
    HeaderStep(lines, 3, id1, Untracked, m1);
    NameStep(lines, 5, id2, MeshSection, m1, name);
  }

  /** Line 108: the first name line closes the section, so a second one is not recorded. */
  lemma OnlyFirstNameCounts(id: string, name1: string, name2: string)
    ensures Scan([Header("43", id), MeshTypeLine, NamePrefix + name1, NamePrefix + name2]) == Some(Maps(map[name1 := id], map[]))
  {
    var lines := [Header("43", id), MeshTypeLine, NamePrefix + name1, NamePrefix + name2];
    var m0 := Maps(map[], map[]);
    var m1 := Record(m0, MeshSection, name1, id);
    HeaderLine("43", id);
    HeaderStep(lines, 0, "", Untracked, m0);
    NameStep(lines, 2, id, MeshSection, m0, name1);
    NameLine(lines[3], name2);
    OtherStep(lines, 3, id, m1);
  }

  /** Line 82: the line after a header is its type line even when it looks like a header, so
      the section it would open is never seen. */
  lemma TypeLineIsNotAHeader(id1: string, id2: string, name: string)
    ensures Scan([Header("1", id1), Header("43", id2), MeshTypeLine, NamePrefix + name]) == Some(Maps(map[], map[]))
  {
    var lines := [Header("1", id1), Header("43", id2), MeshTypeLine, NamePrefix + name];
    var m0 := Maps(map[], map[]);
    HeaderLine("1", id1);
    HeaderStep(lines, 0, "", Untracked, m0);
    assert KindOf(lines[1]) == Untracked by {
      HeaderLine("43", id2);
      assert lines[1][0] == '-';
    }
    assert !IsHeader(lines[2]) by { assert lines[2][0] == 'M'; }
    OtherStep(lines, 2, id1, m0);
    NameLine(lines[3], name);
    OtherStep(lines, 3, id1, m0);
  }

  lemma HeaderLine(classId: string, id: string)
    requires '&' !in classId
    ensures var line := Header(classId, id);
      IsHeader(line) && !IsNameLine(line) && HeaderId(line) == id
  {
    var line := Header(classId, id);
    var k := |HeaderPrefix + classId + " "|;
    assert line == HeaderPrefix + classId + " " + "&" + id;
    assert line[..|HeaderPrefix|] == HeaderPrefix;
    assert line[0] == '-' && NamePrefix[0] == ' ';
    assert line[k] == '&';
    assert '&' !in line[..k] by {
      assert line[..k] == HeaderPrefix + classId + " ";
    }
    assert forall p :: 0 <= p < k ==> line[p] != '&' by {
      forall p | 0 <= p < k
        ensures line[p] != '&'
      {
        assert line[..k][p] == line[p];
      }
    }
    assert line[k + 1..] == id;
  }

  lemma NameLine(line: string, name: string)
    requires line == NamePrefix + name
    ensures IsNameLine(line) && !IsHeader(line) && line[|NamePrefix|..] == name
  {
    assert line[..|NamePrefix|] == NamePrefix;
    assert line[0] != HeaderPrefix[0];
  }
}
