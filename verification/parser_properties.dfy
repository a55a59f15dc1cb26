/** Properties of `parse_code_changes`, stated on the reply's lines and
    proved through the section-by-section reading `Sections`. */
module ParserProperties {
  import opened Wrappers
  import opened Strings
  import opened ResponseParser

  /** The paths of the file markers whose path is non-empty, in order. */
  function MarkerPaths(lines: seq<string>): seq<string>
    requires WellFormed(lines)
    decreases |lines|
  {
    if |lines| == 0 then []
    else
      var here := if IsFileMarker(lines[0]) && MarkerValue(lines[0]) != "" then [MarkerValue(lines[0])] else [];
      here + MarkerPaths(lines[1..])
  }

  /** The non-empty paths of the file lines among `ks`, in order. */
  function FilePaths(ks: seq<LineKind>): seq<string>
    decreases |ks|
  {
    if |ks| == 0 then []
    else (if ks[0].FileLine? && ks[0].path != "" then [ks[0].path] else []) + FilePaths(ks[1..])
  }

  function Files(es: seq<FileChange>): seq<string>
    decreases |es|
  {
    if |es| == 0 then [] else [es[0].file] + Files(es[1..])
  }

  lemma {:induction false} FilesAppend(a: seq<FileChange>, b: seq<FileChange>)
    ensures Files(a + b) == Files(a) + Files(b)
    decreases |a|
  {
    if |a| == 0 {
      assert a + b == b;
    } else {
      assert (a + b)[1..] == a[1..] + b;
      FilesAppend(a[1..], b);
    }
  }

  lemma {:induction false} FilePathsAppend(a: seq<LineKind>, b: seq<LineKind>)
    ensures FilePaths(a + b) == FilePaths(a) + FilePaths(b)
    decreases |a|
  {
    if |a| == 0 {
      assert a + b == b;
    } else {
      assert (a + b)[1..] == a[1..] + b;
      FilePathsAppend(a[1..], b);
    }
  }

  lemma {:induction false} NoFileLinesNoPaths(ks: seq<LineKind>)
    requires forall i :: 0 <= i < |ks| ==> !ks[i].FileLine?
    ensures FilePaths(ks) == []
    decreases |ks|
  {
    if |ks| > 0 {
      NoFileLinesNoPaths(ks[1..]);
    }
  }

  /** The paths a leading file line contributes. */
  function HeadPath(ks: seq<LineKind>): seq<string>
    requires |ks| > 0 && ks[0].FileLine?
  {
    if ks[0].path != "" then [ks[0].path] else []
  }

  /** What follows the section opened by `ks[0]`. */
  function AfterSection(ks: seq<LineKind>): seq<LineKind>
    requires |ks| > 0
  {
    ks[1..][NextFile(ks[1..])..]
  }

  /** The entry the section opened by `ks[0]` contributes. */
  function HeadEntry(ks: seq<LineKind>): seq<FileChange>
    requires |ks| > 0 && ks[0].FileLine?
  {
    var body := ks[1..][..NextFile(ks[1..])];
    Emit(ks[0].path, Kept(body), LastExplanation(body))
  }

  lemma SectionsUnfold(ks: seq<LineKind>)
    requires |ks| > 0 && ks[0].FileLine?
    ensures Sections(ks) == HeadEntry(ks) + Sections(AfterSection(ks))
  {
  }

  lemma SectionsHead(ks: seq<LineKind>)
    requires |ks| > 0 && ks[0].FileLine?
    ensures Files(Sections(ks)) == HeadPath(ks) + Files(Sections(AfterSection(ks)))
  {
    SectionsUnfold(ks);
    var e := HeadEntry(ks);
    assert Files(e) == HeadPath(ks);
    FilesAppend(e, Sections(AfterSection(ks)));
  }

  lemma {:induction false} FilePathsSplit(ks: seq<LineKind>, n: nat)
    requires n <= |ks|
    ensures FilePaths(ks) == FilePaths(ks[..n]) + FilePaths(ks[n..])
  {
    FilePathsAppend(ks[..n], ks[n..]);
    assert ks[..n] + ks[n..] == ks;
  }

  lemma BeforeNextFileNoPaths(ks: seq<LineKind>)
    ensures FilePaths(ks[..NextFile(ks)]) == []
  {
    var n := NextFile(ks);
    assert forall i :: 0 <= i < n ==> ks[..n][i] == ks[i];
    NoFileLinesNoPaths(ks[..n]);
  }

  lemma PathsHead(ks: seq<LineKind>)
    requires |ks| > 0 && ks[0].FileLine?
    ensures FilePaths(ks) == HeadPath(ks) + FilePaths(AfterSection(ks))
  {
    var rest := ks[1..];
    var n := NextFile(rest);
    assert FilePaths(ks) == HeadPath(ks) + FilePaths(rest);
    FilePathsSplit(rest, n);
    BeforeNextFileNoPaths(rest);
    assert FilePaths(rest) == [] + FilePaths(rest[n..]) == FilePaths(rest[n..]);
  }

  /** The sections of `ks` are named, in order, by its non-empty file paths. */
  lemma {:induction false} SectionsFollowFileLines(ks: seq<LineKind>)
    ensures Files(Sections(ks)) == FilePaths(ks)
    decreases |ks|
  {
    if |ks| > 0 {
      if !ks[0].FileLine? {
        SectionsFollowFileLines(ks[1..]);
      } else {
        SectionsHead(ks);
        PathsHead(ks);
        SectionsFollowFileLines(AfterSection(ks));
      }
    }
  }

  lemma {:induction false} TokenizedPaths(lines: seq<string>)
    requires WellFormed(lines)
    ensures FilePaths(Tokenize(lines)) == MarkerPaths(lines)
    decreases |lines|
  {
    if |lines| > 0 {
      assert Tokenize(lines)[1..] == Tokenize(lines[1..]);
      assert WellFormed(lines[1..]);
      TokenizedPaths(lines[1..]);
    }
  }

  /** One entry per file marker with a non-empty path, in marker order:
      markers with an empty path yield nothing, and a path given twice
      yields two entries. */
  lemma EntriesFollowMarkers(lines: seq<string>)
    requires WellFormed(lines)
    ensures ParseLines(lines).Success?
    ensures Files(ParseLines(lines).value) == MarkerPaths(lines)
  {
    SectionsFollowFileLines(Tokenize(lines));
    TokenizedPaths(lines);
  }

  lemma {:induction false} NoFileLinesNoSections(ks: seq<LineKind>)
    requires forall i :: 0 <= i < |ks| ==> !ks[i].FileLine?
    ensures Sections(ks) == []
    decreases |ks|
  {
    if |ks| > 0 {
      NoFileLinesNoSections(ks[1..]);
    }
  }

  /** A reply without a `# file:` line yields no entry (or fails on a
      malformed explanation marker). */
  lemma NoMarkerNoEntries(lines: seq<string>)
    requires forall i :: 0 <= i < |lines| ==> !IsFileMarker(lines[i])
    ensures ParseLines(lines).Success? <==> WellFormed(lines)
    ensures ParseLines(lines).Success? ==> ParseLines(lines).value == []
  {
    NoFileLinesNoSections(Tokenize(lines));
  }

  /** Parsing a reply is parsing its lines: `"\n".join(lines)` is cut back
      into exactly `lines`. */
  lemma ParseJoinedLines(lines: seq<string>)
    requires |lines| >= 1
    requires forall l :: l in lines ==> '\n' !in l
    ensures Parse(Join(lines, LineBreak)) == ParseLines(lines)
  {
    SplitJoinSingleChar(lines, '\n');
  }

  /** `content` joins, with `'\n'`, lines each of which satisfies `keep`. */
  ghost predicate JoinedFrom(content: string, keep: string -> bool) {
    exists cs :: content == Join(cs, LineBreak) && forall c :: c in cs ==> keep(c)
  }

  lemma {:induction false} SectionContents(ks: seq<LineKind>)
    ensures forall e :: e in Sections(ks) ==> JoinedFrom(e.content, c => ContentLine(c) in ks)
    decreases |ks|
  {
    if |ks| > 0 {
      var rest := ks[1..];
      forall e | e in Sections(rest) && JoinedFrom(e.content, c => ContentLine(c) in rest)
        ensures JoinedFrom(e.content, c => ContentLine(c) in ks)
      {
        var cs :| e.content == Join(cs, LineBreak) && forall c :: c in cs ==> ContentLine(c) in rest;
        assert forall c :: c in cs ==> ContentLine(c) in ks;
      }
      if !ks[0].FileLine? {
        SectionContents(rest);
      } else {
        var m := NextFile(rest);
        var body, after := rest[..m], rest[m..];
        SectionContents(after);
        forall e | e in Sections(ks) ensures JoinedFrom(e.content, c => ContentLine(c) in ks) {
          if e in Emit(ks[0].path, Kept(body), LastExplanation(body)) {
            var cs := Kept(body);
            assert e.content == Join(cs, LineBreak);
            assert forall c :: c in cs ==> ContentLine(c) in ks;
          } else {
            assert e in Sections(after);
            var cs :| e.content == Join(cs, LineBreak) && forall c :: c in cs ==> ContentLine(c) in after;
            assert forall c :: c in cs ==> ContentLine(c) in ks;
          }
        }
      }
    }
  }

  /** Each entry's content is lines of the reply joined by `'\n'`, every one
      of them non-empty and not starting with `#`. */
  lemma EntryContentIsKeptLines(lines: seq<string>)
    requires WellFormed(lines)
    ensures forall e :: e in ParseLines(lines).value ==> JoinedFrom(e.content, c => c in lines && IsContentLine(c))
  {
    var ks := Tokenize(lines);
    SectionContents(ks);
    forall e | e in Sections(ks) ensures JoinedFrom(e.content, c => c in lines && IsContentLine(c)) {
      var cs :| e.content == Join(cs, LineBreak) && forall c :: c in cs ==> ContentLine(c) in ks;
      forall c | c in cs ensures c in lines && IsContentLine(c) {
        var i :| 0 <= i < |ks| && ks[i] == ContentLine(c);
        assert Classify(lines[i]) == ContentLine(c);
      }
    }
  }
}
