/** The parser that turns the code generator's reply into a list of file
    changes (`AIEngine.parse_code_changes`). The reply is cut into lines
    on `'\n'` and folded through a three-part state: the current file, the
    content lines gathered for it and its latest explanation.

    The model follows the code rather than the intended reply format:
    fence lines such as "```" are ordinary content, blank lines and lines
    starting with `#` are dropped, repeated paths each give their own
    entry, and a marker whose path strips to nothing resets the state but
    is never emitted. A marker line without `": "` makes the source raise
    `IndexError`; here it is a `Failure` naming the first such line.

    Each line is first classified by the source's if-chain (`Classify`);
    the fold and the section-by-section reference reading both work on
    the classified lines. */
module ResponseParser {
  import opened Wrappers
  import opened Strings

  const FileMarker := "# file:"
  const ExplanationMarker := "# explanation:"
  const FieldSeparator := ": "
  const LineBreak := "\n"

  /** One parsed entry: the `file`, `content` and `explanation` keys of the
      dictionaries the source appends. */
  datatype FileChange = FileChange(file: string, content: string, explanation: Option<string>)

  /** The `IndexError` of `line.split(': ')[1]`, with the index of the
      offending line. */
  datatype ParseError = MissingFieldSeparator(line: nat)

  // ---------------------------------------------------------------------
  // Lines

  predicate IsFileMarker(line: string) {
    StartsWith(line, FileMarker)
  }

  predicate IsExplanationMarker(line: string) {
    StartsWith(line, ExplanationMarker)
  }

  /** A line the source keeps as content: non-empty and not starting with `#`. */
  predicate IsContentLine(line: string) {
    |line| > 0 && line[0] != '#'
  }

  /** A marker line on which `line.split(': ')[1]` raises. */
  predicate Malformed(line: string) {
    (IsFileMarker(line) || IsExplanationMarker(line)) && !Contains(line, FieldSeparator)
  }

  predicate WellFormed(lines: seq<string>) {
    forall j :: 0 <= j < |lines| ==> !Malformed(lines[j])
  }

  /** `line.split(': ')[1].strip()`: the text after the first `": "` up to
      the next one (or the end of the line), without surrounding whitespace. */
  function MarkerValue(line: string): (v: string)
    requires Contains(line, FieldSeparator)
    ensures var rest := line[Find(line, FieldSeparator) + |FieldSeparator|..];
            exists pre, post :: AllSpace(pre) && AllSpace(post) && rest[..Find(rest, FieldSeparator)] == pre + v + post
    ensures |v| > 0 ==> !IsSpace(v[0]) && !IsSpace(v[|v| - 1])
  {
    var parts := Split(line, FieldSeparator);
    var i := Find(line, FieldSeparator);
    var rest := line[i + |FieldSeparator|..];
    assert parts == [line[..i]] + Split(rest, FieldSeparator);
    Strip(parts[1])
  }

  /** A line cannot be both a file marker and an explanation marker. */
  lemma MarkersExclusive(line: string)
    ensures !(IsFileMarker(line) && IsExplanationMarker(line))
  {
    if IsFileMarker(line) {
      assert line[2] == line[..|FileMarker|][2] == 'f';
      assert ExplanationMarker[2] == 'e';
    }
  }

  /** Marker lines start with `#`, so they are never content. */
  lemma MarkerIsNotContent(line: string)
    ensures IsFileMarker(line) || IsExplanationMarker(line) ==> !IsContentLine(line)
  {
    if IsFileMarker(line) {
      assert line[0] == line[..|FileMarker|][0];
    }
    if IsExplanationMarker(line) {
      assert line[0] == line[..|ExplanationMarker|][0];
    }
  }

  /** How one iteration of the source's loop treats a line. */
  datatype LineKind =
    | FileLine(path: string)          // `# file: <path>`, path already stripped
    | ExplanationLine(text: string)   // `# explanation: <text>`
    | ContentLine(text: string)       // appended to the current content
    | Dropped                         // empty, or some other line starting with `#`
    | NoSeparator                     // a marker line lacking `": "`

  /** The branch the source's if-chain takes on `line`. */
  function Classify(line: string): (k: LineKind)
    ensures k.NoSeparator? <==> Malformed(line)
    ensures k.FileLine? <==> IsFileMarker(line) && !Malformed(line)
    ensures k.ExplanationLine? <==> IsExplanationMarker(line) && !Malformed(line)
    ensures k.ContentLine? <==> IsContentLine(line)
    ensures k.ContentLine? ==> k.text == line
  {
    MarkersExclusive(line);
    MarkerIsNotContent(line);
    if IsFileMarker(line) then
      if Contains(line, FieldSeparator) then FileLine(MarkerValue(line)) else NoSeparator
    else if IsExplanationMarker(line) then
      if Contains(line, FieldSeparator) then ExplanationLine(MarkerValue(line)) else NoSeparator
    else if IsContentLine(line) then ContentLine(line)
    else Dropped
  }

  /** The value a marker line carries is its `MarkerValue`: the stripped
      path of a file line, the stripped text of an explanation line. */
  lemma ClassifyValue(line: string)
    ensures Classify(line).FileLine? ==>
              Contains(line, FieldSeparator) && Classify(line).path == MarkerValue(line)
    ensures Classify(line).ExplanationLine? ==>
              Contains(line, FieldSeparator) && Classify(line).text == MarkerValue(line)
  {
  }

  /** Every line of a reply, classified. */
  function Tokenize(lines: seq<string>): (ks: seq<LineKind>)
    ensures |ks| == |lines|
    ensures forall i :: 0 <= i < |lines| ==> ks[i] == Classify(lines[i])
  {
    seq(|lines|, i requires 0 <= i < |lines| => Classify(lines[i]))
  }

  // ---------------------------------------------------------------------
  // The fold

  /** The parser state between two lines. `file` is `""` for the source's
      `None`: both are false under `if current_file`. */
  datatype State = State(changes: seq<FileChange>, file: string, content: seq<string>, explanation: Option<string>)

  const Start := State([], "", [], None)

  /** The entry a file section contributes: none when its path is empty. */
  function Emit(file: string, content: seq<string>, explanation: Option<string>): (out: seq<FileChange>)
    ensures |out| <= 1
    ensures |out| == 1 <==> file != ""
    ensures |out| == 1 ==> out[0].file == file && out[0].content == Join(content, LineBreak)
                           && out[0].explanation == explanation
  {
    if file == "" then [] else [FileChange(file, Join(content, LineBreak), explanation)]
  }

  /** The changes so far plus the pending section, as appended both when a
      new marker arrives and at the end of the reply. */
  function Flush(st: State): seq<FileChange> {
    st.changes + Emit(st.file, st.content, st.explanation)
  }

  /** One iteration of the source's loop on a line that does not raise. */
  function Step(st: State, k: LineKind): State
    requires !k.NoSeparator?
  {
    match k
    case FileLine(path) => State(Flush(st), path, [], None)
    case ExplanationLine(text) => st.(explanation := Some(text))
    case ContentLine(text) => st.(content := st.content + [text])
    case Dropped => st
  }

  predicate Splittable(ks: seq<LineKind>) {
    forall j :: 0 <= j < |ks| ==> !ks[j].NoSeparator?
  }

  /** The loop over all lines, stopping at the first line that raises;
      the error carries that line's index. */
  function Run(st: State, ks: seq<LineKind>): (r: Result<State, nat>)
    ensures r.Success? <==> Splittable(ks)
    ensures r.Failure? ==> r.error < |ks| && ks[r.error].NoSeparator?
                           && forall j :: 0 <= j < r.error ==> !ks[j].NoSeparator?
    decreases |ks|
  {
    if |ks| == 0 then Success(st)
    else if ks[0].NoSeparator? then Failure(0)
    else
      match Run(Step(st, ks[0]), ks[1..])
      case Success(s) => Success(s)
      case Failure(k) => Failure(k + 1)
  }

  /** `parse_code_changes` on a reply already cut into lines. On a reply
      without malformed markers it returns exactly the entries of the
      section-by-section reading `Sections`; otherwise it fails at the
      first malformed marker. */
  function ParseLines(lines: seq<string>): (r: Result<seq<FileChange>, ParseError>)
    ensures r.Success? <==> WellFormed(lines)
    ensures r.Success? ==> r.value == Sections(Tokenize(lines))
    ensures r.Failure? ==> r.error.line < |lines| && Malformed(lines[r.error.line])
                           && forall j :: 0 <= j < r.error.line ==> !Malformed(lines[j])
  {
    var ks := Tokenize(lines);
    match Run(Start, ks)
    case Success(st) =>
      RunAgreesWithSections(Start, ks);
      PreambleIgnored(ks);
      assert Start.content + Kept(ks[..NextFile(ks)]) == Kept(ks[..NextFile(ks)]);
      Success(Flush(st))
    case Failure(k) => Failure(MissingFieldSeparator(k))
  }

  /** `parse_code_changes(ai_response)`: the reply is split on `'\n'`. */
  function Parse(response: string): (r: Result<seq<FileChange>, ParseError>)
    ensures r.Success? <==> WellFormed(Split(response, LineBreak))
    ensures r.Success? ==> r.value == Sections(Tokenize(Split(response, LineBreak)))
  {
    ParseLines(Split(response, LineBreak))
  }

  // ---------------------------------------------------------------------
  // The reference reading: a reply is a sequence of sections, each opened
  // by a file marker and running to the next file marker or the end.

  /** Index of the first file marker, or `|ks|`. */
  function NextFile(ks: seq<LineKind>): (n: nat)
    ensures n <= |ks|
    ensures forall k :: 0 <= k < n ==> !ks[k].FileLine?
    ensures n < |ks| ==> ks[n].FileLine?
    decreases |ks|
  {
    if |ks| == 0 || ks[0].FileLine? then 0 else 1 + NextFile(ks[1..])
  }

  /** The content lines among `ks`, in order. */
  function Kept(ks: seq<LineKind>): (cs: seq<string>)
    ensures |cs| <= |ks|
    ensures forall c :: c in cs ==> ContentLine(c) in ks
    ensures forall c :: ContentLine(c) in ks ==> c in cs
    decreases |ks|
  {
    if |ks| == 0 then []
    else (if ks[0].ContentLine? then [ks[0].text] else []) + Kept(ks[1..])
  }

  /** Index of the last explanation line in `ks`, or -1. */
  function LastExplanationAt(ks: seq<LineKind>): (k: int)
    ensures -1 <= k < |ks|
    ensures k >= 0 ==> ks[k].ExplanationLine?
    ensures forall m :: k < m < |ks| ==> !ks[m].ExplanationLine?
    decreases |ks|
  {
    if |ks| == 0 then -1
    else if ks[|ks| - 1].ExplanationLine? then |ks| - 1
    else
      var k := LastExplanationAt(ks[..|ks| - 1]);
      assert forall m :: k < m < |ks| - 1 ==> ks[..|ks| - 1][m] == ks[m];
      k
  }

  /** The text of the last explanation line in `ks`, if any. */
  function LastExplanation(ks: seq<LineKind>): Option<string> {
    var k := LastExplanationAt(ks);
    if k < 0 then None else Some(ks[k].text)
  }

  /** The explanation in force after reading `ks`, starting from `e`. */
  function Latest(e: Option<string>, ks: seq<LineKind>): Option<string> {
    if LastExplanation(ks).Some? then LastExplanation(ks) else e
  }

  /** The entries of a reply read section by section: lines before the
      first marker are skipped, each section yields its path, its kept
      lines and its last explanation, and an empty path yields nothing. */
  function Sections(ks: seq<LineKind>): seq<FileChange>
    decreases |ks|
  {
    if |ks| == 0 then []
    else if !ks[0].FileLine? then Sections(ks[1..])
    else
      var rest := ks[1..];
      var m := NextFile(rest);
      Emit(ks[0].path, Kept(rest[..m]), LastExplanation(rest[..m])) + Sections(rest[m..])
  }

  // ---------------------------------------------------------------------
  // The fold agrees with the reference reading.

  lemma KeptCons(k: LineKind, rest: seq<LineKind>)
    ensures Kept([k] + rest) == (if k.ContentLine? then [k.text] else []) + Kept(rest)
  {
    assert ([k] + rest)[1..] == rest;
  }

  /** A single line is kept iff it is content, as itself. */
  lemma KeptOne(k: LineKind)
    ensures Kept([k]) == if k.ContentLine? then [k.text] else []
  {
    KeptCons(k, []);
    assert [k] + [] == [k];
  }

  /** Keeping distributes over concatenation: content lines are kept in
      the order they come, each as often as it occurs. */
  lemma {:induction false} KeptAppend(a: seq<LineKind>, b: seq<LineKind>)
    ensures Kept(a + b) == Kept(a) + Kept(b)
    decreases |a|
  {
    if |a| == 0 {
      assert a + b == b;
    } else {
      assert (a + b)[0] == a[0] && (a + b)[1..] == a[1..] + b;
      KeptAppend(a[1..], b);
    }
  }

  /** Reading one more line in front: the last explanation of the longer
      list is that of `rest` if it has one, otherwise the line's own. */
  lemma LastExplanationCons(k: LineKind, rest: seq<LineKind>)
    ensures LastExplanation([k] + rest)
            == if LastExplanation(rest).Some? then LastExplanation(rest)
               else if k.ExplanationLine? then Some(k.text)
               else None
  {
    var ks := [k] + rest;
    assert ks[0] == k;
    var i := LastExplanationAt(rest);
    var i' := LastExplanationAt(ks);
    if i' > 0 {
      assert ks[i'] == rest[i' - 1];
    }
    if i >= 0 {
      assert ks[i + 1] == rest[i];
    }
    assert i >= 0 ==> i' == i + 1;
    assert i < 0 && k.ExplanationLine? ==> i' == 0;
    assert i < 0 && !k.ExplanationLine? ==> i' == -1;
  }

  /** The entry the pending section of `st` becomes once `ks` (which hold
      no file marker) have been read as well. */
  function Pending(st: State, ks: seq<LineKind>): seq<FileChange> {
    Emit(st.file, st.content + Kept(ks), Latest(st.explanation, ks))
  }

  /** What folding `ks` from `st` flushes to: the entries of `st`, its
      pending section extended up to the next marker, and the sections
      after that. */
  function Unfolded(st: State, ks: seq<LineKind>): seq<FileChange> {
    var n := NextFile(ks);
    st.changes + Pending(st, ks[..n]) + Sections(ks[n..])
  }

  lemma {:induction false} RunAgreesWithSections(st: State, ks: seq<LineKind>)
    requires Splittable(ks)
    ensures Run(st, ks).Success?
    ensures Flush(Run(st, ks).value) == Unfolded(st, ks)
    decreases |ks|
  {
    if |ks| == 0 {
      assert ks[..0] == [];
      assert st.content + [] == st.content;
    } else {
      var rest := ks[1..];
      assert Splittable(rest);
      RunAgreesWithSections(Step(st, ks[0]), rest);
      assert Run(st, ks) == Run(Step(st, ks[0]), rest);
      StepPreservesUnfolded(st, ks);
    }
  }

  /** One step of the fold leaves the claimed outcome unchanged. */
  lemma StepPreservesUnfolded(st: State, ks: seq<LineKind>)
    requires |ks| > 0 && !ks[0].NoSeparator?
    ensures Unfolded(Step(st, ks[0]), ks[1..]) == Unfolded(st, ks)
  {
    if ks[0].FileLine? {
      FileLineStep(st, ks);
    } else {
      OtherLineStep(st, ks);
    }
  }

  /** Before the next marker nothing has been read into the pending section. */
  lemma UnfoldedAtMarker(st: State, ks: seq<LineKind>)
    requires |ks| > 0 && ks[0].FileLine?
    ensures Unfolded(st, ks) == Flush(st) + Sections(ks)
  {
    assert ks[..0] == [] && ks[0..] == ks;
    assert st.content + Kept([]) == st.content;
  }

  /** A fresh section pending over `body` is the section `Sections` emits. */
  lemma FreshPending(changes: seq<FileChange>, path: string, body: seq<LineKind>)
    ensures Pending(State(changes, path, [], None), body) == Emit(path, Kept(body), LastExplanation(body))
  {
    assert [] + Kept(body) == Kept(body);
  }

  lemma FileLineStep(st: State, ks: seq<LineKind>)
    requires |ks| > 0 && ks[0].FileLine?
    ensures Unfolded(Step(st, ks[0]), ks[1..]) == Unfolded(st, ks)
  {
    var rest := ks[1..];
    var m := NextFile(rest);
    UnfoldedAtMarker(st, ks);
    FreshPending(Flush(st), ks[0].path, rest[..m]);
  }

  lemma PendingCons(st: State, k: LineKind, ks: seq<LineKind>)
    requires !k.FileLine? && !k.NoSeparator?
    ensures Pending(Step(st, k), ks) == Pending(st, [k] + ks)
  {
    KeptCons(k, ks);
    LastExplanationCons(k, ks);
    assert st.content + Kept([k] + ks) == Step(st, k).content + Kept(ks);
  }

  lemma OtherLineStep(st: State, ks: seq<LineKind>)
    requires |ks| > 0 && !ks[0].FileLine? && !ks[0].NoSeparator?
    ensures Unfolded(Step(st, ks[0]), ks[1..]) == Unfolded(st, ks)
  {
    var k, rest := ks[0], ks[1..];
    var m := NextFile(rest);
    assert NextFile(ks) == 1 + m;
    assert ks[..1 + m] == [k] + rest[..m];
    assert ks[1 + m..] == rest[m..];
    PendingCons(st, k, rest[..m]);
  }

  /** Lines before the first file marker belong to no entry. */
  lemma {:induction false} PreambleIgnored(ks: seq<LineKind>)
    ensures Sections(ks[NextFile(ks)..]) == Sections(ks)
    decreases |ks|
  {
    if |ks| > 0 && !ks[0].FileLine? {
      PreambleIgnored(ks[1..]);
      assert ks[1..][NextFile(ks[1..])..] == ks[NextFile(ks)..];
    } else {
      assert ks[0..] == ks;
    }
  }
}
