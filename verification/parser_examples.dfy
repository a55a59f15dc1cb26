/** Replies of the shapes the code generator is asked for, and the corner
    cases of `parse_code_changes`, each stated for every path, explanation
    and content line of that shape. */
module ParserExamples {
  import opened Wrappers
  import opened Strings
  import opened ResponseParser

  /** No whitespace at either end, so `strip()` leaves it alone. */
  predicate Trimmed(v: string) {
    |v| == 0 || (!IsSpace(v[0]) && !IsSpace(v[|v| - 1]))
  }

  /** A value that can follow a marker and come back unchanged. */
  predicate PlainValue(v: string) {
    ':' !in v && Trimmed(v)
  }

  function FileLineOf(path: string): string {
    FileMarker + " " + path
  }

  function ExplanationLineOf(text: string): string {
    ExplanationMarker + " " + text
  }

  function ContentTokens(code: seq<string>): seq<LineKind> {
    seq(|code|, i requires 0 <= i < |code| => ContentLine(code[i]))
  }

  // ---------------------------------------------------------------------
  // Helpers

  lemma NoColonNoSeparator(s: string)
    requires ':' !in s
    ensures !Contains(s, FieldSeparator)
  {
    forall k | 0 <= k && k + 2 <= |s|
      ensures !OccursAt(s, FieldSeparator, k)
    {
      assert s[k..k + 2][0] == s[k];
    }
  }

  lemma StripTrimmed(s: string)
    requires Trimmed(s)
    ensures Strip(s) == s
  {
    assert StripStart(s) == s;
    assert StripEnd(s) == s;
  }

  lemma MarkerLineValue(marker: string, value: string)
    requires marker == FileMarker || marker == ExplanationMarker
    requires PlainValue(value)
    ensures Contains(marker + " " + value, FieldSeparator)
    ensures MarkerValue(marker + " " + value) == value
  {
    var line := marker + " " + value;
    var c := |marker| - 1;
    assert OccursAt(line, FieldSeparator, c);
    forall k | 0 <= k < c ensures !OccursAt(line, FieldSeparator, k) {
      assert line[k] == marker[k] != ':';
      assert line[k..k + 2][0] == line[k];
    }
    assert Find(line, FieldSeparator) == c;
    assert line[c + 2..] == value;
    NoColonNoSeparator(value);
    assert value[..Find(value, FieldSeparator)] == value;
    StripTrimmed(value);
  }

  lemma ClassifyFileLine(path: string)
    requires PlainValue(path)
    ensures Classify(FileLineOf(path)) == FileLine(path)
  {
    MarkerLineValue(FileMarker, path);
    StartsWithAppend(FileMarker, " ", path);
  }

  lemma ClassifyExplanationLine(text: string)
    requires PlainValue(text)
    ensures Classify(ExplanationLineOf(text)) == ExplanationLine(text)
  {
    MarkerLineValue(ExplanationMarker, text);
    StartsWithAppend(ExplanationMarker, " ", text);
    MarkersExclusive(ExplanationLineOf(text));
  }

  lemma {:induction false} KeptContent(code: seq<string>)
    ensures Kept(ContentTokens(code)) == code
    decreases |code|
  {
    if |code| > 0 {
      var ks := ContentTokens(code);
      assert ks[1..] == ContentTokens(code[1..]);
      assert ks[0] == ContentLine(code[0]);
      KeptContent(code[1..]);
      assert code == [code[0]] + code[1..];
    }
  }

  /** Content lines hold no marker of either kind. */
  lemma ContentHasNoMarkers(code: seq<string>)
    ensures NextFile(ContentTokens(code)) == |code|
    ensures LastExplanation(ContentTokens(code)) == None
  {
    var ks := ContentTokens(code);
    assert forall m :: 0 <= m < |ks| ==> ks[m] == ContentLine(code[m]);
  }

  /** A section: a file line, then lines without a file line, then either
      the end or another file line. */
  lemma OneSection(path: string, body: seq<LineKind>, rest: seq<LineKind>)
    requires forall i :: 0 <= i < |body| ==> !body[i].FileLine?
    requires |rest| == 0 || rest[0].FileLine?
    ensures Sections([FileLine(path)] + body + rest)
            == Emit(path, Kept(body), LastExplanation(body)) + Sections(rest)
  {
    var ks := [FileLine(path)] + body + rest;
    assert ks[1..] == body + rest;
    forall k | 0 <= k < |body| ensures !(body + rest)[k].FileLine? {
      assert (body + rest)[k] == body[k];
    }
    assert |rest| > 0 ==> (body + rest)[|body|] == rest[0];
    assert NextFile(body + rest) == |body|;
    assert ks[1..1 + |body|] == body;
    assert ks[1 + |body|..] == rest;
  }

  /** `ks` are the classifications of `lines`, and none of them raises. */
  predicate ClassifiedAs(lines: seq<string>, ks: seq<LineKind>)
    decreases |lines|
  {
    |lines| == |ks|
    && (|lines| == 0
        || (Classify(lines[0]) == ks[0] && !ks[0].NoSeparator? && ClassifiedAs(lines[1..], ks[1..])))
  }

  lemma {:induction false} ClassifiedPointwise(lines: seq<string>, ks: seq<LineKind>)
    requires ClassifiedAs(lines, ks)
    ensures |lines| == |ks|
    ensures forall i :: 0 <= i < |lines| ==> Classify(lines[i]) == ks[i] && !ks[i].NoSeparator?
    decreases |lines|
  {
    if |lines| > 0 {
      ClassifiedPointwise(lines[1..], ks[1..]);
      forall i | 1 <= i < |lines| ensures Classify(lines[i]) == ks[i] && !ks[i].NoSeparator? {
        assert lines[i] == lines[1..][i - 1] && ks[i] == ks[1..][i - 1];
      }
    }
  }

  /** A reply whose classified lines are known parses to their sections. */
  lemma ParseClassified(lines: seq<string>, ks: seq<LineKind>)
    requires ClassifiedAs(lines, ks)
    ensures ParseLines(lines) == Success(Sections(ks))
  {
    ClassifiedPointwise(lines, ks);
    assert Tokenize(lines) == ks;
    assert WellFormed(lines);
  }

  lemma ClassifiedCons(l: string, k: LineKind, lines: seq<string>, ks: seq<LineKind>)
    requires Classify(l) == k && !k.NoSeparator? && ClassifiedAs(lines, ks)
    ensures ClassifiedAs([l] + lines, [k] + ks)
  {
    assert ([l] + lines)[1..] == lines && ([k] + ks)[1..] == ks;
  }

  lemma ConsThree<T>(a: T, b: T, c: T, xs: seq<T>)
    ensures [a] + ([b] + ([c] + xs)) == [a, b, c] + xs
  {
    assert ([a] + ([b] + ([c] + xs)))[3..] == xs;
  }

  lemma ThreeThenNothing<T>(a: T, b: T, c: T)
    ensures [a, b, c] + [] == [a, b, c]
  {
  }

  lemma ThreeThenOne<T>(a: T, b: T, c: T, d: T)
    ensures [a, b, c] + ([d] + []) == [a, b, c, d]
  {
  }

  lemma ClassifiedThreeThen(l0: string, l1: string, l2: string, k0: LineKind, k1: LineKind, k2: LineKind,
                            lines: seq<string>, ks: seq<LineKind>)
    requires Classify(l0) == k0 && Classify(l1) == k1 && Classify(l2) == k2
    requires !k0.NoSeparator? && !k1.NoSeparator? && !k2.NoSeparator?
    requires ClassifiedAs(lines, ks)
    ensures ClassifiedAs([l0, l1, l2] + lines, [k0, k1, k2] + ks)
  {
    ClassifiedCons(l2, k2, lines, ks);
    ClassifiedCons(l1, k1, [l2] + lines, [k2] + ks);
    ClassifiedCons(l0, k0, [l1] + ([l2] + lines), [k1] + ([k2] + ks));
    ConsThree(l0, l1, l2, lines);
    ConsThree(k0, k1, k2, ks);
  }

  lemma {:induction false} ClassifiedCode(code: seq<string>)
    requires forall l :: l in code ==> IsContentLine(l)
    ensures ClassifiedAs(code, ContentTokens(code))
    decreases |code|
  {
    if |code| > 0 {
      assert code[0] in code;
      assert ContentTokens(code)[1..] == ContentTokens(code[1..]);
      assert forall l :: l in code[1..] ==> l in code;
      ClassifiedCode(code[1..]);
    }
  }

  lemma OneThenNothing<T>(a: T)
    ensures [a] + [] == [a]
  {
  }

  lemma ParseOne(l: string, k: LineKind)
    ensures Classify(l) == k && !k.NoSeparator? ==> ParseLines([l]) == Success(Sections([k]))
  {
    if Classify(l) == k && !k.NoSeparator? {
      ClassifiedCons(l, k, [], []);
      OneThenNothing(l);
      OneThenNothing(k);
      ParseClassified([l], [k]);
    }
  }

  lemma ParseThree(l0: string, l1: string, l2: string, k0: LineKind, k1: LineKind, k2: LineKind)
    ensures Classify(l0) == k0 && Classify(l1) == k1 && Classify(l2) == k2
            && !k0.NoSeparator? && !k1.NoSeparator? && !k2.NoSeparator?
            ==> ParseLines([l0, l1, l2]) == Success(Sections([k0, k1, k2]))
  {
    if Classify(l0) == k0 && Classify(l1) == k1 && Classify(l2) == k2
       && !k0.NoSeparator? && !k1.NoSeparator? && !k2.NoSeparator? {
      ClassifiedThreeThen(l0, l1, l2, k0, k1, k2, [], []);
      ThreeThenNothing(l0, l1, l2);
      ThreeThenNothing(k0, k1, k2);
      ParseClassified([l0, l1, l2], [k0, k1, k2]);
    }
  }

  lemma ParseFour(l0: string, l1: string, l2: string, l3: string,
                  k0: LineKind, k1: LineKind, k2: LineKind, k3: LineKind)
    ensures Classify(l0) == k0 && Classify(l1) == k1 && Classify(l2) == k2 && Classify(l3) == k3
            && !k0.NoSeparator? && !k1.NoSeparator? && !k2.NoSeparator? && !k3.NoSeparator?
            ==> ParseLines([l0, l1, l2, l3]) == Success(Sections([k0, k1, k2, k3]))
  {
    if Classify(l0) == k0 && Classify(l1) == k1 && Classify(l2) == k2 && Classify(l3) == k3
       && !k0.NoSeparator? && !k1.NoSeparator? && !k2.NoSeparator? && !k3.NoSeparator? {
      ClassifiedCons(l3, k3, [], []);
      ClassifiedThreeThen(l0, l1, l2, k0, k1, k2, [l3] + [], [k3] + []);
      ThreeThenOne(l0, l1, l2, l3);
      ThreeThenOne(k0, k1, k2, k3);
      ParseClassified([l0, l1, l2, l3], [k0, k1, k2, k3]);
    }
  }

  /** Three classified lines followed by content lines. */
  lemma ParseThreeThenCode(l0: string, l1: string, l2: string, k0: LineKind, k1: LineKind, k2: LineKind,
                           body: seq<string>)
    requires forall l :: l in body ==> IsContentLine(l)
    ensures Classify(l0) == k0 && Classify(l1) == k1 && Classify(l2) == k2
            && !k0.NoSeparator? && !k1.NoSeparator? && !k2.NoSeparator?
            ==> ParseLines([l0, l1, l2] + body) == Success(Sections([k0, k1, k2] + ContentTokens(body)))
  {
    if Classify(l0) == k0 && Classify(l1) == k1 && Classify(l2) == k2
       && !k0.NoSeparator? && !k1.NoSeparator? && !k2.NoSeparator? {
      ClassifiedCode(body);
      ClassifiedThreeThen(l0, l1, l2, k0, k1, k2, body, ContentTokens(body));
      ParseClassified([l0, l1, l2] + body, [k0, k1, k2] + ContentTokens(body));
    }
  }

  // ---------------------------------------------------------------------
  // Replies

  /** The reply format the prompt asks for: a fenced block holding a file
      marker, an explanation marker and code. The opening fence comes
      before the marker and is dropped; the closing fence is kept as the
      last content line. */
  lemma FencedReply(opener: string, path: string, why: string, code: seq<string>)
    requires IsContentLine(opener)
    requires PlainValue(path) && path != "" && PlainValue(why)
    requires forall l :: l in code ==> IsContentLine(l)
    ensures ParseLines([opener, FileLineOf(path), ExplanationLineOf(why)] + code + ["```"])
            == Success([FileChange(path, Join(code + ["```"], LineBreak), Some(why))])
  {
    var body := code + ["```"];
    var head := [opener, FileLineOf(path), ExplanationLineOf(why)];
    assert head + code + ["```"] == head + body;
    var ks := [ContentLine(opener), FileLine(path), ExplanationLine(why)] + ContentTokens(body);
    FencedReplyLines(opener, path, why, body);
    FencedReplySections(opener, path, why, body);
    assert Sections(ks) == [FileChange(path, Join(body, LineBreak), Some(why))];
  }

  lemma FencedReplyLines(opener: string, path: string, why: string, body: seq<string>)
    requires IsContentLine(opener)
    requires PlainValue(path) && PlainValue(why)
    requires forall l :: l in body ==> IsContentLine(l)
    ensures ParseLines([opener, FileLineOf(path), ExplanationLineOf(why)] + body)
            == Success(Sections([ContentLine(opener), FileLine(path), ExplanationLine(why)] + ContentTokens(body)))
  {
    ClassifyFileLine(path);
    ClassifyExplanationLine(why);
    ParseThreeThenCode(opener, FileLineOf(path), ExplanationLineOf(why),
                       ContentLine(opener), FileLine(path), ExplanationLine(why), body);
  }

  lemma FencedReplySections(opener: string, path: string, why: string, body: seq<string>)
    requires path != ""
    ensures Sections([ContentLine(opener), FileLine(path), ExplanationLine(why)] + ContentTokens(body))
            == [FileChange(path, Join(body, LineBreak), Some(why))]
  {
    var ks := [ContentLine(opener), FileLine(path), ExplanationLine(why)] + ContentTokens(body);
    var section := [ExplanationLine(why)] + ContentTokens(body);
    assert ks[1..] == [FileLine(path)] + section + [];
    KeptContent(body);
    ContentHasNoMarkers(body);
    KeptCons(ExplanationLine(why), ContentTokens(body));
    LastExplanationCons(ExplanationLine(why), ContentTokens(body));
    OneSection(path, section, []);
    assert Kept(section) == body;
    assert LastExplanation(section) == Some(why);
    assert Sections(ks) == Sections(ks[1..]);
    assert Sections(ks[1..]) == Emit(path, body, Some(why));
  }

  /** A path named twice gives two entries, in order; nothing is merged. */
  lemma RepeatedPath(path: string, first: string, second: string)
    requires PlainValue(path) && path != ""
    requires IsContentLine(first) && IsContentLine(second)
    ensures ParseLines([FileLineOf(path), first, FileLineOf(path), second])
            == Success([FileChange(path, first, None), FileChange(path, second, None)])
  {
    var ks := [FileLine(path), ContentLine(first), FileLine(path), ContentLine(second)];
    TwoSectionsLines(path, first, path, second);
    TwoSections(path, first, path, second);
    var e1, e2 := FileChange(path, first, None), FileChange(path, second, None);
    assert Emit(path, [first], None) == [e1];
    assert Emit(path, [second], None) == [e2];
    assert Sections(ks) == [e1, e2];
  }

  /** A marker whose path is empty ends the previous entry and starts a
      section that is never emitted: its content is lost. */
  lemma EmptyPathLosesContent(path: string, kept: string, lost: string)
    requires PlainValue(path) && path != ""
    requires IsContentLine(kept) && IsContentLine(lost)
    ensures ParseLines([FileLineOf(path), kept, FileLineOf(""), lost])
            == Success([FileChange(path, kept, None)])
  {
    var ks := [FileLine(path), ContentLine(kept), FileLine(""), ContentLine(lost)];
    TwoSectionsLines(path, kept, "", lost);
    TwoSections(path, kept, "", lost);
    var e := FileChange(path, kept, None);
    assert Emit(path, [kept], None) == [e];
    assert Sections(ks) == [e];
  }

  lemma TwoSectionsLines(p: string, a: string, q: string, b: string)
    requires PlainValue(p) && PlainValue(q)
    requires IsContentLine(a) && IsContentLine(b)
    ensures ParseLines([FileLineOf(p), a, FileLineOf(q), b])
            == Success(Sections([FileLine(p), ContentLine(a), FileLine(q), ContentLine(b)]))
  {
    ClassifyFileLine(p);
    ClassifyFileLine(q);
    ParseFour(FileLineOf(p), a, FileLineOf(q), b, FileLine(p), ContentLine(a), FileLine(q), ContentLine(b));
  }

  /** A last section of one content line. */
  lemma LastSection(p: string, a: string)
    ensures Sections([FileLine(p), ContentLine(a)]) == Emit(p, [a], None)
  {
    assert [FileLine(p), ContentLine(a)] == [FileLine(p)] + [ContentLine(a)] + [];
    OneSection(p, [ContentLine(a)], []);
    assert Kept([ContentLine(a)]) == [a];
  }

  /** Two sections of one content line each; a section with an empty path
      contributes nothing. */
  lemma TwoSections(p: string, a: string, q: string, b: string)
    ensures Sections([FileLine(p), ContentLine(a), FileLine(q), ContentLine(b)])
            == Emit(p, [a], None) + Emit(q, [b], None)
  {
    var tail := [FileLine(q), ContentLine(b)];
    assert [FileLine(p), ContentLine(a), FileLine(q), ContentLine(b)] == [FileLine(p)] + [ContentLine(a)] + tail;
    OneSection(p, [ContentLine(a)], tail);
    LastSection(q, b);
    assert Kept([ContentLine(a)]) == [a];
  }

  /** An explanation given before the marker is discarded by the marker. */
  lemma ExplanationBeforeMarkerDiscarded(why: string, path: string, code: string)
    requires PlainValue(why) && PlainValue(path) && path != ""
    requires IsContentLine(code)
    ensures ParseLines([ExplanationLineOf(why), FileLineOf(path), code])
            == Success([FileChange(path, code, None)])
  {
    var ks := [ExplanationLine(why), FileLine(path), ContentLine(code)];
    ClassifyExplanationLine(why);
    ClassifyFileLine(path);
    ParseThree(ExplanationLineOf(why), FileLineOf(path), code, ExplanationLine(why), FileLine(path), ContentLine(code));
    ExplanationBeforeSection(why, path, code);
    assert Emit(path, [code], None) == [FileChange(path, code, None)];
    assert Sections(ks) == [FileChange(path, code, None)];
  }

  lemma ExplanationBeforeSection(why: string, path: string, code: string)
    ensures Sections([ExplanationLine(why), FileLine(path), ContentLine(code)]) == Emit(path, [code], None)
  {
    var ks := [ExplanationLine(why), FileLine(path), ContentLine(code)];
    assert ks[1..] == [FileLine(path)] + [ContentLine(code)] + [];
    OneSection(path, [ContentLine(code)], []);
    assert Kept([ContentLine(code)]) == [code];
  }

  /** A marker with nothing after it still yields an entry, with empty
      content: entries are not dropped for lack of content. */
  lemma EmptyContentKept(path: string)
    requires PlainValue(path) && path != ""
    ensures ParseLines([FileLineOf(path)]) == Success([FileChange(path, "", None)])
  {
    ClassifyFileLine(path);
    ParseOne(FileLineOf(path), FileLine(path));
    LoneMarkerSection(path);
  }

  lemma LoneMarkerSection(path: string)
    ensures Sections([FileLine(path)]) == Emit(path, [], None)
  {
    assert [FileLine(path)][1..] == [];
  }

  /** `# file:` directly followed by the path, with no space: the split on
      `": "` finds nothing and the source raises on that line. */
  lemma MarkerWithoutSpaceFails(first: string, path: string)
    requires !Malformed(first)
    requires ':' !in path && (|path| == 0 || path[0] != ' ')
    ensures ParseLines([first, FileMarker + path]) == Failure(MissingFieldSeparator(1))
  {
    var line := FileMarker + path;
    assert line[..|FileMarker|] == FileMarker;
    forall k | 0 <= k && k + 2 <= |line|
      ensures !OccursAt(line, FieldSeparator, k)
    {
      assert line[k..k + 2][0] == line[k];
      assert line[k..k + 2][1] == line[k + 1];
      if k == 6 {
        assert line[k + 1] == path[0];
      }
    }
    assert Malformed(line);
    assert [first, line][1] == line;
  }
}
