/**
 The applier on whole files: the text is split into lines, the output lines are joined and written.

 Texts are as they are read, with carriage returns translated to newlines.  Joining forgets where an unterminated
 line ends, so that the file holds the lines of the output only if no such line is followed by another.
 */
module UnifiedDiffText {
  import opened Outcomes
  import opened UnifiedDiff
  import opened UnifiedDiffProofs

  // ----- Splitting and joining -----

  /** The characters at which `splitlines` ends a line, the translated carriage return apart. */
  predicate Break(c: char) {
    c in {'\n', '\U{0B}', '\U{0C}', '\U{1C}', '\U{1D}', '\U{1E}', '\U{85}', '\U{2028}', '\U{2029}'}
  }

  predicate Ended(line: Line) {
    line != "" && Break(line[|line| - 1])
  }

  /** A line breaks at its end or nowhere. */
  predicate Tidy(line: Line) {
    forall i :: 0 <= i < |line| - 1 ==> !Break(line[i])
  }

  /** Lines as splitting gives them. */
  predicate Listed(lines: seq<Line>) {
    && (forall i :: 0 <= i < |lines| ==> lines[i] != "" && Tidy(lines[i]))
    && (forall i :: 0 <= i < |lines| - 1 ==> Ended(lines[i]))
  }

  /** Where the first line ends, nothing before `i` being a break. */
  function FirstEnd(text: string, i: nat): (end: nat)
    requires i <= |text|
    ensures i <= end <= |text| && (i < |text| ==> i < end)
    ensures forall k :: i <= k < end - 1 ==> !Break(text[k])
    ensures end < |text| ==> end > i && Break(text[end - 1])
    decreases |text| - i
  {
    if i == |text| then i else if Break(text[i]) then i + 1 else FirstEnd(text, i + 1)
  }

  /** `splitlines(keepends=True)`. */
  function Split(text: string): seq<Line> {
    if text == "" then [] else
      var end := FirstEnd(text, 0);
      [text[..end]] + Split(text[end..])
  }

  /** `"".join`. */
  function Join(lines: seq<Line>): string {
    if lines == [] then "" else lines[0] + Join(lines[1..])
  }

  lemma {:induction false} SplitThenJoin(text: string)
    ensures Listed(Split(text)) && Join(Split(text)) == text
  {
    if text != "" {
      var end := FirstEnd(text, 0);
      SplitThenJoin(text[end..]);
      ListedByHead(text[..end], Split(text[end..]));
      assert Split(text)[1..] == Split(text[end..]);
    }
  }

  lemma {:induction false} ListedByHead(h: Line, t: seq<Line>)
    ensures Listed([h] + t) <==> (h != "" && Tidy(h) && (t != [] ==> Ended(h)) && Listed(t))
  {
    hide Tidy, Ended;
    var all := [h] + t;
    if Listed(all) {
      forall i | 0 <= i < |t|
        ensures t[i] != "" && Tidy(t[i]) && (i < |t| - 1 ==> Ended(t[i]))
      {
        assert all[i + 1] == t[i];
      }
      assert all[0] == h;
    }
  }

  /** The end of the first line depends on the text up to it only. */
  lemma {:induction false} FirstEndOf(head: Line, rest: string, i: nat)
    requires Tidy(head) && i < |head|
    ensures Ended(head) || rest == "" ==> FirstEnd(head + rest, i) == |head|
    ensures !Ended(head) && rest != "" ==> FirstEnd(head + rest, i) == |head| + FirstEnd(rest, 0)
    decreases |head| - i
  {
    var text := head + rest;
    assert text[i] == head[i];
    if i < |head| - 1 {
      FirstEndOf(head, rest, i + 1);
    } else if !Break(head[i]) && rest != "" {
      ShiftedEnd(head, rest, 0);
    }
  }

  lemma {:induction false} ShiftedEnd(head: Line, rest: string, i: nat)
    requires i <= |rest|
    ensures FirstEnd(head + rest, |head| + i) == |head| + FirstEnd(rest, i)
    decreases |rest| - i
  {
    if i < |rest| {
      assert (head + rest)[|head| + i] == rest[i];
      ShiftedEnd(head, rest, i + 1);
    }
  }

  /** Adding a first line to a text: it stays a line of its own, or runs into the text's first line. */
  lemma {:induction false} SplitWithHead(head: Line, rest: string)
    requires Tidy(head) && head != ""
    ensures Ended(head) || rest == "" ==> Split(head + rest) == [head] + Split(rest)
    ensures !Ended(head) && rest != "" ==>
              |Split(head + rest)| == |Split(rest)| && Split(head + rest)[0] == head + Split(rest)[0]
  {
    FirstEndOf(head, rest, 0);
    var text := head + rest;
    if Ended(head) || rest == "" {
      assert text[..|head|] == head && text[|head|..] == rest;
    } else {
      var end := FirstEnd(rest, 0);
      assert text[..|head| + end] == head + rest[..end] && text[|head| + end..] == rest[end..];
    }
  }

  /** Splitting the joined lines never gives more lines, and as many only if none ran into the next. */
  lemma {:induction false} SplitOfJoin(lines: seq<Line>)
    requires forall i :: 0 <= i < |lines| ==> Tidy(lines[i])
    ensures |Split(Join(lines))| <= |lines|
    ensures |Split(Join(lines))| == |lines| ==> Listed(lines)
    ensures Listed(lines) ==> Split(Join(lines)) == lines
  {
    if lines != [] {
      var h, t := lines[0], lines[1..];
      assert lines == [h] + t;
      SplitOfJoin(t);
      ListedByHead(h, t);
      hide Listed, Split, Tidy, Ended;
      if h == "" {
        assert Join(lines) == Join(t);
      } else {
        SplitWithHead(h, Join(t));
        SplitOfNothing(t);
      }
    }
  }

  lemma {:induction false} SplitOfNothing(lines: seq<Line>)
    ensures Split("") == []
    ensures Listed(lines) && lines != [] ==> Join(lines) != ""
    ensures lines == [] ==> Join(lines) == ""
  {
  }

  /** Joining and splitting again gives the same lines exactly when they are such as splitting gives. */
  lemma {:induction false} SplitOfJoinExactlyWhen(lines: seq<Line>)
    ensures Split(Join(lines)) == lines <==> Listed(lines)
  {
    if Split(Join(lines)) == lines {
      SplitThenJoin(Join(lines));
    }
    if Listed(lines) {
      SplitOfJoin(lines);
    }
  }

  // ----- Where each output line comes from -----

  /** An output line is a line of the original file, or one the section adds. */
  datatype Source = From(line: nat) | New(text: Line)

  function Resolve(original: seq<Line>, source: Source): Line {
    match source
    case From(i) => if i < |original| then original[i] else ""
    case New(text) => text
  }

  function Resolved(original: seq<Line>, sources: seq<Source>): (lines: seq<Line>)
    ensures |lines| == |sources|
    ensures forall k :: 0 <= k < |sources| ==> lines[k] == Resolve(original, sources[k])
  {
    seq(|sources|, k requires 0 <= k < |sources| => Resolve(original, sources[k]))
  }

  function Lines(lo: nat, hi: nat): (sources: seq<Source>)
    ensures |sources| == if lo <= hi then hi - lo else 0
    ensures forall k :: 0 <= k < |sources| ==> sources[k] == From(lo + k)
  {
    if lo <= hi then seq(hi - lo, k requires 0 <= k => From(lo + k)) else []
  }

  function BodySources(at: nat, body: seq<Edit>, k: nat): seq<Source>
    requires k <= |body|
  {
    if k == 0 then [] else
      BodySources(at, body, k - 1) + EditSources(at + |OldTo(body, k - 1)|, body[k - 1])
  }

  function EditSources(at: nat, e: Edit): seq<Source> {
    match e
    case Keep(_) => [From(at)]
    case Del(_) => []
    case Add(text) => [New(text)]
  }

  /** The sources of the output from hunk `j` on, for an original of `n` lines read up to `cursor`. */
  function Sources(n: nat, hunks: seq<Hunk>, j: nat, cursor: nat): seq<Source>
    requires j <= |hunks|
    decreases |hunks| - j
  {
    if j == |hunks| then Lines(cursor, n) else
      var h := hunks[j];
      HunkSources(cursor, h) + Sources(n, hunks, j + 1, Place(h.oldStart) + h.oldCount)
  }

  function Provenance(n: nat, section: seq<SectionLine>): seq<Source> {
    Sources(n, Hunks(section), 0, 0)
  }

  lemma {:induction false} ResolvedJoined(original: seq<Line>, a: seq<Source>, b: seq<Source>)
    ensures Resolved(original, a + b) == Resolved(original, a) + Resolved(original, b)
  {
  }

  lemma {:induction false} MergeResolved(original: seq<Line>, at: nat, body: seq<Edit>, k: nat)
    requires k <= |body| && at + |OldTo(body, k)| <= |original|
    ensures MergeTo(original, at, body, k) == Resolved(original, BodySources(at, body, k))
  {
    if k > 0 {
      var at' := at + |OldTo(body, k - 1)|;
      MergeResolved(original, at, body, k - 1);
      EditResolved(original, at', body[k - 1]);
      hide Resolved, Emitted, EditSources;
      ResolvedJoined(original, BodySources(at, body, k - 1), EditSources(at', body[k - 1]));
    }
  }

  lemma {:induction false} EditResolved(original: seq<Line>, at: nat, e: Edit)
    requires e.Keep? ==> at < |original|
    ensures Emitted(original, at, e) == Resolved(original, EditSources(at, e))
  {
  }

  lemma {:induction false} LinesResolved(original: seq<Line>, lo: nat, hi: nat)
    requires lo <= hi <= |original|
    ensures Resolved(original, Lines(lo, hi)) == original[lo..hi]
  {
  }

  function HunkSources(cursor: nat, h: Hunk): seq<Source> {
    Lines(cursor, Place(h.oldStart)) + BodySources(Place(h.oldStart), h.body, |h.body|)
  }

  lemma {:induction false} HunkResolved(original: seq<Line>, h: Hunk, cursor: nat)
    requires cursor <= Place(h.oldStart) && Place(h.oldStart) + |OldSide(h.body)| <= |original|
    ensures Emission(original, cursor, h) == Resolved(original, HunkSources(cursor, h))
  {
    var place := Place(h.oldStart);
    LinesResolved(original, cursor, place);
    MergeResolved(original, place, h.body, |h.body|);
    hide Resolved, Lines, BodySources, MergeTo;
    ResolvedJoined(original, Lines(cursor, place), BodySources(place, h.body, |h.body|));
  }

  /** The output is its sources resolved. */
  lemma {:induction false} PatchedResolved(original: seq<Line>, hunks: seq<Hunk>, j: nat, cursor: nat)
    requires j <= |hunks| && cursor <= |original| && Refusal(original, hunks, j, cursor) == None
    ensures Patched(original, hunks, j, cursor) == Resolved(original, Sources(|original|, hunks, j, cursor))
    decreases |hunks| - j
  {
    hide *;
    if j == |hunks| {
      TailResolved(original, hunks, cursor);
    } else {
      var h := hunks[j];
      var next := Place(h.oldStart) + h.oldCount;
      Unfolded(original, hunks, j, cursor);
      HunkResolved(original, h, cursor);
      PatchedResolved(original, hunks, j + 1, next);
      SourcesUnfolded(|original|, hunks, j, cursor);
      ResolvedJoined(original, HunkSources(cursor, h), Sources(|original|, hunks, j + 1, next));
    }
  }

  lemma {:induction false} TailResolved(original: seq<Line>, hunks: seq<Hunk>, cursor: nat)
    requires cursor <= |original| && Refusal(original, hunks, |hunks|, cursor) == None
    ensures Patched(original, hunks, |hunks|, cursor) == Resolved(original, Sources(|original|, hunks, |hunks|, cursor))
  {
    LinesResolved(original, cursor, |original|);
  }

  lemma {:induction false} Unfolded(original: seq<Line>, hunks: seq<Hunk>, j: nat, cursor: nat)
    requires j < |hunks| && cursor <= |original| && Refusal(original, hunks, j, cursor) == None
    ensures var h := hunks[j];
            var next := Place(h.oldStart) + h.oldCount;
            && cursor <= Place(h.oldStart) && Place(h.oldStart) + |OldSide(h.body)| <= |original| && next <= |original|
            && Refusal(original, hunks, j + 1, next) == None
            && Patched(original, hunks, j, cursor)
               == Emission(original, cursor, h) + Patched(original, hunks, j + 1, next)
  {
    hide Emission;
    HunkAccepted(original, hunks[j], cursor, j + 1);
  }

  lemma {:induction false} SourcesUnfolded(n: nat, hunks: seq<Hunk>, j: nat, cursor: nat)
    requires j < |hunks|
    ensures Sources(n, hunks, j, cursor)
         == HunkSources(cursor, hunks[j]) + Sources(n, hunks, j + 1, Place(hunks[j].oldStart) + hunks[j].oldCount)
  {
  }

  // ----- The written file -----

  predicate LastOf(original: seq<Line>, source: Source) {
    source.From? && source.line + 1 == |original|
  }

  /** The original's last line, if it is kept with other lines behind it, is terminated; so are added lines. */
  predicate Separable(original: seq<Line>, sources: seq<Source>) {
    && (forall k :: 0 <= k < |sources| && sources[k].New? ==>
          sources[k].text != "" && (k < |sources| - 1 ==> Ended(sources[k].text)))
    && (forall k :: 0 <= k < |sources| - 1 && LastOf(original, sources[k]) ==> Ended(original[|original| - 1]))
  }

  /** The texts of a section are ends of lines of the patch file. */
  ghost predicate TidySection(section: seq<SectionLine>) {
    forall i :: 0 <= i < |section| && section[i].Body? ==> Tidy(section[i].edit.text)
  }

  ghost predicate TidySources(n: nat, sources: seq<Source>) {
    forall k :: 0 <= k < |sources| ==> match sources[k] case From(i) => i < n case New(text) => Tidy(text)
  }

  /** The output lines are those of the file written exactly when the sources are separable. */
  lemma {:induction false} ListedExactlyWhen(original: seq<Line>, sources: seq<Source>)
    requires Listed(original) && TidySources(|original|, sources)
    ensures Listed(Resolved(original, sources)) <==> Separable(original, sources)
    ensures forall k :: 0 <= k < |sources| ==> Tidy(Resolved(original, sources)[k])
  {
    hide Tidy, Ended;
    var lines := Resolved(original, sources);
    forall k | 0 <= k < |sources|
      ensures lines[k] != "" || (sources[k].New? && sources[k].text == "")
      ensures Tidy(lines[k])
      ensures Ended(lines[k]) || sources[k].New? || LastOf(original, sources[k])
    {
      assert lines[k] == Resolve(original, sources[k]);
    }
    if Listed(lines) {
      forall k | 0 <= k < |sources|
        ensures sources[k].New? ==> sources[k].text != "" && (k < |sources| - 1 ==> Ended(sources[k].text))
        ensures k < |sources| - 1 && LastOf(original, sources[k]) ==> Ended(original[|original| - 1])
      {
        assert lines[k] == Resolve(original, sources[k]);
      }
    }
  }

  lemma {:induction false} TextAt(section: seq<SectionLine>, i: nat, k: nat)
    requires TidySection(section) && i <= |section| && k < |BodyEdits(section, i)|
    ensures Tidy(BodyEdits(section, i)[k].text)
    decreases |section| - i
  {
    hide Tidy;
    if section[i].Body? {
      if k > 0 {
        TextAt(section, i + 1, k - 1);
      }
    } else {
      TextAt(section, i + 1, k);
    }
  }

  ghost predicate TidyBody(body: seq<Edit>) {
    forall k :: 0 <= k < |body| ==> Tidy(body[k].text)
  }

  lemma {:induction false} TidyHunks(section: seq<SectionLine>, i: nat, m: nat)
    requires TidySection(section) && i <= |section| && m < |HunksFrom(section, i)|
    ensures TidyBody(HunksFrom(section, i)[m].body)
    decreases |section| - i
  {
    hide Tidy, TidySection;
    if section[i].Header? {
      if m == 0 {
        var body := BodyEdits(section, i + 1);
        forall k | 0 <= k < |body|
          ensures Tidy(body[k].text)
        {
          TextAt(section, i + 1, k);
        }
      } else {
        TidyHunks(section, BodyEnd(section, i + 1), m - 1);
      }
    } else {
      TidyHunks(section, i + 1, m);
    }
  }

  lemma {:induction false} TidyBodySources(n: nat, at: nat, body: seq<Edit>, k: nat)
    requires k <= |body| && TidyBody(body) && at + |OldTo(body, k)| <= n
    ensures TidySources(n, BodySources(at, body, k))
  {
    if k > 0 {
      hide Tidy;
      TidyBodySources(n, at, body, k - 1);
    }
  }

  lemma {:induction false} TidyJoined(n: nat, a: seq<Source>, b: seq<Source>)
    requires TidySources(n, a) && TidySources(n, b)
    ensures TidySources(n, a + b)
  {
  }

  /** The sources of an accepted patch are lines of the original and tidy texts. */
  lemma {:induction false} SourcesTidy(original: seq<Line>, hunks: seq<Hunk>, j: nat, cursor: nat)
    requires j <= |hunks| && cursor <= |original| && Refusal(original, hunks, j, cursor) == None
    requires forall m :: 0 <= m < |hunks| ==> TidyBody(hunks[m].body)
    ensures TidySources(|original|, Sources(|original|, hunks, j, cursor))
    decreases |hunks| - j
  {
    var n := |original|;
    hide *;
    if j == |hunks| {
      TidyTail(n, hunks, cursor);
    } else {
      var h := hunks[j];
      var next := Place(h.oldStart) + h.oldCount;
      Unfolded(original, hunks, j, cursor);
      SourcesTidy(original, hunks, j + 1, next);
      SourcesUnfolded(n, hunks, j, cursor);
      TidyHunkSources(n, cursor, h);
      TidyJoined(n, HunkSources(cursor, h), Sources(n, hunks, j + 1, next));
    }
  }

  lemma {:induction false} TidyTail(n: nat, hunks: seq<Hunk>, cursor: nat)
    ensures TidySources(n, Sources(n, hunks, |hunks|, cursor))
  {
  }

  lemma {:induction false} TidyHunkSources(n: nat, cursor: nat, h: Hunk)
    requires TidyBody(h.body) && Place(h.oldStart) + |OldSide(h.body)| <= n
    ensures TidySources(n, HunkSources(cursor, h))
  {
    TidyBodySources(n, Place(h.oldStart), h.body, |h.body|);
    assert TidySources(n, Lines(cursor, Place(h.oldStart)));
    hide TidySources, BodySources, Lines;
    TidyJoined(n, Lines(cursor, Place(h.oldStart)), BodySources(Place(h.oldStart), h.body, |h.body|));
  }

  /** The file as it is written: the patched lines of the split text, joined. */
  function ApplyText(text: string, section: seq<SectionLine>): Result<string, PatchError> {
    match ApplySection(Split(text), section)
    case Err(e) => Err(e)
    case Ok(lines) => Ok(Join(lines))
  }

  /** Reading the written file gives the patched lines exactly when their sources are separable; else fewer lines. */
  lemma {:induction false} WrittenExactlyWhen(text: string, section: seq<SectionLine>)
    requires TidySection(section) && ApplySection(Split(text), section).Ok?
    ensures
      var lines, written := ApplySection(Split(text), section).value, ApplyText(text, section).value;
      && |Split(written)| <= |lines|
      && (|Split(written)| == |lines| <==> Separable(Split(text), Provenance(|Split(text)|, section)))
      && (Split(written) == lines <==> Separable(Split(text), Provenance(|Split(text)|, section)))
  {
    var original, hunks := Split(text), Hunks(section);
    SplitThenJoin(text);
    forall m | 0 <= m < |hunks|
      ensures TidyBody(hunks[m].body)
    {
      TidyHunks(section, 0, m);
    }
    SourcesTidy(original, hunks, 0, 0);
    PatchedResolved(original, hunks, 0, 0);
    hide Split, Join, Listed, Tidy, Separable, Sources, Patched, Refusal, TidySources, TidyBody, HunksFrom, Resolved;
    ListedExactlyWhen(original, Provenance(|original|, section));
    SplitOfJoin(ApplySection(original, section).value);
  }

  /**
   Round trip of files: applied to a text that reads, up to terminators, as the old lines, the section writes a file
   that reads as the new ones exactly when the diff is placeable and no unterminated line gets another behind it.
   */
  lemma {:induction false} FileRoundTrip(text: string, pieces: seq<Piece>, tail: seq<Line>, section: seq<SectionLine>)
    requires SameLines(Split(text), OldText(pieces, |pieces|) + tail)
    requires pieces != [] && Hunks(section) == HunksOf(pieces) && TidySection(section)
    ensures
      var r := ApplyText(text, section);
      (r.Ok? && SameLines(Split(r.value), NewText(pieces, |pieces|) + tail))
      <==> Placeable(Split(text), pieces, 0, 0) && Separable(Split(text), Provenance(|Split(text)|, section))
  {
    var original := Split(text);
    RoundTrip(original, pieces, tail, section);
    hide Placeable, Separable, Split, Join, OldText, NewText, Provenance;
    if ApplySection(original, section).Ok? {
      WrittenExactlyWhen(text, section);
      NewLength(original, pieces, tail, section);
    }
  }

  /** An accepted section gives as many lines as the new text has. */
  lemma {:induction false} NewLength(original: seq<Line>, pieces: seq<Piece>, tail: seq<Line>,
                                     section: seq<SectionLine>)
    requires SameLines(original, OldText(pieces, |pieces|) + tail) && Hunks(section) == HunksOf(pieces)
    requires ApplySection(original, section).Ok?
    ensures |ApplySection(original, section).value| == |NewText(pieces, |pieces|) + tail|
  {
    PatchedLength(original, Hunks(section), 0, 0);
    GrowthOfPieces(pieces, 0);
  }

  lemma {:induction false} GrowthOfPieces(pieces: seq<Piece>, i: nat)
    requires i <= |pieces|
    ensures Growth(HunksOf(pieces), i)
         == |NewText(pieces, |pieces|)| - |NewText(pieces, i)| - (|OldText(pieces, |pieces|)| - |OldText(pieces, i)|)
    decreases |pieces| - i
  {
    hide *;
    if i == |pieces| {
      NoGrowthLeft(HunksOf(pieces));
    } else {
      GrowthOfPieces(pieces, i + 1);
      PieceGrowth(pieces, i);
    }
  }

  lemma {:induction false} NoGrowthLeft(hunks: seq<Hunk>)
    ensures Growth(hunks, |hunks|) == 0
  {
  }

  lemma {:induction false} PieceGrowth(pieces: seq<Piece>, i: nat)
    requires i < |pieces|
    ensures Growth(HunksOf(pieces), i) - Growth(HunksOf(pieces), i + 1)
         == |NewText(pieces, i + 1)| - |NewText(pieces, i)| - (|OldText(pieces, i + 1)| - |OldText(pieces, i)|)
  {
    hide OldSide, NewSide;
    assert HunksOf(pieces)[i] == HunkOf(pieces, i);
  }

  lemma {:induction false} SplitOfOneLine(line: Line)
    requires line != "" && Tidy(line)
    ensures Split(line) == [line]
  {
    SplitOfJoin([line]);
    assert Listed([line]);
    assert [line][1..] == [];
    assert Join([line]) == line + "" == line;
  }

  const KEEP_A_ADD_B := [Header(1, 1, 1, 2), Body(Keep("a\n")), Body(Add("b\n"))]

  lemma {:induction false} HunksOfExample()
    ensures Hunks(KEEP_A_ADD_B) == [Hunk(1, 1, 1, 2, [Keep("a\n"), Add("b\n")])]
  {
    var section := KEEP_A_ADD_B;
    assert BodyEdits(section, 3) == [] && BodyEdits(section, 2) == [Add("b\n")];
    assert BodyEdits(section, 1) == [Keep("a\n"), Add("b\n")];
    assert BodyEnd(section, 3) == 3 && BodyEnd(section, 2) == 3 && BodyEnd(section, 1) == 3;
    assert HunksFrom(section, 3) == [];
  }

  lemma {:induction false} ExampleAccepted()
    ensures HunkRefusal(["a"], Hunk(1, 1, 1, 2, [Keep("a\n"), Add("b\n")]), 0, 1) == None
    ensures OldSide([Keep("a\n"), Add("b\n")]) == ["a\n"]
    ensures Merge(["a"], 0, [Keep("a\n"), Add("b\n")]) == ["a", "b\n"]
  {
    var body := [Keep("a\n"), Add("b\n")];
    assert OldTo(body, 0) == [] && OldTo(body, 1) == ["a\n"] && OldTo(body, 2) == ["a\n"];
    assert NewTo(body, 0) == [] && NewTo(body, 1) == ["a\n"] && NewTo(body, 2) == ["a\n", "b\n"];
    assert Stem("a\n") == Stem("a") by {
      assert "a\n"[..1] == "a";
    }
    assert MatchFrom(["a"], 0, ["a\n"], 1) == 1;
    assert MergeTo(["a"], 0, body, 1) == ["a"];
  }

  /** A text without a final newline, and a line added behind its last one: the two run into one. */
  lemma {:induction false} LinesRunTogether()
    ensures ApplySection(Split("a"), KEEP_A_ADD_B) == Ok(["a", "b\n"])
    ensures ApplyText("a", KEEP_A_ADD_B) == Ok("ab\n") && Split("ab\n") == ["ab\n"]
  {
    SplitOfOneLine("a");
    SplitOfOneLine("ab\n");
    HunksOfExample();
    ExampleAccepted();
    hide HunksFrom, HunkRefusal, Merge, OldSide, Split;
    var h := Hunk(1, 1, 1, 2, [Keep("a\n"), Add("b\n")]);
    assert Refusal(["a"], [h], 1, 1) == None && Patched(["a"], [h], 1, 1) == [];
    assert Refusal(["a"], [h], 0, 0) == None;
    assert Patched(["a"], [h], 0, 0) == ["a", "b\n"];
    var lines := ["a", "b\n"];
    assert lines[1..] == ["b\n"] && ["b\n"][1..] == [];
    assert Join(["b\n"]) == "b\n" + "" == "b\n";
    assert "a" + "b\n" == "ab\n";
    assert Join(lines) == "a" + Join(["b\n"]);
  }

  lemma {:induction false} InverseIsTidy(section: seq<SectionLine>)
    requires TidySection(section)
    ensures TidySection(InverseSection(section))
  {
  }

  /**
   Undo of files: once the written file has the patched lines, the swapped section is accepted on it, and writes the
   original text back, up to terminators, exactly when no unterminated line gets another behind it this time.
   */
  lemma {:induction false} FileUndo(text: string, section: seq<SectionLine>)
    requires TidySection(section) && ApplyText(text, section).Ok? && NewStartsHold(Hunks(section), 0, 0, 0)
    requires Separable(Split(text), Provenance(|Split(text)|, section))
    ensures
      var written, inverse := ApplyText(text, section).value, InverseSection(section);
      var back := ApplyText(written, inverse);
      && back.Ok?
      && (SameLines(Split(back.value), Split(text))
          <==> Separable(Split(written), Provenance(|Split(written)|, inverse)))
  {
    hide Separable, Provenance, Split, Join, Hunks, NewStartsHold, TidySection;
    var written, inverse := ApplyText(text, section).value, InverseSection(section);
    WrittenExactlyWhen(text, section);
    SwappedSectionUndoes(Split(text), section);
    InverseIsTidy(section);
    WrittenExactlyWhen(written, inverse);
  }

  /** `_apply_file` on the text of a file. */
  method ApplyToText(text: string, section: seq<SectionLine>) returns (r: Result<string, PatchError>, hunkCount: nat)
    ensures r == ApplyText(text, section)
    ensures r.Ok? ==> hunkCount == |Hunks(section)|
  {
    hide ApplySection;
    var lines;
    lines, hunkCount := ApplyFile(Split(text), section);
    r := match lines case Err(e) => Err(e) case Ok(output) => Ok(Join(output));
  }
}
