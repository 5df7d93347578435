/**
 What the hunk interpreter means: which patches it accepts, how long its output is, when applying a printed
 diff gives the new text, and when swapping a patch's sides undoes it.
 */
module UnifiedDiffProofs {
  import opened Outcomes
  import opened UnifiedDiff

  // ----- Lines modulo their terminator -----

  /** Carriage returns and newlines only. */
  predicate Terminator(x: Line) {
    forall i :: 0 <= i < |x| ==> x[i] == '\r' || x[i] == '\n'
  }

  /** A text that ends in neither. */
  predicate Bare(s: Line) {
    s != "" ==> s[|s| - 1] != '\r' && s[|s| - 1] != '\n'
  }

  lemma {:induction false} StemSplits(line: Line) returns (x: Line)
    ensures Bare(Stem(line)) && Terminator(x) && line == Stem(line) + x
  {
    if |line| > 0 && (line[|line| - 1] == '\r' || line[|line| - 1] == '\n') {
      x := StemSplits(line[..|line| - 1]);
      x := x + [line[|line| - 1]];
    } else {
      x := "";
    }
  }

  lemma {:induction false} StemOfSplit(s: Line, x: Line)
    requires Bare(s) && Terminator(x)
    ensures Stem(s + x) == s
  {
    if x == "" {
      assert s + x == s;
    } else {
      assert (s + x)[..|s + x| - 1] == s + x[..|x| - 1];
      StemOfSplit(s, x[..|x| - 1]);
    }
  }

  /** Two lines count as the same exactly when they are one text, each with some terminator or none. */
  lemma {:induction false} SameLineExactlyWhen(a: Line, b: Line)
    ensures SameLine(a, b)
       <==> exists s, x, y :: Bare(s) && Terminator(x) && Terminator(y) && a == s + x && b == s + y
  {
    if SameLine(a, b) {
      var x := StemSplits(a);
      var y := StemSplits(b);
      assert a == Stem(a) + x && b == Stem(a) + y;
    } else if exists s, x, y :: Bare(s) && Terminator(x) && Terminator(y) && a == s + x && b == s + y {
      var s, x, y :| Bare(s) && Terminator(x) && Terminator(y) && a == s + x && b == s + y;
      StemOfSplit(s, x);
      StemOfSplit(s, y);
    }
  }

  /** The lines `prior` stand at `at`, up to terminators. */
  ghost predicate Stands(original: seq<Line>, at: nat, prior: seq<Line>) {
    && at + |prior| <= |original|
    && forall k :: 0 <= k < |prior| ==> SameLine(original[at + k], prior[k])
  }

  lemma {:induction false} MatchesWhenStanding(original: seq<Line>, at: nat, prior: seq<Line>)
    requires at <= |original|
    ensures MatchLength(original, at, prior) == |prior| <==> Stands(original, at, prior)
  {
  }

  lemma {:induction false} StandsAt(original: seq<Line>, at: nat, prior: seq<Line>, k: nat)
    requires Stands(original, at, prior) && k < |prior|
    ensures at + k < |original| && SameLine(original[at + k], prior[k])
  {
  }

  // ----- Acceptance and length -----

  /** The hunk's own conditions: its old lines stand where the header says and both counts are exact. */
  ghost predicate HunkFits(original: seq<Line>, h: Hunk) {
    && Stands(original, Place(h.oldStart), OldSide(h.body))
    && |OldSide(h.body)| == h.oldCount
    && |NewSide(h.body)| == h.newCount
  }

  /** All hunks from `j` on fit, in order, none starting before its predecessor has ended. */
  ghost predicate Ordered(hunks: seq<Hunk>, j: nat, cursor: nat) {
    && (j < |hunks| ==> cursor <= Place(hunks[j].oldStart))
    && forall i :: j < i < |hunks| ==> Place(hunks[i - 1].oldStart) + hunks[i - 1].oldCount <= Place(hunks[i].oldStart)
  }

  lemma {:induction false} HunkAccepted(original: seq<Line>, h: Hunk, cursor: nat, number: nat)
    ensures HunkRefusal(original, h, cursor, number) == None
       <==> HunkFits(original, h) && cursor <= Place(h.oldStart)
  {
    if Place(h.oldStart) <= |original| {
      MatchesWhenStanding(original, Place(h.oldStart), OldSide(h.body));
    }
  }

  /** The interpreter accepts exactly the patches whose hunks are in order and each fit the original. */
  lemma {:induction false} AcceptedExactlyWhen(original: seq<Line>, hunks: seq<Hunk>, j: nat, cursor: nat)
    requires j <= |hunks| && cursor <= |original|
    ensures Refusal(original, hunks, j, cursor) == None
       <==> Ordered(hunks, j, cursor) && forall i :: j <= i < |hunks| ==> HunkFits(original, hunks[i])
    decreases |hunks| - j
  {
    if j < |hunks| {
      var h := hunks[j];
      HunkAccepted(original, h, cursor, j + 1);
      if HunkFits(original, h) && cursor <= Place(h.oldStart) {
        AcceptedExactlyWhen(original, hunks, j + 1, Place(h.oldStart) + h.oldCount);
      }
    }
  }

  /**
   A section is refused when, in one of its hunks, a line it keeps or deletes differs from the file's line in anything
   but carriage returns and newlines at the end, or lies past the end of the file.
   */
  lemma {:induction false} DifferenceRefused(original: seq<Line>, section: seq<SectionLine>, m: nat, k: nat)
    requires m < |Hunks(section)| && k < |OldSide(Hunks(section)[m].body)|
    requires
      var at, text := Place(Hunks(section)[m].oldStart) + k, OldSide(Hunks(section)[m].body)[k];
      at >= |original|
      || forall s, x, y :: Bare(s) && Terminator(x) && Terminator(y) && original[at] == s + x ==> text != s + y
    ensures ApplySection(original, section).Err?
  {
    var hunks := Hunks(section);
    AcceptedExactlyWhen(original, hunks, 0, 0);
    if ApplySection(original, section).Ok? {
      assert HunkFits(original, hunks[m]);
      SameLineExactlyWhen(original[Place(hunks[m].oldStart) + k], OldSide(hunks[m].body)[k]);
    }
  }

  // ----- Why a patch is refused -----

  /** A hunk's three refusals, told apart by where it starts, whether its old lines stand there, and its counts. */
  lemma {:induction false} RefusedExactlyWhen(original: seq<Line>, h: Hunk, cursor: nat, number: nat)
    ensures
      var r, start, old' := HunkRefusal(original, h, cursor, number), Place(h.oldStart), OldSide(h.body);
      var placed := cursor <= start <= |original|;
      && (r == Some(InvalidStart(number, h.oldStart)) <==> !placed)
      && ((exists line :: r == Some(ContextMismatch(number, line))) <==> placed && !Stands(original, start, old'))
      && (r == Some(CountMismatch(number, |old'|, |NewSide(h.body)|))
          <==> placed && Stands(original, start, old') && !(|old'| == h.oldCount && |NewSide(h.body)| == h.newCount))
  {
    if Place(h.oldStart) <= |original| {
      MatchesWhenStanding(original, Place(h.oldStart), OldSide(h.body));
      var n := MatchLength(original, Place(h.oldStart), OldSide(h.body));
      assert n < |OldSide(h.body)| && cursor <= Place(h.oldStart) ==>
        HunkRefusal(original, h, cursor, number) == Some(ContextMismatch(number, Place(h.oldStart) + n + 1));
    }
  }

  /** The number a refusal carries is that of the first hunk, counted from 1, that does not stand in the patch. */
  lemma {:induction false} FirstRefused(original: seq<Line>, hunks: seq<Hunk>, j: nat, cursor: nat)
    requires j <= |hunks| && cursor <= |original| && Refusal(original, hunks, j, cursor).Some?
    ensures var e := Refusal(original, hunks, j, cursor).value;
            && !e.NoHunks? && j < e.hunk <= |hunks|
            && Refusal(original, hunks[..e.hunk - 1], j, cursor) == None
            && Refusal(original, hunks[..e.hunk], j, cursor) == Some(e)
    decreases |hunks| - j
  {
    var h := hunks[j];
    var refused := HunkRefusal(original, h, cursor, j + 1);
    if refused.None? {
      HunkAccepted(original, h, cursor, j + 1);
      var next := Place(h.oldStart) + h.oldCount;
      FirstRefused(original, hunks, j + 1, next);
      var n := Refusal(original, hunks, j + 1, next).value.hunk;
      assert hunks[..n - 1][j] == h && hunks[..n][j] == h;
    } else {
      assert hunks[..j + 1][j] == h;
    }
  }

  lemma {:induction false} NoHunkFrom(section: seq<SectionLine>, i: nat)
    requires i <= |section|
    ensures HunksFrom(section, i) == [] <==> forall k :: i <= k < |section| ==> !section[k].Header?
    decreases |section| - i
  {
    if i < |section| && !section[i].Header? {
      NoHunkFrom(section, i + 1);
    }
  }

  /** A section is refused for having no hunk exactly when it has no hunk header. */
  lemma {:induction false} NoHunksExactlyWhen(original: seq<Line>, section: seq<SectionLine>)
    ensures ApplySection(original, section) == Err(NoHunks)
       <==> forall k :: 0 <= k < |section| ==> !section[k].Header?
  {
    NoHunkFrom(section, 0);
    if Hunks(section) != [] && Refusal(original, Hunks(section), 0, 0).Some? {
      FirstRefused(original, Hunks(section), 0, 0);
    }
  }

  // ----- What belongs to a hunk -----

  /** Lines before which a hunk ends and that begin none: what follows them belongs to no hunk. */
  predicate Strays(line: SectionLine) {
    line == BrokenHeader || line.DiffGit?
  }

  lemma {:induction false} NoHeaderNoHunk(b: seq<SectionLine>, i: nat)
    requires i <= |b| && forall k :: i <= k < |b| ==> !b[k].Header?
    ensures HunksFrom(b, i) == []
    decreases |b| - i
  {
    if i < |b| {
      NoHeaderNoHunk(b, i + 1);
    }
  }

  lemma {:induction false} BodyCut(a: seq<SectionLine>, b: seq<SectionLine>, i: nat)
    requires i <= |a| && b != [] && Strays(b[0])
    ensures BodyEdits(a + b, i) == BodyEdits(a, i) && BodyEnd(a + b, i) == BodyEnd(a, i)
    decreases |a| - i
  {
    if i < |a| && !EndsHunk(a[i]) {
      BodyCut(a, b, i + 1);
    }
  }

  lemma {:induction false} HunksCut(a: seq<SectionLine>, b: seq<SectionLine>, i: nat)
    requires i <= |a| && b != [] && Strays(b[0]) && forall k :: 0 <= k < |b| ==> !b[k].Header?
    ensures HunksFrom(a + b, i) == HunksFrom(a, i)
    decreases |a| - i
  {
    if i == |a| {
      NoHeaderNoHunk(a + b, i);
    } else if a[i].Header? {
      BodyCut(a, b, i + 1);
      HunksCut(a, b, BodyEnd(a, i + 1));
    } else {
      HunksCut(a, b, i + 1);
    }
  }

  /** Edits behind a broken hunk header or the header of another file change nothing. */
  lemma {:induction false} StrayEditsIgnored(original: seq<Line>, a: seq<SectionLine>, b: seq<SectionLine>)
    requires b != [] && Strays(b[0]) && forall k :: 0 <= k < |b| ==> !b[k].Header?
    ensures ApplySection(original, a + b) == ApplySection(original, a)
  {
    HunksCut(a, b, 0);
  }

  lemma {:induction false} BodyNoise(a: seq<SectionLine>, noise: SectionLine, b: seq<SectionLine>, i: nat)
    requires i <= |a| + |b| && (noise == NoNewline || noise == Other)
    ensures
      var with, j := a + [noise] + b, if i <= |a| then i else i + 1;
      && BodyEdits(with, j) == BodyEdits(a + b, i)
      && BodyEnd(with, j) == BodyEnd(a + b, i) + (if BodyEnd(a + b, i) >= |a| then 1 else 0)
    decreases |a| + |b| - i
  {
    var with := a + [noise] + b;
    if i < |a| {
      assert with[i] == (a + b)[i] == a[i];
      if !EndsHunk(a[i]) {
        BodyNoise(a, noise, b, i + 1);
      }
    } else {
      if i < |a| + |b| {
        assert with[i + 1] == (a + b)[i] == b[i - |a|];
        if !EndsHunk(b[i - |a|]) {
          BodyNoise(a, noise, b, i + 1);
        }
      }
      assert with[|a|] == noise;
    }
  }

  lemma {:induction false} HunksStep(section: seq<SectionLine>, i: nat)
    requires i <= |section|
    ensures
      HunksFrom(section, i)
      == if i == |section| then []
         else if section[i].Header? then
           var h := section[i];
           [Hunk(h.oldStart, h.oldCount, h.newStart, h.newCount, BodyEdits(section, i + 1))]
           + HunksFrom(section, BodyEnd(section, i + 1))
         else HunksFrom(section, i + 1)
  {
  }

  lemma {:induction false} HunksNoise(a: seq<SectionLine>, noise: SectionLine, b: seq<SectionLine>, i: nat)
    requires i <= |a| + |b| && (noise == NoNewline || noise == Other)
    ensures HunksFrom(a + [noise] + b, if i <= |a| then i else i + 1) == HunksFrom(a + b, i)
    decreases |a| + |b| - i
  {
    hide HunksFrom, BodyEdits, BodyEnd;
    var with := a + [noise] + b;
    assert with[|a|] == noise;
    HunksStep(a + b, i);
    HunksStep(with, i);
    HunksStep(with, i + 1);
    HunksStep(with, |a|);
    if i < |a| + |b| {
      assert with[if i < |a| then i else i + 1] == (a + b)[i];
      if (a + b)[i].Header? {
        BodyNoise(a, noise, b, i + 1);
        HunksNoise(a, noise, b, BodyEnd(a + b, i + 1));
      } else {
        HunksNoise(a, noise, b, i + 1);
      }
    }
  }

  /** Lines that are neither edits nor headers may be dropped anywhere. */
  lemma {:induction false} NoiseIgnored(original: seq<Line>, a: seq<SectionLine>, noise: SectionLine,
                                        b: seq<SectionLine>)
    requires noise == NoNewline || noise == Other
    ensures ApplySection(original, a + [noise] + b) == ApplySection(original, a + b)
  {
    HunksNoise(a, noise, b, 0);
  }

  /** A reported context mismatch names the first line, counted from 1, at which file and hunk part. */
  lemma {:induction false} MismatchIsFirst(original: seq<Line>, h: Hunk, cursor: nat, number: nat, line: nat)
    requires HunkRefusal(original, h, cursor, number) == Some(ContextMismatch(number, line))
    ensures
      var start, prior := Place(h.oldStart), OldSide(h.body);
      && start < line <= start + |prior| && line - 1 <= |original|
      && Stands(original, start, prior[..line - 1 - start])
      && !Stands(original, start, prior[..line - start])
  {
    var n := MatchLength(original, Place(h.oldStart), OldSide(h.body));
    assert n == line - 1 - Place(h.oldStart);
    hide MatchFrom, SameLine;
    if Stands(original, Place(h.oldStart), OldSide(h.body)[..n + 1]) {
      StandsAt(original, Place(h.oldStart), OldSide(h.body)[..n + 1], n);
    }
  }

  /** The sum of (new count - old count) over the hunks from `j` on. */
  function Growth(hunks: seq<Hunk>, j: nat): int
    requires j <= |hunks|
    decreases |hunks| - j
  {
    if j == |hunks| then 0 else hunks[j].newCount - hunks[j].oldCount + Growth(hunks, j + 1)
  }

  lemma {:induction false} PatchedLength(original: seq<Line>, hunks: seq<Hunk>, j: nat, cursor: nat)
    requires j <= |hunks| && cursor <= |original| && Refusal(original, hunks, j, cursor) == None
    ensures |Patched(original, hunks, j, cursor)| == |original| - cursor + Growth(hunks, j)
    decreases |hunks| - j
  {
    if j < |hunks| {
      HunkAccepted(original, hunks[j], cursor, j + 1);
      PatchedLength(original, hunks, j + 1, Place(hunks[j].oldStart) + hunks[j].oldCount);
    }
  }

  // ----- Lines modulo terminators -----

  lemma {:induction false} SameAppend(f: seq<Line>, g: seq<Line>, a: seq<Line>, b: seq<Line>)
    requires SameLines(f, g)
    ensures SameLines(f + a, g + b) <==> SameLines(a, b)
  {
    if SameLines(f + a, g + b) {
      forall i | 0 <= i < |a|
        ensures SameLine(a[i], b[i])
      {
        assert SameLine((f + a)[|f| + i], (g + b)[|f| + i]);
      }
    }
  }

  lemma {:induction false} AllLike(adds: seq<Line>, l: Line, k: nat)
    requires k < |adds|
    requires SameLine(adds[0], l) && forall i :: 1 <= i < |adds| ==> SameLine(adds[i], adds[i - 1])
    ensures SameLine(adds[k], l)
  {
    if k > 0 {
      AllLike(adds, l, k - 1);
    }
  }

  /** Moving a line from behind a block to before it is invisible exactly when the block repeats that line. */
  lemma {:induction false} Rotation(adds: seq<Line>, l: Line, rest: seq<Line>, m: seq<Line>)
    ensures SameLines(adds + rest, [l] + adds + m)
       <==> Repeats(adds, l) && SameLines(rest, [l] + m)
  {
    var x, y := adds + rest, [l] + adds + m;
    if SameLines(x, y) {
      if adds != [] {
        assert SameLine(x[0], y[0]);
        forall i | 1 <= i < |adds|
          ensures SameLine(adds[i], adds[i - 1])
        {
          assert SameLine(x[i], y[i]);
        }
      }
      forall i | 0 <= i < |adds|
        ensures SameLine(adds[i], l)
      {
        AllLike(adds, l, i);
      }
      forall i | 0 <= i < |rest|
        ensures SameLine(rest[i], ([l] + m)[i])
      {
        assert SameLine(x[|adds| + i], y[|adds| + i]);
        if i == 0 && adds != [] {
          AllLike(adds, l, |adds| - 1);
        }
      }
    }
  }

  /** What a hunk emits is its new side, up to terminators, wherever its old side stands. */
  lemma {:induction false} MergeIsNewSide(original: seq<Line>, at: nat, body: seq<Edit>, k: nat)
    requires k <= |body| && Stands(original, at, OldTo(body, k))
    ensures SameLines(MergeTo(original, at, body, k), NewTo(body, k))
  {
    if k > 0 {
      assert OldTo(body, k - 1) <= OldTo(body, k);
      assert forall i :: 0 <= i < |OldTo(body, k - 1)| ==> OldTo(body, k - 1)[i] == OldTo(body, k)[i];
      MergeIsNewSide(original, at, body, k - 1);
      if body[k - 1].Keep? {
        assert OldTo(body, k)[|OldTo(body, k - 1)|] == body[k - 1].text;
      }
    }
  }

  // ----- Dividing an edit script into hunks -----

  /** A hunk together with the unchanged lines before it. */
  datatype Piece = Piece(gap: seq<Line>, body: seq<Edit>)

  function OldText(pieces: seq<Piece>, i: nat): seq<Line>
    requires i <= |pieces|
  {
    if i == 0 then [] else OldText(pieces, i - 1) + pieces[i - 1].gap + OldSide(pieces[i - 1].body)
  }

  function NewText(pieces: seq<Piece>, i: nat): seq<Line>
    requires i <= |pieces|
  {
    if i == 0 then [] else NewText(pieces, i - 1) + pieces[i - 1].gap + NewSide(pieces[i - 1].body)
  }

  /** The line numbers before which the hunk's old and new sides stand. */
  function OldAt(pieces: seq<Piece>, i: nat): nat
    requires i < |pieces|
  {
    |OldText(pieces, i)| + |pieces[i].gap|
  }

  function NewAt(pieces: seq<Piece>, i: nat): nat
    requires i < |pieces|
  {
    |NewText(pieces, i)| + |pieces[i].gap|
  }

  /** The start a diff shows for `count` lines at `at`: an empty side shows the line before it. */
  function Shown(at: nat, count: nat): nat {
    if count == 0 then at else at + 1
  }

  function HunkOf(pieces: seq<Piece>, i: nat): Hunk
    requires i < |pieces|
  {
    var prior, next := |OldSide(pieces[i].body)|, |NewSide(pieces[i].body)|;
    Hunk(Shown(OldAt(pieces, i), prior), prior, Shown(NewAt(pieces, i), next), next, pieces[i].body)
  }

  function HunksOf(pieces: seq<Piece>): (hunks: seq<Hunk>)
    ensures |hunks| == |pieces| && forall i :: 0 <= i < |pieces| ==> hunks[i] == HunkOf(pieces, i)
  {
    seq(|pieces|, i requires 0 <= i < |pieces| => HunkOf(pieces, i))
  }

  lemma {:induction false} TextPrefix(pieces: seq<Piece>, i: nat, m: nat)
    requires i <= m <= |pieces|
    ensures OldText(pieces, i) <= OldText(pieces, m)
    ensures NewText(pieces, i) <= NewText(pieces, m)
    decreases m
  {
    if i < m {
      TextPrefix(pieces, i, m - 1);
    }
  }

  lemma {:induction false} OldPiece(pieces: seq<Piece>, tail: seq<Line>, i: nat, k: nat)
    requires i < |pieces| && k < |pieces[i].gap| + |OldSide(pieces[i].body)|
    ensures |OldText(pieces, i)| + k < |OldText(pieces, i + 1)| <= |OldText(pieces, |pieces|) + tail|
    ensures (OldText(pieces, |pieces|) + tail)[|OldText(pieces, i)| + k]
         == (pieces[i].gap + OldSide(pieces[i].body))[k]
  {
    TextPrefix(pieces, i + 1, |pieces|);
    assert OldText(pieces, i + 1) == OldText(pieces, i) + (pieces[i].gap + OldSide(pieces[i].body));
    assert OldText(pieces, i + 1) <= OldText(pieces, |pieces|) + tail;
  }

  /** Piece `i` of a text that reads, up to terminators, as the pieces' old sides and the tail. */
  lemma {:induction false} PieceStands(prior: seq<Line>, pieces: seq<Piece>, tail: seq<Line>, i: nat)
    requires SameLines(prior, OldText(pieces, |pieces|) + tail) && i < |pieces|
    ensures OldAt(pieces, i) + |OldSide(pieces[i].body)| == |OldText(pieces, i + 1)| <= |prior|
    ensures SameLines(prior[|OldText(pieces, i)|..OldAt(pieces, i)], pieces[i].gap)
    ensures Stands(prior, OldAt(pieces, i), OldSide(pieces[i].body))
  {
    hide SameLine, OldSide;
    TextPrefix(pieces, i + 1, |pieces|);
    var text, a := OldText(pieces, |pieces|) + tail, |OldText(pieces, i)|;
    forall k | 0 <= k < |pieces[i].gap| + |OldSide(pieces[i].body)|
      ensures SameLine(prior[a + k], (pieces[i].gap + OldSide(pieces[i].body))[k])
    {
      OldPiece(pieces, tail, i, k);
      assert SameLine(prior[a + k], text[a + k]);
    }
    assert Stands(prior, a, pieces[i].gap + OldSide(pieces[i].body));
    hide Stands, SameLines, OldText;
    StandsSplit(prior, a, pieces[i].gap, OldSide(pieces[i].body));
  }

  lemma {:induction false} StandsSplit(prior: seq<Line>, a: nat, gap: seq<Line>, side: seq<Line>)
    requires Stands(prior, a, gap + side)
    ensures SameLines(prior[a..a + |gap|], gap)
    ensures Stands(prior, a + |gap|, side)
  {
    forall k | 0 <= k < |gap|
      ensures SameLine(prior[a + k], gap[k])
    {
      assert (gap + side)[k] == gap[k];
    }
    forall k | 0 <= k < |side|
      ensures SameLine(prior[a + |gap| + k], side[k])
    {
      assert SameLine(prior[a + (|gap| + k)], (gap + side)[|gap| + k]);
    }
  }

  // ----- Applying a printed diff -----

  /**
   The diff can be applied as printed: every hunk without old lines is at the very top, or else the line before
   it is still unread and every added line repeats that line.
   */
  predicate Placeable(prior: seq<Line>, pieces: seq<Piece>, i: nat, cursor: nat)
    requires i <= |pieces|
    decreases |pieces| - i
  {
    if i == |pieces| then true
    else if InPlace(pieces, i) then Placeable(prior, pieces, i + 1, |OldText(pieces, i + 1)|)
    else
      && cursor < OldAt(pieces, i) <= |prior|
      && Repeats(NewSide(pieces[i].body), prior[OldAt(pieces, i) - 1])
      && Placeable(prior, pieces, i + 1, OldAt(pieces, i) - 1)
  }

  predicate InPlace(pieces: seq<Piece>, i: nat)
    requires i < |pieces|
  {
    OldSide(pieces[i].body) != [] || OldAt(pieces, i) == 0
  }

  predicate Repeats(adds: seq<Line>, l: Line) {
    forall k :: 0 <= k < |adds| ==> SameLine(adds[k], l)
  }

  /** What is still to be produced from piece `i` on, with the text read up to `cursor`. */
  ghost function Wanted(prior: seq<Line>, pieces: seq<Piece>, tail: seq<Line>, i: nat, cursor: nat): seq<Line>
    requires i <= |pieces| && cursor <= |OldText(pieces, i)| <= |prior|
  {
    TextPrefix(pieces, i, |pieces|);
    prior[cursor..|OldText(pieces, i)|] + (NewText(pieces, |pieces|) + tail)[|NewText(pieces, i)|..]
  }

  lemma {:induction false} WantedAt(prior: seq<Line>, pieces: seq<Piece>, tail: seq<Line>, i: nat, cursor: nat)
    requires i < |pieces| && SameLines(prior, OldText(pieces, |pieces|) + tail)
    requires cursor <= |OldText(pieces, i)| <= |OldText(pieces, i + 1)| <= |prior|
    ensures
      var rest := (NewText(pieces, |pieces|) + tail);
      && |NewText(pieces, i + 1)| <= |rest|
      && Wanted(prior, pieces, tail, i, cursor)
         == prior[cursor..|OldText(pieces, i)|] + pieces[i].gap + NewSide(pieces[i].body)
            + rest[|NewText(pieces, i + 1)|..]
  {
    hide SameLines, SameLine, NewSide, OldText;
    TextPrefix(pieces, i + 1, |pieces|);
    var rest := NewText(pieces, |pieces|) + tail;
    assert NewText(pieces, i + 1) <= rest;
    assert rest == NewText(pieces, i + 1) + rest[|NewText(pieces, i + 1)|..];
    Splice(NewText(pieces, i), pieces[i].gap, NewSide(pieces[i].body), rest[|NewText(pieces, i + 1)|..]);
    assert NewText(pieces, i + 1) == NewText(pieces, i) + pieces[i].gap + NewSide(pieces[i].body);
  }

  lemma {:induction false} Splice(a: seq<Line>, b: seq<Line>, c: seq<Line>, d: seq<Line>)
    ensures (a + b + c + d)[|a|..] == b + c + d
  {
  }

  /** A hunk applied where it was printed, behind the gap `prior[a..at]`. */
  lemma {:induction false} Applied(prior: seq<Line>, h: Hunk, cursor: nat, a: nat, at: nat, gap: seq<Line>,
                                   rest: seq<Line>, m: seq<Line>)
    requires cursor <= a <= at == Place(h.oldStart) && Stands(prior, at, OldSide(h.body))
    requires SameLines(prior[a..at], gap)
    ensures SameLines(Emission(prior, cursor, h) + rest, prior[cursor..a] + gap + NewSide(h.body) + m)
       <==> SameLines(rest, m)
  {
    MergeIsNewSide(prior, at, h.body, |h.body|);
    SameAppend(prior[cursor..a], prior[cursor..a], prior[a..at], gap);
    assert prior[cursor..at] == prior[cursor..a] + prior[a..at];
    SameAppend(prior[cursor..at], prior[cursor..a] + gap, Merge(prior, at, h.body), NewSide(h.body));
    SameAppend(Emission(prior, cursor, h), prior[cursor..a] + gap + NewSide(h.body), rest, m);
  }

  lemma {:induction false} EmitsAdds(prior: seq<Line>, h: Hunk, cursor: nat, at: nat)
    requires cursor < at <= |prior| && Place(h.oldStart) == at - 1 && OldSide(h.body) == []
    ensures Emission(prior, cursor, h) == prior[cursor..at - 1] + NewSide(h.body)
  {
    OnlyAdds(prior, at - 1, h.body, |h.body|);
  }

  /** A hunk without old lines, applied one line too high. */
  lemma {:induction false} Misplaced(prior: seq<Line>, h: Hunk, cursor: nat, a: nat, at: nat, gap: seq<Line>,
                                     rest: seq<Line>, m: seq<Line>)
    requires cursor <= a <= at <= |prior| && cursor < at && Place(h.oldStart) == at - 1
    requires OldSide(h.body) == [] && SameLines(prior[a..at], gap)
    ensures SameLines(Emission(prior, cursor, h) + rest, prior[cursor..a] + gap + NewSide(h.body) + m)
       <==> Repeats(NewSide(h.body), prior[at - 1]) && SameLines(rest, [prior[at - 1]] + m)
  {
    hide Emission, OldSide, NewSide, SameLines, Repeats, MergeTo, Merge;
    EmitsAdds(prior, h, cursor, at);
    assert prior[cursor..a] + prior[a..at] == prior[cursor..at - 1] + [prior[at - 1]];
    SameChain(prior[cursor..at - 1], prior[at - 1], prior[cursor..a], prior[a..at], gap, NewSide(h.body), rest, m);
    Rotation(NewSide(h.body), prior[at - 1], rest, m);
  }

  /** Comparing with the wanted lines, the gap may be read off the old text, its last line set apart. */
  lemma {:induction false} SameChain(front: seq<Line>, last: Line, x: seq<Line>, y: seq<Line>, gap: seq<Line>,
                                     adds: seq<Line>, rest: seq<Line>, m: seq<Line>)
    requires x + y == front + [last] && SameLines(y, gap)
    ensures SameLines(front + adds + rest, x + gap + adds + m) <==> SameLines(adds + rest, [last] + adds + m)
  {
    var p, q := [last] + adds + m, gap + adds + m;
    SameAppend(front, front, adds + rest, p);
    assert front + adds + rest == front + (adds + rest);
    assert front + p == x + (y + adds + m) by {
      assert front + p == (front + [last]) + (adds + m);
      assert x + (y + adds + m) == (x + y) + (adds + m);
    }
    assert x + gap + adds + m == x + q;
    SameAppend(y, gap, adds + m, adds + m);
    assert y + adds + m == y + (adds + m) && q == gap + (adds + m);
    SameAppend(x, x, y + adds + m, q);
    SameBoth(front + adds + rest, x + (y + adds + m), x + q);
  }

  lemma {:induction false} SameBoth(a: seq<Line>, b: seq<Line>, c: seq<Line>)
    requires SameLines(b, c)
    ensures SameLines(a, b) <==> SameLines(a, c)
  {
    if SameLines(a, b) || SameLines(a, c) {
      forall i | 0 <= i < |a|
        ensures SameLine(a[i], b[i]) <==> SameLine(a[i], c[i])
      {
        assert SameLine(b[i], c[i]);
      }
    }
  }

  /** Without old lines a body emits its added lines only. */
  lemma {:induction false} OnlyAdds(original: seq<Line>, at: nat, body: seq<Edit>, k: nat)
    requires k <= |body| && OldTo(body, k) == [] && at <= |original|
    ensures MergeTo(original, at, body, k) == NewTo(body, k)
  {
    if k > 0 {
      OnlyAdds(original, at, body, k - 1);
    }
  }

  /** Where the interpreter puts a printed hunk and when it accepts it there. */
  lemma {:induction false} HunkPlaced(prior: seq<Line>, pieces: seq<Piece>, tail: seq<Line>, i: nat, cursor: nat)
    requires SameLines(prior, OldText(pieces, |pieces|) + tail)
    requires i < |pieces| && cursor <= |OldText(pieces, i)| <= |prior|
    ensures
      var h, at := HunkOf(pieces, i), OldAt(pieces, i);
      && h.body == pieces[i].body
      && |OldText(pieces, i)| <= at <= |OldText(pieces, i + 1)| <= |prior|
      && SameLines(prior[|OldText(pieces, i)|..at], pieces[i].gap)
      && if InPlace(pieces, i)
         then
           && Place(h.oldStart) == at && Place(h.oldStart) + h.oldCount == |OldText(pieces, i + 1)|
           && HunkRefusal(prior, h, cursor, i + 1) == None && Stands(prior, at, OldSide(h.body))
         else
           && at > 0 && OldSide(h.body) == []
           && Place(h.oldStart) == at - 1 == Place(h.oldStart) + h.oldCount
           && at == |OldText(pieces, i + 1)|
           && (HunkRefusal(prior, h, cursor, i + 1) == None <==> cursor < at)
  {
    PieceStands(prior, pieces, tail, i);
    HunkAccepted(prior, HunkOf(pieces, i), cursor, i + 1);
  }

  lemma {:induction false} Unfold(prior: seq<Line>, hunks: seq<Hunk>, i: nat, cursor: nat)
    requires i < |hunks| && cursor <= |prior|
    ensures
      var h := hunks[i];
      var next := Place(h.oldStart) + h.oldCount;
      if HunkRefusal(prior, h, cursor, i + 1) != None then Refusal(prior, hunks, i, cursor) != None
      else
        && next <= |prior|
        && (Refusal(prior, hunks, i, cursor) == None <==> Refusal(prior, hunks, i + 1, next) == None)
        && (Refusal(prior, hunks, i, cursor) == None ==>
              Patched(prior, hunks, i, cursor)
              == Emission(prior, cursor, h) + Patched(prior, hunks, i + 1, next))
  {
  }

  /** The interpreter produces what is wanted from piece `i` on. */
  ghost predicate Delivers(prior: seq<Line>, pieces: seq<Piece>, tail: seq<Line>, i: nat, cursor: nat)
    requires i <= |pieces|
  {
    && cursor <= |OldText(pieces, i)| <= |prior|
    && Refusal(prior, HunksOf(pieces), i, cursor) == None
    && SameLines(Patched(prior, HunksOf(pieces), i, cursor), Wanted(prior, pieces, tail, i, cursor))
  }

  lemma {:induction false} DeliversTail(prior: seq<Line>, pieces: seq<Piece>, tail: seq<Line>, cursor: nat)
    requires SameLines(prior, OldText(pieces, |pieces|) + tail)
    requires cursor <= |OldText(pieces, |pieces|)|
    ensures Delivers(prior, pieces, tail, |pieces|, cursor)
  {
    var i := |pieces|;
    var n := |OldText(pieces, i)|;
    forall k | 0 <= k < |tail|
      ensures SameLine(prior[n..][k], tail[k])
    {
      assert SameLine(prior[n + k], (OldText(pieces, i) + tail)[n + k]);
    }
    SameAppend(prior[cursor..n], prior[cursor..n], prior[n..], tail);
    assert prior[cursor..] == prior[cursor..n] + prior[n..];
    assert (NewText(pieces, i) + tail)[|NewText(pieces, i)|..] == tail;
  }

  lemma {:induction false} WantedNext(prior: seq<Line>, pieces: seq<Piece>, tail: seq<Line>, i: nat, next: nat)
    requires i < |pieces| && next <= |OldText(pieces, i + 1)| <= |prior|
    ensures |NewText(pieces, i + 1)| <= |NewText(pieces, |pieces|) + tail|
    ensures
      var m := (NewText(pieces, |pieces|) + tail)[|NewText(pieces, i + 1)|..];
      && (next == |OldText(pieces, i + 1)| ==> Wanted(prior, pieces, tail, i + 1, next) == m)
      && (next == |OldText(pieces, i + 1)| - 1 ==> Wanted(prior, pieces, tail, i + 1, next) == [prior[next]] + m)
  {
    hide OldText, NewText;
    TextPrefix(pieces, i + 1, |pieces|);
    assert |NewText(pieces, |pieces|)| <= |NewText(pieces, |pieces|) + tail|;
  }

  /** A hunk printed with old lines (or at the top): delivering from it on is delivering from the next one on. */
  lemma {:induction false} DeliversInPlace(prior: seq<Line>, pieces: seq<Piece>, tail: seq<Line>, i: nat, cursor: nat)
    requires SameLines(prior, OldText(pieces, |pieces|) + tail)
    requires i < |pieces| && cursor <= |OldText(pieces, i)| <= |prior| && InPlace(pieces, i)
    ensures |OldText(pieces, i + 1)| <= |prior|
    ensures Delivers(prior, pieces, tail, i, cursor)
       <==> Delivers(prior, pieces, tail, i + 1, |OldText(pieces, i + 1)|)
  {
    hide OldText, NewText, Refusal, Patched, Emission, HunkRefusal, OldSide, NewSide, HunkOf, OldAt, Wanted, SameLines,
         Repeats, Stands, SameLine, Place;
    var hunks, h, next := HunksOf(pieces), HunkOf(pieces, i), |OldText(pieces, i + 1)|;
    HunkPlaced(prior, pieces, tail, i, cursor);
    Unfold(prior, hunks, i, cursor);
    if Refusal(prior, hunks, i + 1, next) == None {
      WantedAt(prior, pieces, tail, i, cursor);
      WantedNext(prior, pieces, tail, i, next);
      Applied(prior, h, cursor, |OldText(pieces, i)|, OldAt(pieces, i), pieces[i].gap,
              Patched(prior, hunks, i + 1, next), Wanted(prior, pieces, tail, i + 1, next));
    }
  }

  /** A hunk printed without old lines below the top: its lines must repeat the one they are put above. */
  lemma {:induction false} DeliversMisplaced(prior: seq<Line>, pieces: seq<Piece>, tail: seq<Line>, i: nat, cursor: nat)
    requires SameLines(prior, OldText(pieces, |pieces|) + tail)
    requires i < |pieces| && cursor <= |OldText(pieces, i)| <= |prior| && !InPlace(pieces, i)
    ensures 0 < OldAt(pieces, i) == |OldText(pieces, i + 1)| <= |prior|
    ensures cursor >= OldAt(pieces, i) ==> !Delivers(prior, pieces, tail, i, cursor)
    ensures cursor < OldAt(pieces, i) ==>
      (Delivers(prior, pieces, tail, i, cursor) <==>
        && Repeats(NewSide(pieces[i].body), prior[OldAt(pieces, i) - 1])
        && Delivers(prior, pieces, tail, i + 1, OldAt(pieces, i) - 1))
  {
    hide OldText, NewText, Refusal, Patched, Emission, HunkRefusal, OldSide, NewSide, HunkOf, OldAt, Wanted, SameLines,
         Repeats, Stands, SameLine, Place;
    var hunks, h, at := HunksOf(pieces), HunkOf(pieces, i), OldAt(pieces, i);
    HunkPlaced(prior, pieces, tail, i, cursor);
    Unfold(prior, hunks, i, cursor);
    if cursor < at && Refusal(prior, hunks, i + 1, at - 1) == None {
      WantedAt(prior, pieces, tail, i, cursor);
      WantedNext(prior, pieces, tail, i, at - 1);
      Misplaced(prior, h, cursor, |OldText(pieces, i)|, at, pieces[i].gap, Patched(prior, hunks, i + 1, at - 1),
                (NewText(pieces, |pieces|) + tail)[|NewText(pieces, i + 1)|..]);
    }
  }

  lemma {:induction false} RoundTripFrom(prior: seq<Line>, pieces: seq<Piece>, tail: seq<Line>, i: nat, cursor: nat)
    requires SameLines(prior, OldText(pieces, |pieces|) + tail)
    requires i <= |pieces| && cursor <= |OldText(pieces, i)| <= |prior|
    ensures Delivers(prior, pieces, tail, i, cursor) <==> Placeable(prior, pieces, i, cursor)
    decreases |pieces| - i
  {
    hide OldText, NewText, Delivers, OldSide, NewSide, Repeats, InPlace, SameLines;
    if i == |pieces| {
      DeliversTail(prior, pieces, tail, cursor);
    } else if InPlace(pieces, i) {
      DeliversInPlace(prior, pieces, tail, i, cursor);
      RoundTripFrom(prior, pieces, tail, i + 1, |OldText(pieces, i + 1)|);
    } else {
      DeliversMisplaced(prior, pieces, tail, i, cursor);
      if cursor < OldAt(pieces, i) {
        RoundTripFrom(prior, pieces, tail, i + 1, OldAt(pieces, i) - 1);
      }
    }
  }

  /**
   Round trip: a section whose hunks are the pieces as a diff prints them turns the old text into the new one,
   up to line terminators, exactly when the diff is placeable.
   */
  lemma {:induction false} RoundTrip(prior: seq<Line>, pieces: seq<Piece>, tail: seq<Line>, section: seq<SectionLine>)
    requires SameLines(prior, OldText(pieces, |pieces|) + tail)
    requires pieces != [] && Hunks(section) == HunksOf(pieces)
    ensures
      var r := ApplySection(prior, section);
      (r.Ok? && SameLines(r.value, NewText(pieces, |pieces|) + tail)) <==> Placeable(prior, pieces, 0, 0)
  {
    RoundTripFrom(prior, pieces, tail, 0, 0);
    assert Wanted(prior, pieces, tail, 0, 0) == NewText(pieces, |pieces|) + tail;
  }

  /** A diff in which every hunk has an old line or stands at the top is placeable, whatever it is applied to. */
  lemma {:induction false} AnchoredIsPlaceable(prior: seq<Line>, pieces: seq<Piece>, i: nat, cursor: nat)
    requires i <= |pieces| && forall k :: i <= k < |pieces| ==> InPlace(pieces, k)
    ensures Placeable(prior, pieces, i, cursor)
    decreases |pieces| - i
  {
    hide InPlace;
    if i < |pieces| {
      AnchoredIsPlaceable(prior, pieces, i + 1, |OldText(pieces, i + 1)|);
    }
  }

  /** Adding a line below the first line, without context: the added line ends up above it. */
  lemma {:induction false} MisplacedInsertion()
    ensures
      var pieces := [Piece(["a"], [Add("x")])];
      && HunksOf(pieces) == [Hunk(1, 0, 2, 1, [Add("x")])]
      && OldText(pieces, 1) + ["b"] == ["a", "b"]
      && NewText(pieces, 1) + ["b"] == ["a", "x", "b"]
      && Refusal(["a", "b"], HunksOf(pieces), 0, 0) == None
      && Patched(["a", "b"], HunksOf(pieces), 0, 0) == ["x", "a", "b"]
  {
    var pieces := [Piece(["a"], [Add("x")])];
    var body := pieces[0].body;
    assert OldTo(body, 1) == [] && NewTo(body, 1) == ["x"];
    assert OldText(pieces, 0) == [] == NewText(pieces, 0);
    assert OldText(pieces, 1) == ["a"] && NewText(pieces, 1) == ["a", "x"];
    assert HunkOf(pieces, 0) == Hunk(1, 0, 2, 1, body);
    assert Refusal(["a", "b"], HunksOf(pieces), 1, 0) == None;
    assert MergeTo(["a", "b"], 0, body, 1) == ["x"];
    assert Patched(["a", "b"], HunksOf(pieces), 1, 0) == ["a", "b"];
  }

  // ----- Undoing a patch -----

  function Inverse(e: Edit): Edit {
    match e
    case Keep(text) => Keep(text)
    case Del(text) => Add(text)
    case Add(text) => Del(text)
  }

  function InverseBody(body: seq<Edit>): (inverse: seq<Edit>)
    ensures |inverse| == |body| && forall k :: 0 <= k < |body| ==> inverse[k] == Inverse(body[k])
  {
    seq(|body|, k requires 0 <= k < |body| => Inverse(body[k]))
  }

  function InverseHunk(h: Hunk): Hunk {
    Hunk(h.newStart, h.newCount, h.oldStart, h.oldCount, InverseBody(h.body))
  }

  function InverseHunks(hunks: seq<Hunk>): (inverse: seq<Hunk>)
    ensures |inverse| == |hunks| && forall j :: 0 <= j < |hunks| ==> inverse[j] == InverseHunk(hunks[j])
  {
    seq(|hunks|, j requires 0 <= j < |hunks| => InverseHunk(hunks[j]))
  }

  lemma {:induction false} InverseSides(body: seq<Edit>, k: nat)
    requires k <= |body|
    ensures OldTo(InverseBody(body), k) == NewTo(body, k)
    ensures NewTo(InverseBody(body), k) == OldTo(body, k)
  {
    if k > 0 {
      InverseSides(body, k - 1);
    }
  }

  /** The headers' new starts are where the hunks' output really lands, `written` lines being out at `cursor`. */
  predicate NewStartsHold(hunks: seq<Hunk>, j: nat, cursor: nat, written: nat)
    requires j <= |hunks|
    decreases |hunks| - j
  {
    if j == |hunks| then true
    else
      && cursor <= Place(hunks[j].oldStart)
      && Place(hunks[j].newStart) == written + (Place(hunks[j].oldStart) - cursor)
      && NewStartsHold(hunks, j + 1, Place(hunks[j].oldStart) + hunks[j].oldCount,
                       Place(hunks[j].newStart) + hunks[j].newCount)
  }

  /** Undoing one hunk, then comparing the rest. */
  lemma {:induction false} UndoHunk(original: seq<Line>, h: Hunk, cursor: nat, patched: seq<Line>, written: nat,
                                    rest: seq<Line>)
    requires HunkFits(original, h) && cursor <= Place(h.oldStart)
    requires Place(h.newStart) == written + (Place(h.oldStart) - cursor)
    requires written <= |patched| && patched[written..] == Emission(original, cursor, h) + rest
    ensures HunkFits(patched, InverseHunk(h))
    ensures SameLines(Emission(patched, written, InverseHunk(h)),
                      original[cursor..Place(h.oldStart) + h.oldCount])
    ensures Place(h.newStart) + h.newCount <= |patched| && patched[Place(h.newStart) + h.newCount..] == rest
  {
    hide OldTo, NewTo, MergeTo;
    var start, start', merged := Place(h.oldStart), Place(h.newStart), Merge(original, Place(h.oldStart), h.body);
    var gap := original[cursor..start];
    InverseSides(h.body, |h.body|);
    MergeIsNewSide(original, start, h.body, |h.body|);
    Tail(patched, written, gap, merged, rest);
    assert Stands(patched, start', NewSide(h.body));
    MergeIsNewSide(patched, start', InverseBody(h.body), |h.body|);
    UndoesTo(original, start, OldSide(h.body), Merge(patched, start', InverseBody(h.body)));
    assert patched[written..start'] == gap;
    assert original[cursor..start + h.oldCount] == gap + original[start..start + h.oldCount];
    SameAppend(gap, gap, Merge(patched, start', InverseBody(h.body)), original[start..start + h.oldCount]);
  }

  lemma {:induction false} UndoesTo(original: seq<Line>, at: nat, prior: seq<Line>, emitted: seq<Line>)
    requires Stands(original, at, prior) && SameLines(emitted, prior)
    ensures SameLines(emitted, original[at..at + |prior|])
  {
    forall k | 0 <= k < |prior|
      ensures SameLine(emitted[k], original[at + k])
    {
      assert SameLine(original[at + k], prior[k]) && SameLine(emitted[k], prior[k]);
    }
  }

  lemma {:induction false} Tail(s: seq<Line>, w: nat, a: seq<Line>, b: seq<Line>, rest: seq<Line>)
    requires w <= |s| && s[w..] == a + b + rest
    ensures |s| == w + |a| + |b| + |rest|
    ensures s[w..w + |a|] == a && s[w + |a| + |b|..] == rest
    ensures forall k :: 0 <= k < |b| ==> s[w + |a| + k] == b[k]
  {
    forall k | 0 <= k < |b|
      ensures s[w + |a| + k] == b[k]
    {
      assert s[w..][|a| + k] == b[k];
    }
    assert s[w..w + |a|] == s[w..][..|a|];
    assert s[w + |a| + |b|..] == s[w..][|a| + |b|..];
  }

  /** From hunk `j` on the patch is accepted, its new starts hold, and `patched` goes on with its output. */
  ghost predicate Undoable(original: seq<Line>, hunks: seq<Hunk>, j: nat, cursor: nat, patched: seq<Line>,
                           written: nat)
  {
    && j <= |hunks| && cursor <= |original| && written <= |patched|
    && Refusal(original, hunks, j, cursor) == None
    && NewStartsHold(hunks, j, cursor, written)
    && patched[written..] == Patched(original, hunks, j, cursor)
  }

  /** The swapped hunks from `j` on are accepted on `patched` and give the rest of the original back. */
  ghost predicate Undone(original: seq<Line>, hunks: seq<Hunk>, j: nat, cursor: nat, patched: seq<Line>, written: nat)
    requires j <= |hunks| && cursor <= |original| && written <= |patched|
  {
    && Refusal(patched, InverseHunks(hunks), j, written) == None
    && SameLines(Patched(patched, InverseHunks(hunks), j, written), original[cursor..])
  }

  lemma {:induction false} UndoableNext(original: seq<Line>, hunks: seq<Hunk>, j: nat, cursor: nat,
                                        patched: seq<Line>, written: nat)
    requires j < |hunks| && Undoable(original, hunks, j, cursor, patched, written)
    ensures
      var h := hunks[j];
      var next, next' := Place(h.oldStart) + h.oldCount, Place(h.newStart) + h.newCount;
      && cursor <= next <= |original|
      && Undoable(original, hunks, j + 1, next, patched, next')
      && HunkRefusal(patched, InverseHunk(h), written, j + 1) == None
      && HunkFits(patched, InverseHunk(h)) && written <= Place(h.newStart)
      && SameLines(Emission(patched, written, InverseHunk(h)), original[cursor..next])
  {
    hide Emission, HunkRefusal, Refusal, Patched, OldSide, NewSide, SameLines, Place;
    var h := hunks[j];
    var next := Place(h.oldStart) + h.oldCount;
    Unfold(original, hunks, j, cursor);
    HunkAccepted(original, h, cursor, j + 1);
    HunkAccepted(patched, InverseHunk(h), written, j + 1);
    UndoHunk(original, h, cursor, patched, written, Patched(original, hunks, j + 1, next));
  }

  lemma {:induction false} UndoneBefore(original: seq<Line>, hunks: seq<Hunk>, j: nat, cursor: nat,
                                        patched: seq<Line>, written: nat)
    requires j < |hunks| && Undoable(original, hunks, j, cursor, patched, written)
    requires
      var h := hunks[j];
      var next, next' := Place(h.oldStart) + h.oldCount, Place(h.newStart) + h.newCount;
      && next <= |original| && next' <= |patched|
      && Undone(original, hunks, j + 1, next, patched, next')
    ensures Undone(original, hunks, j, cursor, patched, written)
  {
    hide Undoable, Emission, HunkRefusal, Refusal, Patched, OldSide, NewSide, SameLines, Place;
    var h, inverse := hunks[j], InverseHunks(hunks);
    var next, next' := Place(h.oldStart) + h.oldCount, Place(h.newStart) + h.newCount;
    assert cursor <= |original| && written <= |patched| by {
      UndoableBounds(original, hunks, j, cursor, patched, written);
    }
    UndoableNext(original, hunks, j, cursor, patched, written);
    Unfold(patched, inverse, j, written);
    SameAppend(Emission(patched, written, InverseHunk(h)), original[cursor..next],
               Patched(patched, inverse, j + 1, next'), original[next..]);
    assert original[cursor..] == original[cursor..next] + original[next..];
  }

  lemma {:induction false} UndoableBounds(original: seq<Line>, hunks: seq<Hunk>, j: nat, cursor: nat,
                                          patched: seq<Line>, written: nat)
    requires Undoable(original, hunks, j, cursor, patched, written)
    ensures j <= |hunks| && cursor <= |original| && written <= |patched|
    ensures j == |hunks| ==> Undone(original, hunks, j, cursor, patched, written)
  {
  }

  /**
   Undo: if a patch is accepted and its new starts hold, the patch with both sides swapped is accepted on the
   result and gives the original back, up to line terminators.
   */
  lemma {:induction false} UndoFrom(original: seq<Line>, hunks: seq<Hunk>, j: nat, cursor: nat, patched: seq<Line>,
                                    written: nat)
    requires Undoable(original, hunks, j, cursor, patched, written)
    ensures j <= |hunks| && cursor <= |original| && written <= |patched|
    ensures Undone(original, hunks, j, cursor, patched, written)
    decreases |hunks| - j
  {
    hide *;
    UndoableBounds(original, hunks, j, cursor, patched, written);
    if j < |hunks| {
      var h := hunks[j];
      UndoableNext(original, hunks, j, cursor, patched, written);
      UndoFrom(original, hunks, j + 1, Place(h.oldStart) + h.oldCount, patched, Place(h.newStart) + h.newCount);
      UndoneBefore(original, hunks, j, cursor, patched, written);
    }
  }

  lemma {:induction false} Undo(original: seq<Line>, section: seq<SectionLine>, undo: seq<SectionLine>)
    requires ApplySection(original, section).Ok? && NewStartsHold(Hunks(section), 0, 0, 0)
    requires Hunks(undo) == InverseHunks(Hunks(section))
    ensures
      var back := ApplySection(ApplySection(original, section).value, undo);
      back.Ok? && SameLines(back.value, original)
  {
    var patched := ApplySection(original, section).value;
    assert patched[0..] == patched && original[0..] == original;
    UndoFrom(original, Hunks(section), 0, 0, patched, 0);
  }

  // ----- Sections as text -----

  /** The section with additions and deletions, and the two sides of every header, swapped. */
  function InverseLine(line: SectionLine): SectionLine {
    match line
    case Header(os, oc, ns, nc) => Header(ns, nc, os, oc)
    case Body(e) => Body(Inverse(e))
    case _ => line
  }

  function InverseSection(section: seq<SectionLine>): (inverse: seq<SectionLine>)
    ensures |inverse| == |section| && forall i :: 0 <= i < |section| ==> inverse[i] == InverseLine(section[i])
  {
    seq(|section|, i requires 0 <= i < |section| => InverseLine(section[i]))
  }

  lemma {:induction false} InverseBodyLines(section: seq<SectionLine>, i: nat)
    requires i <= |section|
    ensures BodyEnd(InverseSection(section), i) == BodyEnd(section, i)
    ensures BodyEdits(InverseSection(section), i) == InverseBody(BodyEdits(section, i))
    decreases |section| - i
  {
    if i < |section| && !EndsHunk(section[i]) {
      InverseBodyLines(section, i + 1);
    }
  }

  lemma {:induction false} InverseSectionHunks(section: seq<SectionLine>, i: nat)
    requires i <= |section|
    ensures HunksFrom(InverseSection(section), i) == InverseHunks(HunksFrom(section, i))
    decreases |section| - i
  {
    if i < |section| {
      if section[i].Header? {
        InverseBodyLines(section, i + 1);
        InverseSectionHunks(section, BodyEnd(section, i + 1));
      } else {
        InverseSectionHunks(section, i + 1);
      }
    }
  }

  /** Swapping the markers and header sides of an accepted patch whose new starts hold undoes it. */
  lemma {:induction false} SwappedSectionUndoes(original: seq<Line>, section: seq<SectionLine>)
    requires ApplySection(original, section).Ok? && NewStartsHold(Hunks(section), 0, 0, 0)
    ensures
      var back := ApplySection(ApplySection(original, section).value, InverseSection(section));
      back.Ok? && SameLines(back.value, original)
  {
    InverseSectionHunks(section, 0);
    Undo(original, section, InverseSection(section));
  }

  function BodyLines(body: seq<Edit>): (lines: seq<SectionLine>)
    ensures |lines| == |body| && forall k :: 0 <= k < |body| ==> lines[k] == Body(body[k])
  {
    seq(|body|, k requires 0 <= k < |body| => Body(body[k]))
  }

  /** The pieces from number `i` on, printed as a diff. */
  function Printed(pieces: seq<Piece>, i: nat): seq<SectionLine>
    requires i <= |pieces|
    decreases |pieces| - i
  {
    if i == |pieces| then []
    else
      var h := HunkOf(pieces, i);
      [Header(h.oldStart, h.oldCount, h.newStart, h.newCount)] + BodyLines(h.body) + Printed(pieces, i + 1)
  }

  lemma {:induction false} PrintedBody(section: seq<SectionLine>, first: nat, body: seq<Edit>, k: nat)
    requires first + |body| <= |section| && k <= |body|
    requires forall m :: 0 <= m < |body| ==> section[first + m] == Body(body[m])
    requires first + |body| == |section| || EndsHunk(section[first + |body|])
    ensures BodyEnd(section, first + k) == first + |body|
    ensures BodyEdits(section, first + k) == body[k..]
    decreases |body| - k
  {
    if k < |body| {
      assert section[first + k] == Body(body[k]);
      PrintedBody(section, first, body, k + 1);
    }
  }

  /** One printed hunk at `at`. */
  lemma {:induction false} PrintedHunk(section: seq<SectionLine>, at: nat, pieces: seq<Piece>, i: nat)
    requires i < |pieces| && at <= |section| && section[at..] == Printed(pieces, i)
    ensures
      var h := HunkOf(pieces, i);
      var next := at + 1 + |h.body|;
      && next <= |section| && section[next..] == Printed(pieces, i + 1)
      && section[at] == Header(h.oldStart, h.oldCount, h.newStart, h.newCount)
      && BodyEnd(section, at + 1) == next && BodyEdits(section, at + 1) == h.body
  {
    hide HunkOf;
    var h := HunkOf(pieces, i);
    var body := h.body;
    var next := at + 1 + |body|;
    assert section[at] == section[at..][0];
    forall m | 0 <= m < |body|
      ensures section[at + 1 + m] == Body(body[m])
    {
      assert section[at..][1 + m] == BodyLines(body)[m];
    }
    assert section[next..] == section[at..][1 + |body|..] == Printed(pieces, i + 1);
    if i + 1 < |pieces| {
      assert section[next] == section[next..][0];
    }
    PrintedBody(section, at + 1, body, 0);
  }

  lemma {:induction false} HeaderStartsHunk(section: seq<SectionLine>, at: nat)
    requires at < |section| && section[at].Header?
    ensures
      var line := section[at];
      HunksFrom(section, at)
      == [Hunk(line.oldStart, line.oldCount, line.newStart, line.newCount, BodyEdits(section, at + 1))]
         + HunksFrom(section, BodyEnd(section, at + 1))
  {
  }

  lemma {:induction false} PrintedEnd(section: seq<SectionLine>, at: nat, pieces: seq<Piece>)
    requires at <= |section| && section[at..] == Printed(pieces, |pieces|)
    ensures HunksFrom(section, at) == HunksOf(pieces)[|pieces|..]
  {
    assert at == |section|;
  }

  lemma {:induction false} HunksOfAt(pieces: seq<Piece>, i: nat)
    requires i < |pieces|
    ensures HunksOf(pieces)[i] == HunkOf(pieces, i)
    ensures HunkOf(pieces, i).body == pieces[i].body
  {
  }

  lemma {:induction false} SuffixCons<T>(s: seq<T>, i: nat)
    requires i < |s|
    ensures s[i..] == [s[i]] + s[i + 1..]
  {
  }

  lemma {:induction false} PrintedFrom(section: seq<SectionLine>, at: nat, pieces: seq<Piece>, i: nat)
    requires i <= |pieces| && at <= |section| && section[at..] == Printed(pieces, i)
    ensures HunksFrom(section, at) == HunksOf(pieces)[i..]
    decreases |pieces| - i
  {
    hide *;
    if i == |pieces| {
      PrintedEnd(section, at, pieces);
    } else {
      var next := at + 1 + |HunkOf(pieces, i).body|;
      PrintedHunk(section, at, pieces, i);
      HeaderStartsHunk(section, at);
      HunksOfAt(pieces, i);
      PrintedFrom(section, next, pieces, i + 1);
      SuffixCons(HunksOf(pieces), i);
    }
  }

  /** Reading a printed diff gives its hunks back. */
  lemma {:induction false} PrintThenRead(pieces: seq<Piece>)
    ensures Hunks(Printed(pieces, 0)) == HunksOf(pieces)
  {
    var section := Printed(pieces, 0);
    assert section[0..] == section;
    PrintedFrom(section, 0, pieces, 0);
    assert HunksOf(pieces)[0..] == HunksOf(pieces);
  }

  // ----- The printed diff, swapped -----

  function InversePieces(pieces: seq<Piece>): (inverse: seq<Piece>)
    ensures |inverse| == |pieces|
    ensures forall i :: 0 <= i < |pieces| ==> inverse[i] == Piece(pieces[i].gap, InverseBody(pieces[i].body))
  {
    seq(|pieces|, i requires 0 <= i < |pieces| => Piece(pieces[i].gap, InverseBody(pieces[i].body)))
  }

  lemma {:induction false} InverseTexts(pieces: seq<Piece>, i: nat)
    requires i <= |pieces|
    ensures OldText(InversePieces(pieces), i) == NewText(pieces, i)
    ensures NewText(InversePieces(pieces), i) == OldText(pieces, i)
  {
    if i > 0 {
      InverseTexts(pieces, i - 1);
      InverseSides(pieces[i - 1].body, |pieces[i - 1].body|);
    }
  }

  lemma {:induction false} InversePieceHunks(pieces: seq<Piece>)
    ensures InverseHunks(HunksOf(pieces)) == HunksOf(InversePieces(pieces))
  {
    forall i | 0 <= i < |pieces|
      ensures InverseHunk(HunkOf(pieces, i)) == HunkOf(InversePieces(pieces), i)
    {
      InverseTexts(pieces, i);
      InverseSides(pieces[i].body, |pieces[i].body|);
    }
  }

  /**
   A printed diff with its sides swapped turns the new text (up to terminators) back into the old one exactly
   when the inverse division is placeable.
   */
  lemma {:induction false} SwappedPrintUndoesExactlyWhen(next: seq<Line>, pieces: seq<Piece>, tail: seq<Line>)
    requires pieces != [] && SameLines(next, NewText(pieces, |pieces|) + tail)
    ensures
      var r := ApplySection(next, InverseSection(Printed(pieces, 0)));
      (r.Ok? && SameLines(r.value, OldText(pieces, |pieces|) + tail))
      <==> Placeable(next, InversePieces(pieces), 0, 0)
  {
    PrintThenRead(pieces);
    InverseSectionHunks(Printed(pieces, 0), 0);
    InversePieceHunks(pieces);
    InverseTexts(pieces, |pieces|);
    RoundTrip(next, InversePieces(pieces), tail, InverseSection(Printed(pieces, 0)));
  }

  /** A printed diff applied to the old text gives the new one exactly when it is placeable. */
  lemma {:induction false} PrintedDiffAppliesExactlyWhen(prior: seq<Line>, pieces: seq<Piece>, tail: seq<Line>)
    requires pieces != [] && SameLines(prior, OldText(pieces, |pieces|) + tail)
    ensures
      var r := ApplySection(prior, Printed(pieces, 0));
      (r.Ok? && SameLines(r.value, NewText(pieces, |pieces|) + tail)) <==> Placeable(prior, pieces, 0, 0)
  {
    PrintThenRead(pieces);
    RoundTrip(prior, pieces, tail, Printed(pieces, 0));
  }

  /** When every hunk names a line on both sides, the printed diff applies and, swapped, undoes itself. */
  lemma {:induction false} PrintedDiffRoundTrips(prior: seq<Line>, pieces: seq<Piece>, tail: seq<Line>)
    requires pieces != [] && SameLines(prior, OldText(pieces, |pieces|) + tail)
    requires forall i :: 0 <= i < |pieces| ==> OldSide(pieces[i].body) != [] && NewSide(pieces[i].body) != []
    ensures
      var there := ApplySection(prior, Printed(pieces, 0));
      && there.Ok? && SameLines(there.value, NewText(pieces, |pieces|) + tail)
      && var back := ApplySection(there.value, InverseSection(Printed(pieces, 0)));
      && back.Ok? && SameLines(back.value, OldText(pieces, |pieces|) + tail)
  {
    AnchoredIsPlaceable(prior, pieces, 0, 0);
    PrintedDiffAppliesExactlyWhen(prior, pieces, tail);
    var next := ApplySection(prior, Printed(pieces, 0)).value;
    forall i | 0 <= i < |pieces|
      ensures InPlace(InversePieces(pieces), i)
    {
      InverseSides(pieces[i].body, |pieces[i].body|);
    }
    AnchoredIsPlaceable(next, InversePieces(pieces), 0, 0);
    SwappedPrintUndoesExactlyWhen(next, pieces, tail);
  }
}
