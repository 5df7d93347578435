/**
 The cursor-driven hunk interpreter of scripts/apply_unified_diff.py.

 A patch section is a sequence of classified lines.  `ApplyFile` walks it with the original's two nested
 loops; `ApplySection` says, hunk by hunk, what that walk has to produce.
 */
module UnifiedDiff {
  import opened Outcomes

  type Line = string

  // ----- Lines modulo their terminator -----

  /** The line without its trailing carriage returns and newlines. */
  function Stem(line: Line): Line {
    if |line| > 0 && (line[|line| - 1] == '\r' || line[|line| - 1] == '\n')
    then Stem(line[..|line| - 1])
    else line
  }

  predicate SameLine(a: Line, b: Line) {
    Stem(a) == Stem(b)
  }

  ghost predicate SameLines(a: seq<Line>, b: seq<Line>) {
    && |a| == |b|
    && forall i :: 0 <= i < |a| ==> SameLine(a[i], b[i])
  }

  // ----- Sections and hunks -----

  datatype Edit = Keep(text: Line) | Del(text: Line) | Add(text: Line)

  /** One line of a patch section, as the interpreter distinguishes them. */
  datatype SectionLine =
    | Header(oldStart: nat, oldCount: nat, newStart: nat, newCount: nat)
    | BrokenHeader                   // starts with "@@ " but is no hunk header
    | DiffGit(path: Option<string>)  // starts with "diff --git "; None if it names no path
    | Body(edit: Edit)
    | NoNewline                      // "\ No newline at end of file"
    | Other

  datatype Hunk = Hunk(oldStart: nat, oldCount: nat, newStart: nat, newCount: nat, body: seq<Edit>)

  predicate EndsHunk(line: SectionLine) {
    line.Header? || line.BrokenHeader? || line.DiffGit?
  }

  /** Where the hunk body that begins at `i` ends. */
  function BodyEnd(section: seq<SectionLine>, i: nat): (end: nat)
    requires i <= |section|
    ensures i <= end <= |section|
    decreases |section| - i
  {
    if i == |section| || EndsHunk(section[i]) then i else BodyEnd(section, i + 1)
  }

  /** The edits of the hunk body that begins at `i`; noise inside the body is skipped. */
  function BodyEdits(section: seq<SectionLine>, i: nat): seq<Edit>
    requires i <= |section|
    decreases |section| - i
  {
    if i == |section| || EndsHunk(section[i]) then []
    else if section[i].Body? then [section[i].edit] + BodyEdits(section, i + 1)
    else BodyEdits(section, i + 1)
  }

  function HunksFrom(section: seq<SectionLine>, i: nat): seq<Hunk>
    requires i <= |section|
    decreases |section| - i
  {
    if i == |section| then []
    else match section[i]
      case Header(os, oc, ns, nc) =>
        [Hunk(os, oc, ns, nc, BodyEdits(section, i + 1))] + HunksFrom(section, BodyEnd(section, i + 1))
      case _ => HunksFrom(section, i + 1)
  }

  function Hunks(section: seq<SectionLine>): seq<Hunk> {
    HunksFrom(section, 0)
  }

  /** The old lines named by the first `k` edits. */
  function OldTo(body: seq<Edit>, k: nat): seq<Line>
    requires k <= |body|
  {
    if k == 0 then [] else OldTo(body, k - 1) + (if body[k - 1].Add? then [] else [body[k - 1].text])
  }

  /** The new lines named by the first `k` edits. */
  function NewTo(body: seq<Edit>, k: nat): seq<Line>
    requires k <= |body|
  {
    if k == 0 then [] else NewTo(body, k - 1) + (if body[k - 1].Del? then [] else [body[k - 1].text])
  }

  function OldSide(body: seq<Edit>): seq<Line> {
    OldTo(body, |body|)
  }

  function NewSide(body: seq<Edit>): seq<Line> {
    NewTo(body, |body|)
  }

  /** What the first `k` edits emit at `at`: kept lines come from the file itself, added ones from the patch. */
  function MergeTo(original: seq<Line>, at: nat, body: seq<Edit>, k: nat): (merged: seq<Line>)
    requires k <= |body| && at + |OldTo(body, k)| <= |original|
    ensures |merged| == |NewTo(body, k)|
  {
    if k == 0 then []
    else MergeTo(original, at, body, k - 1) + Emitted(original, at + |OldTo(body, k - 1)|, body[k - 1])
  }

  function Merge(original: seq<Line>, at: nat, body: seq<Edit>): seq<Line>
    requires at + |OldSide(body)| <= |original|
  {
    MergeTo(original, at, body, |body|)
  }

  function Emitted(original: seq<Line>, at: nat, e: Edit): seq<Line>
    requires e.Keep? ==> at < |original|
  {
    match e
    case Keep(_) => [original[at]]
    case Del(_) => []
    case Add(text) => [text]
  }

  // ----- Meaning of a section -----

  datatype PatchError =
    | InvalidStart(hunk: nat, oldStart: nat)
    | ContextMismatch(hunk: nat, line: nat)
    | CountMismatch(hunk: nat, oldSeen: nat, newSeen: nat)
    | NoHunks

  /** The zero-based line at which the interpreter places a header's start. */
  function Place(start: nat): nat {
    if start == 0 then 0 else start - 1
  }

  /** How many of the lines `prior` agree with the original from `at` on, the first `i` being known to. */
  function MatchFrom(original: seq<Line>, at: nat, prior: seq<Line>, i: nat): (n: nat)
    requires i <= |prior| && at + i <= |original|
    ensures i <= n <= |prior| && at + n <= |original|
    ensures forall k :: i <= k < n ==> SameLine(original[at + k], prior[k])
    ensures n < |prior| ==> at + n == |original| || !SameLine(original[at + n], prior[n])
    decreases |prior| - i
  {
    if i == |prior| || at + i == |original| || !SameLine(original[at + i], prior[i]) then i
    else MatchFrom(original, at, prior, i + 1)
  }

  function MatchLength(original: seq<Line>, at: nat, prior: seq<Line>): nat
    requires at <= |original|
  {
    MatchFrom(original, at, prior, 0)
  }

  /** Why hunk number `number` is refused when the original was read up to `cursor`; None if it is not. */
  function HunkRefusal(original: seq<Line>, h: Hunk, cursor: nat, number: nat): Option<PatchError> {
    var start, prior := Place(h.oldStart), OldSide(h.body);
    if start < cursor || start > |original| then Some(InvalidStart(number, h.oldStart))
    else
      var n := MatchLength(original, start, prior);
      if n < |prior| then Some(ContextMismatch(number, start + n + 1))
      else if n != h.oldCount || |NewSide(h.body)| != h.newCount
      then Some(CountMismatch(number, n, |NewSide(h.body)|))
      else None
  }

  /** The first refusal among the hunks from number `j` on, the original being read up to `cursor`. */
  function Refusal(original: seq<Line>, hunks: seq<Hunk>, j: nat, cursor: nat): Option<PatchError>
    requires j <= |hunks| && cursor <= |original|
    decreases |hunks| - j
  {
    if j == |hunks| then None
    else
      var refused := HunkRefusal(original, hunks[j], cursor, j + 1);
      if refused.Some? then refused
      else Refusal(original, hunks, j + 1, Place(hunks[j].oldStart) + hunks[j].oldCount)
  }

  /** The stretch of output an accepted hunk accounts for: the lines before it, then what it emits. */
  function Emission(original: seq<Line>, cursor: nat, h: Hunk): seq<Line>
    requires cursor <= Place(h.oldStart) && Place(h.oldStart) + |OldSide(h.body)| <= |original|
  {
    original[cursor..Place(h.oldStart)] + Merge(original, Place(h.oldStart), h.body)
  }

  /** What accepted hunks from number `j` on turn the rest of the original into. */
  function Patched(original: seq<Line>, hunks: seq<Hunk>, j: nat, cursor: nat): seq<Line>
    requires j <= |hunks| && cursor <= |original| && Refusal(original, hunks, j, cursor) == None
    decreases |hunks| - j
  {
    if j == |hunks| then original[cursor..]
    else
      Emission(original, cursor, hunks[j])
        + Patched(original, hunks, j + 1, Place(hunks[j].oldStart) + hunks[j].oldCount)
  }

  function ApplySection(original: seq<Line>, section: seq<SectionLine>): Result<seq<Line>, PatchError> {
    var hunks := Hunks(section);
    if hunks == [] then Err(NoHunks)
    else match Refusal(original, hunks, 0, 0)
      case Some(e) => Err(e)
      case None => Ok(Patched(original, hunks, 0, 0))
  }

  // ----- The interpreter -----

  lemma {:induction false} OldToPrefix(body: seq<Edit>, k: nat, m: nat)
    requires k <= m <= |body|
    ensures OldTo(body, k) <= OldTo(body, m)
    decreases m
  {
    if k < m {
      OldToPrefix(body, k, m - 1);
    }
  }

  /** The next marked line of a body is its next edit. */
  lemma {:induction false} NextEdit(section: seq<SectionLine>, index: nat, body: seq<Edit>, k: nat)
    requires index < |section| && section[index].Body?
    requires k <= |body| && body[k..] == BodyEdits(section, index)
    ensures k < |body| && body[k] == section[index].edit
    ensures body[k + 1..] == BodyEdits(section, index + 1)
    ensures |OldTo(body, k + 1)| <= |OldSide(body)|
    ensures !body[k].Add? ==> |OldTo(body, k)| < |OldSide(body)| && OldSide(body)[|OldTo(body, k)|] == body[k].text
  {
    assert body[k] == body[k..][0];
    assert body[k + 1..] == body[k..][1..];
    OldToPrefix(body, k + 1, |body|);
  }

  /** Comparing one more old line tells whether the match goes on. */
  lemma {:induction false} MatchGoesOn(original: seq<Line>, start: nat, prior: seq<Line>, seen: nat)
    requires start <= |original| && seen < |prior| && seen <= MatchLength(original, start, prior)
    ensures seen < MatchLength(original, start, prior)
       <==> start + seen < |original| && SameLine(original[start + seen], prior[seen])
  {
  }

  /** The edit names an old line that does not stand at `cursor`. */
  predicate Disagrees(original: seq<Line>, cursor: nat, e: Edit) {
    !e.Add? && (cursor >= |original| || !SameLine(original[cursor], e.text))
  }

  /** One marked line of a hunk body. */
  method ConsumeEdit(original: seq<Line>, e: Edit, cursor: nat)
    returns (emitted: seq<Line>, cursor': nat, oldSeen: nat, newSeen: nat, mismatch: bool)
    ensures mismatch == Disagrees(original, cursor, e)
    ensures !mismatch ==> emitted == Emitted(original, cursor, e)
    ensures oldSeen == (if e.Add? then 0 else 1) && newSeen == (if e.Del? then 0 else 1)
    ensures cursor' == if mismatch then cursor else cursor + oldSeen
  {
    emitted, cursor', mismatch := [], cursor, false;
    oldSeen, newSeen := if e.Add? then 0 else 1, if e.Del? then 0 else 1;
    if !e.Add? {
      if cursor >= |original| || !SameLine(original[cursor], e.text) {
        mismatch := true;
        return;
      }
      if e.Keep? {
        emitted := [original[cursor]];
      }
      cursor' := cursor + 1;
    } else {
      emitted := [e.text];
    }
  }

  /** Inside a body that began at `first`: `k` edits are consumed, all their old lines having matched. */
  ghost predicate Inside(original: seq<Line>, section: seq<SectionLine>, first: nat, hunkStart: nat, index: nat,
                         k: nat, emitted: seq<Line>)
  {
    && first <= index <= |section| && hunkStart <= |original|
    && BodyEnd(section, index) == BodyEnd(section, first)
    && var body := BodyEdits(section, first);
    && k <= |body| && body[k..] == BodyEdits(section, index)
    && |OldTo(body, k)| <= MatchLength(original, hunkStart, OldSide(body))
    && emitted == MergeTo(original, hunkStart, body, k)
  }

  /** One marked line of a body either disagrees with the file, ending the match, or is consumed. */
  lemma {:induction false} InsideStep(original: seq<Line>, section: seq<SectionLine>, first: nat, hunkStart: nat,
                                      index: nat, k: nat, emitted: seq<Line>)
    requires Inside(original, section, first, hunkStart, index, k, emitted)
    requires index < |section| && section[index].Body?
    ensures
      var e, body := section[index].edit, BodyEdits(section, first);
      var cursor := hunkStart + |OldTo(body, k)|;
      && k < |body|
      && if Disagrees(original, cursor, e)
         then MatchLength(original, hunkStart, OldSide(body)) == |OldTo(body, k)| < |OldSide(body)|
         else
           && Inside(original, section, first, hunkStart, index + 1, k + 1, emitted + Emitted(original, cursor, e))
           && |OldTo(body, k + 1)| == |OldTo(body, k)| + (if e.Add? then 0 else 1)
           && |NewTo(body, k + 1)| == |NewTo(body, k)| + (if e.Del? then 0 else 1)
  {
    var body := BodyEdits(section, first);
    NextEdit(section, index, body, k);
    if !section[index].edit.Add? {
      MatchGoesOn(original, hunkStart, OldSide(body), |OldTo(body, k)|);
    }
  }

  lemma {:induction false} InsideSkip(original: seq<Line>, section: seq<SectionLine>, first: nat, hunkStart: nat,
                                      index: nat, k: nat, emitted: seq<Line>)
    requires Inside(original, section, first, hunkStart, index, k, emitted)
    requires index < |section| && !section[index].Body? && !EndsHunk(section[index])
    ensures Inside(original, section, first, hunkStart, index + 1, k, emitted)
  {
  }

  lemma {:induction false} InsideEnd(original: seq<Line>, section: seq<SectionLine>, first: nat, hunkStart: nat,
                                     index: nat, k: nat, emitted: seq<Line>)
    requires Inside(original, section, first, hunkStart, index, k, emitted)
    requires index == |section| || EndsHunk(section[index])
    ensures index == BodyEnd(section, first) && k == |BodyEdits(section, first)|
    ensures
      var body := BodyEdits(section, first);
      && MatchLength(original, hunkStart, OldSide(body)) == |OldSide(body)| == |OldTo(body, k)|
      && |NewSide(body)| == |NewTo(body, k)|
      && emitted == Merge(original, hunkStart, body)
  {
  }

  /** The inner loop of the interpreter: one hunk body, line by line. */
  method ConsumeBody(original: seq<Line>, section: seq<SectionLine>, first: nat, hunkStart: nat)
    returns (emitted: seq<Line>, cursor: nat, index: nat, oldSeen: nat, newSeen: nat, mismatch: bool)
    requires first <= |section| && hunkStart <= |original|
    ensures
      var body := BodyEdits(section, first);
      var n := MatchLength(original, hunkStart, OldSide(body));
      && cursor == hunkStart + n
      && mismatch == (n < |OldSide(body)|)
      && (!mismatch ==>
        && oldSeen == n && newSeen == |NewSide(body)|
        && index == BodyEnd(section, first)
        && emitted == Merge(original, hunkStart, body))
  {
    emitted, cursor, index, oldSeen, newSeen, mismatch := [], hunkStart, first, 0, 0, false;
    ghost var body := BodyEdits(section, first);
    ghost var k := 0;
    assert Inside(original, section, first, hunkStart, index, k, emitted);
    assert |OldTo(body, 0)| == |NewTo(body, 0)| == 0;
    hide *;
    while index < |section| && !EndsHunk(section[index])
      invariant first <= index <= |section|
      invariant Inside(original, section, first, hunkStart, index, k, emitted)
      invariant k <= |body| && oldSeen == |OldTo(body, k)| && cursor == hunkStart + oldSeen
      invariant newSeen == |NewTo(body, k)|
    {
      var line := section[index];
      if line.Body? {
        InsideStep(original, section, first, hunkStart, index, k, emitted);
        var more, cursor', old1, new1, failed := ConsumeEdit(original, line.edit, cursor);
        if failed {
          mismatch := true;
          return;
        }
        emitted, cursor, oldSeen, newSeen := emitted + more, cursor', oldSeen + old1, newSeen + new1;
        k := k + 1;
      } else {
        InsideSkip(original, section, first, hunkStart, index, k, emitted);
      }
      index := index + 1;
    }
    InsideEnd(original, section, first, hunkStart, index, k, emitted);
  }

  /** The next header of a section is its next hunk. */
  lemma {:induction false} NextHunk(section: seq<SectionLine>, index: nat, hunks: seq<Hunk>, j: nat)
    requires index < |section| && section[index].Header?
    requires j <= |hunks| && hunks[j..] == HunksFrom(section, index)
    ensures j < |hunks| && hunks[j + 1..] == HunksFrom(section, BodyEnd(section, index + 1))
    ensures var line := section[index];
      hunks[j] == Hunk(line.oldStart, line.oldCount, line.newStart, line.newCount, BodyEdits(section, index + 1))
  {
    assert hunks[j] == hunks[j..][0];
    assert hunks[j + 1..] == hunks[j..][1..];
  }

  /** The interpreter stands before line `index` and hunk `j`, having read up to `cursor` and written `output`. */
  ghost predicate Standing(original: seq<Line>, section: seq<SectionLine>, index: nat, j: nat, cursor: nat,
                           output: seq<Line>)
  {
    && Reading(original, section, index, j, cursor)
    && (Refusal(original, Hunks(section), 0, 0) == None
        ==> Patched(original, Hunks(section), 0, 0) == output + Patched(original, Hunks(section), j, cursor))
  }

  ghost predicate Reading(original: seq<Line>, section: seq<SectionLine>, index: nat, j: nat, cursor: nat) {
    var hunks := Hunks(section);
    && index <= |section| && cursor <= |original|
    && j <= |hunks| && hunks[j..] == HunksFrom(section, index)
    && Refusal(original, hunks, 0, 0) == Refusal(original, hunks, j, cursor)
  }

  lemma {:induction false} PatchedStep(original: seq<Line>, hunks: seq<Hunk>, j: nat, cursor: nat, output: seq<Line>)
    requires cursor <= |original| && j < |hunks| && HunkRefusal(original, hunks[j], cursor, j + 1) == None
    requires Refusal(original, hunks, j, cursor) == None
    ensures output + Patched(original, hunks, j, cursor)
         == output + Emission(original, cursor, hunks[j])
            + Patched(original, hunks, j + 1, Place(hunks[j].oldStart) + hunks[j].oldCount)
  {
  }

  lemma {:induction false} ReadingStep(original: seq<Line>, section: seq<SectionLine>, index: nat, j: nat, cursor: nat)
    requires Reading(original, section, index, j, cursor)
    requires index < |section| && section[index].Header?
    ensures j < |Hunks(section)| && cursor <= |original|
    ensures
      var line, h := section[index], Hunks(section)[j];
      && h == Hunk(line.oldStart, line.oldCount, line.newStart, line.newCount, BodyEdits(section, index + 1))
      && (HunkRefusal(original, h, cursor, j + 1) == None ==>
          Reading(original, section, BodyEnd(section, index + 1), j + 1, Place(h.oldStart) + h.oldCount))
  {
    NextHunk(section, index, Hunks(section), j);
  }

  lemma {:induction false} StandingStep(original: seq<Line>, section: seq<SectionLine>, index: nat, j: nat,
                                        cursor: nat, output: seq<Line>)
    requires Standing(original, section, index, j, cursor, output)
    requires index < |section| && section[index].Header? && j < |Hunks(section)|
    requires HunkRefusal(original, Hunks(section)[j], cursor, j + 1) == None
    ensures
      var h := Hunks(section)[j];
      Standing(original, section, BodyEnd(section, index + 1), j + 1, Place(h.oldStart) + h.oldCount,
               output + Emission(original, cursor, h))
  {
    ReadingStep(original, section, index, j, cursor);
    if Refusal(original, Hunks(section), 0, 0) == None {
      PatchedStep(original, Hunks(section), j, cursor, output);
    }
  }

  lemma {:induction false} StandsAtHunk(original: seq<Line>, section: seq<SectionLine>, index: nat, j: nat,
                                        cursor: nat, output: seq<Line>)
    requires Standing(original, section, index, j, cursor, output)
    requires index < |section| && section[index].Header?
    ensures j < |Hunks(section)| && cursor <= |original|
    ensures
      var line := section[index];
      Hunks(section)[j]
      == Hunk(line.oldStart, line.oldCount, line.newStart, line.newCount, BodyEdits(section, index + 1))
    ensures BodyEnd(section, index + 1) > index
  {
    hide Patched, Refusal, HunkRefusal;
    ReadingStep(original, section, index, j, cursor);
  }

  lemma {:induction false} SkipLine(original: seq<Line>, section: seq<SectionLine>, index: nat, j: nat, cursor: nat,
                                    output: seq<Line>)
    requires Standing(original, section, index, j, cursor, output)
    requires index < |section| && !section[index].Header?
    ensures Standing(original, section, index + 1, j, cursor, output)
  {
  }

  lemma {:induction false} Start(original: seq<Line>, section: seq<SectionLine>)
    ensures Standing(original, section, 0, 0, 0, [])
  {
  }

  lemma {:induction false} Finish(original: seq<Line>, section: seq<SectionLine>, j: nat, cursor: nat,
                                  output: seq<Line>)
    requires Standing(original, section, |section|, j, cursor, output)
    ensures j == |Hunks(section)| && cursor <= |original|
    ensures j > 0 ==> ApplySection(original, section) == Ok(output + original[cursor..])
  {
  }

  lemma {:induction false} Refuse(original: seq<Line>, section: seq<SectionLine>, index: nat, j: nat, cursor: nat,
                                  output: seq<Line>)
    requires Standing(original, section, index, j, cursor, output) && j < |Hunks(section)|
    requires HunkRefusal(original, Hunks(section)[j], cursor, j + 1).Some?
    ensures ApplySection(original, section) == Err(HunkRefusal(original, Hunks(section)[j], cursor, j + 1).value)
  {
  }

  /** The hunk whose header stands at `index`: refused, or its lines added to the output. */
  method TakeHunk(original: seq<Line>, section: seq<SectionLine>, index: nat, number: nat, cursor: nat,
                  output: seq<Line>)
    returns (refused: Option<PatchError>, output': seq<Line>, cursor': nat, index': nat)
    requires number > 0 && Standing(original, section, index, number - 1, cursor, output)
    requires index < |section| && section[index].Header?
    ensures refused.Some? ==> ApplySection(original, section) == Err(refused.value)
    ensures refused.None? ==> Standing(original, section, index', number, cursor', output')
    ensures refused.None? ==> index < index' <= |section|
  {
    StandsAtHunk(original, section, index, number - 1, cursor, output);
    hide Standing, HunkRefusal, Emission, ApplySection, Hunks, BodyEdits;
    var emitted;
    refused, emitted, cursor', index' := InterpretHunk(original, section, index, cursor, number);
    output' := output + emitted;
    if refused.Some? {
      Refuse(original, section, index, number - 1, cursor, output);
    } else {
      StandingStep(original, section, index, number - 1, cursor, output);
    }
  }

  /** One hunk: its header, its body, its counts. */
  method InterpretHunk(original: seq<Line>, section: seq<SectionLine>, index: nat, cursor: nat, number: nat)
    returns (refused: Option<PatchError>, emitted: seq<Line>, cursor': nat, index': nat)
    requires index < |section| && section[index].Header? && cursor <= |original|
    ensures
      var line := section[index];
      var h := Hunk(line.oldStart, line.oldCount, line.newStart, line.newCount, BodyEdits(section, index + 1));
      && refused == HunkRefusal(original, h, cursor, number)
      && (refused == None ==>
        && emitted == Emission(original, cursor, h)
        && cursor' == Place(h.oldStart) + h.oldCount
        && index' == BodyEnd(section, index + 1))
  {
    var oldStart := section[index].oldStart;
    var hunkStart := if oldStart != 0 then oldStart - 1 else 0;
    if hunkStart < cursor || hunkStart > |original| {
      return Some(InvalidStart(number, oldStart)), [], 0, 0;
    }
    var oldSeen, newSeen, mismatch;
    emitted, cursor', index', oldSeen, newSeen, mismatch := ConsumeBody(original, section, index + 1, hunkStart);
    emitted := original[cursor..hunkStart] + emitted;
    refused :=
      if mismatch then Some(ContextMismatch(number, cursor' + 1))
      else if oldSeen != section[index].oldCount || newSeen != section[index].newCount
      then Some(CountMismatch(number, oldSeen, newSeen))
      else None;
  }

  method ApplyFile(original: seq<Line>, section: seq<SectionLine>)
    returns (r: Result<seq<Line>, PatchError>, hunkCount: nat)
    ensures r == ApplySection(original, section)
    ensures r.Ok? ==> hunkCount == |Hunks(section)|
  {
    var output: seq<Line> := [];
    var cursor: nat, index: nat := 0, 0;
    hunkCount := 0;
    Start(original, section);
    hide *;
    while index < |section|
      invariant Standing(original, section, index, hunkCount, cursor, output)
    {
      if !section[index].Header? {
        SkipLine(original, section, index, hunkCount, cursor, output);
        index := index + 1;
      } else {
        hunkCount := hunkCount + 1;
        var refused;
        refused, output, cursor, index := TakeHunk(original, section, index, hunkCount, cursor, output);
        if refused.Some? {
          return Err(refused.value), hunkCount;
        }
      }
    }
    Finish(original, section, hunkCount, cursor, output);
    if hunkCount == 0 {
      return Err(NoHunks), 0;
    }
    output := output + original[cursor..];
    r := Ok(output);
  }
}
