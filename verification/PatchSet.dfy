/** Splitting a patch into per-file sections and applying the selected ones to a file tree. */
module PatchSet {
  import opened Outcomes
  import opened UnifiedDiff
  import opened UnifiedDiffText

  datatype Section = Section(path: string, lines: seq<SectionLine>)

  /** The texts of the files that exist. */
  type Files = map<string, string>

  /** The first "diff --git" line at or after `i`, whether or not it names a path. */
  function NextDiff(lines: seq<SectionLine>, i: nat): (end: nat)
    requires i <= |lines|
    ensures i <= end <= |lines|
    decreases |lines| - i
  {
    if i == |lines| || lines[i].DiffGit? then i else NextDiff(lines, i + 1)
  }

  predicate Names(line: SectionLine) {
    line.DiffGit? && line.path.Some?
  }

  function SectionsFrom(lines: seq<SectionLine>, i: nat, prefix: string): seq<Section>
    requires i <= |lines|
    decreases |lines| - i
  {
    if i == |lines| then []
    else if !Names(lines[i]) then SectionsFrom(lines, i + 1, prefix)
    else
      var end, path := NextDiff(lines, i + 1), lines[i].path.value;
      (if prefix <= path then [Section(path, lines[i..end])] else []) + SectionsFrom(lines, end, prefix)
  }

  /** A file that does not exist is patched as an empty one. */
  function Current(files: Files, path: string): string {
    if path in files then files[path] else ""
  }

  datatype Applied = Applied(files: Files, failure: Option<PatchError>)

  /** The sections from number `k` on, one after the other, up to the first that is refused. */
  function ApplyAll(files: Files, sections: seq<Section>, k: nat): Applied
    requires k <= |sections|
    decreases |sections| - k
  {
    if k == |sections| then Applied(files, None)
    else match ApplyText(Current(files, sections[k].path), sections[k].lines)
      case Err(e) => Applied(files, Some(e))
      case Ok(text) => ApplyAll(files[sections[k].path := text], sections, k + 1)
  }

  lemma {:induction false} TakeSection(lines: seq<SectionLine>, start: nat, prefix: string, taken: seq<Section>)
    requires start < |lines| && Names(lines[start])
    ensures
      var end, path := NextDiff(lines, start + 1), lines[start].path.value;
      taken + SectionsFrom(lines, start, prefix)
      == (if prefix <= path then taken + [Section(path, lines[start..end])] else taken)
         + SectionsFrom(lines, end, prefix)
  {
  }

  method SelectSections(lines: seq<SectionLine>, prefix: string) returns (selected: seq<Section>)
    ensures selected == SectionsFrom(lines, 0, prefix)
  {
    selected := [];
    var index := 0;
    while index < |lines|
      invariant index <= |lines|
      invariant SectionsFrom(lines, 0, prefix) == selected + SectionsFrom(lines, index, prefix)
    {
      if !Names(lines[index]) {
        index := index + 1;
      } else {
        TakeSection(lines, index, prefix, selected);
        var start, path := index, lines[index].path.value;
        index := index + 1;
        while index < |lines| && !lines[index].DiffGit?
          invariant start < index <= |lines|
          invariant NextDiff(lines, start + 1) == NextDiff(lines, index)
        {
          index := index + 1;
        }
        if prefix <= path {
          selected := selected + [Section(path, lines[start..index])];
        }
      }
    }
  }

  class FileTree {
    var files: Files

    constructor (initial: Files)
      ensures files == initial
    {
      files := initial;
    }

    /** None as the outcome means that no path matched the prefix, and nothing was touched. */
    method ApplyPatch(lines: seq<SectionLine>, prefix: string) returns (outcome: Option<Option<PatchError>>)
      modifies this
      ensures
        var selected := SectionsFrom(lines, 0, prefix);
        var done := ApplyAll(old(files), selected, 0);
        && outcome == (if selected == [] then None else Some(done.failure))
        && files == done.files
    {
      var selected := SelectSections(lines, prefix);
      if selected == [] {
        return None;
      }
      var k := 0;
      hide ApplyText;
      while k < |selected|
        invariant k <= |selected|
        invariant ApplyAll(old(files), selected, 0) == ApplyAll(files, selected, k)
      {
        var r, _ := ApplyToText(Current(files, selected[k].path), selected[k].lines);
        if r.Err? {
          return Some(Some(r.error));
        }
        files := files[selected[k].path := r.value];
        k := k + 1;
      }
      return Some(None);
    }
  }

  // ----- Which sections are selected -----

  /** Where the lines from `i` on name a path with the prefix. */
  function Starts(lines: seq<SectionLine>, i: nat, prefix: string): seq<nat>
    requires i <= |lines|
    decreases |lines| - i
  {
    if i == |lines| then []
    else
      var path := if lines[i].DiffGit? then lines[i].path else None;
      (if path.Some? && |path.value| >= |prefix| && path.value[..|prefix|] == prefix then [i] else [])
      + Starts(lines, i + 1, prefix)
  }

  /** The section that begins at `start`: everything up to the next diff header or the end. */
  ghost predicate IsSection(lines: seq<SectionLine>, start: nat, s: Section) {
    var end := start + |s.lines|;
    && start < end <= |lines| && lines[start] == DiffGit(Some(s.path)) && s.lines == lines[start..end]
    && (forall j :: start < j < end ==> !lines[j].DiffGit?) && (end < |lines| ==> lines[end].DiffGit?)
  }

  lemma {:induction false} NothingStarts(lines: seq<SectionLine>, i: nat, prefix: string)
    requires i <= |lines|
    ensures Starts(lines, i, prefix) == Starts(lines, NextDiff(lines, i), prefix)
    ensures forall j :: i <= j < NextDiff(lines, i) ==> !lines[j].DiffGit?
    ensures NextDiff(lines, i) < |lines| ==> lines[NextDiff(lines, i)].DiffGit?
    decreases |lines| - i
  {
    if i < |lines| && !lines[i].DiffGit? {
      NothingStarts(lines, i + 1, prefix);
    }
  }

  /** The selected sections are, in order, those that begin where a line names a path with the prefix. */
  lemma {:induction false} SelectedExactly(lines: seq<SectionLine>, i: nat, prefix: string)
    requires i <= |lines|
    ensures
      var selected, starts := SectionsFrom(lines, i, prefix), Starts(lines, i, prefix);
      |selected| == |starts| && forall k :: 0 <= k < |selected| ==> IsSection(lines, starts[k], selected[k])
    decreases |lines| - i
  {
    hide IsSection;
    if i < |lines| {
      if Names(lines[i]) {
        NothingStarts(lines, i + 1, prefix);
        SelectedExactly(lines, NextDiff(lines, i + 1), prefix);
        SectionBegins(lines, i, prefix);
      } else {
        SelectedExactly(lines, i + 1, prefix);
      }
    }
  }

  lemma {:induction false} SectionBegins(lines: seq<SectionLine>, i: nat, prefix: string)
    requires i < |lines| && Names(lines[i])
    ensures IsSection(lines, i, Section(lines[i].path.value, lines[i..NextDiff(lines, i + 1)]))
  {
    NothingStarts(lines, i + 1, prefix);
  }

  /** Paths that no section names keep their content, whether or not every section applies. */
  lemma {:induction false} UnnamedPathsKept(files: Files, sections: seq<Section>, k: nat, path: string)
    requires k <= |sections| && forall i :: k <= i < |sections| ==> sections[i].path != path
    ensures
      var after := ApplyAll(files, sections, k).files;
      (path in after <==> path in files) && Current(after, path) == Current(files, path)
    decreases |sections| - k
  {
    if k < |sections| {
      var r := ApplyText(Current(files, sections[k].path), sections[k].lines);
      if r.Ok? {
        UnnamedPathsKept(files[sections[k].path := r.value], sections, k + 1, path);
      }
    }
  }

  /**
   When every section applies, a path that one section names ends up with that section applied to what it held
   at the start, whatever the other sections did.
   */
  lemma {:induction false} NamedOnceIsPatched(files: Files, sections: seq<Section>, k: nat, n: nat)
    requires k <= n < |sections|
    requires forall i :: k <= i < |sections| && i != n ==> sections[i].path != sections[n].path
    requires ApplyAll(files, sections, k).failure == None
    ensures
      var path, after := sections[n].path, ApplyAll(files, sections, k).files;
      path in after && Ok(after[path]) == ApplyText(if path in files then files[path] else "", sections[n].lines)
    decreases |sections| - k
  {
    var r := ApplyText(Current(files, sections[k].path), sections[k].lines);
    var next := files[sections[k].path := r.value];
    if k == n {
      UnnamedPathsKept(next, sections, k + 1, sections[n].path);
    } else {
      NamedOnceIsPatched(next, sections, k + 1, n);
      assert Current(next, sections[n].path) == Current(files, sections[n].path);
    }
  }

  /** A failure leaves exactly the sections before the refused one applied: the patch as a whole is not atomic. */
  lemma {:induction false} FailureKeepsPrefix(files: Files, sections: seq<Section>, k: nat) returns (n: nat)
    requires k <= |sections| && ApplyAll(files, sections, k).failure.Some?
    ensures k <= n < |sections|
    ensures
      var done := ApplyAll(files, sections[..n], k);
      && done.failure == None && done.files == ApplyAll(files, sections, k).files
      && ApplyText(Current(done.files, sections[n].path), sections[n].lines)
         == Err(ApplyAll(files, sections, k).failure.value)
    decreases |sections| - k
  {
    var r := ApplyText(Current(files, sections[k].path), sections[k].lines);
    if r.Err? {
      n := k;
    } else {
      n := FailureKeepsPrefix(files[sections[k].path := r.value], sections, k + 1);
    }
  }
}
