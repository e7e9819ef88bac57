// The line counter behind the benchmark statistics (count_lines.py): each
// line of a Rust file is classified as code, a contract attribute, a loop
// invariant or something that does not count, by a small state machine
// whose flags carry multi-line attributes and blocks across lines.

module CountLines {

  /** A Python computation that may raise `IndexError`. */
  datatype Result<T> = Ok(value: T) | IndexError

  /** The five counters of the `counts` dictionary. */
  datatype Counts = Counts(
    lines: nat,
    loopInvariants: nat,
    invariantLines: nat,
    functionContracts: nat,
    contractLines: nat)

  const NoCounts := Counts(0, 0, 0, 0, 0)

  /** The counters together with the block flags of `count_file`. */
  datatype State = State(
    counts: Counts,
    inContractBlock: bool,
    inContract: bool,
    inBodyInvariantBlock: bool,
    inBodyInvariant: bool,
    inPredicate: bool,
    predicateIdent: int)

  const Start := State(NoCounts, false, false, false, false, false, 0)

  // ---------------------------------------------------------------------
  // Python string operations

  predicate StartsWith(s: string, prefix: string) {
    |prefix| <= |s| && s[..|prefix|] == prefix
  }

  predicate EndsWith(s: string, suffix: string) {
    |suffix| <= |s| && s[|s| - |suffix|..] == suffix
  }

  /** `s[lo:hi]` for `0 <= lo <= hi`: bounds past the end are cut back. */
  function Slice(s: string, lo: nat, hi: nat): (r: string)
    requires lo <= hi
    ensures |r| <= hi - lo
  {
    var l := if lo < |s| then lo else |s|;
    var h := if hi < |s| then hi else |s|;
    s[l..h]
  }

  /** `sub in s`. */
  predicate Contains(s: string, sub: string)
    decreases |s|
  {
    StartsWith(s, sub) || (|s| > 0 && Contains(s[1..], sub))
  }

  /** `sub` occurs in `s` at index `i`. */
  predicate OccursAt(s: string, sub: string, i: int) {
    0 <= i && i + |sub| <= |s| && s[i..i + |sub|] == sub
  }

  /** `sub in s` holds exactly when `sub` occurs at some index. */
  lemma {:induction false} ContainsMeaning(s: string, sub: string)
    ensures Contains(s, sub) <==> exists i :: OccursAt(s, sub, i)
    decreases |s|
  {
    if StartsWith(s, sub) {
      assert OccursAt(s, sub, 0);
    }
    if |s| > 0 {
      ContainsMeaning(s[1..], sub);
      if Contains(s[1..], sub) {
        var i :| OccursAt(s[1..], sub, i);
        assert s[1..][i..i + |sub|] == s[i + 1..i + 1 + |sub|];
        assert OccursAt(s, sub, i + 1);
      }
      if exists i :: OccursAt(s, sub, i) {
        var i :| OccursAt(s, sub, i);
        if i > 0 {
          assert s[1..][i - 1..i - 1 + |sub|] == s[i..i + |sub|];
          assert OccursAt(s[1..], sub, i - 1);
        }
      }
    } else {
      if exists i :: OccursAt(s, sub, i) {
        var i :| OccursAt(s, sub, i);
        assert StartsWith(s, sub);
      }
    }
  }

  /** The ASCII characters `str.strip` removes: the whitespace characters
      and the separators `\x1c`-`\x1f`, for which `isspace` holds. */
  predicate IsSpace(c: char) {
    c == ' ' || c == '\t' || c == '\n' || c == '\r' || c == '\U{0B}' || c == '\U{0C}'
    || ('\U{1C}' <= c <= '\U{1F}')
  }

  function LStrip(s: string): string
    decreases |s|
  {
    if |s| > 0 && IsSpace(s[0]) then LStrip(s[1..]) else s
  }

  function RStrip(s: string): string
    decreases |s|
  {
    if |s| > 0 && IsSpace(s[|s| - 1]) then RStrip(s[..|s| - 1]) else s
  }

  function Strip(s: string): string {
    LStrip(RStrip(s))
  }

  /** `lstrip` removes a run of leading whitespace and nothing else. */
  lemma {:induction false} LStripMeaning(s: string)
    ensures var r := LStrip(s);
      && |r| <= |s| && r == s[|s| - |r|..]
      && (forall i :: 0 <= i < |s| - |r| ==> IsSpace(s[i]))
      && (|r| > 0 ==> !IsSpace(r[0]))
    decreases |s|
  {
    if |s| > 0 && IsSpace(s[0]) {
      LStripMeaning(s[1..]);
    }
  }

  /** `rstrip` removes a run of trailing whitespace and nothing else. */
  lemma {:induction false} RStripMeaning(s: string)
    ensures var r := RStrip(s);
      && |r| <= |s| && r == s[..|r|]
      && (forall i :: |r| <= i < |s| ==> IsSpace(s[i]))
      && (|r| > 0 ==> !IsSpace(r[|r| - 1]))
    decreases |s|
  {
    if |s| > 0 && IsSpace(s[|s| - 1]) {
      RStripMeaning(s[..|s| - 1]);
    }
  }

  // ---------------------------------------------------------------------
  // Line tests

  /** `is_preamble`: module, `use` and `extern` lines. */
  predicate IsPreamble(line: string) {
    if StartsWith(line, "pub mod") then true
    else if StartsWith(line, "mod") then true
    else if StartsWith(line, "use") then true
    else if StartsWith(line, "extern") then true
    else if StartsWith(line, "pub(crate) mod") then true
    else if StartsWith(line, "pub(crate) use") then true
    else false
  }

  /** Whether a line is preamble depends only on its first 14 characters. */
  lemma PreambleByPrefix(line: string, rest: string)
    requires |line| >= 14
    ensures IsPreamble(line + rest) == IsPreamble(line)
  {
    var l := line + rest;
    assert l[..14] == line[..14];
    assert forall k :: 0 <= k <= 14 ==> l[..k] == line[..k];
  }

  /** `is_prusti_annotation`: the attribute name after `#[` is `pure`,
      `trusted`, `ensures` or `requires`, tested by slicing. */
  predicate IsPrustiAnnotation(annotation: string) {
    if Slice(annotation, 2, 6) == "pure" then true
    else if Slice(annotation, 2, 9) == "trusted" then true
    else if Slice(annotation, 2, 9) == "ensures" then true
    else if Slice(annotation, 2, 10) == "requires" then true
    else false
  }

  /** The slices test whether the text from index 2 on starts with one of
      the four names. */
  lemma PrustiAnnotationMeaning(annotation: string)
    ensures IsPrustiAnnotation(annotation) <==>
      |annotation| >= 2 &&
      var name := annotation[2..];
      StartsWith(name, "pure") || StartsWith(name, "trusted") ||
      StartsWith(name, "ensures") || StartsWith(name, "requires")
  {
    if |annotation| >= 2 {
      var name := annotation[2..];
      assert |annotation| >= 6 ==> Slice(annotation, 2, 6) == name[..4];
      assert |annotation| >= 9 ==> Slice(annotation, 2, 9) == name[..7];
      assert |annotation| >= 10 ==> Slice(annotation, 2, 10) == name[..8];
    }
  }

  /** `is_flux_annotation`: the text contains `flux::`. */
  predicate IsFluxAnnotation(annotation: string) {
    Contains(annotation, "flux::")
  }

  // ---------------------------------------------------------------------
  // One line

  /** The classification of a line that counts, by its stripped text and
      its indentation: the `elif` chain inside `count_file`. */
  function Classify(stripped: string, ident: int, s: State): (t: State)
    requires |stripped| > 0
  {
    var c := s.counts;
    if stripped[0] == '#' then
      if IsPrustiAnnotation(stripped) || IsFluxAnnotation(stripped) then
        s.(counts := c.(contractLines := c.contractLines + 1,
                        functionContracts := if s.inContractBlock then c.functionContracts
                                             else c.functionContracts + 1),
           inContractBlock := true,
           inContract := !EndsWith(stripped, "]"))
      else s
    else if s.inContract then
      s.(counts := c.(contractLines := c.contractLines + 1),
         inContract := !EndsWith(stripped, ")]"))
    else if StartsWith(stripped, "predicate!") then
      s.(predicateIdent := ident,
         counts := c.(contractLines := c.contractLines + 1),
         inPredicate := !EndsWith(stripped, "}"))
    else if s.inPredicate then
      s.(counts := c.(contractLines := c.contractLines + 1),
         inPredicate := s.predicateIdent != ident)
    else if StartsWith(stripped, "body_invariant!") then
      s.(counts := c.(invariantLines := c.invariantLines + 1,
                      loopInvariants := if s.inBodyInvariantBlock then c.loopInvariants
                                        else c.loopInvariants + 1),
         inBodyInvariant := !EndsWith(stripped, ");"),
         inBodyInvariantBlock := true)
    else if s.inBodyInvariant then
      s.(counts := c.(invariantLines := c.invariantLines + 1),
         inBodyInvariant := stripped != ");")
    else
      s.(inBodyInvariantBlock := false,
         inContractBlock := false,
         counts := c.(lines := c.lines + 1))
  }

  /** The indentation `count_file` measures: the leading whitespace of the
      line without its trailing whitespace. */
  function Ident(line: string): int {
    |RStrip(line)| - |Strip(line)|
  }

  /** A line `count_file` passes over: blank, `main`, preamble, or a
      comment as the fixed test recognises it. */
  predicate Skipped(stripped: string) {
    |stripped| == 0 || StartsWith(stripped, "//") ||
    StartsWith(stripped, "pub fn main() {}") || IsPreamble(stripped)
  }

  /** The loop body of `count_file` as written: the comment test reads
      `stripped[1]` whenever `stripped[0]` is `/`, which raises
      `IndexError` on a line that is just `/`. */
  function StepAsWritten(line: string, s: State): Result<State> {
    var stripped := Strip(line);
    if |stripped| == 0 then Ok(s)
    else if stripped[0] == '/' && |stripped| < 2 then IndexError
    else if (stripped[0] != '/' || stripped[1] != '/')
            && !StartsWith(stripped, "pub fn main() {}") && !IsPreamble(stripped) then
      Ok(Classify(stripped, Ident(line), s))
    else Ok(s)
  }

  /** The loop body with the comment test the code means: skip a line that
      starts with `//`. */
  function Step(line: string, s: State): State {
    var stripped := Strip(line);
    if Skipped(stripped) then s else Classify(stripped, Ident(line), s)
  }

  /** A line that is just `/` (a division split over lines, say) makes the
      counter raise, where the intended test counts it as code. */
  lemma SlashLineRaises(s: State)
    requires !s.inContract && !s.inPredicate && !s.inBodyInvariant
    ensures StepAsWritten("/", s) == IndexError
    ensures Step("/", s).counts.lines == s.counts.lines + 1
  {
    assert RStrip("/") == "/" && LStrip("/") == "/";
    assert !StartsWith("/", "//") && !IsPreamble("/");
  }

  /** On every other line the code as written does what `Step` does. */
  lemma StepAgreesElsewhere(line: string, s: State)
    requires Strip(line) != "/"
    ensures StepAsWritten(line, s) == Ok(Step(line, s))
  {
    var stripped := Strip(line);
    if |stripped| >= 2 {
      assert StartsWith(stripped, "//") <==> stripped[0] == '/' && stripped[1] == '/';
    } else if |stripped| == 1 {
      assert stripped[0] == '/' ==> stripped == "/";
      assert !StartsWith(stripped, "//");
    }
  }

  // ---------------------------------------------------------------------
  // Properties of one line

  /** Blank lines, `//` comments, `pub fn main() {}` and preamble lines
      change no counter and no flag. */
  lemma SkippedLineChangesNothing(line: string, s: State)
    requires Skipped(Strip(line))
    ensures Step(line, s) == s
  {
  }

  /** A contract attribute adds one contract line, and opens a new function
      contract only when no contract block is open. */
  lemma ContractAttributeCounts(line: string, s: State)
    requires var t := Strip(line);
      !Skipped(t) && t[0] == '#' && (IsPrustiAnnotation(t) || IsFluxAnnotation(t))
    ensures var t := Step(line, s);
      && t.counts == s.counts.(contractLines := s.counts.contractLines + 1,
                               functionContracts := s.counts.functionContracts + (if s.inContractBlock then 0 else 1))
      && t.inContractBlock
  {
  }

  /** A `#` line that is neither a Prusti nor a Flux annotation changes
      nothing, not even the open blocks. */
  lemma OtherAttributeChangesNothing(line: string, s: State)
    requires var t := Strip(line);
      !Skipped(t) && t[0] == '#' && !IsPrustiAnnotation(t) && !IsFluxAnnotation(t)
    ensures Step(line, s) == s
  {
  }

  /** Outside every attribute, predicate and invariant, a code line adds
      one line and closes the open contract and invariant blocks. */
  lemma CodeLineCounts(line: string, s: State)
    requires var t := Strip(line);
      && !Skipped(t) && t[0] != '#' && !StartsWith(t, "predicate!") && !StartsWith(t, "body_invariant!")
      && !s.inContract && !s.inPredicate && !s.inBodyInvariant
    ensures var t := Step(line, s);
      && t.counts == s.counts.(lines := s.counts.lines + 1)
      && !t.inContractBlock && !t.inBodyInvariantBlock
  {
  }

  // ---------------------------------------------------------------------
  // A whole file

  /** The state after the lines in order. */
  function Run(lines: seq<string>, s: State): State
    decreases |lines|
  {
    if |lines| == 0 then s else Run(lines[1..], Step(lines[0], s))
  }

  /** Running two pieces is running the first, then the second. */
  lemma {:induction false} RunAppend(xs: seq<string>, ys: seq<string>, s: State)
    ensures Run(xs + ys, s) == Run(ys, Run(xs, s))
    decreases |xs|
  {
    if |xs| == 0 {
      assert xs + ys == ys;
    } else {
      assert (xs + ys)[0] == xs[0];
      assert (xs + ys)[1..] == xs[1..] + ys;
      RunAppend(xs[1..], ys, Step(xs[0], s));
    }
  }

  /** A line that `count_file` as written cannot classify. */
  predicate SlashLine(line: string) {
    Strip(line) == "/"
  }

  /** The lines in order through the step as written; the first `/` line
      raises `IndexError` and ends the run. */
  function RunAsWritten(lines: seq<string>, s: State): Result<State>
    decreases |lines|
  {
    if |lines| == 0 then Ok(s)
    else match StepAsWritten(lines[0], s)
      case IndexError => IndexError
      case Ok(t) => RunAsWritten(lines[1..], t)
  }

  /** `count_file` as written raises exactly when some line strips to `/`;
      on every other file it ends in the state of the fixed run. */
  lemma {:induction false} RunAsWrittenMeaning(lines: seq<string>, s: State)
    ensures RunAsWritten(lines, s) == IndexError <==> exists i :: 0 <= i < |lines| && SlashLine(lines[i])
    ensures (forall i :: 0 <= i < |lines| ==> !SlashLine(lines[i])) ==> RunAsWritten(lines, s) == Ok(Run(lines, s))
    decreases |lines|
  {
    if |lines| > 0 {
      if SlashLine(lines[0]) {
        assert StepAsWritten(lines[0], s) == IndexError;
      } else {
        StepAgreesElsewhere(lines[0], s);
        RunAsWrittenMeaning(lines[1..], Step(lines[0], s));
        if exists i :: 0 <= i < |lines[1..]| && SlashLine(lines[1..][i]) {
          var i :| 0 <= i < |lines[1..]| && SlashLine(lines[1..][i]);
          assert SlashLine(lines[i + 1]);
        }
        if exists i :: 0 <= i < |lines| && SlashLine(lines[i]) {
          var i :| 0 <= i < |lines| && SlashLine(lines[i]);
          assert i > 0 && SlashLine(lines[1..][i - 1]);
        }
      }
    }
  }

  /** A one-line `body_invariant!(…);` with its indentation. */
  predicate InvariantLine(line: string) {
    var t := Strip(line);
    |t| > 0 && t[0] != '/' && t[0] != '#' && !Skipped(t)
    && StartsWith(t, "body_invariant!") && EndsWith(t, ");")
  }

  /** Consecutive one-line `body_invariant!` statements form one loop
      invariant: the block adds 1 to `loop_invariants` (none if it
      continues an open block) and one invariant line per statement. */
  lemma {:induction false} InvariantBlockCountsOnce(block: seq<string>, s: State)
    requires forall i :: 0 <= i < |block| ==> InvariantLine(block[i])
    requires !s.inContract && !s.inPredicate && !s.inBodyInvariant
    ensures var t := Run(block, s);
      && t.counts == s.counts.(
           invariantLines := s.counts.invariantLines + |block|,
           loopInvariants := s.counts.loopInvariants + (if |block| > 0 && !s.inBodyInvariantBlock then 1 else 0))
      && (|block| > 0 ==> t.inBodyInvariantBlock && !t.inBodyInvariant)
      && !t.inContract && !t.inPredicate
    decreases |block|
  {
    if |block| > 0 {
      var s' := Step(block[0], s);
      assert s'.inBodyInvariantBlock && !s'.inBodyInvariant;
      InvariantBlockCountsOnce(block[1..], s');
    }
  }

  /** `count_file` over the lines of one file, with the fixed comment
      test: the counters after every line have gone through the state
      machine. */
  method CountFile(lines: seq<string>) returns (counts: Counts)
    ensures counts == Run(lines, Start).counts
  {
    counts := NoCounts;
    var inContractBlock := false;
    var inContract := false;
    var inBodyInvariantBlock := false;
    var inBodyInvariant := false;
    var inPredicate := false;
    var predicateIdent := 0;
    var lineNumber := 0;
    for k := 0 to |lines|
      invariant Run(lines, Start) == Run(lines[k..],
        State(counts, inContractBlock, inContract, inBodyInvariantBlock, inBodyInvariant, inPredicate, predicateIdent))
    {
      ghost var before := State(counts, inContractBlock, inContract, inBodyInvariantBlock, inBodyInvariant, inPredicate, predicateIdent);
      assert lines[k..][1..] == lines[k + 1..];
      var line := lines[k];
      lineNumber := lineNumber + 1;
      var stripped := Strip(line);
      var ident := |RStrip(line)| - |stripped|;
      if |stripped| > 0 {
        if !StartsWith(stripped, "//") && !StartsWith(stripped, "pub fn main() {}") && !IsPreamble(stripped) {
          if stripped[0] == '#' {
            if IsPrustiAnnotation(stripped) || IsFluxAnnotation(stripped) {
              counts := counts.(contractLines := counts.contractLines + 1);
              if !inContractBlock {
                counts := counts.(functionContracts := counts.functionContracts + 1);
              }
              inContractBlock := true;
              inContract := true;
              if EndsWith(stripped, "]") {
                inContract := false;
              }
            }
          } else if inContract {
            counts := counts.(contractLines := counts.contractLines + 1);
            if EndsWith(stripped, ")]") {
              inContract := false;
            }
          } else if StartsWith(stripped, "predicate!") {
            predicateIdent := ident;
            counts := counts.(contractLines := counts.contractLines + 1);
            inPredicate := true;
            if EndsWith(stripped, "}") {
              inPredicate := false;
            }
          } else if inPredicate {
            counts := counts.(contractLines := counts.contractLines + 1);
            if predicateIdent == ident {
              inPredicate := false;
            }
          } else if StartsWith(stripped, "body_invariant!") {
            counts := counts.(invariantLines := counts.invariantLines + 1);
            if !inBodyInvariantBlock {
              counts := counts.(loopInvariants := counts.loopInvariants + 1);
            }
            inBodyInvariant := true;
            inBodyInvariantBlock := true;
            if EndsWith(stripped, ");") {
              inBodyInvariant := false;
            }
          } else if inBodyInvariant {
            counts := counts.(invariantLines := counts.invariantLines + 1);
            if stripped == ");" {
              inBodyInvariant := false;
            }
          } else {
            inBodyInvariantBlock := false;
            inContractBlock := false;
            counts := counts.(lines := counts.lines + 1);
          }
        }
      }
      assert State(counts, inContractBlock, inContract, inBodyInvariantBlock, inBodyInvariant, inPredicate, predicateIdent)
        == Step(line, before);
    }
  }

  // ---------------------------------------------------------------------
  // Several files

  /** Key-wise sum of two count dictionaries. */
  function AddCounts(a: Counts, b: Counts): Counts {
    Counts(a.lines + b.lines, a.loopInvariants + b.loopInvariants,
           a.invariantLines + b.invariantLines, a.functionContracts + b.functionContracts,
           a.contractLines + b.contractLines)
  }

  /** The totals over a list of per-file counts, the first file added
      first. */
  function Total(files: seq<Counts>): Counts
    decreases |files|
  {
    if |files| == 0 then NoCounts else AddCounts(Total(files[..|files| - 1]), files[|files| - 1])
  }

  /** The totals of two lists of files add up: the order files are found
      in does not matter to the split. */
  lemma {:induction false} TotalAppend(xs: seq<Counts>, ys: seq<Counts>)
    ensures Total(xs + ys) == AddCounts(Total(xs), Total(ys))
    decreases |ys|
  {
    if |ys| == 0 {
      assert xs + ys == xs;
    } else {
      var zs := xs + ys;
      var init := ys[..|ys| - 1];
      var last := ys[|ys| - 1];
      assert zs[..|zs| - 1] == xs + init;
      assert zs[|zs| - 1] == last;
      calc {
        Total(zs);
        AddCounts(Total(xs + init), last);
        { TotalAppend(xs, init); }
        AddCounts(AddCounts(Total(xs), Total(init)), last);
        AddCounts(Total(xs), AddCounts(Total(init), last));
        AddCounts(Total(xs), Total(ys));
      }
    }
  }

  /** The main routine: adds the counts of every file key-wise, starting
      from zeros. Finding the files and reading them is not modelled. */
  method SumCounts(files: seq<Counts>) returns (counts: Counts)
    ensures counts == Total(files)
  {
    counts := NoCounts;
    for k := 0 to |files|
      invariant counts == Total(files[..k])
    {
      assert files[..k + 1][..k] == files[..k];
      var fileCounts := files[k];
      counts := Counts(fileCounts.lines + counts.lines,
                       fileCounts.loopInvariants + counts.loopInvariants,
                       fileCounts.invariantLines + counts.invariantLines,
                       fileCounts.functionContracts + counts.functionContracts,
                       fileCounts.contractLines + counts.contractLines);
    }
    assert files[..|files|] == files;
  }
}
