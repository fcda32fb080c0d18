/** The text-level half of `src/rectifier.rs`: choosing a fix kind, the fix
    text templates, the line-oriented rewrite of unsafe blocks, line lookup
    and the error report. File contents arrive as a list of lines (the
    result of reading the file, which may have failed). */
module Rectifier {
  import opened Wrappers
  import opened Text
  import opened Candidates
  import opened Solver

  datatype FixType = BoundCheck | VecResize | SafeAccess | UnsafeToSafe

  datatype CodeFix = CodeFix(originalCode: string, fixedCode: string, location: string, fixType: FixType)

  datatype ErrorReport = ErrorReport(
    issueType: string,
    location: string,
    riskLevel: string,
    description: string,
    impact: string,
    recommendation: string)

  /** `determine_fix_type`: an operation mentioning `unsafe` always gets `UnsafeToSafe`; otherwise
      an overflow past the end resizes, an overflow at the end (or with no size) is bound-checked,
      and a non-overflow uses a checked accessor. */
  function DetermineFixType(c: OverflowCandidate, k: BufferConstraint): (r: FixType)
    ensures r == UnsafeToSafe <==> Contains(c.operation, "unsafe")
    ensures r == SafeAccess ==> !k.isOverflow
    ensures r == VecResize ==> k.isOverflow && k.offset > k.bufferSize
    ensures r == BoundCheck ==> k.isOverflow && k.offset <= k.bufferSize
  {
    if Contains(c.operation, "unsafe") then UnsafeToSafe
    else if k.isOverflow then (if k.offset > k.bufferSize then VecResize else BoundCheck)
    else SafeAccess
  }

  /** The guarded write used by `BoundCheck`, `UnsafeToSafe` and the line rewrite. */
  function GuardFix(i: nat): string {
    "if " + NatToString(i) + GuardTail(NatToString(i))
  }

  function GuardTail(n: string): (r: string)
    ensures |r| > 0 && r[0] == ' '
  {
    " < buffer.len() {\n    buffer[" + n + "] = 42;\n} else {\n    panic!(\"Buffer overflow prevented: index " + n + "\");\n}"
  }

  const ResizeHead: string := "let mut buffer = vec![0; "

  /** The reallocation used by `VecResize`: a buffer of `len` zeros, then a write at `i`. */
  function ResizeFix(len: nat, i: nat): string {
    ResizeHead + NatToString(len) + "];\n    buffer[" + NatToString(i) + "] = 42;"
  }

  const GetMutHead: string := "if let Some(value) = buffer.get_mut("

  /** The checked accessor used by `SafeAccess`. */
  function GetMutFix(i: nat): string {
    GetMutHead + NatToString(i) + GetMutTail(NatToString(i))
  }

  function GetMutTail(n: string): (r: string)
    ensures |r| > 0 && r[0] == ')'
  {
    ")" + " {\n    *value = 42;\n} else {\n    panic!(\"Buffer overflow prevented: index " + n + "\");\n}"
  }

  /** The resize text names its length right after its head. */
  lemma ResizeFixReadsBack(len: nat, i: nat)
    ensures |ResizeFix(len, i)| >= |ResizeHead| && ResizeFix(len, i)[..|ResizeHead|] == ResizeHead
    ensures LeadingNumber(ResizeFix(len, i)[|ResizeHead|..]) == len
  {
    var tail := "];\n    buffer[" + NatToString(i) + "] = 42;";
    assert ResizeFix(len, i) == ResizeHead + (NatToString(len) + tail);
    assert ResizeFix(len, i)[|ResizeHead|..] == NatToString(len) + tail;
    assert tail[0] == ']';
    LeadingNumberOf(len, tail);
  }

  /** The checked accessor names its index right after its head. */
  lemma GetMutFixReadsBack(i: nat)
    ensures |GetMutFix(i)| >= |GetMutHead| && GetMutFix(i)[..|GetMutHead|] == GetMutHead
    ensures LeadingNumber(GetMutFix(i)[|GetMutHead|..]) == i
  {
    var tail := GetMutTail(NatToString(i));
    assert GetMutFix(i) == GetMutHead + (NatToString(i) + tail);
    assert GetMutFix(i)[|GetMutHead|..] == NatToString(i) + tail;
    LeadingNumberOf(i, tail);
  }

  /** `generate_fixed_code`: the resize writes inside the buffer it allocates, and the bound check
      and the unsafe-to-safe fix are the same guarded write. */
  function GenerateFixedCode(c: OverflowCandidate, k: BufferConstraint, ft: FixType): (r: string)
    ensures ft == BoundCheck || ft == UnsafeToSafe ==> r == GuardFix(k.offset)
    ensures ft == VecResize ==> r == ResizeFix(k.offset + 1, k.offset)
    ensures ft == VecResize ==> exists len :: k.offset < len && r == ResizeFix(len, k.offset)
    ensures ft == SafeAccess ==> r == GetMutFix(k.offset)
  {
    match ft
    case BoundCheck => GuardFix(k.offset)
    case VecResize => ResizeFix(k.offset + 1, k.offset)
    case SafeAccess => GetMutFix(k.offset)
    case UnsafeToSafe => GuardFix(k.offset)
  }

  /** The guard text names its index right after `if `, so different offsets give different texts. */
  lemma GuardFixReadsBack(i: nat)
    ensures |GuardFix(i)| >= 3 && GuardFix(i)[..3] == "if "
    ensures LeadingNumber(GuardFix(i)[3..]) == i
  {
    var tail := GuardTail(NatToString(i));
    assert GuardFix(i) == "if " + (NatToString(i) + tail);
    assert GuardFix(i)[3..] == NatToString(i) + tail;
    LeadingNumberOf(i, tail);
  }

  lemma GuardFixInjective(a: nat, b: nat)
    ensures GuardFix(a) == GuardFix(b) ==> a == b
  {
    GuardFixReadsBack(a);
    GuardFixReadsBack(b);
  }

  /** `generate_fix`: the original code is the candidate's line when the line number is within the
      file, and the candidate's location text otherwise. */
  function GenerateFix(c: OverflowCandidate, k: BufferConstraint, file: Result<seq<string>>): (r: Result<CodeFix>)
    ensures file.Err? ==> r == Err(file.error)
    ensures file.Ok? ==> && r.Ok?
                         && r.value.fixType == DetermineFixType(c, k)
                         && r.value.fixedCode == GenerateFixedCode(c, k, r.value.fixType)
                         && r.value.location == "Line " + NatToString(c.line)
    ensures file.Ok? && 0 < c.line <= |file.value| ==> r.value.originalCode == file.value[c.line - 1]
    ensures file.Ok? && !(0 < c.line <= |file.value|) ==> r.value.originalCode == c.location
  {
    match file
    case Err(e) => Err(e)
    case Ok(lines) =>
      var original := if 0 < c.line <= |lines| then lines[c.line - 1] else c.location;
      var ft := DetermineFixType(c, k);
      Ok(CodeFix(original, GenerateFixedCode(c, k, ft), "Line " + NatToString(c.line), ft))
  }

  /** The fix text names the number it acts on: a guarded write or a checked accessor names the
      offset, a resize names a length one past it. */
  lemma FixedCodeReadsBack(c: OverflowCandidate, k: BufferConstraint, ft: FixType)
    ensures var code := GenerateFixedCode(c, k, ft);
            (ft == BoundCheck || ft == UnsafeToSafe) ==>
              |code| >= 3 && code[..3] == "if " && LeadingNumber(code[3..]) == k.offset
    ensures var code := GenerateFixedCode(c, k, ft);
            ft == VecResize ==>
              |code| >= |ResizeHead| && code[..|ResizeHead|] == ResizeHead
              && LeadingNumber(code[|ResizeHead|..]) == k.offset + 1
    ensures var code := GenerateFixedCode(c, k, ft);
            ft == SafeAccess ==>
              |code| >= |GetMutHead| && code[..|GetMutHead|] == GetMutHead
              && LeadingNumber(code[|GetMutHead|..]) == k.offset
  {
    if ft == VecResize {
      ResizeCodeReadsBack(c, k);
    } else if ft == SafeAccess {
      GetMutCodeReadsBack(c, k);
    } else {
      GuardCodeReadsBack(c, k, ft);
    }
  }

  lemma ResizeCodeReadsBack(c: OverflowCandidate, k: BufferConstraint)
    ensures var code := GenerateFixedCode(c, k, VecResize);
            |code| >= |ResizeHead| && code[..|ResizeHead|] == ResizeHead
            && LeadingNumber(code[|ResizeHead|..]) == k.offset + 1
  {
    assert GenerateFixedCode(c, k, VecResize) == ResizeFix(k.offset + 1, k.offset);
    ResizeFixReadsBack(k.offset + 1, k.offset);
  }

  lemma GetMutCodeReadsBack(c: OverflowCandidate, k: BufferConstraint)
    ensures var code := GenerateFixedCode(c, k, SafeAccess);
            |code| >= |GetMutHead| && code[..|GetMutHead|] == GetMutHead
            && LeadingNumber(code[|GetMutHead|..]) == k.offset
  {
    assert GenerateFixedCode(c, k, SafeAccess) == GetMutFix(k.offset);
    GetMutFixReadsBack(k.offset);
  }

  lemma GuardCodeReadsBack(c: OverflowCandidate, k: BufferConstraint, ft: FixType)
    requires ft == BoundCheck || ft == UnsafeToSafe
    ensures var code := GenerateFixedCode(c, k, ft);
            |code| >= 3 && code[..3] == "if " && LeadingNumber(code[3..]) == k.offset
  {
    assert GenerateFixedCode(c, k, ft) == GuardFix(k.offset);
    GuardFixReadsBack(k.offset);
  }

  /** A generated fix reads back its number, and a resize reads back a length beyond the
      buffer's size. */
  lemma GenerateFixReadsBack(c: OverflowCandidate, k: BufferConstraint, lines: seq<string>)
    ensures var f := GenerateFix(c, k, Ok(lines)).value;
            (f.fixType == BoundCheck || f.fixType == UnsafeToSafe) ==>
              |f.fixedCode| >= 3 && f.fixedCode[..3] == "if " && LeadingNumber(f.fixedCode[3..]) == k.offset
    ensures var f := GenerateFix(c, k, Ok(lines)).value;
            f.fixType == VecResize ==>
              && |f.fixedCode| >= |ResizeHead| && f.fixedCode[..|ResizeHead|] == ResizeHead
              && LeadingNumber(f.fixedCode[|ResizeHead|..]) == k.offset + 1 > k.bufferSize
    ensures var f := GenerateFix(c, k, Ok(lines)).value;
            f.fixType == SafeAccess ==>
              && |f.fixedCode| >= |GetMutHead| && f.fixedCode[..|GetMutHead|] == GetMutHead
              && LeadingNumber(f.fixedCode[|GetMutHead|..]) == k.offset
  {
    FixedCodeReadsBack(c, k, DetermineFixType(c, k));
  }

  /** `{:?}` of an `Option<usize>`. */
  function DebugOption(o: Option<U64>): string {
    match o
    case Some(v) => "Some(" + NatToString(v) + ")"
    case None => "None"
  }

  const DescriptionPrefix: string := "检测到未检查的指针偏移操作: "

  /** `generate_error_report`: the risk level and impact follow the operation kind. */
  function GenerateErrorReport(c: OverflowCandidate): (r: ErrorReport)
    ensures r.issueType == c.operation
    ensures r.location == "Line " + NatToString(c.line)
    ensures r.riskLevel == "Critical" <==> c.operation == PointerOffset
    ensures r.riskLevel == "Medium" <==> c.operation == Allocation
    ensures r.riskLevel == "Unknown" <==> c.operation != PointerOffset && c.operation != Allocation
    ensures r.description == DescriptionPrefix + DebugOption(c.offset)
  {
    ErrorReport(
      c.operation,
      "Line " + NatToString(c.line),
      if c.operation == PointerOffset then "Critical" else if c.operation == Allocation then "Medium" else "Unknown",
      DescriptionPrefix + DebugOption(c.offset),
      if c.operation == PointerOffset then "可能导致未定义行为和内存访问违规"
      else if c.operation == Allocation then "潜在的内存安全风险"
      else "未知影响",
      "建议在进行指针操作前添加显式的边界检查")
  }

  const PtrAdd: string := "*ptr.add"

  /** `find_line_with_context`: the 1-based number and text of the first line containing
      `*ptr.add`, or `(0, "")` when there is none. The target argument is ignored. */
  method FindLineWithContext(lines: seq<string>, target: string) returns (n: nat, text: string)
    ensures n == 0 <==> forall j :: 0 <= j < |lines| ==> !Contains(lines[j], PtrAdd)
    ensures n == 0 ==> text == ""
    ensures n > 0 ==> n <= |lines| && Contains(lines[n - 1], PtrAdd) && text == lines[n - 1]
    ensures n > 0 ==> forall j :: 0 <= j < n - 1 ==> !Contains(lines[j], PtrAdd)
  {
    var i := 0;
    while i < |lines|
      invariant 0 <= i <= |lines|
      invariant forall j :: 0 <= j < i ==> !Contains(lines[j], PtrAdd)
    {
      if Contains(lines[i], PtrAdd) {
        return i + 1, lines[i];
      }
      i := i + 1;
    }
    return 0, "";
  }

  // The line-oriented rewrite of `generate_complete_fix`. A region opens at a line containing
  // `unsafe` (restarting any region already open) and closes at the next line containing `}`.
  // Every pattern searched for has no surrounding whitespace, so searching the trimmed line
  // finds the same occurrences as searching the line.

  /** The loop's variables: inside a region?, the region's text so far, whether a region line
      contained `*ptr.add(`, and the output so far. */
  datatype ScanState = ScanState(inUnsafe: bool, block: string, found: bool, out: string)

  const Start := ScanState(false, "", false, "")

  /** What a closed region turns into: the guard for its first `*ptr.add(<digits>)` literal
      (nothing if there is none) when a line flagged it, its own text otherwise. */
  function CloseRegion(block: string, found: bool): string {
    if found then
      match FirstAddLiteral(block)
      case Some(v) => GuardFix(v)
      case None => ""
    else block
  }

  /** One iteration of the loop. */
  function ScanLine(st: ScanState, line: string): ScanState {
    var entered := if Contains(line, "unsafe") then st.(inUnsafe := true, block := "") else st;
    if !entered.inUnsafe then entered.(out := entered.out + line + "\n")
    else
      var block := entered.block + line + "\n";
      var found := entered.found || Contains(line, AddCallOpen);
      if Contains(line, "}") then ScanState(false, block, false, entered.out + CloseRegion(block, found))
      else entered.(block := block, found := found)
  }

  function RunFrom(st: ScanState, lines: seq<string>): ScanState
    decreases |lines|
  {
    if |lines| == 0 then st else RunFrom(ScanLine(st, lines[0]), lines[1..])
  }

  /** The text `generate_complete_fix` builds from the file's lines. */
  function CompleteFix(lines: seq<string>): string {
    RunFrom(Start, lines).out
  }

  /** `generate_complete_fix` as written, with the file read as a parameter. */
  method GenerateCompleteFix(candidate: OverflowCandidate, file: Result<seq<string>>) returns (r: Result<string>)
    ensures file.Err? ==> r == Err(file.error)
    ensures file.Ok? ==> r == Ok(CompleteFix(file.value))
  {
    if file.Err? {
      return Err(file.error);
    }
    var lines := file.value;
    var result := "";
    var inUnsafe := false;
    var unsafeBlock := "";
    var foundProblem := false;
    var i := 0;
    while i < |lines|
      invariant 0 <= i <= |lines|
      invariant RunFrom(ScanState(inUnsafe, unsafeBlock, foundProblem, result), lines[i..]) == RunFrom(Start, lines)
    {
      var line := lines[i];
      ghost var before := ScanState(inUnsafe, unsafeBlock, foundProblem, result);
      assert lines[i..][1..] == lines[i + 1..];
      assert RunFrom(before, lines[i..]) == RunFrom(ScanLine(before, line), lines[i + 1..]);
      if Contains(line, "unsafe") {
        inUnsafe := true;
        unsafeBlock := "";
      }
      if inUnsafe {
        unsafeBlock := unsafeBlock + line + "\n";
        if Contains(line, AddCallOpen) {
          foundProblem := true;
        }
        if Contains(line, "}") {
          inUnsafe := false;
          if foundProblem {
            var caps := FirstAddLiteral(unsafeBlock);
            if caps.Some? {
              result := result + GuardFix(caps.value);
            }
          } else {
            result := result + unsafeBlock;
          }
          foundProblem := false;
        }
      } else {
        result := result + line + "\n";
      }
      assert ScanState(inUnsafe, unsafeBlock, foundProblem, result) == ScanLine(before, line);
      i := i + 1;
    }
    return Ok(result);
  }

  /** Each line followed by a newline. */
  function JoinLines(lines: seq<string>): string
    decreases |lines|
  {
    if |lines| == 0 then "" else lines[0] + "\n" + JoinLines(lines[1..])
  }

  predicate AnyContains(lines: seq<string>, p: string)
    decreases |lines|
  {
    |lines| > 0 && (Contains(lines[0], p) || AnyContains(lines[1..], p))
  }

  predicate NoneContains(lines: seq<string>, p: string) {
    forall i :: 0 <= i < |lines| ==> !Contains(lines[i], p)
  }

  lemma {:induction false} JoinLinesAppend(a: seq<string>, b: seq<string>)
    ensures JoinLines(a + b) == JoinLines(a) + JoinLines(b)
    decreases |a|
  {
    if |a| > 0 {
      assert (a + b)[0] == a[0];
      assert (a + b)[1..] == a[1..] + b;
      JoinLinesAppend(a[1..], b);
    } else {
      assert a + b == b;
    }
  }

  lemma {:induction false} AnyContainsAppend(a: seq<string>, b: seq<string>, p: string)
    ensures AnyContains(a + b, p) <==> AnyContains(a, p) || AnyContains(b, p)
    decreases |a|
  {
    if |a| > 0 {
      assert (a + b)[0] == a[0];
      assert (a + b)[1..] == a[1..] + b;
      AnyContainsAppend(a[1..], b, p);
    } else {
      assert a + b == b;
    }
  }

  /** Running over `a + b` is running over `a` and then over `b`. */
  lemma {:induction false} RunFromAppend(st: ScanState, a: seq<string>, b: seq<string>)
    ensures RunFrom(st, a + b) == RunFrom(RunFrom(st, a), b)
    decreases |a|
  {
    if |a| > 0 {
      assert (a + b)[0] == a[0];
      assert (a + b)[1..] == a[1..] + b;
      RunFromAppend(ScanLine(st, a[0]), a[1..], b);
    } else {
      assert a + b == b;
    }
  }

  /** The output is only ever appended to. */
  lemma {:induction false} OutputOnlyGrows(st: ScanState, lines: seq<string>)
    ensures st.out <= RunFrom(st, lines).out
    decreases |lines|
  {
    if |lines| > 0 {
      OutputOnlyGrows(ScanLine(st, lines[0]), lines[1..]);
    }
  }

  /** Outside any region, lines without `unsafe` are copied verbatim, each with a newline. */
  lemma {:induction false} CopiesOutsideRegions(st: ScanState, lines: seq<string>)
    requires !st.inUnsafe
    requires NoneContains(lines, "unsafe")
    ensures RunFrom(st, lines) == st.(out := st.out + JoinLines(lines))
    decreases |lines|
  {
    if |lines| > 0 {
      assert !Contains(lines[0], "unsafe");
      var next := ScanLine(st, lines[0]);
      assert next == st.(out := st.out + lines[0] + "\n");
      CopiesOutsideRegions(next, lines[1..]);
    }
  }

  /** Inside a region, lines with neither `unsafe` nor `}` only accumulate into the block. */
  lemma {:induction false} AccumulatesInsideRegion(st: ScanState, lines: seq<string>)
    requires st.inUnsafe
    requires NoneContains(lines, "unsafe") && NoneContains(lines, "}")
    ensures RunFrom(st, lines) == st.(block := st.block + JoinLines(lines),
                                      found := st.found || AnyContains(lines, AddCallOpen))
    decreases |lines|
  {
    if |lines| > 0 {
      assert !Contains(lines[0], "unsafe") && !Contains(lines[0], "}");
      var next := ScanLine(st, lines[0]);
      AccumulatesInsideRegion(next, lines[1..]);
    }
  }

  /** A region still open at the end of the input produces no output. */
  lemma {:induction false} OpenRegionDropped(st: ScanState, lines: seq<string>)
    requires st.inUnsafe
    requires NoneContains(lines, "}")
    ensures RunFrom(st, lines).out == st.out
    ensures RunFrom(st, lines).inUnsafe
    decreases |lines|
  {
    if |lines| > 0 {
      assert !Contains(lines[0], "}");
      OpenRegionDropped(ScanLine(st, lines[0]), lines[1..]);
    }
  }

  /** `lines` is one region: it opens on its first line, contains no further `unsafe`, and
      closes on its last line and no earlier. */
  predicate IsRegion(lines: seq<string>) {
    && |lines| > 0
    && Contains(lines[0], "unsafe")
    && NoneContains(lines[1..], "unsafe")
    && NoneContains(lines[..|lines| - 1], "}")
    && Contains(lines[|lines| - 1], "}")
  }

  /** What a region becomes in the output. */
  function RegionOutput(region: seq<string>): string {
    CloseRegion(JoinLines(region), AnyContains(region, AddCallOpen))
  }

  /** The line that opens a region (and does not close it). */
  lemma EnterRegion(st: ScanState, first: string)
    requires !st.inUnsafe && !st.found
    requires Contains(first, "unsafe") && !Contains(first, "}")
    ensures ScanLine(st, first) == ScanState(true, first + "\n", Contains(first, AddCallOpen), st.out)
  {
  }

  /** The line that closes an open region. */
  lemma CloseRegionLine(st: ScanState, last: string)
    requires st.inUnsafe
    requires !Contains(last, "unsafe") && Contains(last, "}")
    ensures ScanLine(st, last) == ScanState(false, st.block + last + "\n", false,
                                             st.out + CloseRegion(st.block + last + "\n", st.found || Contains(last, AddCallOpen)))
  {
  }

  /** A region entered from outside is replaced as a whole: copied when no line has `*ptr.add(`,
      otherwise replaced by the guard for its first `*ptr.add(<digits>)` literal, or by nothing. */
  lemma RegionRewritten(st: ScanState, region: seq<string>)
    requires !st.inUnsafe && !st.found
    requires IsRegion(region)
    ensures RunFrom(st, region) == ScanState(false, JoinLines(region), false, st.out + RegionOutput(region))
  {
    var first := region[0];
    if |region| == 1 {
      assert region == [first];
      OneLineRegionRewritten(st, first);
    } else {
      var mid := region[1..|region| - 1];
      var last := region[|region| - 1];
      assert region == [first] + (mid + [last]);
      assert NoneContains(mid, "unsafe") && NoneContains(mid, "}") by {
        assert forall i :: 0 <= i < |mid| ==> mid[i] == region[1..][i] && mid[i] == region[..|region| - 1][i + 1];
      }
      assert !Contains(last, "unsafe") by {
        assert last == region[1..][|region| - 2];
      }
      assert !Contains(first, "}") by {
        assert first == region[..|region| - 1][0];
      }
      LongRegionRewritten(st, first, mid, last);
    }
  }

  /** A region that opens and closes on one line. */
  lemma OneLineRegionRewritten(st: ScanState, first: string)
    requires !st.inUnsafe && !st.found
    requires Contains(first, "unsafe") && Contains(first, "}")
    ensures RunFrom(st, [first]) == ScanState(false, JoinLines([first]), false, st.out + RegionOutput([first]))
  {
    var block := first + "\n";
    assert JoinLines([first]) == block;
    assert "" + first + "\n" == block;
    var found := Contains(first, AddCallOpen);
    assert AnyContains([first], AddCallOpen) == found;
    assert ScanLine(st, first) == ScanState(false, block, false, st.out + CloseRegion(block, found));
    assert RunFrom(st, [first]) == ScanLine(st, first);
  }

  /** A region of at least two lines, given by its first line, middle lines and last line. */
  lemma LongRegionRewritten(st: ScanState, first: string, mid: seq<string>, last: string)
    requires !st.inUnsafe && !st.found
    requires Contains(first, "unsafe") && !Contains(first, "}")
    requires NoneContains(mid, "unsafe") && NoneContains(mid, "}")
    requires !Contains(last, "unsafe") && Contains(last, "}")
    ensures var region := [first] + (mid + [last]);
            RunFrom(st, region) == ScanState(false, JoinLines(region), false, st.out + RegionOutput(region))
  {
    var region := [first] + (mid + [last]);
    EnterRegion(st, first);
    var entered := ScanLine(st, first);
    assert RunFrom(st, region) == RunFrom(entered, mid + [last]) by {
      assert region[0] == first && region[1..] == mid + [last];
    }
    RunFromAppend(entered, mid, [last]);
    AccumulatesInsideRegion(entered, mid);
    var inside := RunFrom(entered, mid);
    assert RunFrom(inside, [last]) == ScanLine(inside, last);
    CloseRegionLine(inside, last);
    RegionText(first, mid, last);
  }

  /** The text and the `*ptr.add(` flag of a region with a first, middle and last part. */
  lemma RegionText(first: string, mid: seq<string>, last: string)
    ensures JoinLines([first] + (mid + [last])) == first + "\n" + JoinLines(mid) + last + "\n"
    ensures AnyContains([first] + (mid + [last]), AddCallOpen)
            == (Contains(first, AddCallOpen) || AnyContains(mid, AddCallOpen) || Contains(last, AddCallOpen))
  {
    var all := [first] + (mid + [last]);
    assert all[0] == first && all[1..] == mid + [last];
    JoinLinesAppend(mid, [last]);
    AnyContainsAppend(mid, [last], AddCallOpen);
    assert JoinLines([last]) == last + "\n";
    assert AnyContains([last], AddCallOpen) == Contains(last, AddCallOpen);
  }

  /** A file with one unsafe region between region-free parts: everything outside is copied,
      the region becomes `RegionOutput`. */
  lemma OneRegionFile(before: seq<string>, region: seq<string>, after: seq<string>)
    requires NoneContains(before, "unsafe") && NoneContains(after, "unsafe")
    requires IsRegion(region)
    ensures CompleteFix(before + region + after) == JoinLines(before) + RegionOutput(region) + JoinLines(after)
  {
    RunFromAppend(Start, before + region, after);
    RunFromAppend(Start, before, region);
    CopiesOutsideRegions(Start, before);
    var s1 := RunFrom(Start, before);
    assert s1 == ScanState(false, "", false, JoinLines(before));
    RegionRewritten(s1, region);
    var s2 := RunFrom(s1, region);
    assert s2.out == JoinLines(before) + RegionOutput(region);
    CopiesOutsideRegions(s2, after);
  }
}
