/**
 * `ProtocolAgent`: recovering the reagent table from a language model's reply.
 *
 * The reply is trimmed; when it holds a fenced block (```), the first
 * fragment mentioning the table header is taken, trimmed, and a leading
 * `csv`/`text` language tag line is dropped. The generating path then cleans
 * the lines: blank lines and stray tag lines go, every other line is trimmed.
 * The comma "repair" applied to lines with more than two commas rebuilds the
 * line it was given, so the clean-up is exactly "filter and trim".
 */
module ProtocolAgent {
  import opened Wrappers
  import opened Strings
  import opened Sequences

  const Fence: string := "```"
  const Newline: string := "\n"

  // ---------------------------------------------------------------------------
  // Fence extraction
  // ---------------------------------------------------------------------------

  /** The fragment test of `generate_protocol`. */
  predicate GenerateSelects(part: string) {
    Contains(part, "name,concentration,unit") || Contains(part, "name,concentration")
  }

  /** The fragment test of `refine_protocol`. */
  predicate RefineSelects(part: string) {
    Contains(part, "name,concentration,unit")
  }

  /** The generating test reduces to its shorter marker, and every fragment
      the refining test accepts, the generating test accepts too. */
  lemma SelectorsCompared(part: string)
    ensures GenerateSelects(part) <==> Contains(part, "name,concentration")
    ensures RefineSelects(part) ==> GenerateSelects(part)
  {
    if Contains(part, "name,concentration,unit") {
      ContainsPrefixOf(part, "name,concentration,unit", "name,concentration");
    }
  }

  predicate IsTag(line: string) {
    Lower(line) == "csv" || Lower(line) == "text"
  }

  /** The fragment without a first line that is only a language tag. */
  function DropTag(fragment: string): string {
    var lines := SplitOn(fragment, Newline);
    if IsTag(lines[0]) then Join(Newline, lines[1..]) else fragment
  }

  /** Dropping the tag removes exactly the first line and its line break. */
  lemma DropTagMeaning(fragment: string)
    ensures var lines := SplitOn(fragment, Newline);
      && (!IsTag(lines[0]) ==> DropTag(fragment) == fragment)
      && (IsTag(lines[0]) && |lines| >= 2 ==> fragment == lines[0] + Newline + DropTag(fragment))
      && (IsTag(lines[0]) && |lines| == 1 ==> DropTag(fragment) == "")
  {
    var lines := SplitOn(fragment, Newline);
    JoinSplit(fragment, Newline);
  }

  /** What the fence handling leaves of the (trimmed) reply. */
  function FenceContent(content: string, selects: string -> bool): string {
    if !Contains(content, Fence) then content
    else
      var parts := SplitOn(content, Fence);
      match FirstWhere(parts, selects, 0)
      case None => content
      case Some(j) => DropTag(Strip(parts[j]))
  }

  /** The fence loop, leaving at the first fragment that passes `selects`. */
  method ExtractFence(content: string, selects: string -> bool) returns (csv: string)
    ensures csv == FenceContent(content, selects)
  {
    csv := content;
    if Contains(content, Fence) {
      var parts := SplitOn(content, Fence);
      for i := 0 to |parts|
        invariant csv == content
        invariant FirstWhere(parts, selects, 0) == FirstWhere(parts, selects, i)
      {
        if selects(parts[i]) {
          csv := Strip(parts[i]);
          var lines := SplitOn(csv, Newline);
          if Lower(lines[0]) == "csv" || Lower(lines[0]) == "text" {
            csv := Join(Newline, lines[1..]);
          }
          break;
        }
      }
    }
  }

  /** A reply without a fence, or whose fragments all lack the marker, is
      used as it is. */
  lemma FenceUnchanged(content: string, selects: string -> bool)
    requires Contains(content, Fence) ==>
      forall k :: 0 <= k < |SplitOn(content, Fence)| ==> !selects(SplitOn(content, Fence)[k])
    ensures FenceContent(content, selects) == content
  {
    if Contains(content, Fence) {
      var parts := SplitOn(content, Fence);
      FirstWhereMeaning(parts, selects, 0);
    }
  }

  /** Otherwise the first fragment with the marker is used, trimmed and
      without its tag line. */
  lemma FenceSelected(content: string, selects: string -> bool, j: nat)
    requires Contains(content, Fence)
    requires j < |SplitOn(content, Fence)| && selects(SplitOn(content, Fence)[j])
    requires forall k :: 0 <= k < j ==> !selects(SplitOn(content, Fence)[k])
    ensures FenceContent(content, selects) == DropTag(Strip(SplitOn(content, Fence)[j]))
  {
    var parts := SplitOn(content, Fence);
    FirstWhereMeaning(parts, selects, 0);
    var r := FirstWhere(parts, selects, 0);
    assert r.Some? && r.value <= j;
  }

  // ---------------------------------------------------------------------------
  // Line clean-up
  // ---------------------------------------------------------------------------

  /** A trimmed line the clean-up keeps: non-blank and not a language tag. */
  predicate Keep(line: string) {
    line != "" && !IsTag(line)
  }

  /** What one input line contributes to the output. */
  function KeepStep(line: string): seq<string> {
    var t := Strip(line);
    if Keep(t) then [t] else []
  }

  /** Filter and trim: the kept lines among the first `n`, trimmed, in order. */
  function KeptLines(lines: seq<string>, n: nat): (kept: seq<string>)
    requires n <= |lines|
  {
    if n == 0 then [] else KeptLines(lines, n - 1) + KeepStep(lines[n - 1])
  }

  /** What the clean-up makes of a text. */
  function CleanText(content: string): string {
    var lines := SplitOn(content, Newline);
    Join(Newline, KeptLines(lines, |lines|))
  }

  /** The comma "repair": everything before the last two fields joined back
      with commas, then the last two fields. */
  function RepairLine(line: string): string
    requires Count(line, ',') > 2
  {
    var parts := SplitOn(line, ",");
    SplitCount(line, ',');
    Join(",", parts[..|parts| - 2]) + "," + parts[|parts| - 2] + "," + parts[|parts| - 1]
  }

  /** Splitting off the last two parts of a join and joining them back on. */
  lemma JoinLastTwo(sep: string, parts: seq<string>)
    requires |parts| >= 3
    ensures Join(sep, parts[..|parts| - 2]) + sep + parts[|parts| - 2] + sep + parts[|parts| - 1] == Join(sep, parts)
  {
    var k := |parts| - 2;
    var front, mid := parts[..k], parts[..k + 1];
    assert mid == front + [parts[k]];
    assert parts == mid + [parts[k + 1]];
    JoinSnoc(sep, front, parts[k]);
    JoinSnoc(sep, mid, parts[k + 1]);
  }

  /** The repair rebuilds the very line it was given. */
  lemma RepairLineIdentity(line: string)
    requires Count(line, ',') > 2
    ensures RepairLine(line) == line
  {
    SplitCount(line, ',');
    JoinSplit(line, ",");
    JoinLastTwo(",", SplitOn(line, ","));
  }

  /** The clean-up loop. Header lines are kept as they are, lines with more
      than two commas go through the repair, the rest are kept as they are. */
  method CleanUp(content: string) returns (out: string)
    ensures out == CleanText(content)
  {
    var lines := SplitOn(content, Newline);
    var fixedLines: seq<string> := [];
    for i := 0 to |lines|
      invariant fixedLines == KeptLines(lines, i)
    {
      var line := Strip(lines[i]);
      if line == "" {
        continue;
      }
      if IsTag(line) {
        continue;
      }
      if Contains(Lower(line), "name,concentration,unit") || StartsWith(line, "name,") {
        fixedLines := fixedLines + [line];
        continue;
      }
      var commaCount := Count(line, ',');
      if commaCount > 2 {
        var fixedLine := RepairLine(line);
        RepairLineIdentity(line);
        fixedLines := fixedLines + [fixedLine];
      } else {
        fixedLines := fixedLines + [line];
      }
    }
    out := Join(Newline, fixedLines);
  }

  /** Every output line is a kept line, already trimmed, and there are no
      more output lines than input lines. */
  lemma {:induction false} KeptLinesMeaning(lines: seq<string>, n: nat)
    requires n <= |lines|
    ensures |KeptLines(lines, n)| <= n
    ensures forall t :: t in KeptLines(lines, n) ==> Keep(t) && Strip(t) == t
  {
    if n > 0 {
      KeptLinesMeaning(lines, n - 1);
      StripIdempotent(lines[n - 1]);
    }
  }

  /** Lines free of line breaks stay free of them. */
  lemma {:induction false} KeptLinesFree(lines: seq<string>, n: nat)
    requires n <= |lines|
    requires forall l :: l in lines ==> '\n' !in l
    ensures forall t :: t in KeptLines(lines, n) ==> '\n' !in t
  {
    if n > 0 {
      KeptLinesFree(lines, n - 1);
      assert lines[n - 1] in lines;
      StripKeepsOut(lines[n - 1], '\n');
    }
  }

  /** Lines that are already kept and trimmed pass through unchanged. */
  lemma {:induction false} KeptLinesOfKept(lines: seq<string>, n: nat)
    requires n <= |lines|
    requires forall t :: t in lines ==> Keep(t) && Strip(t) == t
    ensures KeptLines(lines, n) == lines[..n]
  {
    if n > 0 {
      KeptLinesOfKept(lines, n - 1);
      assert lines[n - 1] in lines;
      assert lines[..n] == lines[..n - 1] + [lines[n - 1]];
    }
  }

  /** Cleaning a cleaned text changes nothing. */
  lemma CleanTextIdempotent(content: string)
    ensures CleanText(CleanText(content)) == CleanText(content)
  {
    var lines := SplitOn(content, Newline);
    var kept := KeptLines(lines, |lines|);
    KeptLinesMeaning(lines, |lines|);
    if kept == [] {
      assert CleanText(content) == "";
      assert SplitOn("", Newline) == [""];
      assert KeptLines([""], 1) == KeptLines([""], 0) + KeepStep("");
    } else {
      SplitPiecesFree(content, '\n');
      KeptLinesFree(lines, |lines|);
      SplitJoin(kept, '\n');
      KeptLinesOfKept(kept, |kept|);
      assert kept[..|kept|] == kept;
    }
  }

  // ---------------------------------------------------------------------------
  // The two callers
  // ---------------------------------------------------------------------------

  /** The text-recovery part of `generate_protocol` applied to the reply. */
  method RecoverGeneratedTable(reply: string) returns (csv: string)
    ensures csv == CleanText(FenceContent(Strip(reply), GenerateSelects))
  {
    var content := Strip(reply);
    content := ExtractFence(content, GenerateSelects);
    csv := CleanUp(content);
  }

  /** The text-recovery part of `refine_protocol`: the fence only, keyed on
      the full header, no line clean-up. */
  method RecoverRefinedTable(reply: string) returns (csv: string)
    ensures csv == FenceContent(Strip(reply), RefineSelects)
  {
    csv := ExtractFence(Strip(reply), RefineSelects);
  }

  // ---------------------------------------------------------------------------
  // Rows to reagent entries
  // ---------------------------------------------------------------------------

  /** A parsed table row; a missing or NaN concentration is None. */
  datatype TableRow = TableRow(name: string, concentration: Option<real>, unit: string)

  datatype ReagentEntry = ReagentEntry(reagentName: string, unit: string, concentration: Option<real>)

  /** The rows as the entries handed to the protocol store, in table order. */
  method ToReagents(rows: seq<TableRow>) returns (reagents: seq<ReagentEntry>)
    ensures |reagents| == |rows|
    ensures forall k :: 0 <= k < |rows| ==>
      && reagents[k].reagentName == rows[k].name
      && reagents[k].unit == rows[k].unit
      && reagents[k].concentration == rows[k].concentration
  {
    reagents := [];
    for i := 0 to |rows|
      invariant |reagents| == i
      invariant forall k :: 0 <= k < i ==>
        reagents[k] == ReagentEntry(rows[k].name, rows[k].unit, rows[k].concentration)
    {
      reagents := reagents + [ReagentEntry(rows[i].name, rows[i].unit, rows[i].concentration)];
    }
  }
}
