/** `ReviewReporter`: the data each part of the terminal summary holds. The
    tables, panels and colours of the rendering library are left out; each
    table is the sequence of its rows, each text block its string. */
module Reporter {
  import opened Wrappers
  import opened Text

  /** A changed-file dictionary as the reporter receives it: any key may be
      missing. */
  datatype FileEntry = FileEntry(file: Option<string>, status: Option<string>, additions: Option<nat>, deletions: Option<nat>)

  /** The risk dictionary. `sensitiveAreas` keeps the mapping's insertion order. */
  datatype Risks = Risks(
    largeChanges: seq<FileEntry>,
    newDependencies: seq<FileEntry>,
    sensitiveAreas: seq<(string, seq<FileEntry>)>,
    missingTests: seq<FileEntry>,
    focusAreas: seq<FileEntry>,
    estimateMinutes: nat)

  /** The summary dictionary handed to `print_summary`; `checklist` may be absent. */
  datatype Summary = Summary(
    diffData: seq<FileEntry>,
    risks: Risks,
    categories: map<string, seq<FileEntry>>,
    checklist: Option<seq<string>>)

  /** A two-column table row. */
  datatype Row = Row(name: string, value: string)

  /** A row of the focus table: file, status, lines added, lines removed. */
  datatype FocusRow = FocusRow(file: string, status: string, additions: string, deletions: string)

  datatype Stats = Stats(files: nat, additions: nat, deletions: nat)

  // ---------------------------------------------------------------------
  // _sum_stats
  // ---------------------------------------------------------------------

  function Sum(xs: seq<nat>): nat {
    if xs == [] then 0 else xs[0] + Sum(xs[1..])
  }

  function AdditionsOf(e: FileEntry): nat {
    e.additions.GetOr(0)
  }

  function DeletionsOf(e: FileEntry): nat {
    e.deletions.GetOr(0)
  }

  function AdditionCounts(data: seq<FileEntry>): (xs: seq<nat>)
    ensures |xs| == |data| && forall k :: 0 <= k < |data| ==> xs[k] == AdditionsOf(data[k])
  {
    seq(|data|, k requires 0 <= k < |data| => AdditionsOf(data[k]))
  }

  function DeletionCounts(data: seq<FileEntry>): (xs: seq<nat>)
    ensures |xs| == |data| && forall k :: 0 <= k < |data| ==> xs[k] == DeletionsOf(data[k])
  {
    seq(|data|, k requires 0 <= k < |data| => DeletionsOf(data[k]))
  }

  /** Every term is at most the sum, and the sum is zero only when every term is. */
  lemma {:induction false} SumBounds(xs: seq<nat>)
    ensures forall k :: 0 <= k < |xs| ==> xs[k] <= Sum(xs)
    ensures Sum(xs) == 0 <==> forall k :: 0 <= k < |xs| ==> xs[k] == 0
  {
    if xs != [] {
      SumBounds(xs[1..]);
      assert forall k :: 1 <= k < |xs| ==> xs[k] == xs[1..][k - 1];
    }
  }

  lemma {:induction false} SumAppend(xs: seq<nat>, ys: seq<nat>)
    ensures Sum(xs + ys) == Sum(xs) + Sum(ys)
  {
    if xs != [] {
      assert (xs + ys)[1..] == xs[1..] + ys;
      SumAppend(xs[1..], ys);
    } else {
      assert xs + ys == ys;
    }
  }

  /** The file count and the total lines added and removed; a missing count
      contributes nothing. */
  function SumStats(data: seq<FileEntry>): (stats: Stats)
    ensures stats.files == |data|
    ensures forall k :: 0 <= k < |data| ==> AdditionsOf(data[k]) <= stats.additions && DeletionsOf(data[k]) <= stats.deletions
    ensures stats.additions == 0 <==> forall k :: 0 <= k < |data| ==> AdditionsOf(data[k]) == 0
    ensures stats.deletions == 0 <==> forall k :: 0 <= k < |data| ==> DeletionsOf(data[k]) == 0
    ensures data == [] ==> stats == Stats(0, 0, 0)
    ensures |data| == 1 ==> stats == Stats(1, AdditionsOf(data[0]), DeletionsOf(data[0]))
  {
    SumBounds(AdditionCounts(data));
    SumBounds(DeletionCounts(data));
    Stats(|data|, Sum(AdditionCounts(data)), Sum(DeletionCounts(data)))
  }

  /** The statistics of two lists together are the sums of their statistics. */
  lemma SumStatsAppend(a: seq<FileEntry>, b: seq<FileEntry>)
    ensures SumStats(a + b) == Stats(SumStats(a).files + SumStats(b).files,
                                     SumStats(a).additions + SumStats(b).additions,
                                     SumStats(a).deletions + SumStats(b).deletions)
  {
    assert AdditionCounts(a + b) == AdditionCounts(a) + AdditionCounts(b);
    assert DeletionCounts(a + b) == DeletionCounts(a) + DeletionCounts(b);
    SumAppend(AdditionCounts(a), AdditionCounts(b));
    SumAppend(DeletionCounts(a), DeletionCounts(b));
  }

  // ---------------------------------------------------------------------
  // _render_focus
  // ---------------------------------------------------------------------

  /** A focus row: the file as given, status "?" and counts 0 when missing. */
  function FocusRowOf(e: FileEntry): FocusRow
    requires e.file.Some?
  {
    FocusRow(e.file.value, e.status.GetOr("?"), NatToDecimal(AdditionsOf(e)), NatToDecimal(DeletionsOf(e)))
  }

  /** The focus table, or None when an entry has no file (a KeyError). */
  function FocusRows(focus: seq<FileEntry>): Option<seq<FocusRow>> {
    if forall k :: 0 <= k < |focus| ==> focus[k].file.Some? then
      Some(seq(|focus|, k requires 0 <= k < |focus| && focus[k].file.Some? => FocusRowOf(focus[k])))
    else None
  }

  /** The loop adding one focus row per entry. */
  method RenderFocus(focus: seq<FileEntry>) returns (rows: Option<seq<FocusRow>>)
    ensures rows == FocusRows(focus)
  {
    var table: seq<FocusRow> := [];
    for i := 0 to |focus|
      invariant forall k :: 0 <= k < i ==> focus[k].file.Some?
      invariant |table| == i && forall k :: 0 <= k < i ==> table[k] == FocusRowOf(focus[k])
    {
      var f := focus[i];
      if f.file.None? {
        return None;
      }
      table := table + [FocusRow(f.file.value, f.status.GetOr("?"), NatToDecimal(f.additions.GetOr(0)), NatToDecimal(f.deletions.GetOr(0)))];
    }
    assert FocusRows(focus).Some?;
    assert table == FocusRows(focus).value;
    return Some(table);
  }

  /** The focus table keeps the entries' order and files, defaults a missing
      status to "?", and its counts read back as the entries' counts (0 when
      missing); it fails exactly when some entry has no file. */
  lemma FocusRowsFaithful(focus: seq<FileEntry>)
    ensures FocusRows(focus).None? <==> exists k :: 0 <= k < |focus| && focus[k].file.None?
    ensures FocusRows(focus).Some? ==>
              var rows := FocusRows(focus).value;
              |rows| == |focus| &&
              forall k :: 0 <= k < |focus| ==>
                && rows[k].file == focus[k].file.value
                && (focus[k].status.None? ==> rows[k].status == "?")
                && (focus[k].status.Some? ==> rows[k].status == focus[k].status.value)
                && IsDigits(rows[k].additions) && DecimalValue(rows[k].additions) == AdditionsOf(focus[k])
                && IsDigits(rows[k].deletions) && DecimalValue(rows[k].deletions) == DeletionsOf(focus[k])
                && (rows[k].additions[0] != '0' || rows[k].additions == "0")
                && (rows[k].deletions[0] != '0' || rows[k].deletions == "0")
  {
    if FocusRows(focus).Some? {
      forall k | 0 <= k < |focus|
        ensures DecimalValue(FocusRows(focus).value[k].additions) == AdditionsOf(focus[k])
        ensures DecimalValue(FocusRows(focus).value[k].deletions) == DeletionsOf(focus[k])
      {
        DecimalOfNatToDecimal(AdditionsOf(focus[k]));
        DecimalOfNatToDecimal(DeletionsOf(focus[k]));
      }
    }
  }

  // ---------------------------------------------------------------------
  // _render_categories
  // ---------------------------------------------------------------------

  /** The row labels and the category keys they count, in table order. */
  const CategoryLabels: seq<string> := ["Added", "Modified", "Deleted", "Code files", "Tests", "Docs", "Config", "Dependencies"]
  const CategoryKeys: seq<string> := ["added", "modified", "deleted", "code", "tests", "docs", "config", "dependencies"]

  /** The files of a category; an absent category has none. */
  function Bucket(categories: map<string, seq<FileEntry>>, key: string): seq<FileEntry> {
    if key in categories then categories[key] else []
  }

  /** The number of files in a category. */
  function BucketSize(categories: map<string, seq<FileEntry>>, key: string): nat {
    |Bucket(categories, key)|
  }

  /** The category table: one row per label, counting the matching key. */
  function CategoryRows(categories: map<string, seq<FileEntry>>): seq<Row> {
    seq(|CategoryKeys|, k requires 0 <= k < |CategoryKeys| =>
      Row(CategoryLabels[k], NatToDecimal(BucketSize(categories, CategoryKeys[k]))))
  }

  /** The eight rows added one at a time. */
  method RenderCategories(categories: map<string, seq<FileEntry>>) returns (rows: seq<Row>)
    ensures rows == CategoryRows(categories)
  {
    rows := [];
    rows := rows + [Row("Added", NatToDecimal(|Bucket(categories, "added")|))];
    rows := rows + [Row("Modified", NatToDecimal(|Bucket(categories, "modified")|))];
    rows := rows + [Row("Deleted", NatToDecimal(|Bucket(categories, "deleted")|))];
    rows := rows + [Row("Code files", NatToDecimal(|Bucket(categories, "code")|))];
    rows := rows + [Row("Tests", NatToDecimal(|Bucket(categories, "tests")|))];
    rows := rows + [Row("Docs", NatToDecimal(|Bucket(categories, "docs")|))];
    rows := rows + [Row("Config", NatToDecimal(|Bucket(categories, "config")|))];
    rows := rows + [Row("Dependencies", NatToDecimal(|Bucket(categories, "dependencies")|))];
    forall k | 0 <= k < 8 ensures rows[k] == CategoryRows(categories)[k] {
    }
  }

  /** Exactly eight rows in the fixed label order, each count reading back as
      the size of its category (0 when the category is absent). */
  lemma CategoryRowsCounts(categories: map<string, seq<FileEntry>>)
    ensures |CategoryRows(categories)| == 8
    ensures forall k :: 0 <= k < 8 ==>
              && CategoryRows(categories)[k].name == CategoryLabels[k]
              && IsDigits(CategoryRows(categories)[k].value)
              && DecimalValue(CategoryRows(categories)[k].value) == BucketSize(categories, CategoryKeys[k])
              && (CategoryRows(categories)[k].value[0] != '0' || CategoryRows(categories)[k].value == "0")
              && (CategoryKeys[k] !in categories ==> CategoryRows(categories)[k].value == "0")
  {
    forall k | 0 <= k < 8
      ensures DecimalValue(CategoryRows(categories)[k].value) == BucketSize(categories, CategoryKeys[k])
    {
      DecimalOfNatToDecimal(BucketSize(categories, CategoryKeys[k]));
    }
  }

  // ---------------------------------------------------------------------
  // _render_checklist
  // ---------------------------------------------------------------------

  /** Each item behind a ballot box. */
  function Bulleted(items: seq<string>): (lines: seq<string>)
    ensures |lines| == |items| && forall k :: 0 <= k < |items| ==> lines[k] == "□ " + items[k]
  {
    seq(|items|, k requires 0 <= k < |items| => "□ " + items[k])
  }

  /** The checklist text: one "□ item" line per item, each ending in a line feed. */
  function ChecklistText(items: seq<string>): string {
    Terminated(Bulleted(items))
  }

  /** The loop appending a box and then the item and a line feed. */
  method RenderChecklist(items: seq<string>) returns (text: string)
    ensures text == ChecklistText(items)
  {
    text := "";
    for i := 0 to |items|
      invariant text == ChecklistText(items[..i])
    {
      assert Bulleted(items[..i + 1]) == Bulleted(items[..i]) + ["□ " + items[i]];
      TerminatedAppend(Bulleted(items[..i]), "□ " + items[i]);
      text := text + "□ ";
      text := text + (items[i] + "\n");
    }
    assert items[..|items|] == items;
  }

  /** The text is empty exactly when there are no items. */
  lemma ChecklistTextEmpty(items: seq<string>)
    ensures ChecklistText(items) == "" <==> items == []
  {
    if items != [] {
      assert |ChecklistText(items)| >= |"□ " + items[0]|;
    }
  }

  /** Read line by line, the text gives back the boxed items in order. */
  lemma ChecklistTextLines(items: seq<string>)
    requires forall k :: 0 <= k < |items| ==> '\n' !in items[k]
    ensures Lines(ChecklistText(items)) == Bulleted(items)
  {
    var lines := Bulleted(items);
    forall k | 0 <= k < |lines| ensures '\n' !in lines[k] {
      assert lines[k] == "□ " + items[k];
    }
    LinesTerminated(lines);
  }

  // ---------------------------------------------------------------------
  // The concerns list of print_summary
  // ---------------------------------------------------------------------

  function LargeChangesConcern(count: nat): string {
    NatToDecimal(count) + " large files changed (≥100 LOC churn)"
  }

  const NewDependenciesConcern: string := "New/updated dependencies detected"

  function SensitiveAreasConcern(areas: string): string {
    "Sensitive areas touched: " + areas
  }

  const MissingTestsConcern: string := "No tests changed while code changed"

  /** The names of the sensitive areas whose file list is non-empty, in the
      mapping's order. */
  function TouchedAreas(areas: seq<(string, seq<FileEntry>)>): (names: seq<string>)
    ensures |names| <= |areas|
    ensures forall n :: n in names <==> exists k :: 0 <= k < |areas| && areas[k].0 == n && areas[k].1 != []
    decreases |areas|
  {
    if areas == [] then []
    else
      var rest := TouchedAreas(areas[1..]);
      assert forall k :: 1 <= k < |areas| ==> areas[k] == areas[1..][k - 1];
      (if areas[0].1 != [] then [areas[0].0] else []) + rest
  }

  /** The comma-separated list of touched areas. */
  function AreasList(risks: Risks): string {
    Join(TouchedAreas(risks.sensitiveAreas), ", ")
  }

  /** The four possible concerns in their fixed order, each with whether it
      applies: large changes, new dependencies, sensitive areas, missing tests. */
  function ConcernCandidates(risks: Risks): seq<(bool, string)> {
    [ (risks.largeChanges != [], LargeChangesConcern(|risks.largeChanges|)),
      (risks.newDependencies != [], NewDependenciesConcern),
      (risks.sensitiveAreas != [] && AreasList(risks) != "", SensitiveAreasConcern(AreasList(risks))),
      (risks.missingTests != [], MissingTestsConcern) ]
  }

  /** The texts of the candidates that apply, in order. */
  function Applicable(candidates: seq<(bool, string)>): (texts: seq<string>)
    ensures |texts| <= |candidates|
    ensures texts == [] <==> forall k :: 0 <= k < |candidates| ==> !candidates[k].0
    ensures forall t :: t in texts ==> exists k :: 0 <= k < |candidates| && candidates[k].0 && candidates[k].1 == t
    decreases |candidates|
  {
    if candidates == [] then []
    else
      var rest := Applicable(candidates[1..]);
      assert forall k :: 1 <= k < |candidates| ==> candidates[k] == candidates[1..][k - 1];
      Kept(candidates[0]) + rest
  }

  /** A candidate's text if it applies. */
  function Kept(candidate: (bool, string)): seq<string> {
    if candidate.0 then [candidate.1] else []
  }

  function Concerns(risks: Risks): seq<string> {
    Applicable(ConcernCandidates(risks))
  }

  /** The concerns are the applicable candidates taken one by one. */
  lemma ConcernsUnfold(risks: Risks)
    ensures var c := ConcernCandidates(risks);
            Concerns(risks) == Kept(c[0]) + Kept(c[1]) + Kept(c[2]) + Kept(c[3])
  {
    ApplicableFour(ConcernCandidates(risks));
  }

  /** Four candidates are filtered one by one, in order. */
  lemma ApplicableFour(c: seq<(bool, string)>)
    requires |c| == 4
    ensures Applicable(c) == Kept(c[0]) + Kept(c[1]) + Kept(c[2]) + Kept(c[3])
  {
    assert c[3..][1..] == [];
    assert c[3..][0] == c[3];
    assert Applicable(c[3..]) == Kept(c[3]);
    assert c[2..][1..] == c[3..];
    assert c[2..][0] == c[2];
    assert Applicable(c[2..]) == Kept(c[2]) + Kept(c[3]);
    assert c[1..][1..] == c[2..];
    assert c[1..][0] == c[1];
    assert Applicable(c[1..]) == Kept(c[1]) + Kept(c[2]) + Kept(c[3]);
  }

  /** The conditional appends of print_summary. */
  method BuildConcerns(risks: Risks) returns (concerns: seq<string>)
    ensures concerns == Concerns(risks)
  {
    concerns := [];
    if risks.largeChanges != [] {
      concerns := concerns + [NatToDecimal(|risks.largeChanges|) + " large files changed (≥100 LOC churn)"];
    }
    if risks.newDependencies != [] {
      concerns := concerns + ["New/updated dependencies detected"];
    }
    var sens := risks.sensitiveAreas;
    if sens != [] {
      var areasList := Join(TouchedAreas(sens), ", ");
      if areasList != "" {
        concerns := concerns + ["Sensitive areas touched: " + areasList];
      }
    }
    if risks.missingTests != [] {
      concerns := concerns + ["No tests changed while code changed"];
    }
    ConcernsUnfold(risks);
  }

  /** The large-change concern comes first whenever it applies and carries the
      number of large files; the missing-tests concern comes last whenever it
      applies; there are at most four. */
  lemma ConcernsOrder(risks: Risks)
    ensures |Concerns(risks)| <= 4
    ensures risks.largeChanges != [] ==> Concerns(risks)[0] == LargeChangesConcern(|risks.largeChanges|)
    ensures risks.missingTests != [] ==> Concerns(risks) != [] && Concerns(risks)[|Concerns(risks)| - 1] == MissingTestsConcern
    ensures Concerns(risks) == [] <==>
              risks.largeChanges == [] && risks.newDependencies == [] && risks.missingTests == []
              && (risks.sensitiveAreas == [] || AreasList(risks) == "")
  {
    ConcernsUnfold(risks);
  }

  /** The sensitive-area concern applies only when some area has files; when
      no area name is empty, it applies exactly then. */
  lemma SensitiveConcernApplies(risks: Risks)
    ensures ConcernCandidates(risks)[2].0 ==> exists k :: 0 <= k < |risks.sensitiveAreas| && risks.sensitiveAreas[k].1 != []
    ensures (forall k :: 0 <= k < |risks.sensitiveAreas| ==> risks.sensitiveAreas[k].0 != "") ==>
              (ConcernCandidates(risks)[2].0 <==> exists k :: 0 <= k < |risks.sensitiveAreas| && risks.sensitiveAreas[k].1 != [])
  {
    var areas := risks.sensitiveAreas;
    var names := TouchedAreas(areas);
    if ConcernCandidates(risks)[2].0 {
      assert names != [];
      assert names[0] in names;
    }
    if forall k :: 0 <= k < |areas| ==> areas[k].0 != "" {
      forall k | 0 <= k < |names| ensures names[k] != "" {
        assert names[k] in names;
      }
      JoinEmpty(names, ", ");
      if exists k :: 0 <= k < |areas| && areas[k].1 != [] {
        var k :| 0 <= k < |areas| && areas[k].1 != [];
        assert areas[k].0 in names;
      }
    }
  }

  /** Touched areas of a mapping split in two are the touched areas of each
      part, in order. */
  lemma {:induction false} TouchedAreasAppend(a: seq<(string, seq<FileEntry>)>, b: seq<(string, seq<FileEntry>)>)
    ensures TouchedAreas(a + b) == TouchedAreas(a) + TouchedAreas(b)
    decreases |a|
  {
    if a != [] {
      assert (a + b)[0] == a[0];
      assert (a + b)[1..] == a[1..] + b;
      TouchedAreasAppend(a[1..], b);
    } else {
      assert a + b == b;
    }
  }

  // ---------------------------------------------------------------------
  // print_summary
  // ---------------------------------------------------------------------

  /** What the summary prints, part by part. */
  datatype Section =
    | Title(branchName: string)
    | Overview(rows: seq<Row>)
    | ChangeOverview(categoryRows: seq<Row>)
    | FocusAreas(focusRows: seq<FocusRow>)
    | PotentialConcerns(concerns: seq<string>)
    | ReviewerChecklist(text: string)

  /** The overview table: file count, lines added and removed, and the
      estimated review time. */
  function OverviewRows(stats: Stats, estimateMinutes: nat): seq<Row> {
    [ Row("Files changed", NatToDecimal(stats.files)),
      Row("Additions", NatToDecimal(stats.additions)),
      Row("Deletions", NatToDecimal(stats.deletions)),
      Row("Est. review time", NatToDecimal(estimateMinutes) + " minutes") ]
  }

  /** The three sections that are always printed. */
  function Heading(branchName: string, summary: Summary): seq<Section> {
    [ Title(branchName),
      Overview(OverviewRows(SumStats(summary.diffData), summary.risks.estimateMinutes)),
      ChangeOverview(CategoryRows(summary.categories)) ]
  }

  /** Prints the title, the overview and the category table, then the focus
      table, the concerns and the checklist, each only when it is non-empty.
      `ok` is false when a focus entry has no file: the KeyError stops the
      summary after the category table. */
  method PrintSummary(branchName: string, summary: Summary) returns (printed: seq<Section>, ok: bool)
    ensures ok <==> summary.risks.focusAreas == [] || FocusRows(summary.risks.focusAreas).Some?
    ensures !ok ==> printed == Heading(branchName, summary)
    ensures ok ==>
              var focus := summary.risks.focusAreas;
              var items := summary.checklist.GetOr([]);
              printed == Heading(branchName, summary)
                         + (if focus != [] then [FocusAreas(FocusRows(focus).value)] else [])
                         + (if Concerns(summary.risks) != [] then [PotentialConcerns(Concerns(summary.risks))] else [])
                         + (if items != [] then [ReviewerChecklist(ChecklistText(items))] else [])
  {
    var diffData := summary.diffData;
    var stats := SumStats(diffData);
    var risks := summary.risks;
    var categories := summary.categories;

    printed := [Title(branchName)];
    printed := printed + [Overview(OverviewRows(stats, risks.estimateMinutes))];
    var categoryRows := RenderCategories(categories);
    printed := printed + [ChangeOverview(categoryRows)];
    assert printed == Heading(branchName, summary);

    if risks.focusAreas != [] {
      var focusRows := RenderFocus(risks.focusAreas);
      if focusRows.None? {
        return printed, false;
      }
      printed := printed + [FocusAreas(focusRows.value)];
    }

    var concerns := BuildConcerns(risks);
    if concerns != [] {
      printed := printed + [PotentialConcerns(concerns)];
    }

    var checklistItems := summary.checklist.GetOr([]);
    if checklistItems != [] {
      var text := RenderChecklist(checklistItems);
      printed := printed + [ReviewerChecklist(text)];
    }
    ok := true;
  }
}
