/** `BranchAnalyzer.get_changed_files`: resolve the base and target refs, then
    read git's `--name-status` and `--numstat` diff output between them and
    build one changed-file record per numstat line.

    The repository is a value here: the names of the local heads, the names
    of origin's refs (or the fact that listing them raised), which names
    resolve as a commit, and the text that the two `git diff` invocations
    print for a given `base..target` range. */
module Analyzer {
  import opened Wrappers
  import opened Text

  /** One changed file: its path, the status git printed for it (verbatim,
      not restricted to A, M or D), and the lines added and removed. */
  datatype FileChange = FileChange(file: string, status: string, additions: nat, deletions: nat)

  datatype Repository = Repository(
    heads: seq<string>,                  // names of the local branches
    originRefs: Option<seq<string>>,     // names of origin's refs; None when listing them raised
    commitExists: string -> bool,        // whether `repo.commit(name)` succeeds
    nameStatusDiff: string -> string,    // output of `git diff <range> --name-status`
    numstatDiff: string -> string)       // output of `git diff <range> --numstat`

  /** The base branch used when the caller names none. */
  const DefaultBase: string := "main"

  // ---------------------------------------------------------------------
  // Ref resolution
  // ---------------------------------------------------------------------

  /** Origin's ref names; a failure to list them reads as no refs at all. */
  function OriginRefNames(repo: Repository): seq<string> {
    match repo.originRefs
    case Some(refs) => refs
    case None => []
  }

  /** The message of the ValueError raised for a name that does not resolve. */
  function RefNotFound(name: string): string {
    "Branch or ref '" + name + "' does not exist locally or on origin"
  }

  /** A local head first, then `origin/<name>`, then any commit-ish; otherwise
      a "not found" error naming the ref. */
  function ResolveRef(repo: Repository, name: string): (r: Result<string>)
    ensures r.Success? <==> name in repo.heads || "origin/" + name in OriginRefNames(repo) || repo.commitExists(name)
    ensures name in repo.heads ==> r == Success(name)
    ensures name !in repo.heads && "origin/" + name in OriginRefNames(repo) ==> r == Success("origin/" + name)
    ensures name !in repo.heads && "origin/" + name !in OriginRefNames(repo) && repo.commitExists(name) ==> r == Success(name)
    ensures r.Success? ==> r.value == name || (r.value == "origin/" + name && name !in repo.heads)
    ensures repo.originRefs.None? && r.Success? ==> r.value == name
    ensures r.Failure? ==> r.error == RefNotFound(name)
  {
    if name in repo.heads then Success(name)
    else if "origin/" + name in OriginRefNames(repo) then Success("origin/" + name)
    else if repo.commitExists(name) then Success(name)
    else Failure(RefNotFound(name))
  }

  /** The error names the ref and says where it was looked for. */
  lemma RefNotFoundMentions(name: string)
    ensures IsInfix(name, RefNotFound(name))
    ensures IsInfix("locally or on origin", RefNotFound(name))
  {
    var prefix, suffix := "Branch or ref '", "' does not exist locally or on origin";
    var msg := RefNotFound(name);
    assert msg == prefix + name + suffix;
    assert |prefix| == 15 && |suffix| == 37;
    assert msg[15..15 + |name|] == name;
    assert OccursAt(name, msg, 15);
    assert suffix[17..] == "locally or on origin";
    assert msg[|msg| - 20..] == suffix[17..];
    assert OccursAt("locally or on origin", msg, |msg| - 20);
  }

  // ---------------------------------------------------------------------
  // --name-status output
  // ---------------------------------------------------------------------

  /** The (path, status) pair of a name-status line: its second and its first
      tab-separated field, when it has at least two. */
  function StatusEntry(line: string): Option<(string, string)> {
    var parts := Split(line, '\t');
    if |parts| >= 2 then Some((parts[1], parts[0])) else None
  }

  /** The line gives a status for `path`. */
  predicate NamesPath(line: string, path: string) {
    StatusEntry(line).Some? && StatusEntry(line).value.0 == path
  }

  /** The path-to-status map after reading `lines` in order: a later line for
      a path replaces an earlier one. */
  function StatusMapOf(lines: seq<string>): map<string, string>
    decreases |lines|
  {
    if lines == [] then map[]
    else
      var m := StatusMapOf(lines[..|lines| - 1]);
      match StatusEntry(lines[|lines| - 1])
      case Some((path, status)) => m[path := status]
      case None => m
  }

  /** The loop over the name-status lines. */
  method BuildStatusMap(lines: seq<string>) returns (statusMap: map<string, string>)
    ensures statusMap == StatusMapOf(lines)
  {
    statusMap := map[];
    var i := 0;
    while i < |lines|
      invariant 0 <= i <= |lines|
      invariant statusMap == StatusMapOf(lines[..i])
    {
      var parts := Split(lines[i], '\t');
      if |parts| >= 2 {
        statusMap := statusMap[parts[1] := parts[0]];
      }
      assert lines[..i + 1][..i] == lines[..i];
      i := i + 1;
    }
    assert lines[..|lines|] == lines;
  }

  /** A path has a status exactly when some line with two or more fields
      names it. */
  lemma {:induction false} StatusMapKeys(lines: seq<string>, path: string)
    ensures path in StatusMapOf(lines) <==> exists k :: 0 <= k < |lines| && NamesPath(lines[k], path)
    decreases |lines|
  {
    if lines != [] {
      var init := lines[..|lines| - 1];
      StatusMapKeys(init, path);
      if exists k :: 0 <= k < |init| && NamesPath(init[k], path) {
        var k :| 0 <= k < |init| && NamesPath(init[k], path);
        assert lines[k] == init[k];
      }
      if exists k :: 0 <= k < |lines| && NamesPath(lines[k], path) {
        var k :| 0 <= k < |lines| && NamesPath(lines[k], path);
        if k < |init| {
          assert init[k] == lines[k];
        }
      }
    }
  }

  /** The status of a path is the first field of the last line that names it. */
  lemma {:induction false} StatusMapLastWins(lines: seq<string>, k: nat)
    requires k < |lines| && StatusEntry(lines[k]).Some?
    requires forall j :: k < j < |lines| ==> !NamesPath(lines[j], StatusEntry(lines[k]).value.0)
    ensures StatusEntry(lines[k]).value.0 in StatusMapOf(lines)
    ensures StatusMapOf(lines)[StatusEntry(lines[k]).value.0] == Split(lines[k], '\t')[0]
    decreases |lines|
  {
    if k < |lines| - 1 {
      var init := lines[..|lines| - 1];
      assert init[k] == lines[k];
      forall j | k < j < |init| ensures !NamesPath(init[j], StatusEntry(init[k]).value.0) {
        assert init[j] == lines[j];
      }
      StatusMapLastWins(init, k);
    }
  }

  /** A status line as git prints it is read back verbatim. */
  lemma StatusLineRoundTrip(status: string, path: string)
    requires '\t' !in status && '\t' !in path
    ensures StatusEntry(status + "\t" + path) == Some((path, status))
  {
    assert Join([status, path], "\t") == status + "\t" + path;
    SplitJoin([status, path], '\t');
  }

  // ---------------------------------------------------------------------
  // --numstat output
  // ---------------------------------------------------------------------

  /** A count field: its decimal value when it is all digits, else 0 (git
      prints `-` for a binary file). */
  function CountOf(field: string): (n: nat)
    ensures !IsDigits(field) ==> n == 0
    ensures IsDigits(field) && (field[0] != '0' || |field| == 1) ==> NatToDecimal(n) == field
  {
    if IsDigits(field) then NatToDecimalOfDecimal(field); DecimalValue(field) else 0
  }

  /** A leading zero does not change a count, as `int("007") == 7`. */
  lemma CountOfLeadingZero(field: string)
    ensures CountOf("0" + field) == CountOf(field)
  {
    var z := "0" + field;
    assert forall k :: 1 <= k < |z| ==> z[k] == field[k - 1];
    if IsDigits(field) {
      DecimalValueLeadingZero(field);
    } else if field != [] {
      var k :| 0 <= k < |field| && !IsDigit(field[k]);
      assert !IsDigit(z[k + 1]);
    }
  }

  /** The status recorded for a path, or "M" when the name-status output had
      none. */
  function StatusOr(statusMap: map<string, string>, path: string): string {
    if path in statusMap then statusMap[path] else "M"
  }

  /** The fields of a numstat line once surrounding whitespace is stripped. */
  function NumstatFields(line: string): seq<string> {
    Split(Strip(line), '\t')
  }

  /** The record a numstat line yields, if it has at least three fields. */
  function NumstatRecord(line: string, statusMap: map<string, string>): Option<FileChange> {
    var parts := NumstatFields(line);
    if |parts| < 3 then None
    else Some(FileChange(parts[2], StatusOr(statusMap, parts[2]), CountOf(parts[0]), CountOf(parts[1])))
  }

  /** Whitespace around a numstat line (a carriage return, trailing blanks)
      does not change the record it yields. */
  lemma NumstatRecordPadded(pre: string, line: string, post: string, statusMap: map<string, string>)
    requires forall k :: 0 <= k < |pre| ==> IsSpace(pre[k])
    requires forall k :: 0 <= k < |post| ==> IsSpace(post[k])
    ensures NumstatRecord(pre + line + post, statusMap) == NumstatRecord(line, statusMap)
  {
    StripPadded(pre, line, post);
  }

  /** The numstat parser as a function of one line. */
  function NumstatReader(statusMap: map<string, string>): string -> Option<FileChange> {
    line => NumstatRecord(line, statusMap)
  }

  /** The values `read` yields for the lines it accepts, in input order. */
  function Collect<T>(lines: seq<string>, read: string -> Option<T>): seq<T>
    decreases |lines|
  {
    if lines == [] then []
    else
      var first := match read(lines[0]) case Some(v) => [v] case None => [];
      first + Collect(lines[1..], read)
  }

  /** The records of all numstat lines, in input order. */
  function NumstatRecords(lines: seq<string>, statusMap: map<string, string>): seq<FileChange> {
    Collect(lines, NumstatReader(statusMap))
  }

  /** The loop over the numstat lines. */
  method ParseNumstat(lines: seq<string>, statusMap: map<string, string>) returns (changedFiles: seq<FileChange>)
    ensures changedFiles == NumstatRecords(lines, statusMap)
  {
    changedFiles := [];
    for i := 0 to |lines|
      invariant changedFiles == NumstatRecords(lines[..i], statusMap)
    {
      CollectStep(lines, i, NumstatReader(statusMap));
      assert NumstatReader(statusMap)(lines[i]) == NumstatRecord(lines[i], statusMap);
      var parts := Split(Strip(lines[i]), '\t');
      assert parts == NumstatFields(lines[i]);
      if |parts| >= 3 {
        var additions := CountOf(parts[0]);
        var deletions := CountOf(parts[1]);
        var filePath := parts[2];
        var status := if filePath in statusMap then statusMap[filePath] else "M";
        assert NumstatRecord(lines[i], statusMap) == Some(FileChange(filePath, status, additions, deletions));
        changedFiles := changedFiles + [FileChange(filePath, status, additions, deletions)];
      } else {
        assert NumstatRecord(lines[i], statusMap) == None;
      }
    }
    assert lines[..|lines|] == lines;
  }

  /** One more line adds its value, if `read` accepts it. */
  lemma CollectStep<T>(lines: seq<string>, i: nat, read: string -> Option<T>)
    requires i < |lines|
    ensures read(lines[i]).Some? ==> Collect(lines[..i + 1], read) == Collect(lines[..i], read) + [read(lines[i]).value]
    ensures read(lines[i]).None? ==> Collect(lines[..i + 1], read) == Collect(lines[..i], read)
  {
    CollectAppend(lines[..i], [lines[i]], read);
    assert lines[..i + 1] == lines[..i] + [lines[i]];
    CollectOne(lines[i], read);
  }

  /** One line yields its value, if `read` accepts it. */
  lemma CollectOne<T>(line: string, read: string -> Option<T>)
    ensures read(line).Some? ==> Collect([line], read) == [read(line).value]
    ensures read(line).None? ==> Collect([line], read) == []
  {
    assert [line][1..] == [];
  }

  /** Reading consecutive chunks of output gives the concatenated values:
      lines are read independently and in order. */
  lemma {:induction false} CollectAppend<T>(a: seq<string>, b: seq<string>, read: string -> Option<T>)
    ensures Collect(a + b, read) == Collect(a, read) + Collect(b, read)
    decreases |a|
  {
    if a != [] {
      assert (a + b)[0] == a[0];
      assert (a + b)[1..] == a[1..] + b;
      CollectAppend(a[1..], b, read);
    } else {
      assert a + b == b;
    }
  }

  /** At most one value per line. */
  lemma {:induction false} CollectBound<T>(lines: seq<string>, read: string -> Option<T>)
    ensures |Collect(lines, read)| <= |lines|
    decreases |lines|
  {
    if lines != [] {
      CollectBound(lines[1..], read);
    }
  }

  /** Exactly one value per line, the line's own, when every line is accepted. */
  lemma {:induction false} CollectAllRead<T>(lines: seq<string>, read: string -> Option<T>)
    requires forall k :: 0 <= k < |lines| ==> read(lines[k]).Some?
    ensures |Collect(lines, read)| == |lines|
    ensures forall k :: 0 <= k < |lines| ==> read(lines[k]) == Some(Collect(lines, read)[k])
    decreases |lines|
  {
    if lines != [] {
      var tail := lines[1..];
      assert forall k :: 0 <= k < |tail| ==> tail[k] == lines[k + 1];
      CollectAllRead(tail, read);
      var rest := Collect(tail, read);
      var all := Collect(lines, read);
      assert all == [read(lines[0]).value] + rest;
      forall k | 0 <= k < |lines| ensures read(lines[k]) == Some(all[k]) {
        if k > 0 {
          assert all[k] == rest[k - 1];
          assert tail[k - 1] == lines[k];
        }
      }
    }
  }

  /** No value at all when no line is accepted. */
  lemma {:induction false} CollectNoneRead<T>(lines: seq<string>, read: string -> Option<T>)
    requires forall k :: 0 <= k < |lines| ==> read(lines[k]).None?
    ensures Collect(lines, read) == []
    decreases |lines|
  {
    if lines != [] {
      var tail := lines[1..];
      assert forall k :: 0 <= k < |tail| ==> tail[k] == lines[k + 1];
      CollectNoneRead(tail, read);
    }
  }

  /** Every value is what `read` made of some input line. */
  lemma {:induction false} CollectOrigin<T>(lines: seq<string>, read: string -> Option<T>, i: nat)
    requires i < |Collect(lines, read)|
    ensures exists k :: 0 <= k < |lines| && read(lines[k]) == Some(Collect(lines, read)[i])
    decreases |lines|
  {
    var all := Collect(lines, read);
    var rest := Collect(lines[1..], read);
    if read(lines[0]).Some? && i == 0 {
      assert read(lines[0]) == Some(all[0]);
    } else {
      var j := if read(lines[0]).Some? then i - 1 else i;
      assert all[i] == rest[j];
      CollectOrigin(lines[1..], read, j);
      var k :| 0 <= k < |lines[1..]| && read(lines[1..][k]) == Some(rest[j]);
      assert lines[1..][k] == lines[k + 1];
    }
  }

  /** Every parsed record comes from one numstat line with at least three
      fields, takes that line's third field as its path, and takes its status
      from the name-status map or "M". */
  lemma NumstatRecordsOrigin(lines: seq<string>, statusMap: map<string, string>, i: nat)
    requires i < |NumstatRecords(lines, statusMap)|
    ensures exists k :: 0 <= k < |lines| && |NumstatFields(lines[k])| >= 3
                        && NumstatRecords(lines, statusMap)[i].file == NumstatFields(lines[k])[2]
    ensures NumstatRecords(lines, statusMap)[i].status == StatusOr(statusMap, NumstatRecords(lines, statusMap)[i].file)
  {
    CollectOrigin(lines, NumstatReader(statusMap), i);
    var k :| 0 <= k < |lines| && NumstatReader(statusMap)(lines[k]) == Some(NumstatRecords(lines, statusMap)[i]);
  }

  /** A numstat line as git prints it for a text file. */
  function NumstatLine(additions: nat, deletions: nat, path: string): string {
    NatToDecimal(additions) + "\t" + NatToDecimal(deletions) + "\t" + path
  }

  /** A path that survives the numstat parser unchanged: non-empty, without a
      tab or a line feed, and not ending in whitespace (`strip` would cut it). */
  predicate PlainPath(path: string) {
    path != [] && '\t' !in path && '\n' !in path && !IsSpace(path[|path| - 1])
  }

  /** A printed numstat line is read back as the record it describes. */
  lemma NumstatLineRoundTrip(additions: nat, deletions: nat, path: string, statusMap: map<string, string>)
    requires PlainPath(path)
    ensures NumstatRecord(NumstatLine(additions, deletions, path), statusMap)
            == Some(FileChange(path, StatusOr(statusMap, path), additions, deletions))
  {
    var a, d := NatToDecimal(additions), NatToDecimal(deletions);
    var line := NumstatLine(additions, deletions, path);
    assert line[0] == a[0];
    assert !IsSpace(line[0]);
    StripUnchanged(line);
    assert '\t' !in a && '\t' !in d by {
      assert forall k :: 0 <= k < |a| ==> IsDigit(a[k]);
      assert forall k :: 0 <= k < |d| ==> IsDigit(d[k]);
    }
    assert Join([path], "\t") == path;
    assert Join([d, path], "\t") == d + "\t" + path;
    assert Join([a, d, path], "\t") == line;
    SplitJoin([a, d, path], '\t');
    DecimalOfNatToDecimal(additions);
    DecimalOfNatToDecimal(deletions);
  }

  /** The numstat lines git prints for a list of records. */
  function NumstatLines(changes: seq<FileChange>): (lines: seq<string>)
    ensures |lines| == |changes|
    ensures forall k :: 0 <= k < |lines| ==> lines[k] == NumstatLine(changes[k].additions, changes[k].deletions, changes[k].file)
  {
    seq(|changes|, k requires 0 <= k < |changes| => NumstatLine(changes[k].additions, changes[k].deletions, changes[k].file))
  }

  /** The records with their status looked up in the name-status map. */
  function WithStatus(changes: seq<FileChange>, statusMap: map<string, string>): (r: seq<FileChange>)
    ensures |r| == |changes|
    ensures forall k :: 0 <= k < |r| ==> r[k] == changes[k].(status := StatusOr(statusMap, changes[k].file))
  {
    seq(|changes|, k requires 0 <= k < |changes| => changes[k].(status := StatusOr(statusMap, changes[k].file)))
  }

  /** Parsing the numstat text git prints for a list of records yields those
      records back, in order, with their statuses from the name-status map. */
  lemma NumstatTextRoundTrip(changes: seq<FileChange>, statusMap: map<string, string>)
    requires forall k :: 0 <= k < |changes| ==> PlainPath(changes[k].file)
    ensures NumstatRecords(Lines(Terminated(NumstatLines(changes))), statusMap) == WithStatus(changes, statusMap)
  {
    var lines := NumstatLines(changes);
    forall k | 0 <= k < |lines| ensures '\n' !in lines[k] {
      var a, d := NatToDecimal(changes[k].additions), NatToDecimal(changes[k].deletions);
      assert forall j :: 0 <= j < |a| ==> IsDigit(a[j]);
      assert forall j :: 0 <= j < |d| ==> IsDigit(d[j]);
      assert lines[k] == a + "\t" + d + "\t" + changes[k].file;
    }
    LinesTerminated(lines);
    forall k | 0 <= k < |lines| ensures |NumstatFields(lines[k])| >= 3
                                   && NumstatRecord(lines[k], statusMap) == Some(WithStatus(changes, statusMap)[k]) {
      NumstatLineRoundTrip(changes[k].additions, changes[k].deletions, changes[k].file, statusMap);
    }
    CollectAllRead(lines, NumstatReader(statusMap));
  }

  // ---------------------------------------------------------------------
  // get_changed_files
  // ---------------------------------------------------------------------

  /** The revision range handed to `git diff`. */
  function RevisionRange(baseRef: string, targetRef: string): string {
    baseRef + ".." + targetRef
  }

  /** Resolves the base ref, then the target ref (the first failure is the
      one reported), then parses both diff outputs for `base..target`. */
  method GetChangedFiles(repo: Repository, branchName: string, baseBranch: string := DefaultBase)
    returns (result: Result<seq<FileChange>>)
    ensures ResolveRef(repo, baseBranch).Failure? ==> result == Failure(RefNotFound(baseBranch))
    ensures ResolveRef(repo, baseBranch).Success? && ResolveRef(repo, branchName).Failure? ==>
              result == Failure(RefNotFound(branchName))
    ensures result.Success? <==> ResolveRef(repo, baseBranch).Success? && ResolveRef(repo, branchName).Success?
    ensures result.Success? ==>
              var range := RevisionRange(ResolveRef(repo, baseBranch).value, ResolveRef(repo, branchName).value);
              result.value == NumstatRecords(Lines(repo.numstatDiff(range)), StatusMapOf(Lines(repo.nameStatusDiff(range))))
  {
    var baseRef := ResolveRef(repo, baseBranch);
    if baseRef.Failure? {
      return Failure(baseRef.error);
    }
    var targetRef := ResolveRef(repo, branchName);
    if targetRef.Failure? {
      return Failure(targetRef.error);
    }
    var range := RevisionRange(baseRef.value, targetRef.value);
    var statusMap := BuildStatusMap(Lines(repo.nameStatusDiff(range)));
    var changedFiles := ParseNumstat(Lines(repo.numstatDiff(range)), statusMap);
    return Success(changedFiles);
  }
}
