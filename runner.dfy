/**
 * The test runner: a registry of the last discovered tests and of the last run,
 * which turns each way of selecting tests (all, by pattern, one test, the failed
 * ones, the last set again) into one `(testFiles, grep, logMessages)` triple and
 * hands it to the shim.
 *
 * `escapeRegExp` (an external package) is the function value `escape`, given to
 * the constructor; nothing is assumed about it.
 */
module Runner {
  import opened Wrappers
  import MochaShim

  /** A discovered test: the file that contains it and its full (suite path + title) name. */
  datatype Test = Test(file: string, fullName: string)

  /** The result of the last run; only its failed tests are used (a missing list counts as empty). */
  datatype RunResult = RunResult(failed: seq<Test>)

  /** The three arguments of one run request. */
  datatype RunParameters = RunParameters(testFiles: seq<string>, grep: Option<string>, logMessages: Option<seq<string>>)

  const NoFailedWarning := "No tests failed in last run."
  const NoLastSetWarning := "No last set to run"

  // ---------------------------------------------------------------------------
  // dedupeStrings
  // ---------------------------------------------------------------------------

  ghost predicate NoDuplicates(s: seq<string>) {
    forall i, j :: 0 <= i < j < |s| ==> s[i] != s[j]
  }

  /** The distinct elements of `xs`, each where it first occurs. */
  function Dedup(xs: seq<string>): seq<string> {
    if |xs| == 0 then []
    else
      var d := Dedup(xs[..|xs| - 1]);
      if xs[|xs| - 1] in d then d else d + [xs[|xs| - 1]]
  }

  /** The position where `x` first occurs in `xs`. */
  function FirstIndex(xs: seq<string>, x: string): (i: nat)
    requires x in xs
    ensures i < |xs| && xs[i] == x
    ensures forall j :: 0 <= j < i ==> xs[j] != x
  {
    if xs[0] == x then 0 else 1 + FirstIndex(xs[1..], x)
  }

  lemma {:induction false} DedupElements(xs: seq<string>)
    ensures forall x :: x in Dedup(xs) <==> x in xs
  {
    if |xs| > 0 {
      DedupElements(xs[..|xs| - 1]);
      assert xs == xs[..|xs| - 1] + [xs[|xs| - 1]];
    }
  }

  lemma {:induction false} DedupNoDuplicates(xs: seq<string>)
    ensures NoDuplicates(Dedup(xs))
  {
    if |xs| > 0 {
      DedupNoDuplicates(xs[..|xs| - 1]);
    }
  }

  lemma {:induction false} FirstIndexInPrefix(ys: seq<string>, x: string, y: string)
    requires y in ys
    ensures FirstIndex(ys + [x], y) == FirstIndex(ys, y)
  {
    if ys[0] != y {
      assert (ys + [x])[1..] == ys[1..] + [x];
      FirstIndexInPrefix(ys[1..], x, y);
    }
  }

  /** Dedup lists its elements in the order of their first occurrences in the input. */
  lemma {:induction false} DedupFirstOccurrenceOrder(xs: seq<string>)
    ensures forall x :: x in Dedup(xs) ==> x in xs
    ensures forall i, j :: 0 <= i < j < |Dedup(xs)| ==> FirstIndex(xs, Dedup(xs)[i]) < FirstIndex(xs, Dedup(xs)[j])
  {
    DedupElements(xs);
    if |xs| > 0 {
      var ys, x := xs[..|xs| - 1], xs[|xs| - 1];
      assert xs == ys + [x];
      var d := Dedup(ys);
      DedupFirstOccurrenceOrder(ys);
      DedupElements(ys);
      forall y | y in d ensures FirstIndex(xs, y) == FirstIndex(ys, y) && FirstIndex(xs, y) < |ys| {
        FirstIndexInPrefix(ys, x, y);
      }
      if x !in d {
        assert FirstIndex(xs, x) == |ys|;
      }
    }
  }

  /** A list without duplicates is its own deduplication. */
  lemma {:induction false} DedupOfDistinct(xs: seq<string>)
    requires NoDuplicates(xs)
    ensures Dedup(xs) == xs
  {
    if |xs| > 0 {
      var ys := xs[..|xs| - 1];
      DedupOfDistinct(ys);
      assert xs[|xs| - 1] !in ys;
      assert xs == ys + [xs[|xs| - 1]];
    }
  }

  lemma DedupSingleton(x: string)
    ensures Dedup([x]) == [x]
  {
    assert [x][..0] == [];
  }

  lemma DedupIdempotent(xs: seq<string>)
    ensures Dedup(Dedup(xs)) == Dedup(xs)
  {
    DedupNoDuplicates(xs);
    DedupOfDistinct(Dedup(xs));
  }

  /**
   * `dedupeStrings`: every string becomes a key of a dictionary; the keys come
   * back in insertion order. `order` is that order, `keys` the dictionary.
   */
  method DedupeStrings(strings: seq<string>) returns (r: seq<string>)
    ensures r == Dedup(strings)
    ensures NoDuplicates(r)
    ensures forall x :: x in r <==> x in strings
  {
    var keys: map<string, int> := map[];
    var order: seq<string> := [];
    var i := 0;
    while i < |strings|
      invariant 0 <= i <= |strings|
      invariant order == Dedup(strings[..i])
      invariant forall x :: x in keys <==> x in order
    {
      assert strings[..i + 1][..i] == strings[..i];
      if strings[i] !in keys {
        order := order + [strings[i]];
      }
      keys := keys[strings[i] := 0];
      i := i + 1;
    }
    assert strings[..i] == strings;
    r := order;
    DedupNoDuplicates(strings);
    DedupElements(strings);
  }

  // ---------------------------------------------------------------------------
  // File lists and patterns
  // ---------------------------------------------------------------------------

  /** `tests.map(test => test.file)` */
  function Files(tests: seq<Test>): (files: seq<string>)
    ensures |files| == |tests|
    ensures forall i :: 0 <= i < |tests| ==> files[i] == tests[i].file
  {
    if |tests| == 0 then [] else [tests[0].file] + Files(tests[1..])
  }

  /** `^<escaped name>$`: the pattern that selects one test by its full name. */
  /** The anchors are the first and last characters, and what lies between is the escaped name. */
  function ExactPattern(escape: string -> string, name: string): (p: string)
    ensures |p| == |escape(name)| + 2 && p[0] == '^' && p[|p| - 1] == '$'
    ensures p[1..|p| - 1] == escape(name)
  {
    "^" + escape(name) + "$"
  }

  /** Two names give the same pattern only if they escape to the same fragment. */
  lemma ExactPatternInjective(escape: string -> string, a: string, b: string)
    requires ExactPattern(escape, a) == ExactPattern(escape, b)
    ensures escape(a) == escape(b)
  {
  }

  /** `(<escaped name>)`: one alternative of the failed-tests pattern. */
  function Alternative(escape: string -> string, test: Test): string {
    "(" + escape(test.fullName) + ")"
  }

  function Alternatives(escape: string -> string, failed: seq<Test>): (alts: seq<string>)
    ensures |alts| == |failed|
    ensures forall i :: 0 <= i < |failed| ==> alts[i] == Alternative(escape, failed[i])
  {
    if |failed| == 0 then [] else [Alternative(escape, failed[0])] + Alternatives(escape, failed[1..])
  }

  /** `Array.prototype.join(sep)` */
  function Join(sep: string, parts: seq<string>): string {
    if |parts| == 0 then ""
    else if |parts| == 1 then parts[0]
    else parts[0] + sep + Join(sep, parts[1..])
  }

  /** A join is empty for no parts, and otherwise starts with the first part and ends with the last. */
  lemma {:induction false} JoinEnds(sep: string, parts: seq<string>)
    ensures |parts| == 0 ==> Join(sep, parts) == ""
    ensures |parts| > 0 ==> var r, last := Join(sep, parts), parts[|parts| - 1];
      |parts[0]| <= |r| && r[..|parts[0]|] == parts[0] && |last| <= |r| && r[|r| - |last|..] == last
  {
    if |parts| > 1 {
      JoinEnds(sep, parts[1..]);
      var tail := Join(sep, parts[1..]);
      var last := parts[|parts| - 1];
      assert parts[1..][|parts[1..]| - 1] == last;
      var r := parts[0] + sep + tail;
      assert r[|r| - |last|..] == tail[|tail| - |last|..];
    }
  }

  /** Joining two non-empty lists puts one separator between their joins. */
  lemma {:induction false} JoinSplit(sep: string, a: seq<string>, b: seq<string>)
    requires |a| > 0 && |b| > 0
    ensures Join(sep, a + b) == Join(sep, a) + sep + Join(sep, b)
  {
    if |a| > 1 {
      assert (a + b)[1..] == a[1..] + b;
      JoinSplit(sep, a[1..], b);
    } else {
      assert (a + b)[1..] == b;
    }
  }

  /** `^(<escaped name 1>)|(<escaped name 2>)|...$`: the pattern that selects the failed tests. */
  function FailedPattern(escape: string -> string, failed: seq<Test>): (p: string)
    ensures |p| >= 2 && p[0] == '^' && p[|p| - 1] == '$'
    ensures |failed| == 0 <==> p == "^$"
    ensures |failed| > 0 ==> |p| >= 4 && p[1] == '(' && p[|p| - 2] == ')'
  {
    JoinEnds("|", Alternatives(escape, failed));
    "^" + Join("|", Alternatives(escape, failed)) + "$"
  }

  /** What comes before alternative `i` inside the anchors: nothing, or the earlier ones and a `|`. */
  function AlternativesBefore(alts: seq<string>, i: nat): string
    requires i <= |alts|
  {
    if i == 0 then "" else Join("|", alts[..i]) + "|"
  }

  /** What comes after alternative `i` inside the anchors: nothing, or a `|` and the later ones. */
  function AlternativesAfter(alts: seq<string>, i: nat): string
    requires i < |alts|
  {
    if i == |alts| - 1 then "" else "|" + Join("|", alts[i + 1..])
  }

  /**
   * Every failed test's bracketed, escaped name stands in the pattern as a whole
   * alternative: between the start anchor or a `|`, and a `|` or the end anchor.
   */
  lemma FailedPatternHasAlternative(escape: string -> string, failed: seq<Test>, i: nat)
    requires i < |failed|
    ensures var alts := Alternatives(escape, failed);
      FailedPattern(escape, failed)
        == "^" + (AlternativesBefore(alts, i) + Alternative(escape, failed[i]) + AlternativesAfter(alts, i)) + "$"
  {
    JoinAround(Alternatives(escape, failed), i);
  }

  lemma JoinAround(alts: seq<string>, i: nat)
    requires i < |alts|
    ensures Join("|", alts) == AlternativesBefore(alts, i) + alts[i] + AlternativesAfter(alts, i)
  {
    var after := AlternativesAfter(alts, i);
    JoinFrom(alts, i);
    if i > 0 {
      assert alts == alts[..i] + alts[i..];
      JoinSplit("|", alts[..i], alts[i..]);
      Regroup(Join("|", alts[..i]), "|", alts[i], after);
    } else {
      assert alts[i..] == alts;
      Regroup("", "", alts[i], after);
    }
  }

  lemma JoinFrom(alts: seq<string>, i: nat)
    requires i < |alts|
    ensures Join("|", alts[i..]) == alts[i] + AlternativesAfter(alts, i)
  {
    if i < |alts| - 1 {
      assert alts[i..][1..] == alts[i + 1..];
    } else {
      assert alts[i..] == [alts[i]];
    }
  }

  lemma Regroup(a: string, b: string, c: string, d: string)
    ensures a + b + (c + d) == (a + b) + c + d
  {
  }

  /** With one failed test the pattern is the bracketed form of that test's exact pattern. */
  lemma FailedPatternSingle(escape: string -> string, test: Test)
    ensures FailedPattern(escape, [test]) == "^(" + escape(test.fullName) + ")$"
  {
  }

  // ---------------------------------------------------------------------------
  // The runner
  // ---------------------------------------------------------------------------

  /** What `_runMocha` hands to the shim for `p`: the same, with the files deduplicated. */
  function Dispatched(p: RunParameters): (d: RunParameters)
    ensures NoDuplicates(d.testFiles)
    ensures forall f :: f in d.testFiles <==> f in p.testFiles
    ensures d.grep == p.grep && d.logMessages == p.logMessages
  {
    DedupNoDuplicates(p.testFiles);
    DedupElements(p.testFiles);
    p.(testFiles := Dedup(p.testFiles))
  }

  /** The failed tests of a last result (`(lastRunResult || {}).failed || []`). */
  function FailedOf(lastRunResult: Option<RunResult>): (failed: seq<Test>)
    ensures lastRunResult.None? ==> failed == []
    ensures lastRunResult.Some? ==> failed == lastRunResult.value.failed
  {
    match lastRunResult
    case Some(result) => result.failed
    case None => []
  }

  /** The inventory a settled discovery leaves behind; an empty diagnostic text stands for none. */
  function InventoryOf(result: MochaShim.Parsed<seq<Test>>): seq<Test> {
    match result
    case Json(tests) => tests
    case EmptyText => []
  }

  class Runner {
    var tests: seq<Test>
    var lastRunResult: Option<RunResult>
    var lastRunParameters: Option<RunParameters>
    /** Every triple handed to the shim, oldest first. */
    ghost var dispatched: seq<RunParameters>
    const escape: string -> string

    /** The last triple sent is the stored one, deduplicated; nothing is sent before the first run. */
    ghost predicate Valid()
      reads this
    {
      match lastRunParameters
      case None => dispatched == []
      case Some(p) => |dispatched| > 0 && dispatched[|dispatched| - 1] == Dispatched(p)
    }

    constructor (escape: string -> string)
      ensures Valid()
      ensures tests == [] && lastRunResult == None && lastRunParameters == None && dispatched == []
      ensures this.escape == escape
    {
      tests := [];
      lastRunResult := None;
      lastRunParameters := None;
      dispatched := [];
      this.escape := escape;
    }

    /**
     * `loadTestFiles` once the worker has exited with `code` and diagnostic text
     * `stderrText`: the inventory is replaced only when discovery resolves.
     */
    method LoadTestFiles(code: Option<int>, stderrText: string, parse: string -> Option<seq<Test>>)
      returns (d: MochaShim.Discovery<seq<Test>>)
      modifies this`tests
      ensures d == MochaShim.OnWorkerExit(code, stderrText, parse)
      ensures d.Resolved? ==> tests == InventoryOf(d.result)
      ensures d.Rejected? ==> tests == old(tests)
      ensures MochaShim.Failing(code) ==> d.Rejected? && tests == old(tests)
    {
      d := MochaShim.OnWorkerExit(code, stderrText, parse);
      if d.Resolved? {
        tests := InventoryOf(d.result);
      }
    }

    /** `_runMocha`: remember the request as given, send it with its files deduplicated. */
    method RunMocha(testFiles: seq<string>, grep: Option<string>, logMessages: Option<seq<string>>)
      requires Valid()
      modifies this`lastRunParameters, this`dispatched
      ensures Valid()
      ensures lastRunParameters == Some(RunParameters(testFiles, grep, logMessages))
      ensures dispatched == old(dispatched) + [RunParameters(Dedup(testFiles), grep, logMessages)]
    {
      lastRunParameters := Some(RunParameters(testFiles, grep, logMessages));
      var files := DedupeStrings(testFiles);
      dispatched := dispatched + [RunParameters(files, grep, logMessages)];
    }

    /** `runAll`: every test's file, in inventory order, and no pattern. */
    method RunAll(logMessages: Option<seq<string>>)
      requires Valid()
      modifies this`lastRunParameters, this`dispatched
      ensures Valid()
      ensures lastRunParameters == Some(RunParameters(Files(tests), None, logMessages))
      ensures dispatched == old(dispatched) + [RunParameters(Dedup(Files(tests)), None, logMessages)]
    {
      RunMocha(Files(tests), None, logMessages);
    }

    /** `runWithGrep`: the given file (when it is a non-empty string) or every test's file. */
    method RunWithGrep(grep: string, file: Option<string>)
      requires Valid()
      modifies this`lastRunParameters, this`dispatched
      ensures Valid()
      ensures file.Some? && file.value != "" ==>
        lastRunParameters == Some(RunParameters([file.value], Some(grep), None))
        && dispatched == old(dispatched) + [RunParameters([file.value], Some(grep), None)]
      ensures file.None? || file.value == "" ==>
        lastRunParameters == Some(RunParameters(Files(tests), Some(grep), None))
        && dispatched == old(dispatched) + [RunParameters(Dedup(Files(tests)), Some(grep), None)]
    {
      var testFiles := if file.Some? && file.value != "" then [file.value] else Files(tests);
      if file.Some? && file.value != "" {
        DedupSingleton(file.value);
      }
      RunMocha(testFiles, Some(grep), None);
    }

    /** `runTest`: the test's own file, and the anchored pattern of its escaped name. */
    method RunTest(test: Test)
      requires Valid()
      modifies this`lastRunParameters, this`dispatched
      ensures Valid()
      ensures lastRunParameters == Some(RunParameters([test.file], Some(ExactPattern(escape, test.fullName)), None))
      ensures dispatched == old(dispatched) + [RunParameters([test.file], Some(ExactPattern(escape, test.fullName)), None)]
    {
      DedupSingleton(test.file);
      RunMocha([test.file], Some(ExactPattern(escape, test.fullName)), None);
    }

    /**
     * `runFailed`: a warning and nothing sent when the last result has no failed
     * tests; otherwise their files, deduplicated, and the alternation of their names.
     */
    method RunFailed() returns (warning: Option<string>)
      requires Valid()
      modifies this`lastRunParameters, this`dispatched
      ensures Valid()
      ensures |FailedOf(lastRunResult)| == 0 ==>
        warning == Some(NoFailedWarning)
        && lastRunParameters == old(lastRunParameters) && dispatched == old(dispatched)
      ensures |FailedOf(lastRunResult)| > 0 ==>
        var failed := FailedOf(lastRunResult);
        var request := RunParameters(Dedup(Files(failed)), Some(FailedPattern(escape, failed)), None);
        warning == None && lastRunParameters == Some(request) && dispatched == old(dispatched) + [request]
    {
      var failed := FailedOf(lastRunResult);
      if |failed| == 0 {
        warning := Some(NoFailedWarning);
      } else {
        var files := DedupeStrings(Files(failed));
        DedupIdempotent(Files(failed));
        RunMocha(files, Some(FailedPattern(escape, failed)), None);
        warning := None;
      }
    }

    /**
     * `runLastSet`: a warning and nothing sent before the first run; afterwards
     * the stored triple is sent again, so the request sent repeats the previous one
     * and the stored triple stays as it was.
     */
    method RunLastSet() returns (warning: Option<string>)
      requires Valid()
      modifies this`lastRunParameters, this`dispatched
      ensures Valid()
      ensures lastRunParameters == old(lastRunParameters)
      ensures old(lastRunParameters).None? ==> warning == Some(NoLastSetWarning) && dispatched == old(dispatched)
      ensures old(lastRunParameters).Some? ==>
        warning == None && dispatched == old(dispatched) + [old(dispatched)[|old(dispatched)| - 1]]
    {
      match lastRunParameters
      case None =>
        warning := Some(NoLastSetWarning);
      case Some(p) =>
        RunMocha(p.testFiles, p.grep, p.logMessages);
        warning := None;
    }
  }

  /** A two-test inventory, selected four ways. */
  method InventoryScenario(escape: string -> string)
    returns (beforeAnyRun: Option<string>, all: Option<RunParameters>, byGrep: Option<RunParameters>,
             single: Option<RunParameters>)
    ensures beforeAnyRun == Some(NoLastSetWarning)
    ensures all == Some(RunParameters(["a.js", "b.js"], None, None))
    ensures byGrep == Some(RunParameters(["a.js", "b.js"], Some("A suite"), None))
    ensures single == Some(RunParameters(["a.js"], Some("^" + escape("A suite A test") + "$"), None))
  {
    var inventory := [Test("a.js", "A suite A test"), Test("b.js", "B suite B test")];
    var runner := new Runner(escape);
    beforeAnyRun := runner.RunLastSet();
    var d := runner.LoadTestFiles(Some(0), "[...]", _ => Some(inventory));
    assert runner.tests == inventory;
    assert Files(inventory) == ["a.js", "b.js"] by {
      assert Files(inventory)[0] == "a.js" && Files(inventory)[1] == "b.js";
    }
    runner.RunAll(None);
    all := runner.lastRunParameters;
    runner.RunWithGrep("A suite", None);
    byGrep := runner.lastRunParameters;
    runner.RunTest(inventory[0]);
    single := runner.lastRunParameters;
  }

  /** A repeated file is kept once, where it first occurs. */
  lemma DedupExample()
    ensures Dedup(["a.js", "b.js", "a.js"]) == ["a.js", "b.js"]
  {
    assert ["a.js", "b.js", "a.js"][..2] == ["a.js", "b.js"];
    assert ["a.js", "b.js"][..1] == ["a.js"];
    assert ["a.js"][..0] == [];
  }
}
