/** JMESPathAnsibleResultAnalyzer: three questions asked of the structured output of
    an Ansible run (`ansible_run_result.data`), answered with the two JMESPath
    queries the analyzer uses. The sentinels are the debug messages a playbook
    emits to report the status of the app it manages. */
module ResultAnalyzer {
  import opened Outcomes
  import opened Documents
  import Text

  const SIGNAL_INSTALLED: string := "ANSIBLE_SELF_SERVICE_STATUS_INSTALLED"
  const SIGNAL_NOT_INSTALLED: string := "ANSIBLE_SELF_SERVICE_STATUS_NOT_INSTALLED"

  // ---------------------------------------------------------------------------
  // The query `length(plays[].tasks[?hosts.localhost.msg=='<msg>'][])`, step by step
  // ---------------------------------------------------------------------------

  /** The flatten operator `[]` on a list: list elements are spliced in, other
      elements are kept as they are. */
  function Flatten(items: seq<Doc>): seq<Doc> {
    if items == [] then []
    else (if items[0].List? then items[0].items else [items[0]]) + Flatten(items[1..])
  }

  /** The filter condition `hosts.localhost.msg=='<msg>'` on one task. */
  predicate CarriesMessage(task: Doc, msg: string) {
    Lookup(task, ["hosts", "localhost", "msg"]) == Str(msg)
  }

  /** The same condition as a function value, for the generic filter. */
  function Carries(msg: string): Doc -> bool {
    t => CarriesMessage(t, msg)
  }

  /** A filter projection `[?<condition>]` on a list: the elements that meet the
      condition, in their order. */
  function Filter(items: seq<Doc>, keep: Doc -> bool): seq<Doc> {
    if items == [] then []
    else (if keep(items[0]) then [items[0]] else []) + Filter(items[1..], keep)
  }

  /** The filter projection `[?hosts.localhost.msg=='<msg>']` on a task list. */
  function FilterTasks(tasks: seq<Doc>, msg: string): seq<Doc> {
    Filter(tasks, Carries(msg))
  }

  /** A filter keeps exactly the elements that meet its condition. */
  lemma {:induction false} FilterKeepsExactly(items: seq<Doc>, keep: Doc -> bool)
    ensures forall t :: t in Filter(items, keep) <==> t in items && keep(t)
    ensures |Filter(items, keep)| <= |items|
  {
    if items != [] {
      FilterKeepsExactly(items[1..], keep);
      assert items == [items[0]] + items[1..];
    }
  }

  /** The message filter keeps exactly those tasks that carry the message. */
  lemma FilterTasksKeepsCarriers(tasks: seq<Doc>, msg: string)
    ensures forall t :: t in FilterTasks(tasks, msg) <==> t in tasks && CarriesMessage(t, msg)
    ensures |FilterTasks(tasks, msg)| <= |tasks|
  {
    FilterKeepsExactly(tasks, Carries(msg));
  }

  /** The projection `.tasks[?...]` over the flattened plays: each play whose
      `tasks` is a list yields the list of its matching tasks; a play without a
      task list yields null, which a projection drops. */
  function ProjectMatchingTasks(plays: seq<Doc>, msg: string): seq<Doc> {
    if plays == [] then []
    else
      (match Field(plays[0], "tasks")
       case List(ts) => [List(FilterTasks(ts, msg))]
       case _ => [])
      + ProjectMatchingTasks(plays[1..], msg)
  }

  /** The whole query before `length`: null (a type error for `length`) unless
      `plays` is a list. */
  function TasksWithMessage(data: Doc, msg: string): Result<seq<Doc>> {
    match Field(data, "plays")
    case List(ps) => Ok(Flatten(ProjectMatchingTasks(Flatten(ps), msg)))
    case _ => Err(JMESPathTypeError)
  }

  /** `_get_number_of_tasks_with_message(msg, data)`. */
  function NumberOfTasksWithMessage(msg: string, data: Doc): Result<nat> {
    match TasksWithMessage(data, msg)
    case Ok(ts) => Ok(|ts|)
    case Err(e) => Err(e)
  }

  function Signaling(data: Doc, msg: string): Result<bool> {
    match NumberOfTasksWithMessage(msg, data)
    case Ok(n) => Ok(n > 0)
    case Err(e) => Err(e)
  }

  /** `signaling_installed`. */
  function SignalingInstalled(data: Doc): Result<bool> {
    Signaling(data, SIGNAL_INSTALLED)
  }

  /** `signaling_not_installed`. */
  function SignalingNotInstalled(data: Doc): Result<bool> {
    Signaling(data, SIGNAL_NOT_INSTALLED)
  }

  // ---------------------------------------------------------------------------
  // Reference definition: every task of every play, flattened
  // ---------------------------------------------------------------------------

  /** All tasks of the given plays, in order; a play whose `tasks` is not a list has none. */
  function TasksOfPlays(plays: seq<Doc>): seq<Doc> {
    if plays == [] then []
    else
      (match Field(plays[0], "tasks") case List(ts) => ts case _ => [])
      + TasksOfPlays(plays[1..])
  }

  /** All tasks in `plays[].tasks[]`. */
  function AllTasks(data: Doc): seq<Doc> {
    match Field(data, "plays")
    case List(ps) => TasksOfPlays(Flatten(ps))
    case _ => []
  }

  lemma {:induction false} FlattenAppend(a: seq<Doc>, b: seq<Doc>)
    ensures Flatten(a + b) == Flatten(a) + Flatten(b)
  {
    if a != [] {
      assert (a + b)[0] == a[0] && (a + b)[1..] == a[1..] + b;
      var h := if a[0].List? then a[0].items else [a[0]];
      assert Flatten(a + b) == h + Flatten(a[1..] + b);
      FlattenAppend(a[1..], b);
    } else {
      assert a + b == b;
    }
  }

  /** Filtering a concatenation filters each part. */
  lemma {:induction false} FilterAppend(a: seq<Doc>, b: seq<Doc>, keep: Doc -> bool)
    ensures Filter(a + b, keep) == Filter(a, keep) + Filter(b, keep)
  {
    if a != [] {
      assert (a + b)[0] == a[0] && (a + b)[1..] == a[1..] + b;
      FilterAppend(a[1..], b, keep);
    } else {
      assert a + b == b;
    }
  }

  /** Filtering per play and then flattening keeps exactly the matching tasks of
      all plays, in order. */
  lemma {:induction false} ProjectionKeepsMatchingTasks(plays: seq<Doc>, msg: string)
    ensures Flatten(ProjectMatchingTasks(plays, msg)) == FilterTasks(TasksOfPlays(plays), msg)
  {
    if plays != [] {
      ProjectionKeepsMatchingTasks(plays[1..], msg);
      var head := match Field(plays[0], "tasks") case List(ts) => [List(FilterTasks(ts, msg))] case _ => [];
      var own := match Field(plays[0], "tasks") case List(ts) => ts case _ => [];
      assert ProjectMatchingTasks(plays, msg) == head + ProjectMatchingTasks(plays[1..], msg);
      assert TasksOfPlays(plays) == own + TasksOfPlays(plays[1..]);
      FlattenAppend(head, ProjectMatchingTasks(plays[1..], msg));
      FilterAppend(own, TasksOfPlays(plays[1..]), Carries(msg));
      assert Flatten(head) == FilterTasks(own, msg) by {
        if head != [] {
          assert Flatten(head) == head[0].items + Flatten([]);
        }
      }
    }
  }

  /** The query counts those tasks of `plays[].tasks[]` whose message is `msg`, and
      fails exactly when `plays` is not a list. */
  lemma QueryCountsMatchingTasks(data: Doc, msg: string)
    ensures NumberOfTasksWithMessage(msg, data) ==
      if Field(data, "plays").List? then Ok(|FilterTasks(AllTasks(data), msg)|) else Err(JMESPathTypeError)
  {
    if Field(data, "plays").List? {
      ProjectionKeepsMatchingTasks(Flatten(Field(data, "plays").items), msg);
    }
  }

  /** A sentinel is signalled iff at least one task of any play carries it. */
  lemma SignalingIffSomeTaskCarries(data: Doc, msg: string)
    requires Field(data, "plays").List?
    ensures Signaling(data, msg).Ok?
    ensures Signaling(data, msg).value <==> exists t :: t in AllTasks(data) && CarriesMessage(t, msg)
  {
    QueryCountsMatchingTasks(data, msg);
    FilterTasksKeepsCarriers(AllTasks(data), msg);
    var matching := FilterTasks(AllTasks(data), msg);
    if exists t :: t in AllTasks(data) && CarriesMessage(t, msg) {
      var t :| t in AllTasks(data) && CarriesMessage(t, msg);
      assert t in matching;
    } else if |matching| > 0 {
      assert matching[0] in matching;
    }
  }

  /** A task whose message is something else, or that has no message at all (a
      skipped task), adds nothing to the count. */
  lemma OtherTaskAddsNothing(tasks: seq<Doc>, t: Doc, msg: string)
    requires Lookup(t, ["hosts", "localhost", "msg"]) != Str(msg)
    ensures FilterTasks(tasks + [t], msg) == FilterTasks(tasks, msg)
  {
    FilterAppend(tasks, [t], Carries(msg));
  }

  /** A play with an empty task list adds nothing to the count. */
  lemma EmptyPlayAddsNothing(plays: seq<Doc>, play: Doc, msg: string)
    requires Field(play, "tasks") == List([])
    ensures Flatten(ProjectMatchingTasks(plays + [play], msg)) == Flatten(ProjectMatchingTasks(plays, msg))
  {
    ProjectionKeepsMatchingTasks(plays + [play], msg);
    ProjectionKeepsMatchingTasks(plays, msg);
    TasksOfPlaysAppend(plays, [play]);
    assert TasksOfPlays([play]) == [];
    assert TasksOfPlays(plays + [play]) == TasksOfPlays(plays);
  }

  lemma {:induction false} TasksOfPlaysAppend(a: seq<Doc>, b: seq<Doc>)
    ensures TasksOfPlays(a + b) == TasksOfPlays(a) + TasksOfPlays(b)
  {
    if a != [] {
      assert (a + b)[0] == a[0] && (a + b)[1..] == a[1..] + b;
      var h := match Field(a[0], "tasks") case List(ts) => ts case _ => [];
      assert TasksOfPlays(a + b) == h + TasksOfPlays(a[1..] + b);
      TasksOfPlaysAppend(a[1..], b);
    } else {
      assert a + b == b;
    }
  }

  // ---------------------------------------------------------------------------
  // has_changes: `int(jmespath.search("stats.localhost.changed", data)) > 0`
  // ---------------------------------------------------------------------------

  predicate IsDigits(ds: string) {
    |ds| > 0 && forall k :: 0 <= k < |ds| ==> '0' <= ds[k] <= '9'
  }

  /** Decimal digits in groups: digits and underscores, starting and ending
      with a digit, with never two underscores in a row (`1_000`). */
  predicate IsGroupedDigits(ds: string) {
    |ds| > 0 && '0' <= ds[0] <= '9' && '0' <= ds[|ds| - 1] <= '9' &&
    (forall k :: 0 <= k < |ds| ==> '0' <= ds[k] <= '9' || ds[k] == '_') &&
    (forall k :: 0 <= k < |ds| - 1 ==> ds[k] == '_' ==> ds[k + 1] != '_')
  }

  /** The digits of a grouped literal, with the underscores dropped. */
  function WithoutUnderscores(ds: string): string {
    if ds == [] then []
    else if ds[|ds| - 1] == '_' then WithoutUnderscores(ds[..|ds| - 1])
    else WithoutUnderscores(ds[..|ds| - 1]) + [ds[|ds| - 1]]
  }

  /** The number a string of decimal digits denotes (read only where `IsDigits` holds). */
  function DigitsValue(ds: string): int {
    if ds == [] then 0 else DigitsValue(ds[..|ds| - 1]) * 10 + (ds[|ds| - 1] as int - '0' as int)
  }

  /** `int(s)` for a string: surrounding whitespace, an optional sign, then
      decimal digits, which may be grouped by single underscores; anything else
      is a ValueError (`None` here). Only the ASCII digits are read. */
  function ParseIntLiteral(s: string): Option<int> {
    ParseSigned(Text.Strip(s))
  }

  /** An optional sign followed by grouped decimal digits, with nothing around them. */
  function ParseSigned(t: string): Option<int> {
    if |t| > 0 && (t[0] == '-' || t[0] == '+') then
      (match ParseUnsigned(t[1..])
       case Some(magnitude) => Some(if t[0] == '-' then -magnitude else magnitude)
       case None => None)
    else ParseUnsigned(t)
  }

  /** Grouped decimal digits with nothing around them, read as the number they denote. */
  function ParseUnsigned(u: string): Option<int> {
    if IsGroupedDigits(u) then Some(DigitsValue(WithoutUnderscores(u))) else None
  }

  /** A plain run of digits is a grouped literal with nothing to drop. */
  lemma {:induction false} PlainDigitsAreGrouped(ds: string)
    requires IsDigits(ds)
    ensures IsGroupedDigits(ds) && WithoutUnderscores(ds) == ds
  {
    if |ds| > 1 {
      PlainDigitsAreGrouped(ds[..|ds| - 1]);
    }
  }

  /** A plain run of digits reads as the number it denotes. */
  lemma ParsePlainDigits(ds: string)
    requires IsDigits(ds)
    ensures ParseUnsigned(ds) == Some(DigitsValue(ds))
  {
    PlainDigitsAreGrouped(ds);
  }

  /** An underscore between two runs of digits only groups them: the literal
      reads as the digits written without it. */
  lemma UnderscoreIsIgnored(a: string, b: string)
    requires IsDigits(a) && IsDigits(b)
    ensures ParseUnsigned(a + "_" + b) == ParseUnsigned(a + b) == Some(DigitsValue(a + b))
  {
    GroupedPair(a, b);
    DropUnderscoreBetween(a, b);
    assert IsDigits(a + b) by {
      forall k | 0 <= k < |a + b| ensures '0' <= (a + b)[k] <= '9' {
        if k >= |a| { assert (a + b)[k] == b[k - |a|]; }
      }
    }
    ParsePlainDigits(a + b);
  }

  lemma GroupedPair(a: string, b: string)
    requires IsDigits(a) && IsDigits(b)
    ensures IsGroupedDigits(a + "_" + b)
  {
    var s := a + "_" + b;
    assert s[0] == a[0] && s[|s| - 1] == b[|b| - 1];
    forall k | 0 <= k < |s| ensures ('0' <= s[k] <= '9' || s[k] == '_') && (s[k] == '_' <==> k == |a|) {
      if k < |a| {
        assert s[k] == a[k];
      } else if k > |a| {
        assert s[k] == b[k - |a| - 1];
      }
    }
  }

  lemma {:induction false} DropUnderscoreBetween(a: string, b: string)
    requires IsDigits(a) && IsDigits(b)
    ensures WithoutUnderscores(a + "_" + b) == a + b
    decreases |b|
  {
    var s := a + "_" + b;
    assert s[..|s| - 1] == a + "_" + b[..|b| - 1] && s[|s| - 1] == b[|b| - 1];
    if |b| == 1 {
      PlainDigitsAreGrouped(a);
      assert (a + "_")[..|a|] == a;
      assert WithoutUnderscores(a + "_") == a;
      assert b == [b[0]];
    } else {
      DropUnderscoreBetween(a, b[..|b| - 1]);
      assert a + b == (a + b[..|b| - 1]) + [b[|b| - 1]];
    }
  }

  /** `has_changes`: `int()` of a null, list or mapping raises TypeError, which is
      caught and read as "no changes"; `int()` of a boolean is 0 or 1; the
      ValueError of a non-numeric string is not caught and escapes. */
  function HasChanges(data: Doc): (r: Result<bool>)
    ensures Lookup(data, ["stats", "localhost", "changed"]) == Null ==> r == Ok(false)
    ensures Lookup(data, ["stats", "localhost", "changed"]).Int? ==>
              r == Ok(Lookup(data, ["stats", "localhost", "changed"]).i > 0)
    ensures Lookup(data, ["stats", "localhost", "changed"]).Bool? ==>
              r == Ok(Lookup(data, ["stats", "localhost", "changed"]).b)
    ensures (Lookup(data, ["stats", "localhost", "changed"]).List? ||
             Lookup(data, ["stats", "localhost", "changed"]).Mapping?) ==> r == Ok(false)
    ensures Lookup(data, ["stats", "localhost", "changed"]).Str? ==>
              var s := Lookup(data, ["stats", "localhost", "changed"]).s;
              (ParseIntLiteral(s).Some? ==> r == Ok(ParseIntLiteral(s).value > 0)) &&
              (ParseIntLiteral(s).None? ==> r == Err(ValueError))
    ensures r.Err? ==> r.error == ValueError && Lookup(data, ["stats", "localhost", "changed"]).Str?
  {
    match Lookup(data, ["stats", "localhost", "changed"])
    case Int(n) => Ok(n > 0)
    case Bool(b) => Ok(b)
    case Str(s) =>
      (match ParseIntLiteral(s)
       case Some(n) => Ok(n > 0)
       case None => Err(ValueError))
    case _ => Ok(false)
  }

  /** Decimal rendering of a natural number, as `str(n)` writes it. */
  function NatToString(n: nat): (r: string)
    ensures IsDigits(r)
  {
    if n < 10 then [('0' as int + n) as char]
    else NatToString(n / 10) + [('0' as int + n % 10) as char]
  }

  lemma {:induction false} DigitsValueOfNatToString(n: nat)
    ensures DigitsValue(NatToString(n)) == n
  {
    if n >= 10 {
      var r := NatToString(n);
      assert r[..|r| - 1] == NatToString(n / 10);
      DigitsValueOfNatToString(n / 10);
    }
  }

  /** No decimal digit is whitespace. */
  lemma DigitIsNotSpace(c: char)
    requires '0' <= c <= '9'
    ensures !Text.IsSpace(c)
  {
  }

  /** `int(ds)` of a plain run of digits is the number they denote. */
  lemma ParseUnsignedLiteral(ds: string, n: int)
    requires IsDigits(ds) && DigitsValue(ds) == n
    ensures ParseIntLiteral(ds) == Some(n)
  {
    DigitIsNotSpace(ds[0]);
    DigitIsNotSpace(ds[|ds| - 1]);
    Text.StripKeepsTrimmed(ds);
    assert ds[0] != '-' && ds[0] != '+';
    ParsePlainDigits(ds);
  }

  /** `int(t)` of a minus sign followed by plain digits is the negated number the digits denote. */
  lemma ParseSignAndDigits(t: string, u: string, n: int)
    requires |t| > 0 && t[0] == '-' && t[1..] == u && IsDigits(u) && DigitsValue(u) == -n
    ensures ParseIntLiteral(t) == Some(n)
  {
    assert t[|t| - 1] == u[|u| - 1];
    assert !Text.IsSpace('-');
    DigitIsNotSpace(u[|u| - 1]);
    Text.StripKeepsTrimmed(t);
    ParsePlainDigits(u);
    ParseMinusSign(t, u);
  }

  /** A minus sign in front of a literal negates what the literal reads as. */
  lemma ParseMinusSign(t: string, u: string)
    requires |t| > 0 && t[0] == '-' && t[1..] == u && ParseUnsigned(u).Some?
    ensures ParseSigned(t) == Some(-ParseUnsigned(u).value)
  {
  }

  /** `str(n)` for an integer. */
  function IntToString(n: int): string {
    if n < 0 then "-" + NatToString(-n) else NatToString(n)
  }

  /** A changed counter written as a numeric string is read back as that number. */
  lemma ParseIntLiteralOfRendering(n: int)
    ensures ParseIntLiteral(IntToString(n)) == Some(n)
  {
    if n < 0 {
      NegativeRenderingParses(n);
    } else {
      DigitsValueOfNatToString(n);
      ParseUnsignedLiteral(NatToString(n), n);
      assert IntToString(n) == NatToString(n);
    }
  }

  lemma NegativeRenderingParses(n: int)
    requires n < 0
    ensures ParseIntLiteral(IntToString(n)) == Some(n)
  {
    DigitsValueOfNatToString(-n);
    var t := IntToString(n);
    assert |t| > 0 && t[0] == '-' && t[1..] == NatToString(-n);
    ParseSignAndDigits(t, NatToString(-n), n);
  }

  // ---------------------------------------------------------------------------
  // The recorded run of the analyzer's unit test: a status play whose first task
  // ran a shell command that failed, whose second task ("Signal status
  // installed") was skipped and whose third printed the not-installed sentinel,
  // followed by an install play with no tasks. Durations and ids are omitted.
  // ---------------------------------------------------------------------------

  function ShellTask(): Doc {
    Mapping([
      Entry("hosts", Mapping([Entry("localhost", Mapping([
        Entry("action", Str("shell")), Entry("changed", Bool(true)), Entry("cmd", Str("which cowsay")),
        Entry("msg", Str("non-zero return code")), Entry("rc", Int(1)), Entry("stdout", Str(""))]))])),
      Entry("task", Mapping([Entry("name", Str("Check if cowsay executable in in PATH"))]))])
  }

  function SkippedTask(): Doc {
    Mapping([
      Entry("hosts", Mapping([Entry("localhost", Mapping([
        Entry("action", Str("debug")), Entry("changed", Bool(false)),
        Entry("skip_reason", Str("Conditional result was False")), Entry("skipped", Bool(true))]))])),
      Entry("task", Mapping([Entry("name", Str("Signal status installed"))]))])
  }

  function SentinelTask(): Doc {
    Mapping([
      Entry("hosts", Mapping([Entry("localhost", Mapping([
        Entry("action", Str("debug")), Entry("changed", Bool(false)),
        Entry("msg", Str(SIGNAL_NOT_INSTALLED))]))])),
      Entry("task", Mapping([Entry("name", Str("Signal status not installed"))]))])
  }

  function FixtureTasks(): seq<Doc> {
    [ShellTask(), SkippedTask(), SentinelTask()]
  }

  function NotInstalledRun(): Doc {
    Mapping([
      Entry("custom_stats", Mapping([])),
      Entry("global_custom_stats", Mapping([])),
      Entry("plays", List([
        Mapping([Entry("play", Mapping([Entry("name", Str("Check Cowsay Status"))])),
                 Entry("tasks", List(FixtureTasks()))]),
        Mapping([Entry("play", Mapping([Entry("name", Str("Install Cowsay"))])),
                 Entry("tasks", List([]))])])),
      Entry("stats", Mapping([Entry("localhost", Mapping([
        Entry("changed", Int(1)), Entry("failures", Int(0)), Entry("ignored", Int(0)), Entry("ok", Int(2)),
        Entry("rescued", Int(0)), Entry("skipped", Int(1)), Entry("unreachable", Int(0))]))]))])
  }

  lemma ShellTaskMessage()
    ensures Lookup(ShellTask(), ["hosts", "localhost", "msg"]) == Str("non-zero return code")
  {
  }

  lemma SkippedTaskMessage()
    ensures Lookup(SkippedTask(), ["hosts", "localhost", "msg"]) == Null
  {
  }

  lemma SentinelTaskMessage()
    ensures Lookup(SentinelTask(), ["hosts", "localhost", "msg"]) == Str(SIGNAL_NOT_INSTALLED)
  {
  }

  lemma FixtureFilter()
    ensures |FilterTasks(FixtureTasks(), SIGNAL_NOT_INSTALLED)| == 1
    ensures FilterTasks(FixtureTasks(), SIGNAL_INSTALLED) == []
  {
    ShellTaskMessage();
    SkippedTaskMessage();
    SentinelTaskMessage();
    assert |"non-zero return code"| != |SIGNAL_NOT_INSTALLED|;
    assert |"non-zero return code"| != |SIGNAL_INSTALLED|;
    assert |SIGNAL_NOT_INSTALLED| != |SIGNAL_INSTALLED|;
    FilterKeepsOnlyThird(ShellTask(), SkippedTask(), SentinelTask(), Carries(SIGNAL_NOT_INSTALLED));
    FilterKeepsOnlyThird(ShellTask(), SkippedTask(), SentinelTask(), Carries(SIGNAL_INSTALLED));
  }

  /** Of three elements whose first two fail the condition, the filter keeps
      the third exactly when it meets the condition. */
  lemma FilterKeepsOnlyThird(a: Doc, b: Doc, c: Doc, keep: Doc -> bool)
    requires !keep(a) && !keep(b)
    ensures Filter([a, b, c], keep) == if keep(c) then [c] else []
  {
    FilterCons(c, [], keep);
    assert [c] + [] == [c];
    FilterCons(b, [c], keep);
    assert [b] + [c] == [b, c];
    FilterCons(a, [b, c], keep);
    assert [a] + [b, c] == [a, b, c];
  }

  /** Filtering a list tests its head and filters its tail. */
  lemma FilterCons(t: Doc, ts: seq<Doc>, keep: Doc -> bool)
    ensures Filter([t] + ts, keep) == (if keep(t) then [t] else []) + Filter(ts, keep)
  {
    assert ([t] + ts)[1..] == ts;
  }

  lemma FixtureAllTasks()
    ensures Field(NotInstalledRun(), "plays").List?
    ensures AllTasks(NotInstalledRun()) == FixtureTasks()
  {
    var plays := Field(NotInstalledRun(), "plays").items;
    assert Flatten(plays) == plays;
    TasksOfPlaysAppend([plays[0]], [plays[1]]);
    assert plays == [plays[0]] + [plays[1]];
  }

  /** The unit test's expectations on the recorded run: "not installed" is
      signalled and "installed" is not. */
  lemma NotInstalledRunSignals()
    ensures SignalingNotInstalled(NotInstalledRun()) == Ok(true)
    ensures SignalingInstalled(NotInstalledRun()) == Ok(false)
  {
    FixtureAllTasks();
    FixtureFilter();
    QueryCountsMatchingTasks(NotInstalledRun(), SIGNAL_NOT_INSTALLED);
    QueryCountsMatchingTasks(NotInstalledRun(), SIGNAL_INSTALLED);
  }
}
