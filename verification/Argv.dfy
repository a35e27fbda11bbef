/** The debug argument vector of a request and its scanner. */
module Argv {
  import opened Wrappers

  datatype OperationKind = Search | All | Index | Stats | Projects | Gc

  datatype ServiceOperation = ServiceOperation(
    kind: OperationKind,
    query: string,
    k: string,
    json: bool,
    full: bool,
    noGate: bool,
    explain: bool,
    minScore: Option<string>,
    maxGap: Option<string>,
    project: Option<string>)

  /** `None` is the write operation, which has no service form. */
  datatype DirectRequest = DirectRequest(
    operation: Option<OperationKind>,
    project: Option<ProjectPath>,
    query: Option<string>,
    k: nat,
    requestedK: string,
    json: bool,
    full: bool,
    noGate: bool,
    explain: bool,
    minScore: Option<string>,  // the rendering of the number
    maxGap: Option<string>)

  datatype ProjectPath = Utf8(text: string) | NotUtf8

  function Digit(d: nat): char
    requires d < 10
  {
    "0123456789"[d]
  }

  /** `usize::to_string`. */
  function Decimal(n: nat): string {
    if n < 10 then [Digit(n)] else Decimal(n / 10) + [Digit(n % 10)]
  }

  // ----- the scanner -------------------------------------------------------------------------

  const DEFAULT: ServiceOperation :=
    ServiceOperation(Search, "", "5", false, false, false, false, None, None, None)

  /** The operation flags that take no value. */
  function Flagged(op: ServiceOperation, argument: string): ServiceOperation {
    if argument == "--all" then op.(kind := All)
    else if argument == "--index" then op.(kind := Index)
    else if argument == "--stats" then op.(kind := Stats)
    else if argument == "--projects" then op.(kind := Projects)
    else if argument == "--gc" then op.(kind := Gc)
    else if argument == "--json" then op.(json := true)
    else if argument == "--full" then op.(full := true)
    else if argument == "--no-gate" then op.(noGate := true)
    else if argument == "--explain" then op.(explain := true)
    else if argument == [] || argument[0] != '-' then op.(query := argument)
    else op
  }

  predicate TakesValue(argument: string) {
    argument in {"-k", "--min-score", "--max-gap", "--project"}
  }

  /** An option whose value is missing leaves `k` alone and clears the others. */
  function Valued(op: ServiceOperation, argument: string, value: Option<string>): ServiceOperation {
    if argument == "-k" then (if value.Some? then op.(k := value.value) else op)
    else if argument == "--min-score" then op.(minScore := value)
    else if argument == "--max-gap" then op.(maxGap := value)
    else op.(project := value)
  }

  /** The meaning of the arguments that remain. */
  function Scan(argv: seq<string>, op: ServiceOperation): ServiceOperation
    decreases |argv|
  {
    if argv == [] then op
    else if argv[0] == "--" then
      (if |argv| == 1 then op else op.(query := argv[|argv| - 1]))
    else if TakesValue(argv[0]) then
      (if |argv| == 1 then Valued(op, argv[0], None) else Scan(argv[2..], Valued(op, argv[0], Some(argv[1]))))
    else Scan(argv[1..], Flagged(op, argv[0]))
  }

  function FromArgv(argv: seq<string>): Option<ServiceOperation> {
    if "--write" in argv then None else Some(Scan(argv, DEFAULT))
  }

  /** `ServiceOperation::from_argv`: the index loop computes `FromArgv`. */
  method ParseArgv(argv: seq<string>) returns (r: Option<ServiceOperation>)
    ensures r == FromArgv(argv)
  {
    if "--write" in argv {
      return None;
    }
    var op := DEFAULT;
    var afterSeparator := false;
    var index := 0;
    while index < |argv|
      invariant 0 <= index
      invariant !afterSeparator ==>
        Scan(argv, DEFAULT) == if index <= |argv| then Scan(argv[index..], op) else op
      invariant afterSeparator ==> index <= |argv|
      invariant afterSeparator ==>
        Scan(argv, DEFAULT) == if index < |argv| then op.(query := argv[|argv| - 1]) else op
    {
      var argument := argv[index];
      if afterSeparator {
        op := op.(query := argument);
        index := index + 1;
        continue;
      }
      assert argv[index..][1..] == argv[index + 1..];
      if argument == "--" {
        afterSeparator := true;
      } else if TakesValue(argument) {
        assert index + 2 <= |argv| ==> argv[index..][2..] == argv[index + 2..];
        index := index + 1;
        op := Valued(op, argument, if index < |argv| then Some(argv[index]) else None);
      } else {
        op := Flagged(op, argument);
      }
      index := index + 1;
    }
    assert index <= |argv| ==> argv[index..] == [];
    r := Some(op);
  }

  // ----- the printer ----------------------------------------------------------------------------

  function KindFlag(kind: OperationKind): seq<string> {
    match kind
    case Search => []
    case All => ["--all"]
    case Index => ["--index"]
    case Stats => ["--stats"]
    case Projects => ["--projects"]
    case Gc => ["--gc"]
  }

  function Flag(present: bool, flag: string): seq<string> { if present then [flag] else [] }

  function Valuation(flag: string, value: Option<string>): seq<string> {
    match value
    case None => []
    case Some(v) => [flag, v]
  }

  function ProjectText(r: DirectRequest): Option<string> {
    if r.project.Some? && r.project.value.Utf8? then Some(r.project.value.text) else None
  }

  predicate Encodable(r: DirectRequest) {
    r.operation.Some? && (r.project.Some? ==> r.project.value.Utf8?)
  }

  function KValue(r: DirectRequest): Option<string> {
    if r.k != 5 then Some(r.requestedK) else None
  }

  function QueryPart(r: DirectRequest): seq<string> {
    match r.query
    case None => []
    case Some(q) => ["--", q]
  }

  /** The options that take values, then the query behind its separator. */
  function ValueTail(r: DirectRequest): seq<string> {
    Valuation("-k", KValue(r))
    + (Valuation("--min-score", r.minScore)
       + (Valuation("--max-gap", r.maxGap) + (Valuation("--project", ProjectText(r)) + QueryPart(r))))
  }

  function FlagTail(r: DirectRequest): seq<string> {
    Flag(r.json, "--json")
    + (Flag(r.full, "--full") + (Flag(r.noGate, "--no-gate") + (Flag(r.explain, "--explain") + ValueTail(r))))
  }

  function RequestArgv(r: DirectRequest): Option<seq<string>> {
    if !Encodable(r) then None else Some(KindFlag(r.operation.value) + FlagTail(r))
  }

  lemma Push(out: seq<string>, part: seq<string>, tail: seq<string>)
    ensures (out + part) + tail == out + (part + tail)
  {
  }

  /** `request_argv`, which pushes onto a vector. */
  method PrintArgv(r: DirectRequest) returns (argv: Option<seq<string>>)
    ensures argv == RequestArgv(r)
  {
    if !Encodable(r) {
      return None;
    }
    var out := KindFlag(r.operation.value);
    ghost var project := Valuation("--project", ProjectText(r)) + QueryPart(r);
    ghost var maxGap := Valuation("--max-gap", r.maxGap) + project;
    ghost var minScore := Valuation("--min-score", r.minScore) + maxGap;
    ghost var explain := Flag(r.explain, "--explain") + ValueTail(r);
    ghost var noGate := Flag(r.noGate, "--no-gate") + explain;
    ghost var full := Flag(r.full, "--full") + noGate;
    Push(out, Flag(r.json, "--json"), full);
    out := out + if r.json then ["--json"] else [];
    Push(out, Flag(r.full, "--full"), noGate);
    out := out + if r.full then ["--full"] else [];
    Push(out, Flag(r.noGate, "--no-gate"), explain);
    out := out + if r.noGate then ["--no-gate"] else [];
    Push(out, Flag(r.explain, "--explain"), ValueTail(r));
    out := out + if r.explain then ["--explain"] else [];
    Push(out, Valuation("-k", KValue(r)), minScore);
    out := out + if r.k != 5 then ["-k", r.requestedK] else [];
    Push(out, Valuation("--min-score", r.minScore), maxGap);
    out := out + if r.minScore.Some? then ["--min-score", r.minScore.value] else [];
    Push(out, Valuation("--max-gap", r.maxGap), project);
    out := out + if r.maxGap.Some? then ["--max-gap", r.maxGap.value] else [];
    Push(out, Valuation("--project", ProjectText(r)), QueryPart(r));
    out := out + if r.project.Some? then ["--project", r.project.value.text] else [];
    out := out + if r.query.Some? then ["--", r.query.value] else [];
    argv := Some(out);
  }

  /** `service_operation`. */
  function TypedOperation(r: DirectRequest): Option<ServiceOperation> {
    if !Encodable(r) then None
    else Some(ServiceOperation(
      r.operation.value, if r.query.Some? then r.query.value else "", Decimal(r.k),
      r.json, r.full, r.noGate, r.explain, r.minScore, r.maxGap, ProjectText(r)))
  }

  // ----- the round trip ---------------------------------------------------------------------------

  lemma ScanKind(kind: OperationKind, rest: seq<string>, op: ServiceOperation)
    requires op.kind == Search
    ensures Scan(KindFlag(kind) + rest, op) == Scan(rest, op.(kind := kind))
  {
    var all := KindFlag(kind) + rest;
    if kind == Search {
      assert all == rest;
    } else {
      assert all[1..] == rest;
    }
  }

  lemma ScanFlag(present: bool, flag: string, rest: seq<string>, op: ServiceOperation)
    requires flag != "--" && !TakesValue(flag)
    ensures Scan(Flag(present, flag) + rest, op) == Scan(rest, if present then Flagged(op, flag) else op)
  {
    var all := Flag(present, flag) + rest;
    if present {
      assert all[1..] == rest;
    } else {
      assert all == rest;
    }
  }

  /** A value is taken by position, whatever it looks like. */
  lemma ScanValue(flag: string, value: Option<string>, rest: seq<string>, op: ServiceOperation)
    requires TakesValue(flag)
    ensures Scan(Valuation(flag, value) + rest, op) == Scan(rest, if value.Some? then Valued(op, flag, value) else op)
  {
    var all := Valuation(flag, value) + rest;
    if value.Some? {
      assert all[2..] == rest;
    } else {
      assert all == rest;
    }
  }

  lemma ScanQuery(r: DirectRequest, op: ServiceOperation)
    requires op.query == ""
    ensures Scan(QueryPart(r), op) == op.(query := if r.query.Some? then r.query.value else "")
  {
  }

  /** The `k` a scan of the printed request yields. */
  function PrintedK(r: DirectRequest): string { if r.k != 5 then r.requestedK else "5" }

  lemma ScanValues(r: DirectRequest, op: ServiceOperation)
    requires op.query == "" && op.k == "5" && op.minScore == op.maxGap == op.project == None
    ensures Scan(ValueTail(r), op)
         == op.(k := PrintedK(r), minScore := r.minScore, maxGap := r.maxGap, project := ProjectText(r),
                query := if r.query.Some? then r.query.value else "")
  {
    var project := Valuation("--project", ProjectText(r)) + QueryPart(r);
    var maxGap := Valuation("--max-gap", r.maxGap) + project;
    var minScore := Valuation("--min-score", r.minScore) + maxGap;
    var op1 := op.(k := PrintedK(r));
    var op2 := op1.(minScore := r.minScore);
    var op3 := op2.(maxGap := r.maxGap);
    var op4 := op3.(project := ProjectText(r));
    hide Scan, Valuation, QueryPart;
    ScanValue("-k", KValue(r), minScore, op);
    ScanValue("--min-score", r.minScore, maxGap, op1);
    ScanValue("--max-gap", r.maxGap, project, op2);
    ScanValue("--project", ProjectText(r), QueryPart(r), op3);
    ScanQuery(r, op4);
  }

  /** What scanning a printed request yields: only `k` may differ, when it was saturated. */
  lemma ScanPrinted(r: DirectRequest)
    requires Encodable(r)
    ensures Scan(RequestArgv(r).value, DEFAULT) == TypedOperation(r).value.(k := PrintedK(r))
  {
    var explain := Flag(r.explain, "--explain") + ValueTail(r);
    var noGate := Flag(r.noGate, "--no-gate") + explain;
    var full := Flag(r.full, "--full") + noGate;
    var op0 := DEFAULT.(kind := r.operation.value);
    var op1 := op0.(json := r.json);
    var op2 := op1.(full := r.full);
    var op3 := op2.(noGate := r.noGate);
    var op4 := op3.(explain := r.explain);
    hide Scan, Flag, ValueTail, KindFlag, Decimal;
    ScanKind(r.operation.value, FlagTail(r), DEFAULT);
    ScanFlag(r.json, "--json", full, op0);
    ScanFlag(r.full, "--full", noGate, op1);
    ScanFlag(r.noGate, "--no-gate", explain, op2);
    ScanFlag(r.explain, "--explain", ValueTail(r), op3);
    ScanValues(r, op4);
  }

  /** The request has no value that is literally the refused flag, and its count was not
      saturated. */
  predicate Faithful(r: DirectRequest) {
    && r.query != Some("--write")
    && ProjectText(r) != Some("--write")
    && r.minScore != Some("--write")
    && r.maxGap != Some("--write")
    && (r.k == 5 || r.requestedK == Decimal(r.k))
  }

  lemma InConcat(x: string, a: seq<string>, b: seq<string>)
    ensures x in a + b <==> x in a || x in b
  {
  }

  lemma InValues(x: string, r: DirectRequest)
    ensures x in ValueTail(r) <==>
      (|| x in Valuation("-k", KValue(r))
       || x in Valuation("--min-score", r.minScore)
       || x in Valuation("--max-gap", r.maxGap)
       || x in Valuation("--project", ProjectText(r))
       || x in QueryPart(r))
  {
    var project := Valuation("--project", ProjectText(r)) + QueryPart(r);
    var maxGap := Valuation("--max-gap", r.maxGap) + project;
    var minScore := Valuation("--min-score", r.minScore) + maxGap;
    hide Valuation, QueryPart;
    InConcat(x, Valuation("-k", KValue(r)), minScore);
    InConcat(x, Valuation("--min-score", r.minScore), maxGap);
    InConcat(x, Valuation("--max-gap", r.maxGap), project);
    InConcat(x, Valuation("--project", ProjectText(r)), QueryPart(r));
  }

  lemma WriteIsNoFlag(r: DirectRequest)
    requires Encodable(r)
    ensures "--write" !in KindFlag(r.operation.value)
    ensures "--write" !in Flag(r.json, "--json") && "--write" !in Flag(r.full, "--full")
    ensures "--write" !in Flag(r.noGate, "--no-gate") && "--write" !in Flag(r.explain, "--explain")
  {
  }

  lemma PrintedArguments(r: DirectRequest)
    requires Encodable(r)
    ensures "--write" in RequestArgv(r).value <==> "--write" in ValueTail(r)
  {
    var explain := Flag(r.explain, "--explain") + ValueTail(r);
    var noGate := Flag(r.noGate, "--no-gate") + explain;
    var full := Flag(r.full, "--full") + noGate;
    WriteIsNoFlag(r);
    hide Flag, ValueTail, KindFlag;
    InConcat("--write", KindFlag(r.operation.value), FlagTail(r));
    InConcat("--write", Flag(r.json, "--json"), full);
    InConcat("--write", Flag(r.full, "--full"), noGate);
    InConcat("--write", Flag(r.noGate, "--no-gate"), explain);
    InConcat("--write", Flag(r.explain, "--explain"), ValueTail(r));
  }

  lemma {:induction false} DecimalStartsWithDigit(n: nat)
    ensures |Decimal(n)| > 0 && Decimal(n)[0] != '-'
  {
    if n >= 10 {
      DecimalStartsWithDigit(n / 10);
    }
  }

  /** Scanning a printed request gives the typed operation back exactly when the request is
      faithful, whatever option-like text its query, project or numbers hold. */
  lemma ArgvRoundTrip(r: DirectRequest)
    requires Encodable(r)
    ensures FromArgv(RequestArgv(r).value) == TypedOperation(r) <==> Faithful(r)
  {
    hide Scan, ValueTail, FlagTail;
    PrintedArguments(r);
    InValues("--write", r);
    ScanPrinted(r);
    DecimalStartsWithDigit(r.k);
    assert Decimal(5) == "5";
    assert "--write"[0] == '-';
  }

  // ----- every argument vector ----------------------------------------------------------------------

  /** Every option of the vector has its value, and nothing is behind a separator. */
  predicate Closed(argv: seq<string>) {
    argv == []
    || (argv[0] != "--"
        && if TakesValue(argv[0]) then |argv| > 1 && Closed(argv[2..]) else Closed(argv[1..]))
  }

  /** Arguments act one after the other, so a later one overrides an earlier one. */
  lemma {:induction false} ScanComposes(a: seq<string>, b: seq<string>, op: ServiceOperation)
    requires Closed(a)
    ensures Scan(a + b, op) == Scan(b, Scan(a, op))
    decreases |a|
  {
    var all := a + b;
    if a == [] {
      assert all == b;
    } else if TakesValue(a[0]) {
      assert all[2..] == a[2..] + b;
      ScanComposes(a[2..], b, Valued(op, a[0], Some(a[1])));
    } else {
      assert all[1..] == a[1..] + b;
      ScanComposes(a[1..], b, Flagged(op, a[0]));
    }
  }

  /** An option whose value is missing at the end clears it, except that `-k` keeps the value it had. */
  lemma MissingValueClears(a: seq<string>, op: ServiceOperation)
    requires Closed(a)
    ensures Scan(a + ["-k"], op) == Scan(a, op)
    ensures Scan(a + ["--min-score"], op) == Scan(a, op).(minScore := None)
    ensures Scan(a + ["--max-gap"], op) == Scan(a, op).(maxGap := None)
    ensures Scan(a + ["--project"], op) == Scan(a, op).(project := None)
  {
    ScanComposes(a, ["-k"], op);
    ScanComposes(a, ["--min-score"], op);
    ScanComposes(a, ["--max-gap"], op);
    ScanComposes(a, ["--project"], op);
    hide Closed;
    var r := Scan(a, op);
    assert TakesValue("-k") && TakesValue("--min-score") && TakesValue("--max-gap") && TakesValue("--project");
    assert Scan(["-k"], r) == Valued(r, "-k", None);
    assert Scan(["--min-score"], r) == Valued(r, "--min-score", None);
    assert Scan(["--max-gap"], r) == Valued(r, "--max-gap", None);
    assert Scan(["--project"], r) == Valued(r, "--project", None);
  }

  /** Behind the separator only the last argument counts, and it is the query whatever it looks like. */
  lemma SeparatorTakesLast(a: seq<string>, words: seq<string>, op: ServiceOperation)
    requires Closed(a)
    ensures Scan(a + (["--"] + words), op)
         == if words == [] then Scan(a, op) else Scan(a, op).(query := words[|words| - 1])
  {
    ScanComposes(a, ["--"] + words, op);
    var behind := ["--"] + words;
    SeparatorEnds(behind, Scan(a, op));
    hide Scan, Closed;
  }

  lemma SeparatorEnds(argv: seq<string>, op: ServiceOperation)
    requires argv != [] && argv[0] == "--"
    ensures Scan(argv, op) == if |argv| == 1 then op else op.(query := argv[|argv| - 1])
  {
  }

  lemma OneFlag(a: seq<string>, flag: string, op: ServiceOperation)
    requires Closed(a) && flag != "--" && !TakesValue(flag)
    ensures Scan(a + [flag], op) == Flagged(Scan(a, op), flag)
  {
    ScanComposes(a, [flag], op);
    hide Closed;
    assert [flag][1..] == [];
    assert Scan([flag], Scan(a, op)) == Flagged(Scan(a, op), flag);
  }

  /** The flags that choose the operation; the last one counts. */
  lemma KindFlagsMean(a: seq<string>, op: ServiceOperation)
    requires Closed(a)
    ensures Scan(a + ["--all"], op) == Scan(a, op).(kind := All)
    ensures Scan(a + ["--index"], op) == Scan(a, op).(kind := Index)
    ensures Scan(a + ["--stats"], op) == Scan(a, op).(kind := Stats)
    ensures Scan(a + ["--projects"], op) == Scan(a, op).(kind := Projects)
    ensures Scan(a + ["--gc"], op) == Scan(a, op).(kind := Gc)
  {
    hide Scan, Closed;
    OneFlag(a, "--all", op);
    OneFlag(a, "--index", op);
    OneFlag(a, "--stats", op);
    OneFlag(a, "--projects", op);
    OneFlag(a, "--gc", op);
  }

  /** The flags that switch something on, and the options that take a value. */
  lemma OptionsMean(a: seq<string>, value: string, op: ServiceOperation)
    requires Closed(a)
    ensures Scan(a + ["--json"], op) == Scan(a, op).(json := true)
    ensures Scan(a + ["--full"], op) == Scan(a, op).(full := true)
    ensures Scan(a + ["--no-gate"], op) == Scan(a, op).(noGate := true)
    ensures Scan(a + ["--explain"], op) == Scan(a, op).(explain := true)
    ensures Scan(a + ["-k", value], op) == Scan(a, op).(k := value)
    ensures Scan(a + ["--min-score", value], op) == Scan(a, op).(minScore := Some(value))
    ensures Scan(a + ["--max-gap", value], op) == Scan(a, op).(maxGap := Some(value))
    ensures Scan(a + ["--project", value], op) == Scan(a, op).(project := Some(value))
  {
    hide Scan, Closed;
    OneFlag(a, "--json", op);
    OneFlag(a, "--full", op);
    OneFlag(a, "--no-gate", op);
    OneFlag(a, "--explain", op);
    OneOption(a, "-k", value, op);
    OneOption(a, "--min-score", value, op);
    OneOption(a, "--max-gap", value, op);
    OneOption(a, "--project", value, op);
  }

  lemma OneOption(a: seq<string>, option: string, value: string, op: ServiceOperation)
    requires Closed(a) && TakesValue(option)
    ensures Scan(a + [option, value], op) == Valued(Scan(a, op), option, Some(value))
  {
    ScanComposes(a, [option, value], op);
    hide Closed;
    assert [option, value][2..] == [];
    assert Scan([option, value], Scan(a, op)) == Valued(Scan(a, op), option, Some(value));
  }

  const OPTIONS: set<string> :=
    {"--", "-k", "--min-score", "--max-gap", "--project", "--all", "--index", "--stats", "--projects", "--gc",
     "--json", "--full", "--no-gate", "--explain"}

  /** Before the separator an argument that is no option is the query, unless it looks like an option; then it
      is ignored. */
  lemma OtherArguments(a: seq<string>, argument: string, op: ServiceOperation)
    requires Closed(a) && argument !in OPTIONS
    ensures Scan(a + [argument], op)
         == if argument != [] && argument[0] == '-' then Scan(a, op) else Scan(a, op).(query := argument)
  {
    hide Scan, Closed;
    OneFlag(a, argument, op);
  }

  function ValueOf(digits: string): int {
    if digits == [] then 0 else ValueOf(digits[..|digits| - 1]) * 10 + (digits[|digits| - 1] as int - '0' as int)
  }

  /** The decimal spelling denotes the number, in digits and without a leading zero. */
  lemma {:induction false} DecimalDenotes(n: nat)
    ensures ValueOf(Decimal(n)) == n
    ensures forall i :: 0 <= i < |Decimal(n)| ==> '0' <= Decimal(n)[i] <= '9'
    ensures |Decimal(n)| > 0 && (Decimal(n)[0] == '0' ==> n == 0)
  {
    DigitIs(n % 10);
    if n >= 10 {
      DecimalDenotes(n / 10);
      var d := Decimal(n);
      assert d[..|d| - 1] == Decimal(n / 10);
    } else {
      assert Decimal(n) == [Digit(n)] && [Digit(n)][..0] == [];
    }
  }

  lemma DigitIs(d: nat)
    requires d < 10
    ensures Digit(d) as int == '0' as int + d
  {
  }

  /** The refusal is on the text, not on the flag: a search for the words `--write` fails. */
  lemma SearchForWriteFlagIsRefused()
    ensures exists r: DirectRequest ::
      Encodable(r) && r.query == Some("--write") && FromArgv(RequestArgv(r).value) == None && TypedOperation(r).Some?
  {
    var r := DirectRequest(Some(Search), None, Some("--write"), 5, "5", false, false, false, false, None, None);
    PrintedArguments(r);
    InValues("--write", r);
    assert "--write" in QueryPart(r);
  }
}
