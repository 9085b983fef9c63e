/**
 * The start-up decision of the benchmark driver's `Client`: which mode the
 * command line selects, and which required parameters are missing for it.
 * Also the file-name helper `removeExtension` of the database-validation mode.
 */
module Client {
  import opened Wrappers

  /** The parts of the driver configuration that the `Client` constructor consults. */
  datatype Config = Config(
    shouldPrintHelpString: bool,
    // `validationParamsCreationOptions() != null`; the options themselves are not read here
    hasValidationParamsCreationOptions: bool,
    databaseValidationFilePath: Option<string>,
    validateWorkload: bool,
    calculateWorkloadStatistics: bool,
    dbClassName: Option<string>,
    workloadClassName: Option<string>,
    operationCount: int)

  /** The client modes, one per `ClientMode` implementation. */
  datatype Mode =
    | PrintHelp
    | CreateValidationParams
    | ValidateDatabase
    | ValidateWorkload
    | CalculateWorkloadStatistics
    | ExecuteWorkload

  /** The command-line arguments that can be reported missing: `DB_ARG`, `WORKLOAD_ARG`, `OPERATION_COUNT_ARG`. */
  datatype Param = DbArg | WorkloadArg | OperationCountArg

  /** `ClientException("Missing required parameters: ...")`, with the list it reports. */
  datatype ClientException = MissingRequiredParameters(missingParams: seq<Param>)

  /** The position of a parameter in the fixed order in which the constructor checks them. */
  function Rank(p: Param): nat {
    match p
    case DbArg => 0
    case WorkloadArg => 1
    case OperationCountArg => 2
  }

  /** Whether a parameter counts as absent: a `null` class name, or an operation count of 0. */
  predicate IsMissing(cfg: Config, p: Param) {
    match p
    case DbArg => cfg.dbClassName.None?
    case WorkloadArg => cfg.workloadClassName.None?
    case OperationCountArg => cfg.operationCount == 0
  }

  /** The parameters a mode requires, in checking order. */
  function Required(m: Mode): (ps: seq<Param>)
    ensures forall i, j :: 0 <= i < j < |ps| ==> Rank(ps[i]) < Rank(ps[j])
  {
    match m
    case PrintHelp => []
    case CreateValidationParams => [DbArg, WorkloadArg, OperationCountArg]
    case ValidateDatabase => [DbArg, WorkloadArg]
    case ValidateWorkload => [WorkloadArg, OperationCountArg]
    case CalculateWorkloadStatistics => [WorkloadArg, OperationCountArg]
    case ExecuteWorkload => [DbArg, WorkloadArg, OperationCountArg]
  }

  /** Whether the configuration asks for a mode (execution is the fallback, always asked for). */
  predicate Requests(cfg: Config, m: Mode) {
    match m
    case PrintHelp => cfg.shouldPrintHelpString
    case CreateValidationParams => cfg.hasValidationParamsCreationOptions
    case ValidateDatabase => cfg.databaseValidationFilePath.Some?
    case ValidateWorkload => cfg.validateWorkload
    case CalculateWorkloadStatistics => cfg.calculateWorkloadStatistics
    case ExecuteWorkload => true
  }

  /** The priority of a mode: a smaller number wins. */
  function Priority(m: Mode): nat {
    match m
    case PrintHelp => 0
    case CreateValidationParams => 1
    case ValidateDatabase => 2
    case ValidateWorkload => 3
    case CalculateWorkloadStatistics => 4
    case ExecuteWorkload => 5
  }

  /** The mode the constructor's `if`/`else if` chain picks. */
  function ModeFor(cfg: Config): Mode {
    if cfg.shouldPrintHelpString then PrintHelp
    else if cfg.hasValidationParamsCreationOptions then CreateValidationParams
    else if cfg.databaseValidationFilePath.Some? then ValidateDatabase
    else if cfg.validateWorkload then ValidateWorkload
    else if cfg.calculateWorkloadStatistics then CalculateWorkloadStatistics
    else ExecuteWorkload
  }

  /** The elements of `ps` that are missing in `cfg`, in their order in `ps`. */
  function MissingAmong(cfg: Config, ps: seq<Param>): seq<Param> {
    if ps == [] then []
    else if IsMissing(cfg, ps[0]) then [ps[0]] + MissingAmong(cfg, ps[1..])
    else MissingAmong(cfg, ps[1..])
  }

  /** The list a mode's branch collects before deciding whether to throw. */
  function Missing(cfg: Config, m: Mode): seq<Param> {
    MissingAmong(cfg, Required(m))
  }

  /** Only for `SelectClientMode`: `MissingAmong` unrolled on a list of at most three parameters. */
  lemma MissingAmongUnrolled(cfg: Config, ps: seq<Param>)
    requires 1 <= |ps| <= 3
    ensures MissingAmong(cfg, ps) ==
      (if IsMissing(cfg, ps[0]) then [ps[0]] else [])
      + (if |ps| > 1 && IsMissing(cfg, ps[1]) then [ps[1]] else [])
      + (if |ps| > 2 && IsMissing(cfg, ps[2]) then [ps[2]] else [])
  {
    if |ps| > 1 {
      assert ps[1..][1..] == ps[2..];
    }
  }

  /** `MissingAmong` keeps exactly the missing elements. */
  lemma {:induction false} MissingAmongMembers(cfg: Config, ps: seq<Param>, p: Param)
    ensures p in MissingAmong(cfg, ps) <==> p in ps && IsMissing(cfg, p)
  {
    if ps != [] {
      MissingAmongMembers(cfg, ps[1..], p);
      assert ps == [ps[0]] + ps[1..];
    }
  }

  /** `MissingAmong` keeps a strictly rank-ordered list strictly rank-ordered. */
  lemma {:induction false} MissingAmongOrdered(cfg: Config, ps: seq<Param>)
    requires forall i, j :: 0 <= i < j < |ps| ==> Rank(ps[i]) < Rank(ps[j])
    ensures var ms := MissingAmong(cfg, ps);
      forall i, j :: 0 <= i < j < |ms| ==> Rank(ms[i]) < Rank(ms[j])
  {
    if ps != [] {
      MissingAmongOrdered(cfg, ps[1..]);
      var rest := MissingAmong(cfg, ps[1..]);
      forall k | 0 <= k < |rest| ensures Rank(ps[0]) < Rank(rest[k]) {
        MissingAmongMembers(cfg, ps[1..], rest[k]);
      }
    }
  }

  /**
   * The reported list names a parameter exactly when the selected mode needs
   * it and it is absent, and lists the parameters in the order DB, WORKLOAD,
   * OPERATION_COUNT, each at most once.
   */
  lemma MissingIsOrderedAndExact(cfg: Config, m: Mode)
    ensures forall p :: p in Missing(cfg, m) <==> p in Required(m) && IsMissing(cfg, p)
    ensures var ms := Missing(cfg, m);
      forall i, j :: 0 <= i < j < |ms| ==> Rank(ms[i]) < Rank(ms[j])
  {
    forall p ensures p in Missing(cfg, m) <==> p in Required(m) && IsMissing(cfg, p) {
      MissingAmongMembers(cfg, Required(m), p);
    }
    assert Missing(cfg, m) == MissingAmong(cfg, Required(m));
    MissingAmongOrdered(cfg, Required(m));
  }

  /** The selected mode is the highest-priority mode the configuration asks for. */
  lemma ModeForIsHighestPriorityRequest(cfg: Config, m: Mode)
    ensures ModeFor(cfg) == m <==>
      Requests(cfg, m) && forall m' :: Priority(m') < Priority(m) ==> !Requests(cfg, m')
  {
    if Requests(cfg, m) && forall m' :: Priority(m') < Priority(m) ==> !Requests(cfg, m') {
      assert Priority(PrintHelp) < Priority(m) ==> !Requests(cfg, PrintHelp);
      assert Priority(CreateValidationParams) < Priority(m) ==> !Requests(cfg, CreateValidationParams);
      assert Priority(ValidateDatabase) < Priority(m) ==> !Requests(cfg, ValidateDatabase);
      assert Priority(ValidateWorkload) < Priority(m) ==> !Requests(cfg, ValidateWorkload);
      assert Priority(CalculateWorkloadStatistics) < Priority(m) ==> !Requests(cfg, CalculateWorkloadStatistics);
    }
  }

  /**
   * The decision half of the `Client(ControlService, TimeSource)` constructor:
   * walks the mode chain, collects every missing required parameter of the
   * chosen branch with successive `add`s, and throws exactly when the list is
   * non-empty. Constructing and initialising the mode object is not modelled.
   */
  method SelectClientMode(cfg: Config) returns (r: Result<Mode, ClientException>)
    ensures r.Failure? <==> Missing(cfg, ModeFor(cfg)) != []
    ensures r.Success? ==> r.value == ModeFor(cfg)
    ensures r.Failure? ==> r.error.missingParams == Missing(cfg, ModeFor(cfg))
  {
    var missingParams: seq<Param> := [];
    var mode: Mode;
    if cfg.shouldPrintHelpString {
      return Success(PrintHelp);
    } else if cfg.hasValidationParamsCreationOptions {
      if cfg.dbClassName.None? { missingParams := missingParams + [DbArg]; }
      if cfg.workloadClassName.None? { missingParams := missingParams + [WorkloadArg]; }
      if cfg.operationCount == 0 { missingParams := missingParams + [OperationCountArg]; }
      mode := CreateValidationParams;
      MissingAmongUnrolled(cfg, [DbArg, WorkloadArg, OperationCountArg]);
    } else if cfg.databaseValidationFilePath.Some? {
      if cfg.dbClassName.None? { missingParams := missingParams + [DbArg]; }
      if cfg.workloadClassName.None? { missingParams := missingParams + [WorkloadArg]; }
      mode := ValidateDatabase;
      MissingAmongUnrolled(cfg, [DbArg, WorkloadArg]);
    } else if cfg.validateWorkload {
      if cfg.workloadClassName.None? { missingParams := missingParams + [WorkloadArg]; }
      if cfg.operationCount == 0 { missingParams := missingParams + [OperationCountArg]; }
      mode := ValidateWorkload;
      MissingAmongUnrolled(cfg, [WorkloadArg, OperationCountArg]);
    } else if cfg.calculateWorkloadStatistics {
      if cfg.workloadClassName.None? { missingParams := missingParams + [WorkloadArg]; }
      if cfg.operationCount == 0 { missingParams := missingParams + [OperationCountArg]; }
      mode := CalculateWorkloadStatistics;
      MissingAmongUnrolled(cfg, [WorkloadArg, OperationCountArg]);
    } else {
      if cfg.dbClassName.None? { missingParams := missingParams + [DbArg]; }
      if cfg.workloadClassName.None? { missingParams := missingParams + [WorkloadArg]; }
      if cfg.operationCount == 0 { missingParams := missingParams + [OperationCountArg]; }
      mode := ExecuteWorkload;
      MissingAmongUnrolled(cfg, [DbArg, WorkloadArg, OperationCountArg]);
    }
    if missingParams != [] {
      return Failure(MissingRequiredParameters(missingParams));
    }
    return Success(mode);
  }

  /** Help mode is chosen whenever asked for, and never fails. */
  lemma HelpNeedsNothing(cfg: Config)
    requires cfg.shouldPrintHelpString
    ensures ModeFor(cfg) == PrintHelp && Missing(cfg, ModeFor(cfg)) == []
  {
  }

  /** `String.lastIndexOf(c)`: the last index holding `c`, or -1. */
  function LastIndexOf(s: string, c: char): (i: int)
    ensures -1 <= i < |s|
    ensures i == -1 <==> c !in s
    ensures 0 <= i ==> s[i] == c && c !in s[i + 1..]
  {
    if s == [] then -1
    else if s[|s| - 1] == c then |s| - 1
    else
      var i := LastIndexOf(s[..|s| - 1], c);
      assert s[i + 1..] == s[..|s| - 1][i + 1..] + [s[|s| - 1]];
      i
  }

  /**
   * `ValidateDatabaseMode.removeExtension`: the name unchanged when it has no
   * `.`, otherwise everything before its last `.`.
   */
  function RemoveExtension(filename: string): (r: string)
    ensures r <= filename
    ensures '.' !in filename ==> r == filename
    ensures '.' in filename ==> |r| < |filename| && filename[|r|] == '.' && '.' !in filename[|r| + 1..]
  {
    if '.' !in filename then filename else filename[..LastIndexOf(filename, '.')]
  }

  /** The contract of `RemoveExtension` pins down its result: no other prefix has that shape. */
  lemma RemoveExtensionUnique(filename: string, r: string)
    requires r <= filename
    requires '.' !in filename ==> r == filename
    requires '.' in filename ==> |r| < |filename| && filename[|r|] == '.' && '.' !in filename[|r| + 1..]
    ensures r == RemoveExtension(filename)
  {
  }
}
