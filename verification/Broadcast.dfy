/** The bounded broadcast-join rewrite: what it decides at one join, and its bottom-up pass. */
module Broadcast {
  import opened Common
  import opened LogicalPlans

  datatype Config = Config(enabled: bool, maxLocalRows: nat, maxLocalBytes: nat)

  datatype SkipReason =
    | NotInnerEquiJoin
    | NoFederatedSide
    | BothSidesFederated
    | NonColumnJoinKey
    | UnsupportedKeyType
    | LocalSideMaterializationExceededCap
    | LocalSideMaterializationError
    | CancellationRequested

  datatype Application = Application(
    localTables: seq<string>,
    remoteTables: seq<string>,
    joinKeyLocal: string,
    joinKeyRemote: string,
    localRows: nat,
    localBytes: nat,
    predicateValueCount: nat)

  /** The running account of a pass. */
  datatype Log = Log(considered: nat, applied: seq<Application>, skipped: seq<SkipReason>)

  /** How the execution of one key-extraction query ends. */
  datatype Fate = Completes | Cancelled | Fails

  /**
   * What the surroundings decide, per join number: which tables sit behind a guarded provider, how
   * each key extraction ends, in which batches its rows arrive, and how large each batch is.
   */
  datatype Runtime = Runtime(
    guarded: string -> bool,
    fate: nat -> Fate,
    arrange: (nat, seq<Scalar>, nat) -> seq<seq<Scalar>>,
    batchBytes: (nat, seq<Scalar>) -> nat)

  datatype Env = Env(config: Config, db: Database, runtime: Runtime)

  datatype RewriteError = UnresolvedColumn(name: string)

  // ---------- the join inspected ----------

  function ColumnOf(e: Expr): Option<string> {
    match e
    case Column(name) => Some(name)
    case Cast(x, _) => ColumnOf(x)
    case Alias(x, _) => ColumnOf(x)
    case _ => None
  }

  predicate TouchesGuarded(rt: Runtime, p: Plan) {
    || (p.op.TableScan? && rt.guarded(p.op.table))
    || exists i :: 0 <= i < |p.inputs| && TouchesGuarded(rt, p.inputs[i])
  }

  function TableNames(p: Plan): seq<string>
    decreases p, 1
  {
    (if p.op.TableScan? then [p.op.table] else []) + TableNamesIn(p.inputs)
  }

  function TableNamesIn(ps: seq<Plan>): seq<string>
    decreases ps, 0
  {
    if ps == [] then [] else TableNames(ps[0]) + TableNamesIn(ps[1..])
  }

  predicate IsSupportedKeyType(ty: DataType) {
    ty in {Boolean, Int8, Int16, Int32, Int64, UInt8, UInt16, UInt32, UInt64,
           Float32, Float64, Utf8, LargeUtf8, Date32, Date64}
  }

  // ---------- materializing the local keys ----------

  datatype Materialization =
    | Values(batches: seq<seq<Scalar>>, rows: nat, bytes: nat)
    | WasCancelled
    | ExceededCap
    | Failed

  function KeyPlan(local: Plan, column: string, ty: DataType): Plan {
    Node(Distinct, [Node(Projection([Column(column)], [Field(column, ty)]), [local])])
  }

  function FirstColumn(rows: Rel): seq<Scalar> {
    seq(|rows|, i requires 0 <= i < |rows| => if rows[i] == [] then Null(NullType) else rows[i][0])
  }

  function KeysOf(db: Database, local: Plan, column: string): seq<Scalar> {
    FirstColumn(Eval(db, KeyPlan(local, column, NullType)))
  }

  function TotalRows(batches: seq<seq<Scalar>>): nat {
    if batches == [] then 0
    else SatAdd(TotalRows(batches[..|batches| - 1]), |batches[|batches| - 1]|)
  }

  function TotalBytes(rt: Runtime, n: nat, batches: seq<seq<Scalar>>): nat {
    if batches == [] then 0
    else SatAdd(TotalBytes(rt, n, batches[..|batches| - 1]), rt.batchBytes(n, batches[|batches| - 1]))
  }

  function Materialize(env: Env, local: Plan, column: string, n: nat): Materialization {
    if IndexOf(SchemaOf(local), column).None? then Failed
    else match env.runtime.fate(n)
      case Fails => Failed
      case Cancelled => WasCancelled
      case Completes =>
        var batches := env.runtime.arrange(n, KeysOf(env.db, local, column), env.config.maxLocalRows + 1);
        var rows := TotalRows(batches);
        var bytes := TotalBytes(env.runtime, n, batches);
        if rows > env.config.maxLocalRows || bytes > env.config.maxLocalBytes then ExceededCap
        else Values(batches, rows, bytes)
  }

  method MaterializeDistinctKeys(env: Env, local: Plan, column: string, n: nat) returns (m: Materialization)
    ensures m == Materialize(env, local, column, n)
  {
    if IndexOf(SchemaOf(local), column).None? {
      return Failed;
    }
    match env.runtime.fate(n)
    case Fails => return Failed;
    case Cancelled => return WasCancelled;
    case Completes =>
      var batches := env.runtime.arrange(n, KeysOf(env.db, local, column), env.config.maxLocalRows + 1);
      var rows, bytes := 0, 0;
      for i := 0 to |batches|
        invariant rows == TotalRows(batches[..i])
        invariant bytes == TotalBytes(env.runtime, n, batches[..i])
      {
        assert batches[..i + 1][..i] == batches[..i];
        rows := SatAdd(rows, |batches[i]|);
        bytes := SatAdd(bytes, env.runtime.batchBytes(n, batches[i]));
      }
      assert batches[..|batches|] == batches;
      if rows > env.config.maxLocalRows {
        return ExceededCap;
      }
      if bytes > env.config.maxLocalBytes {
        return ExceededCap;
      }
      m := Values(batches, rows, bytes);
  }

  function NonNull(s: seq<Scalar>): seq<Scalar> {
    if s == [] then []
    else NonNull(s[..|s| - 1]) + (if s[|s| - 1].Null? then [] else [s[|s| - 1]])
  }

  /** The distinct non-null keys in first-seen order, or None when some key has another type. */
  function DistinctKeys(flat: seq<Scalar>, expected: DataType): Option<seq<Scalar>> {
    if exists i :: 0 <= i < |flat| && flat[i].ty != expected then None
    else Some(NonNull(FirstOccurrences(flat)))
  }

  method CollectDistinctScalars(batches: seq<seq<Scalar>>, expected: DataType) returns (r: Option<seq<Scalar>>)
    ensures r == DistinctKeys(Flatten(batches), expected)
  {
    var out: seq<Scalar> := [];
    var seen: set<Scalar> := {};
    var ok := true;
    for b := 0 to |batches|
      invariant Collected(Flatten(batches[..b]), expected, seen, out)
    {
      FlattenNext(batches, b);
      FlattenSplit(batches, b + 1);
      ok, seen, out := CollectBatch(batches[b], expected, seen, out, Flatten(batches[..b]));
      if !ok {
        var k :| 0 <= k < |batches[b]| && batches[b][k].ty != expected;
        assert Flatten(batches)[|Flatten(batches[..b])| + k] == batches[b][k];
        return None;
      }
    }
    assert batches[..|batches|] == batches;
    r := Some(out);
  }

  method CollectBatch(batch: seq<Scalar>, expected: DataType, seen0: set<Scalar>, out0: seq<Scalar>,
                      ghost before: seq<Scalar>)
    returns (ok: bool, seen: set<Scalar>, out: seq<Scalar>)
    requires Collected(before, expected, seen0, out0)
    ensures ok ==> Collected(before + batch, expected, seen, out)
    ensures !ok ==> exists k :: 0 <= k < |batch| && batch[k].ty != expected
  {
    ok, seen, out := true, seen0, out0;
    assert before + batch[..0] == before;
    for row := 0 to |batch|
      invariant ok && Collected(before + batch[..row], expected, seen, out)
    {
      var scalar := batch[row];
      assert before + batch[..row + 1] == (before + batch[..row]) + [scalar];
      CollectStep(before + batch[..row], scalar, expected, seen, out);
      if scalar !in seen {
        seen := seen + {scalar};
        if scalar.ty != expected {
          ok := false;
          return;
        }
        if !scalar.Null? {
          out := out + [scalar];
        }
      }
    }
    assert batch[..|batch|] == batch;
  }

  /** What the collecting loop has established about the scalars it has seen so far. */
  ghost predicate Collected(done: seq<Scalar>, expected: DataType, seen: set<Scalar>, out: seq<Scalar>) {
    && seen == Elements(done)
    && out == NonNull(FirstOccurrences(done))
    && forall i :: 0 <= i < |done| ==> done[i].ty == expected
  }

  lemma CollectStep(done: seq<Scalar>, x: Scalar, expected: DataType, seen: set<Scalar>, out: seq<Scalar>)
    requires Collected(done, expected, seen, out)
    ensures x in seen ==> Collected(done + [x], expected, seen, out)
    ensures x !in seen && x.ty == expected ==>
              Collected(done + [x], expected, seen + {x}, if x.Null? then out else out + [x])
  {
    if x in seen {
      CollectSeen(done, x, expected, seen, out);
    } else if x.ty == expected {
      CollectNew(done, x, expected, seen, out);
    }
  }

  lemma CollectSeen(done: seq<Scalar>, x: Scalar, expected: DataType, seen: set<Scalar>, out: seq<Scalar>)
    requires Collected(done, expected, seen, out) && x in seen
    ensures Collected(done + [x], expected, seen, out)
  {
    SeenAgain(done, x);
    OldStaysOut(done, x);
    assert Elements(done + [x]) == Elements(done) + {x};
  }

  lemma CollectNew(done: seq<Scalar>, x: Scalar, expected: DataType, seen: set<Scalar>, out: seq<Scalar>)
    requires Collected(done, expected, seen, out) && x !in seen && x.ty == expected
    ensures Collected(done + [x], expected, seen + {x}, if x.Null? then out else out + [x])
  {
    NewComesOut(done, x);
    assert Elements(done + [x]) == Elements(done) + {x};
  }

  lemma OldStaysOut(done: seq<Scalar>, x: Scalar)
    requires x in Elements(done)
    ensures NonNull(FirstOccurrences(done + [x])) == NonNull(FirstOccurrences(done))
  {
    AppendOccurrence(done, x);
    var out := NonNull(FirstOccurrences(done));
    assert out + [] == out;
  }

  lemma NewComesOut(done: seq<Scalar>, x: Scalar)
    requires x !in Elements(done)
    ensures var out := NonNull(FirstOccurrences(done));
            NonNull(FirstOccurrences(done + [x])) == if x.Null? then out else out + [x]
  {
    AppendOccurrence(done, x);
    var out := NonNull(FirstOccurrences(done));
    assert out + [] == out;
  }

  lemma SeenAgain(done: seq<Scalar>, x: Scalar)
    requires x in Elements(done)
    ensures x in done && Elements(done) + {x} == Elements(done)
  {}

  lemma AppendOccurrence(done: seq<Scalar>, x: Scalar)
    ensures NonNull(FirstOccurrences(done + [x])) ==
            NonNull(FirstOccurrences(done)) + (if x in Elements(done) || x.Null? then [] else [x])
  {
    FirstOccurrencesElements(done);
    assert (done + [x])[..|done|] == done;
    var fo := FirstOccurrences(done);
    assert x in fo <==> x in Elements(fo);
    if x !in fo {
      assert (fo + [x])[..|fo|] == fo;
    }
  }

  // ---------- the decision at one join ----------

  datatype Verdict =
    | Skip(reason: SkipReason)
    | Replace(plan: Plan, application: Application)
    | Abort(error: RewriteError)

  function EmptyPlan(spec: JoinSpec): Plan { Node(EmptyRelation(false, spec.schema), []) }

  function Restrict(remote: Plan, column: string, keys: seq<Scalar>): Plan {
    Node(Filter(InList(Column(column), keys, false)), [remote])
  }

  function Broadcasted(spec: JoinSpec, local: Plan, remote: Plan, localIsLeft: bool, column: string,
                       keys: seq<Scalar>): Plan
  {
    if localIsLeft then Node(Join(spec), [local, Restrict(remote, column, keys)])
    else Node(Join(spec), [Restrict(remote, column, keys), local])
  }

  function BroadcastVerdict(env: Env, spec: JoinSpec, local: Plan, remote: Plan, localIsLeft: bool,
                            localCol: string, remoteCol: string, n: nat): Verdict
  {
    match Materialize(env, local, localCol, n)
    case WasCancelled => Skip(CancellationRequested)
    case ExceededCap => Skip(LocalSideMaterializationExceededCap)
    case Failed => Skip(LocalSideMaterializationError)
    case Values(batches, rows, bytes) =>
      var app := Application(TableNames(local), TableNames(remote), localCol, remoteCol, rows, bytes, 0);
      if rows == 0 then Replace(EmptyPlan(spec), app.(localBytes := 0))
      else match IndexOf(SchemaOf(local), localCol)
        case None => Skip(LocalSideMaterializationError)
        case Some(i) =>
          var ty := SchemaOf(local)[i].ty;
          if !IsSupportedKeyType(ty) then Skip(UnsupportedKeyType)
          else match DistinctKeys(Flatten(batches), ty)
            case None => Skip(LocalSideMaterializationError)
            case Some(keys) =>
              if keys == [] then Replace(EmptyPlan(spec), app)
              else if IndexOf(SchemaOf(remote), remoteCol).None? then Abort(UnresolvedColumn(remoteCol))
              else Replace(Broadcasted(spec, local, remote, localIsLeft, remoteCol, keys),
                           app.(predicateValueCount := |keys|))
  }

  /** The pure account of one inspected join; `n` numbers it within the pass. */
  function JoinVerdict(env: Env, spec: JoinSpec, left: Plan, right: Plan, n: nat): Verdict {
    if !spec.joinType.Inner? then Skip(NotInnerEquiJoin)
    else if |spec.on| != 1 then Skip(NotInnerEquiJoin)
    else match (ColumnOf(spec.on[0].0), ColumnOf(spec.on[0].1))
      case (None, _) => Skip(NonColumnJoinKey)
      case (_, None) => Skip(NonColumnJoinKey)
      case (Some(leftCol), Some(rightCol)) =>
        match (TouchesGuarded(env.runtime, left), TouchesGuarded(env.runtime, right))
        case (false, true) => BroadcastVerdict(env, spec, left, right, true, leftCol, rightCol, n)
        case (true, false) => BroadcastVerdict(env, spec, right, left, false, rightCol, leftCol, n)
        case (false, false) => Skip(NoFederatedSide)
        case (true, true) => Skip(BothSidesFederated)
  }

  // ---------- the pass ----------

  function Record(log: Log, v: Verdict): Log {
    var next := log.(considered := log.considered + 1);
    match v
    case Skip(reason) => next.(skipped := log.skipped + [reason])
    case Replace(_, app) => next.(applied := log.applied + [app])
    case Abort(_) => next
  }

  function Outcome(p: Plan, v: Verdict): Result<Plan, RewriteError> {
    match v
    case Skip(_) => Ok(p)
    case Replace(q, _) => Ok(q)
    case Abort(e) => Err(e)
  }

  function Rewrite(env: Env, p: Plan, log: Log): (Result<Plan, RewriteError>, Log)
    decreases p, 1
  {
    var (kids, log1) := RewriteAll(env, p.inputs, log);
    match kids
    case Err(e) => (Err(e), log1)
    case Ok(inputs) =>
      var q := Node(p.op, inputs);
      if IsJoin(q) then InspectJoin(env, q, log1) else (Ok(q), log1)
  }

  function InspectJoin(env: Env, q: Plan, log: Log): (Result<Plan, RewriteError>, Log)
    requires IsJoin(q)
  {
    var v := JoinVerdict(env, q.op.spec, q.inputs[0], q.inputs[1], log.considered + 1);
    (Outcome(q, v), Record(log, v))
  }

  /** `maybe.unwrap_or(plan)` under the error. */
  function OrUnchanged(q: Plan, r: Result<Option<Plan>, RewriteError>): Result<Plan, RewriteError> {
    match r
    case Err(e) => Err(e)
    case Ok(None) => Ok(q)
    case Ok(Some(replacement)) => Ok(replacement)
  }

  function RewriteAll(env: Env, ps: seq<Plan>, log: Log): (Result<seq<Plan>, RewriteError>, Log)
    decreases ps, 0
  {
    if ps == [] then (Ok([]), log)
    else
      var (first, log1) := Rewrite(env, ps[0], log);
      match first
      case Err(e) => (Err(e), log1)
      case Ok(q) => Prepend([q], RewriteAll(env, ps[1..], log1))
  }

  function Prepend(done: seq<Plan>, rest: (Result<seq<Plan>, RewriteError>, Log))
    : (Result<seq<Plan>, RewriteError>, Log)
  {
    match rest.0
    case Err(e) => (Err(e), rest.1)
    case Ok(qs) => (Ok(done + qs), rest.1)
  }

  const EMPTY_LOG := Log(0, [], [])

  /** The whole pass; a disabled configuration leaves plan and account untouched. */
  function RewritePass(env: Env, p: Plan): (Result<Plan, RewriteError>, Log) {
    if env.config.enabled then Rewrite(env, p, EMPTY_LOG) else (Ok(p), EMPTY_LOG)
  }

  /** The account a pass fills in while it walks the plan. */
  class RewriteInfo {
    var considered: nat
    var applied: seq<Application>
    var skipped: seq<SkipReason>

    constructor ()
      ensures Account() == EMPTY_LOG
    {
      considered, applied, skipped := 0, [], [];
    }

    ghost function Account(): Log
      reads this
    {
      Log(considered, applied, skipped)
    }
  }

  method ApplyBroadcastRewrites(env: Env, plan: Plan) returns (r: Result<Plan, RewriteError>, info: RewriteInfo)
    ensures fresh(info)
    ensures (r, info.Account()) == RewritePass(env, plan)
  {
    info := new RewriteInfo();
    if !env.config.enabled {
      return Ok(plan), info;
    }
    r := RewriteNode(env, plan, info);
  }

  method RewriteNode(env: Env, plan: Plan, info: RewriteInfo) returns (r: Result<Plan, RewriteError>)
    modifies info
    ensures (r, info.Account()) == Rewrite(env, plan, old(info.Account()))
    decreases plan, 1
  {
    var rebuilt := RecurseIntoChildren(env, plan, info);
    if rebuilt.Err? || !IsJoin(rebuilt.value) {
      return rebuilt;
    }
    var maybe := TryRewriteJoin(env, rebuilt.value, info);
    r := OrUnchanged(rebuilt.value, maybe);
  }

  method RecurseIntoChildren(env: Env, plan: Plan, info: RewriteInfo) returns (r: Result<Plan, RewriteError>)
    modifies info
    ensures var (kids, log) := RewriteAll(env, plan.inputs, old(info.Account()));
            && info.Account() == log
            && (kids.Err? ==> r == Err(kids.error))
            && (kids.Ok? ==> r == Ok(Node(plan.op, kids.value)))
    decreases plan, 0
  {
    var inputs := plan.inputs;
    if inputs == [] {
      return Ok(plan);
    }
    var newInputs: seq<Plan> := [];
    ghost var whole := RewriteAll(env, inputs, info.Account());
    assert inputs[0..] == inputs;
    assert whole.0.Ok? ==> [] + whole.0.value == whole.0.value;
    for i := 0 to |inputs|
      invariant Prepend(newInputs, RewriteAll(env, inputs[i..], info.Account())) == whole
    {
      assert inputs[i..][0] == inputs[i] && inputs[i..][1..] == inputs[i + 1..];
      var rewritten := RewriteNode(env, inputs[i], info);
      if rewritten.Err? {
        return Err(rewritten.error);
      }
      ghost var rest := RewriteAll(env, inputs[i + 1..], info.Account());
      if rest.0.Ok? {
        assert newInputs + ([rewritten.value] + rest.0.value) == (newInputs + [rewritten.value]) + rest.0.value;
      }
      newInputs := newInputs + [rewritten.value];
    }
    assert newInputs + [] == newInputs;
    r := Ok(Node(plan.op, newInputs));
  }

  /** Inspects one join; None leaves it as it is. */
  method TryRewriteJoin(env: Env, join: Plan, info: RewriteInfo) returns (r: Result<Option<Plan>, RewriteError>)
    requires IsJoin(join)
    modifies info
    ensures (OrUnchanged(join, r), info.Account()) == InspectJoin(env, join, old(info.Account()))
  {
    var spec, left, right := join.op.spec, join.inputs[0], join.inputs[1];
    info.considered := info.considered + 1;
    if !spec.joinType.Inner? || |spec.on| != 1 {
      info.skipped := info.skipped + [NotInnerEquiJoin];
      return Ok(None);
    }
    var leftCol, rightCol := ColumnOf(spec.on[0].0), ColumnOf(spec.on[0].1);
    if leftCol.None? || rightCol.None? {
      info.skipped := info.skipped + [NonColumnJoinKey];
      return Ok(None);
    }
    var leftRemote, rightRemote := TouchesGuarded(env.runtime, left), TouchesGuarded(env.runtime, right);
    if leftRemote == rightRemote {
      info.skipped := info.skipped + [if leftRemote then BothSidesFederated else NoFederatedSide];
      return Ok(None);
    }
    var localIsLeft := !leftRemote;
    var local, remote := if localIsLeft then left else right, if localIsLeft then right else left;
    var localCol := if localIsLeft then leftCol.value else rightCol.value;
    var remoteCol := if localIsLeft then rightCol.value else leftCol.value;

    var materialized := MaterializeDistinctKeys(env, local, localCol, info.considered);
    if !materialized.Values? {
      info.skipped := info.skipped +
        [match materialized
         case WasCancelled => CancellationRequested
         case ExceededCap => LocalSideMaterializationExceededCap
         case _ => LocalSideMaterializationError];
      return Ok(None);
    }
    var app := Application(TableNames(local), TableNames(remote), localCol, remoteCol,
                           materialized.rows, materialized.bytes, 0);
    if materialized.rows == 0 {
      info.applied := info.applied + [app.(localBytes := 0)];
      return Ok(Some(EmptyPlan(spec)));
    }
    var index := IndexOf(SchemaOf(local), localCol);
    var ty := SchemaOf(local)[index.value].ty;
    if !IsSupportedKeyType(ty) {
      info.skipped := info.skipped + [UnsupportedKeyType];
      return Ok(None);
    }
    var keys := CollectDistinctScalars(materialized.batches, ty);
    if keys.None? {
      info.skipped := info.skipped + [LocalSideMaterializationError];
      return Ok(None);
    }
    if keys.value == [] {
      info.applied := info.applied + [app];
      return Ok(Some(EmptyPlan(spec)));
    }
    if IndexOf(SchemaOf(remote), remoteCol).None? {
      return Err(UnresolvedColumn(remoteCol));
    }
    info.applied := info.applied + [app.(predicateValueCount := |keys.value|)];
    r := Ok(Some(Broadcasted(spec, local, remote, localIsLeft, remoteCol, keys.value)));
  }
}
