/** The worklist analysis that the locals and reference passes share, for any abstract domain. */
module AbstractInterpreter {
  import opened FileFormat
  import opened ControlFlowGraph

  datatype Result<S, E> = Ok(state: S) | Err(error: E)

  datatype JoinResult = Changed | Unchanged

  datatype BlockPostcondition<E> = Unprocessed | Success | Error(error: E)

  datatype BlockInvariant<S, E> = BlockInvariant(pre: S, post: BlockPostcondition<E>)

  type InvariantMap<S, E> = map<nat, BlockInvariant<S, E>>

  /** What an analysis supplies: `join` returns the joined state, `execute` gets the instruction, its
      index and the last index of the block. */
  datatype TransferFunctions<!S, !E> = TransferFunctions(
    join: (S, S) -> (S, JoinResult),
    execute: (S, Bytecode, nat, nat) -> Result<S, E>)

  /** The order that makes the domain one of finite height. */
  datatype Order<!S> = Order(leq: (S, S) -> bool, rank: S -> nat)

  ghost predicate IsPreorder<S(!new)>(order: Order<S>) {
    && (forall s :: order.leq(s, s))
    && (forall s, t, u :: order.leq(s, t) && order.leq(t, u) ==> order.leq(s, u))
  }

  /** An Unchanged state already covers the other; a Changed one is an upper bound of lower rank. */
  ghost predicate JoinedRight<S, E>(order: Order<S>, f: TransferFunctions<S, E>, s: S, other: S) {
    var (joined, result) := f.join(s, other);
    match result
    case Unchanged => joined == s && order.leq(other, s)
    case Changed =>
      order.leq(s, joined) && order.leq(other, joined) && order.rank(joined) < order.rank(s)
  }

  ghost predicate IsFiniteHeight<S(!new), E>(order: Order<S>, f: TransferFunctions<S, E>) {
    IsPreorder(order) && forall s, other :: JoinedRight(order, f, s, other)
  }

  // ---------------------------------------------------------------- one block

  function Execute<S, E>(f: TransferFunctions<S, E>, code: Code, s: S, pc: nat, last: nat): Result<S, E>
    requires pc <= last < |code|
    decreases last - pc
  {
    match f.execute(s, code[pc], pc, last)
    case Err(e) => Err(e)
    case Ok(s') => if pc == last then Ok(s') else Execute(f, code, s', pc + 1, last)
  }

  function BlockResult<S, E>(f: TransferFunctions<S, E>, code: Code, b: BasicBlock, pre: S): Result<S, E>
    requires b.entry <= b.exit < |code|
  {
    Execute(f, code, pre, b.entry, b.exit)
  }

  /** `execute_block` */
  method ExecuteBlock<S, E>(f: TransferFunctions<S, E>, code: Code, b: BasicBlock, pre: S)
    returns (r: Result<S, E>)
    requires b.entry <= b.exit < |code|
    ensures r == BlockResult(f, code, b, pre)
  {
    var acc := pre;
    for offset := b.entry to b.exit + 1
      invariant BlockResult(f, code, b, pre) ==
                if offset <= b.exit then Execute(f, code, acc, offset, b.exit) else Ok(acc)
    {
      var step := f.execute(acc, code[offset], offset, b.exit);
      match step {
        case Err(e) => return Err(e);
        case Ok(s) => acc := s;
      }
    }
    return Ok(acc);
  }

  // ---------------------------------------------------------------- the fixed point

  /** The block's recorded outcome is that of its pre-state, and flows into each successor. */
  ghost predicate Settled<S, E>(order: Order<S>, f: TransferFunctions<S, E>, code: Code, cfg: Cfg,
      inv: InvariantMap<S, E>, id: nat)
    requires IsCfg(code, cfg) && id in inv && id in cfg
  {
    assert CfgAt(code, cfg, id);
    match BlockResult(f, code, cfg[id], inv[id].pre)
    case Err(e) => inv[id].post == Error(e)
    case Ok(s) =>
      && inv[id].post == Success
      && forall next :: next in cfg[id].successors ==> next in inv && order.leq(s, inv[next].pre)
  }

  ghost predicate Invariants<S, E>(order: Order<S>, f: TransferFunctions<S, E>, code: Code, cfg: Cfg,
      inv: InvariantMap<S, E>, initial: S)
  {
    && IsCfg(code, cfg)
    && inv.Keys <= cfg.Keys
    && 0 in inv && order.leq(initial, inv[0].pre)
  }

  /** What the analysis returns. */
  ghost predicate IsFixedPoint<S, E>(order: Order<S>, f: TransferFunctions<S, E>, code: Code, cfg: Cfg,
      inv: InvariantMap<S, E>, initial: S)
  {
    && Invariants(order, f, code, cfg, inv, initial)
    && forall id :: id in inv ==> Settled(order, f, code, cfg, inv, id)
  }

  /** Between steps: what is not scheduled is settled. */
  ghost predicate Progress<S, E>(order: Order<S>, f: TransferFunctions<S, E>, code: Code, cfg: Cfg,
      inv: InvariantMap<S, E>, initial: S, workList: seq<nat>)
  {
    && Invariants(order, f, code, cfg, inv, initial)
    && (forall id :: id in workList ==> id in inv)
    && (forall id :: id in inv ==> id in workList || Settled(order, f, code, cfg, inv, id))
  }

  /** The same while the outcome `s` of the popped block `current` flows to its successors, of which
      those before `i` are done. */
  ghost predicate Propagating<S, E>(order: Order<S>, f: TransferFunctions<S, E>, code: Code, cfg: Cfg,
      inv: InvariantMap<S, E>, initial: S, workList: seq<nat>, current: nat, s: S, i: nat)
  {
    && Invariants(order, f, code, cfg, inv, initial)
    && current in inv && i <= |cfg[current].successors|
    && (forall id :: id in workList ==> id in inv)
    && (forall id :: id in inv && id != current ==>
          id in workList || Settled(order, f, code, cfg, inv, id))
    && (current in workList || Delivered(order, f, code, cfg, inv, current, s, i))
  }

  ghost predicate Delivered<S, E>(order: Order<S>, f: TransferFunctions<S, E>, code: Code, cfg: Cfg,
      inv: InvariantMap<S, E>, current: nat, s: S, i: nat)
    requires IsCfg(code, cfg) && current in cfg && current in inv && i <= |cfg[current].successors|
  {
    assert CfgAt(code, cfg, current);
    && BlockResult(f, code, cfg[current], inv[current].pre) == Ok(s)
    && inv[current].post == Success
    && forall next :: next in cfg[current].successors[..i] ==> next in inv && order.leq(s, inv[next].pre)
  }

  // ---------------------------------------------------------------- the least solution

  ghost predicate JoinIsLeast<S, E>(order: Order<S>, f: TransferFunctions<S, E>, s: S, other: S, bound: S) {
    order.leq(s, bound) && order.leq(other, bound) ==> order.leq(f.join(s, other).0, bound)
  }

  ghost predicate ExecuteIsMonotone<S, E>(order: Order<S>, f: TransferFunctions<S, E>, s: S, t: S,
      instr: Bytecode, pc: nat, last: nat)
  {
    order.leq(s, t) && f.execute(t, instr, pc, last).Ok? ==>
      && f.execute(s, instr, pc, last).Ok?
      && order.leq(f.execute(s, instr, pc, last).state, f.execute(t, instr, pc, last).state)
  }

  /** Join gives the least upper bound, and execution follows the order: what succeeds on a greater
      state succeeds on a smaller one. */
  ghost predicate IsWellBehaved<S(!new), E>(order: Order<S>, f: TransferFunctions<S, E>) {
    && (forall s, other, bound :: JoinIsLeast(order, f, s, other, bound))
    && (forall s, t, instr, pc, last :: ExecuteIsMonotone(order, f, s, t, instr, pc, last))
  }

  /** Pre-states under which no block errs and each outcome is covered where it flows. */
  ghost predicate IsSolution<S, E>(order: Order<S>, f: TransferFunctions<S, E>, code: Code, cfg: Cfg,
      pre: map<nat, S>, initial: S)
    requires IsCfg(code, cfg)
  {
    && pre.Keys <= cfg.Keys
    && 0 in pre && order.leq(initial, pre[0])
    && forall id :: id in pre ==> SolvedAt(order, f, code, cfg, pre, id)
  }

  ghost predicate SolvedAt<S, E>(order: Order<S>, f: TransferFunctions<S, E>, code: Code, cfg: Cfg,
      pre: map<nat, S>, id: nat)
    requires IsCfg(code, cfg) && id in pre && id in cfg
  {
    assert CfgAt(code, cfg, id);
    match BlockResult(f, code, cfg[id], pre[id])
    case Err(_) => false
    case Ok(s) => forall next :: next in cfg[id].successors ==> next in pre && order.leq(s, pre[next])
  }

  ghost predicate BelowAt<S, E>(order: Order<S>, inv: InvariantMap<S, E>, pre: map<nat, S>, id: nat)
    requires id in inv
  {
    id in pre && order.leq(inv[id].pre, pre[id]) && !inv[id].post.Error?
  }

  ghost predicate IsBelow<S, E>(order: Order<S>, inv: InvariantMap<S, E>, pre: map<nat, S>) {
    forall id :: id in inv ==> BelowAt(order, inv, pre, id)
  }

  /** The map reaches no further and no higher than any solution, and errs nowhere if there is one. */
  ghost predicate IsLeast<S(!new), E>(order: Order<S>, f: TransferFunctions<S, E>, code: Code, cfg: Cfg,
      inv: InvariantMap<S, E>, initial: S)
    requires IsCfg(code, cfg)
  {
    IsWellBehaved(order, f) ==>
      forall pre :: IsSolution(order, f, code, cfg, pre, initial) ==> IsBelow(order, inv, pre)
  }

  /** In every solution the outcome `s` of the block is covered at its successors. */
  ghost predicate Arrives<S(!new), E>(order: Order<S>, f: TransferFunctions<S, E>, code: Code, cfg: Cfg,
      initial: S, current: nat, s: S)
    requires IsCfg(code, cfg) && current in cfg
  {
    IsWellBehaved(order, f) ==>
      forall pre :: IsSolution(order, f, code, cfg, pre, initial) ==> ArrivesIn(order, cfg, pre, current, s)
  }

  ghost predicate ArrivesIn<S>(order: Order<S>, cfg: Cfg, pre: map<nat, S>, current: nat, s: S)
    requires current in cfg
  {
    forall next :: next in cfg[current].successors ==> next in pre && order.leq(s, pre[next])
  }

  lemma {:induction false} ExecuteKeepsOrder<S(!new), E>(order: Order<S>, f: TransferFunctions<S, E>,
      code: Code, s: S, t: S, pc: nat, last: nat)
    requires IsWellBehaved(order, f) && pc <= last < |code|
    requires order.leq(s, t) && Execute(f, code, t, pc, last).Ok?
    ensures Execute(f, code, s, pc, last).Ok?
    ensures order.leq(Execute(f, code, s, pc, last).state, Execute(f, code, t, pc, last).state)
    decreases last - pc
  {
    assert ExecuteIsMonotone(order, f, s, t, code[pc], pc, last);
    if pc < last {
      ExecuteKeepsOrder(order, f, code, f.execute(s, code[pc], pc, last).state,
                        f.execute(t, code[pc], pc, last).state, pc + 1, last);
    }
  }

  /** Below a solution no block errs, and its outcome arrives at its successors. */
  lemma OutcomeArrives<S(!new), E>(order: Order<S>, f: TransferFunctions<S, E>, code: Code, cfg: Cfg,
      inv: InvariantMap<S, E>, initial: S, current: nat, pre: map<nat, S>)
    requires IsPreorder(order) && IsWellBehaved(order, f) && IsCfg(code, cfg)
    requires IsSolution(order, f, code, cfg, pre, initial) && IsBelow(order, inv, pre)
    requires current in inv && current in cfg && cfg[current].entry <= cfg[current].exit < |code|
    ensures BlockResult(f, code, cfg[current], inv[current].pre).Ok?
    ensures ArrivesIn(order, cfg, pre, current, BlockResult(f, code, cfg[current], inv[current].pre).state)
  {
    assert BelowAt(order, inv, pre, current) && SolvedAt(order, f, code, cfg, pre, current);
    ExecuteKeepsOrder(order, f, code, inv[current].pre, pre[current], cfg[current].entry, cfg[current].exit);
  }

  lemma PoppedIsLeast<S(!new), E>(order: Order<S>, f: TransferFunctions<S, E>, code: Code, cfg: Cfg,
      inv: InvariantMap<S, E>, initial: S, current: nat)
    requires IsPreorder(order) && IsCfg(code, cfg) && IsLeast(order, f, code, cfg, inv, initial)
    requires current in inv && current in cfg && cfg[current].entry <= cfg[current].exit < |code|
    ensures match BlockResult(f, code, cfg[current], inv[current].pre)
            case Err(e) => IsLeast(order, f, code, cfg, WithPost(inv, current, Error(e)), initial)
            case Ok(s) =>
              && IsLeast(order, f, code, cfg, WithPost(inv, current, Success), initial)
              && Arrives(order, f, code, cfg, initial, current, s)
  {
    var r := BlockResult(f, code, cfg[current], inv[current].pre);
    var inv' := WithPost(inv, current, if r.Ok? then Success else Error(r.error));
    if IsWellBehaved(order, f) {
      forall pre | IsSolution(order, f, code, cfg, pre, initial)
        ensures r.Ok? && IsBelow(order, inv', pre) && ArrivesIn(order, cfg, pre, current, r.state)
      {
        OutcomeArrives(order, f, code, cfg, inv, initial, current, pre);
        forall id | id in inv' ensures BelowAt(order, inv', pre, id) {
          assert BelowAt(order, inv, pre, id);
        }
      }
    }
  }

  /** Mapping a successor to the outcome, or to the join with it, stays below every solution. */
  lemma ScheduledIsLeast<S(!new), E>(order: Order<S>, f: TransferFunctions<S, E>, code: Code, cfg: Cfg,
      inv: InvariantMap<S, E>, initial: S, current: nat, s: S, next: nat)
    requires IsCfg(code, cfg) && current in cfg && next in cfg[current].successors
    requires IsLeast(order, f, code, cfg, inv, initial) && Arrives(order, f, code, cfg, initial, current, s)
    ensures next !in inv ==> IsLeast(order, f, code, cfg, inv[next := BlockInvariant(s, Success)], initial)
    ensures next in inv ==>
              IsLeast(order, f, code, cfg, inv[next := inv[next].(pre := f.join(inv[next].pre, s).0)], initial)
  {
    var b := if next in inv then inv[next].(pre := f.join(inv[next].pre, s).0) else BlockInvariant(s, Success);
    if IsWellBehaved(order, f) {
      var inv' := inv[next := b];
      forall pre | IsSolution(order, f, code, cfg, pre, initial) ensures IsBelow(order, inv', pre) {
        assert IsBelow(order, inv, pre) && ArrivesIn(order, cfg, pre, current, s);
        if next in inv {
          assert BelowAt(order, inv, pre, next);
          assert JoinIsLeast(order, f, inv[next].pre, s, pre[next]);
        }
        forall id | id in inv' ensures BelowAt(order, inv', pre, id) {
          if id != next { assert BelowAt(order, inv, pre, id); }
        }
      }
    }
  }

  /** The analysis errs nowhere exactly when there is a solution. */
  lemma ErrsUnlessSolvable<S(!new), E>(order: Order<S>, f: TransferFunctions<S, E>, code: Code, cfg: Cfg,
      inv: InvariantMap<S, E>, initial: S)
    requires IsWellBehaved(order, f) && IsFixedPoint(order, f, code, cfg, inv, initial)
    requires IsLeast(order, f, code, cfg, inv, initial)
    ensures (forall id :: id in inv ==> !inv[id].post.Error?) <==>
            exists pre :: IsSolution(order, f, code, cfg, pre, initial)
  {
    if forall id :: id in inv ==> !inv[id].post.Error? {
      var pre := map id | id in inv :: inv[id].pre;
      forall id | id in pre ensures SolvedAt(order, f, code, cfg, pre, id) {
        assert Settled(order, f, code, cfg, inv, id);
      }
      assert IsSolution(order, f, code, cfg, pre, initial);
    }
    if pre :| IsSolution(order, f, code, cfg, pre, initial) {
      assert IsBelow(order, inv, pre);
      assert forall id :: id in inv ==> BelowAt(order, inv, pre, id);
    }
  }

  // ---------------------------------------------------------------- termination

  function RankUpTo<S, E>(order: Order<S>, inv: InvariantMap<S, E>, n: nat): nat {
    if n == 0 then 0
    else (if n - 1 in inv then order.rank(inv[n - 1].pre) else 0) + RankUpTo(order, inv, n - 1)
  }

  lemma {:induction false} RankAfter<S, E>(order: Order<S>, inv: InvariantMap<S, E>, id: nat,
      b: BlockInvariant<S, E>, n: nat)
    requires id in inv
    ensures RankUpTo(order, inv[id := b], n) ==
            RankUpTo(order, inv, n)
            + if id < n then order.rank(b.pre) - order.rank(inv[id].pre) else 0
  {
    if n > 0 { RankAfter(order, inv, id, b, n - 1); }
  }

  /** Unmapped blocks, then the ranks of the pre-states. */
  ghost predicate Lower<S, E>(order: Order<S>, code: Code, cfg: Cfg,
      after: InvariantMap<S, E>, before: InvariantMap<S, E>)
  {
    || |cfg.Keys - after.Keys| < |cfg.Keys - before.Keys|
    || (|cfg.Keys - after.Keys| == |cfg.Keys - before.Keys|
        && RankUpTo(order, after, |code|) < RankUpTo(order, before, |code|))
  }

  ghost predicate Level<S, E>(order: Order<S>, code: Code, cfg: Cfg,
      after: InvariantMap<S, E>, before: InvariantMap<S, E>)
  {
    && |cfg.Keys - after.Keys| == |cfg.Keys - before.Keys|
    && RankUpTo(order, after, |code|) == RankUpTo(order, before, |code|)
  }

  lemma MappingIsLower<S, E>(order: Order<S>, code: Code, cfg: Cfg, inv: InvariantMap<S, E>, id: nat,
      b: BlockInvariant<S, E>)
    requires id in cfg && id !in inv
    ensures |cfg.Keys - inv[id := b].Keys| < |cfg.Keys - inv.Keys|
  {
    assert cfg.Keys - inv.Keys == (cfg.Keys - inv[id := b].Keys) + {id};
  }

  // ---------------------------------------------------------------- one successor

  /** Raising the pre-state of `next`, or mapping it, and scheduling it keeps everything settled that
      is not scheduled. */
  lemma Raise<S(!new), E>(order: Order<S>, f: TransferFunctions<S, E>, code: Code, cfg: Cfg,
      inv: InvariantMap<S, E>, next: nat, pre: S, post: BlockPostcondition<E>, id: nat)
    requires IsPreorder(order) && IsCfg(code, cfg) && inv.Keys <= cfg.Keys
    requires next in cfg && (next in inv ==> order.leq(inv[next].pre, pre))
    requires id in inv && id != next && Settled(order, f, code, cfg, inv, id)
    ensures Settled(order, f, code, cfg, inv[next := BlockInvariant(pre, post)], id)
  {
  }

  /** One step of the propagation. */
  method Propagate<S(!new), E>(ghost order: Order<S>, f: TransferFunctions<S, E>, code: Code, cfg: Cfg,
      inv: InvariantMap<S, E>, ghost initial: S, workList: seq<nat>, ghost current: nat, s: S,
      next: nat, ghost i: nat)
    returns (inv': InvariantMap<S, E>, workList': seq<nat>)
    requires IsFiniteHeight(order, f) && JumpsInBounds(code)
    requires Propagating(order, f, code, cfg, inv, initial, workList, current, s, i)
    requires i < |cfg[current].successors| && next == cfg[current].successors[i]
    requires IsLeast(order, f, code, cfg, inv, initial) && Arrives(order, f, code, cfg, initial, current, s)
    ensures Propagating(order, f, code, cfg, inv', initial, workList', current, s, i + 1)
    ensures IsLeast(order, f, code, cfg, inv', initial)
    ensures Lower(order, code, cfg, inv', inv) || (inv' == inv && workList' == workList)
  {
    assert CfgAt(code, cfg, current);
    assert next in cfg[current].successors && Flows(code, cfg[current].exit, next);
    assert next in cfg by { SuccessorIsBlock(code, cfg, current, next); }
    ScheduledIsLeast(order, f, code, cfg, inv, initial, current, s, next);
    if next in inv {
      assert JoinedRight(order, f, inv[next].pre, s);
      var (joined, result) := f.join(inv[next].pre, s);
      inv' := inv[next := inv[next].(pre := joined)];
      match result {
        case Unchanged =>
          assert inv' == inv;
          workList' := workList;
        case Changed =>
          workList' := workList + [next];
          Scheduled(order, f, code, cfg, inv, initial, workList, current, s, i,
                    inv[next].(pre := joined));
      }
    } else {
      inv' := inv[next := BlockInvariant(s, Success)];
      workList' := workList + [next];
      Scheduled(order, f, code, cfg, inv, initial, workList, current, s, i,
                BlockInvariant(s, Success));
    }
  }

  lemma Scheduled<S(!new), E>(order: Order<S>, f: TransferFunctions<S, E>, code: Code, cfg: Cfg,
      inv: InvariantMap<S, E>, initial: S, workList: seq<nat>, current: nat, s: S, i: nat,
      b: BlockInvariant<S, E>)
    requires IsPreorder(order)
    requires Propagating(order, f, code, cfg, inv, initial, workList, current, s, i)
    requires i < |cfg[current].successors| && cfg[current].successors[i] in cfg
    requires order.leq(s, b.pre)
    requires var next := cfg[current].successors[i];
             next in inv ==> order.leq(inv[next].pre, b.pre) && order.rank(b.pre) < order.rank(inv[next].pre)
    ensures var next := cfg[current].successors[i];
            && Propagating(order, f, code, cfg, inv[next := b], initial, workList + [next], current, s, i + 1)
            && Lower(order, code, cfg, inv[next := b], inv)
  {
    var next := cfg[current].successors[i];
    var inv' := inv[next := b];
    assert CfgAt(code, cfg, next);
    if next in inv {
      RankAfter(order, inv, next, b, |code|);
      assert inv'.Keys == inv.Keys;
    } else {
      MappingIsLower(order, code, cfg, inv, next, b);
    }
    forall id | id in inv' && id != current && id !in workList + [next]
      ensures Settled(order, f, code, cfg, inv', id)
    {
      Raise(order, f, code, cfg, inv, next, b.pre, b.post, id);
    }
    assert current !in workList + [next] ==> Delivered(order, f, code, cfg, inv', current, s, i + 1);
  }

  lemma SuccessorIsBlock(code: Code, cfg: Cfg, id: nat, next: nat)
    requires JumpsInBounds(code) && IsCfg(code, cfg) && id in cfg && next in cfg[id].successors
    ensures next in cfg
  {
    assert CfgAt(code, cfg, id);
    LeavesToEntry(code, cfg, cfg[id].exit, next);
  }

  // ---------------------------------------------------------------- the whole function

  lemma RecordPost<S, E>(order: Order<S>, f: TransferFunctions<S, E>, code: Code, cfg: Cfg,
      inv: InvariantMap<S, E>, id: nat, post: BlockPostcondition<E>)
    requires IsCfg(code, cfg) && inv.Keys <= cfg.Keys && id in inv
    ensures var inv' := inv[id := inv[id].(post := post)];
            && Level(order, code, cfg, inv', inv)
            && forall x :: x in inv && x != id && Settled(order, f, code, cfg, inv, x) ==>
                             Settled(order, f, code, cfg, inv', x)
  {
    RankAfter(order, inv, id, inv[id].(post := post), |code|);
    assert inv[id := inv[id].(post := post)].Keys == inv.Keys;
  }

  function WithPost<S, E>(inv: InvariantMap<S, E>, id: nat, post: BlockPostcondition<E>)
    : InvariantMap<S, E>
    requires id in inv
  {
    inv[id := inv[id].(post := post)]
  }

  /** Popping a block and recording the outcome of its execution. */
  lemma Popped<S, E>(order: Order<S>, f: TransferFunctions<S, E>, code: Code, cfg: Cfg,
      inv: InvariantMap<S, E>, initial: S, workList: seq<nat>, current: nat)
    requires Progress(order, f, code, cfg, inv, initial, workList + [current])
    ensures current in inv && current in cfg && cfg[current].entry <= cfg[current].exit < |code|
    ensures match BlockResult(f, code, cfg[current], inv[current].pre)
            case Err(e) =>
              && Progress(order, f, code, cfg, WithPost(inv, current, Error(e)), initial, workList)
              && Level(order, code, cfg, WithPost(inv, current, Error(e)), inv)
            case Ok(s) =>
              && Propagating(order, f, code, cfg, WithPost(inv, current, Success), initial, workList,
                             current, s, 0)
              && Level(order, code, cfg, WithPost(inv, current, Success), inv)
  {
    assert current in workList + [current];
    assert CfgAt(code, cfg, current);
    assert forall id :: id in workList + [current] <==> id == current || id in workList;
    match BlockResult(f, code, cfg[current], inv[current].pre) {
      case Err(e) => RecordPost(order, f, code, cfg, inv, current, Error(e));
      case Ok(s) => RecordPost(order, f, code, cfg, inv, current, Success);
    }
  }

  /** Lets the outcome of a block flow into all its successors. */
  method PropagateAll<S(!new), E>(ghost order: Order<S>, f: TransferFunctions<S, E>, code: Code,
      cfg: Cfg, inv: InvariantMap<S, E>, ghost initial: S, workList: seq<nat>, current: nat, s: S)
    returns (inv': InvariantMap<S, E>, workList': seq<nat>)
    requires IsFiniteHeight(order, f) && JumpsInBounds(code)
    requires Propagating(order, f, code, cfg, inv, initial, workList, current, s, 0)
    requires IsLeast(order, f, code, cfg, inv, initial) && Arrives(order, f, code, cfg, initial, current, s)
    ensures Progress(order, f, code, cfg, inv', initial, workList')
    ensures IsLeast(order, f, code, cfg, inv', initial)
    ensures Lower(order, code, cfg, inv', inv) || (inv' == inv && workList' == workList)
  {
    inv', workList' := inv, workList;
    var successors := cfg[current].successors;
    for i := 0 to |successors|
      invariant Propagating(order, f, code, cfg, inv', initial, workList', current, s, i)
      invariant IsLeast(order, f, code, cfg, inv', initial)
      invariant Lower(order, code, cfg, inv', inv) || (inv' == inv && workList' == workList)
    {
      inv', workList' :=
        Propagate(order, f, code, cfg, inv', initial, workList', current, s, successors[i], i);
    }
    assert successors[..|successors|] == successors;
  }

  /** Pops one scheduled block, executes it and propagates the outcome. */
  method AnalyzeNext<S(!new), E>(ghost order: Order<S>, f: TransferFunctions<S, E>, code: Code,
      cfg: Cfg, inv: InvariantMap<S, E>, ghost initial: S, workList: seq<nat>)
    returns (inv': InvariantMap<S, E>, workList': seq<nat>)
    requires IsFiniteHeight(order, f) && JumpsInBounds(code)
    requires Progress(order, f, code, cfg, inv, initial, workList) && workList != []
    requires IsLeast(order, f, code, cfg, inv, initial)
    ensures Progress(order, f, code, cfg, inv', initial, workList')
    ensures IsLeast(order, f, code, cfg, inv', initial)
    ensures || Lower(order, code, cfg, inv', inv)
            || (Level(order, code, cfg, inv', inv) && |workList'| < |workList|)
  {
    var n := |workList| - 1;
    var current := workList[n];
    assert workList == workList[..n] + [current];
    Popped(order, f, code, cfg, inv, initial, workList[..n], current);
    PoppedIsLeast(order, f, code, cfg, inv, initial, current);
    var r := ExecuteBlock(f, code, cfg[current], inv[current].pre);
    match r {
      case Err(e) => inv', workList' := WithPost(inv, current, Error(e)), workList[..n];
      case Ok(s) =>
        inv', workList' := PropagateAll(order, f, code, cfg, WithPost(inv, current, Success), initial,
                                        workList[..n], current, s);
    }
  }

  lemma EntryScheduled<S(!new), E>(order: Order<S>, f: TransferFunctions<S, E>, code: Code, cfg: Cfg,
      initial: S)
    requires IsPreorder(order) && IsCfg(code, cfg) && |code| > 0
    ensures Progress(order, f, code, cfg, map[0 := BlockInvariant(initial, Unprocessed)], initial, [0])
    ensures IsLeast(order, f, code, cfg, map[0 := BlockInvariant(initial, Unprocessed)], initial)
  {
    EntryBlockExists(code, cfg);
    var inv: InvariantMap<S, E> := map[0 := BlockInvariant(initial, Unprocessed)];
    forall pre | IsSolution(order, f, code, cfg, pre, initial) ensures IsBelow(order, inv, pre) {
      assert BelowAt(order, inv, pre, 0);
    }
  }

  /** `analyze_function`: it terminates, its map covers the initial state at the entry and the outcome
      of every block without an error at each of the block's successors, and for well-behaved domains
      it is the least such map. */
  method AnalyzeFunction<S(!new), E>(ghost order: Order<S>, f: TransferFunctions<S, E>, code: Code,
      cfg: Cfg, initial: S)
    returns (inv: InvariantMap<S, E>)
    requires IsFiniteHeight(order, f) && JumpsInBounds(code) && IsCfg(code, cfg) && |code| > 0
    ensures IsFixedPoint(order, f, code, cfg, inv, initial)
    ensures IsLeast(order, f, code, cfg, inv, initial)
  {
    var workList := [0];
    inv := map[0 := BlockInvariant(initial, Unprocessed)];
    EntryScheduled(order, f, code, cfg, initial);
    while workList != []
      invariant Progress(order, f, code, cfg, inv, initial, workList)
      invariant IsLeast(order, f, code, cfg, inv, initial)
      decreases |cfg.Keys - inv.Keys|, RankUpTo(order, inv, |code|), |workList|
    {
      inv, workList := AnalyzeNext(order, f, code, cfg, inv, initial, workList);
    }
  }

  // ---------------------------------------------------------------- soundness for runs

  /** Concrete states of type `C`: `step(c, pc, c', pc')`, and which of them a state stands for. */
  datatype Semantics<!C, !S> = Semantics(step: (C, nat, C, nat) -> bool, stands: (C, S) -> bool)

  ghost predicate StepCovered<C, S, E>(sem: Semantics<C, S>, f: TransferFunctions<S, E>, code: Code,
      c: C, pc: nat, c': C, pc': nat, s: S, last: nat)
  {
    sem.step(c, pc, c', pc') && pc <= last < |code| && sem.stands(c, s) ==>
      && Flows(code, pc, pc')
      && (f.execute(s, code[pc], pc, last).Ok? ==>
            sem.stands(c', f.execute(s, code[pc], pc, last).state))
  }

  /** The transfer function follows the steps, and greater states stand for more. */
  ghost predicate IsSound<C(!new), S(!new), E>(sem: Semantics<C, S>, order: Order<S>,
      f: TransferFunctions<S, E>, code: Code)
  {
    && (forall c, s, t :: sem.stands(c, s) && order.leq(s, t) ==> sem.stands(c, t))
    && (forall c, pc, c', pc', s, last: nat :: StepCovered(sem, f, code, c, pc, c', pc', s, last))
  }

  ghost predicate IsExecution<C, S>(sem: Semantics<C, S>, run: seq<(C, nat)>) {
    && run != [] && run[0].1 == 0
    && forall i, j :: 0 <= i < |run| - 1 && j == i + 1 ==>
         sem.step(run[i].0, run[i].1, run[j].0, run[j].1)
  }

  /** The abstract state before `pc` when the block is executed from its entry. */
  function Before<S, E>(f: TransferFunctions<S, E>, code: Code, pre: S, entry: nat, pc: nat, last: nat)
    : Result<S, E>
    requires entry <= pc <= last < |code|
  {
    if pc == entry then Ok(pre)
    else
      match Before(f, code, pre, entry, pc - 1, last)
      case Err(e) => Err(e)
      case Ok(s) => f.execute(s, code[pc - 1], pc - 1, last)
  }

  lemma {:induction false} ExecuteFrom<S, E>(f: TransferFunctions<S, E>, code: Code, pre: S, entry: nat,
      pc: nat, last: nat)
    requires entry <= pc <= last < |code|
    ensures Execute(f, code, pre, entry, last) ==
            match Before(f, code, pre, entry, pc, last)
            case Err(e) => Err(e)
            case Ok(s) => Execute(f, code, s, pc, last)
  {
    if pc > entry { ExecuteFrom(f, code, pre, entry, pc - 1, last); }
  }

  /** The concrete state `c` at `pc` is covered by the analysis of the block around it. */
  ghost predicate CoveredAt<C, S, E>(sem: Semantics<C, S>, f: TransferFunctions<S, E>, code: Code,
      cfg: Cfg, inv: InvariantMap<S, E>, c: C, pc: nat)
  {
    && pc < |code|
    && var entry := BlockEntry(code, pc);
    && entry in cfg && entry in inv && pc <= cfg[entry].exit < |code|
    && var before := Before(f, code, inv[entry].pre, entry, pc, cfg[entry].exit);
       before.Ok? && sem.stands(c, before.state)
  }

  lemma CoverageStep<C(!new), S(!new), E>(sem: Semantics<C, S>, order: Order<S>,
      f: TransferFunctions<S, E>, code: Code, cfg: Cfg, inv: InvariantMap<S, E>, initial: S,
      c: C, pc: nat, c': C, pc': nat)
    requires JumpsInBounds(code) && IsSound(sem, order, f, code)
    requires IsFixedPoint(order, f, code, cfg, inv, initial)
    requires forall id :: id in inv ==> !inv[id].post.Error?
    requires CoveredAt(sem, f, code, cfg, inv, c, pc) && sem.step(c, pc, c', pc')
    ensures CoveredAt(sem, f, code, cfg, inv, c', pc')
  {
    var entry := BlockEntry(code, pc);
    var last := cfg[entry].exit;
    assert CfgAt(code, cfg, entry);
    assert Settled(order, f, code, cfg, inv, entry);
    var s := Before(f, code, inv[entry].pre, entry, pc, last).state;
    ExecuteFrom(f, code, inv[entry].pre, entry, pc, last);
    assert StepCovered(sem, f, code, c, pc, c', pc', s, last);
    if pc < last {
      assert !IsLeader(code, pc + 1);
      StraightLine(code, pc, pc');
      assert BlockEntry(code, pc') == entry;
    } else {
      LeavesToEntry(code, cfg, pc, pc');
      assert CfgAt(code, cfg, pc');
      assert pc' in cfg[entry].successors;
      assert BlockEntry(code, pc') == pc';
    }
  }

  /** Soundness: when no block errs, every state of every run that enters a block is one that the
      block's pre-state stands for. */
  lemma {:induction false} RunsAreCovered<C(!new), S(!new), E>(sem: Semantics<C, S>, order: Order<S>,
      f: TransferFunctions<S, E>, code: Code, cfg: Cfg, inv: InvariantMap<S, E>, initial: S,
      run: seq<(C, nat)>, i: nat)
    requires JumpsInBounds(code) && IsSound(sem, order, f, code)
    requires IsFixedPoint(order, f, code, cfg, inv, initial)
    requires forall id :: id in inv ==> !inv[id].post.Error?
    requires IsExecution(sem, run) && sem.stands(run[0].0, initial) && i < |run|
    ensures CoveredAt(sem, f, code, cfg, inv, run[i].0, run[i].1)
    ensures run[i].1 in cfg ==> run[i].1 in inv && sem.stands(run[i].0, inv[run[i].1].pre)
  {
    if i == 0 {
      EntryBlockExists(code, cfg);
      assert CfgAt(code, cfg, 0);
    } else {
      RunsAreCovered(sem, order, f, code, cfg, inv, initial, run, i - 1);
      CoverageStep(sem, order, f, code, cfg, inv, initial,
                   run[i - 1].0, run[i - 1].1, run[i].0, run[i].1);
    }
    assert CfgAt(code, cfg, run[i].1);
  }
}
