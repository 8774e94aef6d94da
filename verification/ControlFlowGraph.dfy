/** Construction of the control-flow graph from the bytecode, and what its blocks say about
    the flow of control. */
module ControlFlowGraph {
  import opened Collections
  import opened FileFormat

  datatype BasicBlock = BasicBlock(entry: nat, exit: nat, successors: seq<nat>)

  type Cfg = map<nat, BasicBlock>

  /** Offsets are 16 bits wide, and two more must be representable. */
  const MAX_CODE_LENGTH := 65534

  /** `pc` begins a block: it is the entry, a jump target, or follows a branch. */
  ghost predicate IsLeader(code: Code, pc: nat) {
    || pc == 0
    || (exists i :: 0 <= i < |code| && code[i].Offset() == Some(pc))
    || (0 < pc < |code| && code[pc - 1].IsBranch())
  }

  ghost predicate EndsBlock(code: Code, pc: nat) {
    pc + 1 == |code| || IsLeader(code, pc + 1)
  }

  /** The successors of an instruction: each offset control may pass to, once, in ascending order. */
  method GetSuccessors(pc: nat, code: Code) returns (v: seq<nat>)
    requires pc < |code| <= MAX_CODE_LENGTH
    ensures IsAscending(v)
    ensures forall next :: next in v <==> Flows(code, pc, next)
  {
    v := [];
    var offset := code[pc].Offset();
    if offset.Some? {
      v := v + [offset.value];
    }
    var next := pc + 1;
    if next >= |code| { return; }
    if !code[pc].IsUnconditionalBranch() && next !in v {
      v := v + [next];
    }
    if |v| > 1 && v[0] > v[1] {
      v := [v[1], v[0]] + v[2..];
    }
  }

  /** What the construction promises of a block. */
  ghost predicate IsBlock(code: Code, b: BasicBlock) {
    && b.entry <= b.exit < |code|
    && IsLeader(code, b.entry)
    && (forall pc :: b.entry < pc <= b.exit ==> !IsLeader(code, pc))
    && EndsBlock(code, b.exit)
    && IsAscending(b.successors)
    && (forall next :: next in b.successors <==> Flows(code, b.exit, next))
  }

  /** The graph is right at `pc`: it has a block there exactly when `pc` is a leader. */
  ghost predicate CfgAt(code: Code, cfg: Cfg, pc: nat) {
    && (pc in cfg <==> pc < |code| && IsLeader(code, pc))
    && (pc in cfg ==> cfg[pc].entry == pc && IsBlock(code, cfg[pc]))
  }

  ghost predicate IsCfg(code: Code, cfg: Cfg) {
    forall pc: nat :: CfgAt(code, cfg, pc)
  }

  method RecordBlockIds(pc: nat, code: Code, blockIds: set<nat>) returns (ids: set<nat>)
    requires pc < |code|
    ensures forall x :: x in ids <==>
              || x in blockIds
              || code[pc].Offset() == Some(x)
              || (x == pc + 1 < |code| && code[pc].IsBranch())
  {
    ids := blockIds;
    var offset := code[pc].Offset();
    if offset.Some? {
      ids := ids + {offset.value};
    }
    if code[pc].IsBranch() && pc + 1 < |code| {
      ids := ids + {pc + 1};
    }
  }

  method CollectBlockIds(code: Code) returns (blockIds: set<nat>)
    ensures forall x: nat :: x in blockIds <==> IsLeader(code, x)
  {
    blockIds := {0};
    for pc := 0 to |code|
      invariant forall x :: x in blockIds <==>
        || x == 0
        || (exists i :: 0 <= i < pc && code[i].Offset() == Some(x))
        || (0 < x < |code| && x <= pc && code[x - 1].IsBranch())
    {
      blockIds := RecordBlockIds(pc, code, blockIds);
    }
  }

  /** The blocks that lie below `entry`. */
  ghost predicate BlocksUpTo(code: Code, cfg: Cfg, entry: nat) {
    && (forall x :: x in cfg <==> 0 <= x < entry && IsLeader(code, x))
    && (forall x :: x in cfg ==> cfg[x].entry == x && IsBlock(code, cfg[x]))
  }

  lemma AddBlock(code: Code, cfg: Cfg, b: BasicBlock)
    requires BlocksUpTo(code, cfg, b.entry) && IsBlock(code, b)
    ensures BlocksUpTo(code, cfg[b.entry := b], b.exit + 1)
  {
  }

  /** The graph's blocks are exactly the maximal straight-line runs between leaders. */
  method New(code: Code) returns (cfg: Cfg)
    requires |code| <= MAX_CODE_LENGTH
    ensures IsCfg(code, cfg)
  {
    var blockIds := CollectBlockIds(code);
    cfg := map[];
    var entry := 0;
    for pc := 0 to |code|
      invariant entry <= pc
      invariant entry < |code| ==> IsLeader(code, entry)
      invariant forall x :: entry < x <= pc && x < |code| ==> !IsLeader(code, x)
      invariant BlocksUpTo(code, cfg, entry)
      invariant pc == |code| ==> entry == |code|
    {
      var next := pc + 1;
      if next == |code| || next in blockIds {
        var successors := GetSuccessors(pc, code);
        AddBlock(code, cfg, BasicBlock(entry, pc, successors));
        cfg := cfg[entry := BasicBlock(entry, pc, successors)];
        entry := next;
      }
    }
    forall pc: nat ensures CfgAt(code, cfg, pc) {
    }
  }

  // ---------------------------------------------------------------- what the graph means

  /** The entry of the block that holds `pc`. */
  ghost function BlockEntry(code: Code, pc: nat): (entry: nat)
    ensures entry <= pc && IsLeader(code, entry)
    ensures forall x :: entry < x <= pc ==> !IsLeader(code, x)
  {
    if IsLeader(code, pc) then pc else BlockEntry(code, pc - 1)
  }

  /** Blocks partition the code: each instruction lies in exactly one. */
  lemma BlocksPartition(code: Code, cfg: Cfg, pc: nat)
    requires IsCfg(code, cfg) && pc < |code|
    ensures BlockEntry(code, pc) in cfg && pc <= cfg[BlockEntry(code, pc)].exit
    ensures forall b :: b in cfg && cfg[b].entry <= pc <= cfg[b].exit ==> b == BlockEntry(code, pc)
  {
    var entry := BlockEntry(code, pc);
    assert CfgAt(code, cfg, entry);
    var after := cfg[entry].exit + 1;
    assert after == |code| || IsLeader(code, after);
    forall b | b in cfg && cfg[b].entry <= pc <= cfg[b].exit ensures b == entry {
      assert CfgAt(code, cfg, b);
    }
  }

  /** Inside a block control only moves to the next instruction. */
  lemma StraightLine(code: Code, pc: nat, next: nat)
    requires pc < |code| && !EndsBlock(code, pc)
    ensures Flows(code, pc, next) <==> next == pc + 1
    ensures !code[pc].IsBranch()
  {
    assert !IsLeader(code, pc + 1);
  }

  /** Control leaves a block only to the entry of a block of the graph. */
  lemma LeavesToEntry(code: Code, cfg: Cfg, pc: nat, next: nat)
    requires JumpsInBounds(code) && IsCfg(code, cfg)
    requires Flows(code, pc, next) && EndsBlock(code, pc)
    ensures next in cfg
  {
    assert CfgAt(code, cfg, next);
  }

  /** A graph has an entry block exactly when there is code; for no code it has no block at all. */
  lemma EntryBlockExists(code: Code, cfg: Cfg)
    requires IsCfg(code, cfg)
    ensures 0 in cfg <==> |code| > 0
    ensures |code| == 0 ==> cfg == map[]
  {
    assert CfgAt(code, cfg, 0);
    assert forall pc :: pc in cfg ==> CfgAt(code, cfg, pc);
  }
}
