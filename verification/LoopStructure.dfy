/** The loop checks of the bytecode verifier: labelling of loop heads, the three passes over
    the code with a stack of open loops, and what acceptance says about every run. */
module LoopStructure {
  import opened Collections
  import opened FileFormat

  datatype Label = Loop(lastContinue: nat) | Plain

  /** A loop's head and the offset of the last jump back to it. */
  datatype LoopRange = LoopRange(head: nat, lastContinue: nat)

  datatype Status =
    EmptyCodeUnit | InvalidFallThrough | InvalidLoopContinue | InvalidLoopBreak | InvalidLoopSplit

  /** `Panic` stands for `loop_stack.last().unwrap()` on an empty stack. */
  datatype Verdict = Ok | Err(status: Status) | Panic

  type LoopStack = seq<LoopRange>

  // ---------------------------------------------------------------- labels

  predicate IsBackJump(code: Code, i: nat, head: nat) {
    i < |code| && code[i].Offset() == Some(head) && head <= i
  }

  /** The last of the first `n` instructions that jumps back to `head`. */
  function LastContinue(code: Code, head: nat, n: nat): Label
    requires n <= |code|
  {
    if n == 0 then Plain
    else if IsBackJump(code, n - 1, head) then Loop(n - 1)
    else LastContinue(code, head, n - 1)
  }

  function Labels(code: Code): seq<Label> {
    seq(|code|, h requires 0 <= h < |code| => LastContinue(code, h, |code|))
  }

  /** What a label means: an offset is a loop head exactly when something jumps back to it, and
      its label names the last such jump. */
  ghost predicate LabelsOf(code: Code, labels: seq<Label>) {
    && |labels| == |code|
    && (forall h :: 0 <= h < |labels| && labels[h].Loop? ==> IsBackJump(code, labels[h].lastContinue, h))
    && (forall i: nat, h: nat :: IsBackJump(code, i, h) ==> labels[h].Loop? && i <= labels[h].lastContinue)
  }

  lemma {:induction false} LastContinueIsLast(code: Code, head: nat, n: nat)
    requires n <= |code|
    ensures var l := LastContinue(code, head, n);
            && (l.Loop? ==> IsBackJump(code, l.lastContinue, head))
            && (forall i :: 0 <= i < n && IsBackJump(code, i, head) ==> l.Loop? && i <= l.lastContinue)
  {
    if n > 0 { LastContinueIsLast(code, head, n - 1); }
  }

  lemma LabelsMeaning(code: Code)
    ensures LabelsOf(code, Labels(code))
  {
    forall h: nat ensures h < |code| ==>
      var l := LastContinue(code, h, |code|);
      && (l.Loop? ==> IsBackJump(code, l.lastContinue, h))
      && (forall i :: 0 <= i < |code| && IsBackJump(code, i, h) ==> l.Loop? && i <= l.lastContinue)
    {
      LastContinueIsLast(code, h, |code|);
    }
  }

  method InstructionLabels(code: Code) returns (labels: seq<Label>)
    ensures labels == Labels(code)
  {
    labels := seq(|code|, h => Plain);
    for i := 0 to |code|
      invariant |labels| == |code|
      invariant forall h :: 0 <= h < |code| ==> labels[h] == LastContinue(code, h, i)
    {
      var offset := code[i].Offset();
      if offset.Some? && offset.value <= i {
        labels := labels[offset.value := Loop(i)];
      }
    }
  }

  // ---------------------------------------------------------------- enclosing loops

  predicate Encloses(labels: seq<Label>, head: nat, i: nat) {
    head < |labels| && labels[head].Loop? && head <= i <= labels[head].lastContinue
  }

  /** The loops with a head below `n` whose range contains `i`, outermost first. */
  function LoopsBelow(labels: seq<Label>, i: nat, n: nat): LoopStack
    requires n <= |labels|
  {
    if n == 0 then []
    else if Encloses(labels, n - 1, i) then
      LoopsBelow(labels, i, n - 1) + [LoopRange(n - 1, labels[n - 1].lastContinue)]
    else LoopsBelow(labels, i, n - 1)
  }

  function EnclosingLoops(labels: seq<Label>, i: nat): LoopStack
    requires i < |labels|
  {
    LoopsBelow(labels, i, i + 1)
  }

  function HeadsBelow(labels: seq<Label>, i: nat, n: nat): (heads: set<nat>)
    requires n <= |labels|
    ensures forall h :: h in heads <==> 0 <= h < n && Encloses(labels, h, i)
    ensures |heads| == |LoopsBelow(labels, i, n)|
  {
    if n == 0 then {}
    else if Encloses(labels, n - 1, i) then HeadsBelow(labels, i, n - 1) + {n - 1}
    else HeadsBelow(labels, i, n - 1)
  }

  /** The last of the loops is an enclosing one with the greatest head. */
  lemma {:induction false} LastLoop(labels: seq<Label>, i: nat, n: nat)
    requires n <= |labels|
    ensures var loops := LoopsBelow(labels, i, n);
            if |loops| == 0 then forall h :: 0 <= h < n ==> !Encloses(labels, h, i)
            else
              var top := loops[|loops| - 1];
              && top.head < n && Encloses(labels, top.head, i)
              && top.lastContinue == labels[top.head].lastContinue
              && loops[..|loops| - 1] == LoopsBelow(labels, i, top.head)
              && forall h :: top.head < h < n ==> !Encloses(labels, h, i)
  {
    if n > 0 && !Encloses(labels, n - 1, i) { LastLoop(labels, i, n - 1); }
  }

  /** The innermost loop around `i`: it encloses `i`, and no head above it does. */
  lemma Innermost(labels: seq<Label>, i: nat, h: nat)
    requires i < |labels| && Encloses(labels, h, i)
    ensures var loops := EnclosingLoops(labels, i);
            && |loops| > 0
            && h <= loops[|loops| - 1].head
            && Encloses(labels, loops[|loops| - 1].head, i)
            && loops[|loops| - 1].lastContinue == labels[loops[|loops| - 1].head].lastContinue
  {
    LastLoop(labels, i, i + 1);
  }

  lemma {:induction false} LoopsBelowAgree(labels: seq<Label>, i: nat, j: nat, n: nat)
    requires n <= |labels|
    requires forall h :: 0 <= h < n ==> (Encloses(labels, h, i) <==> Encloses(labels, h, j))
    ensures LoopsBelow(labels, i, n) == LoopsBelow(labels, j, n)
  {
    if n > 0 { LoopsBelowAgree(labels, i, j, n - 1); }
  }

  lemma {:induction false} LoopsBelowSkips(labels: seq<Label>, i: nat, m: nat, n: nat)
    requires m <= n <= |labels|
    requires forall h :: m <= h < n ==> !Encloses(labels, h, i)
    ensures LoopsBelow(labels, i, n) == LoopsBelow(labels, i, m)
    decreases n
  {
    if m < n { LoopsBelowSkips(labels, i, m, n - 1); }
  }

  // ---------------------------------------------------------------- what each pass checks

  predicate IsForwardJump(i: nat, instr: Bytecode) {
    instr.Offset().Some? && instr.Offset().value > i
  }

  predicate JumpsBack(i: nat, instr: Bytecode) {
    instr.Offset().Some? && instr.Offset().value <= i
  }

  /** Every back jump returns to the head of the innermost loop. */
  function CheckContinue(loops: LoopStack, i: nat, instr: Bytecode): Verdict {
    if !JumpsBack(i, instr) then Ok
    else if |loops| == 0 then Panic
    else if instr.Offset().value != loops[|loops| - 1].head then Err(InvalidLoopContinue)
    else Ok
  }

  /** A jump beyond the innermost loop lands right after its last continue. */
  function CheckBreak(loops: LoopStack, i: nat, instr: Bytecode): Verdict {
    if !IsForwardJump(i, instr) || |loops| == 0 then Ok
    else
      var j, last := instr.Offset().value, loops[|loops| - 1].lastContinue;
      if j > last && j != last + 1 then Err(InvalidLoopBreak) else Ok
  }

  predicate IsBreak(loops: LoopStack, target: nat) {
    |loops| > 0 && target > loops[|loops| - 1].lastContinue
  }

  /** A forward jump that is no break stays at its own loop depth. `depth[j] - 1` is at a head,
      where the depth is positive. */
  function CheckSplit(labels: seq<Label>, depth: seq<int>, loops: LoopStack, i: nat, instr: Bytecode)
    : Verdict
  {
    if !IsForwardJump(i, instr) || IsBreak(loops, instr.Offset().value) then Ok
    else
      var j := instr.Offset().value;
      if i >= |depth| || j >= |depth| || j >= |labels| then Panic
      else
        var after := if labels[j].Loop? then depth[j] - 1 else depth[j];
        if depth[i] != after then Err(InvalidLoopSplit) else Ok
  }

  ghost predicate Passes(code: Code, labels: seq<Label>, check: (LoopStack, nat, Bytecode) -> Verdict)
    requires |labels| == |code|
  {
    forall i :: 0 <= i < |code| ==> check(EnclosingLoops(labels, i), i, code[i]) == Ok
  }

  function Depths(labels: seq<Label>): (depths: seq<int>) {
    seq(|labels|, i requires 0 <= i < |labels| => |EnclosingLoops(labels, i)|)
  }

  /** Every jump back returns to the innermost loop. */
  ghost predicate ContinuesOk(code: Code, labels: seq<Label>) {
    |labels| == |code| && Passes(code, labels, CheckContinue)
  }

  ghost predicate Accepted(code: Code, labels: seq<Label>) {
    && LabelsOf(code, labels)
    && |code| > 0
    && code[|code| - 1].IsUnconditionalBranch()
    && ContinuesOk(code, labels)
    && Passes(code, labels, CheckBreak)
    && Passes(code, labels, (loops: LoopStack, i: nat, instr: Bytecode) => CheckSplit(labels, Depths(labels), loops, i, instr))
  }

  // ---------------------------------------------------------------- the open-loop stack

  /** A jump back always finds its own loop open, so `last().unwrap()` has a value. */
  lemma BackJumpIsEnclosed(code: Code, labels: seq<Label>, i: nat)
    requires LabelsOf(code, labels) && i < |code| && JumpsBack(i, code[i])
    ensures Encloses(labels, code[i].Offset().value, i)
    ensures |EnclosingLoops(labels, i)| > 0
  {
    assert IsBackJump(code, i, code[i].Offset().value);
    Innermost(labels, i, code[i].Offset().value);
  }

  /** What the stack holds once the instruction at `i` has been processed. */
  function AfterPop(loops: LoopStack, i: nat, instr: Bytecode): LoopStack {
    if JumpsBack(i, instr) && |loops| > 0 && i == loops[|loops| - 1].lastContinue
    then loops[..|loops| - 1] else loops
  }

  function AfterPush(open: LoopStack, labels: seq<Label>, i: nat): LoopStack
    requires i < |labels|
  {
    if labels[i].Loop? then open + [LoopRange(i, labels[i].lastContinue)] else open
  }

  /** The loops below the one that ends at `i` stay open, and nothing in it does. */
  lemma ClosingAdvances(code: Code, labels: seq<Label>, i: nat, h: nat)
    requires LabelsOf(code, labels) && i + 1 < |code|
    requires JumpsBack(i, code[i]) && code[i].Offset().value == h
    requires Encloses(labels, h, i) && labels[h].lastContinue == i
    requires forall g :: h < g <= i ==> !Encloses(labels, g, i)
    ensures LoopsBelow(labels, i + 1, i + 1) == LoopsBelow(labels, i, h)
  {
    StaysOpenUnless(code, labels, i);
    var next := i + 1;
    forall g | h <= g < next ensures !Encloses(labels, g, next) {
      assert g > h ==> !Encloses(labels, g, i);
    }
    LoopsBelowAgree(labels, i, next, h);
    LoopsBelowSkips(labels, next, h, next);
  }

  /** Popping on the last continue and pushing on a head keeps the stack equal to the
      enclosing loops. */
  lemma StackAdvances(code: Code, labels: seq<Label>, i: nat)
    requires LabelsOf(code, labels) && i + 1 < |code|
    requires CheckContinue(EnclosingLoops(labels, i), i, code[i]) == Ok
    ensures EnclosingLoops(labels, i + 1)
         == AfterPush(AfterPop(EnclosingLoops(labels, i), i, code[i]), labels, i + 1)
  {
    var loops := EnclosingLoops(labels, i);
    assert labels[i + 1].Loop? ==> Encloses(labels, i + 1, i + 1) by {
      if labels[i + 1].Loop? { assert IsBackJump(code, labels[i + 1].lastContinue, i + 1); }
    }
    LastLoop(labels, i, i + 1);
    if JumpsBack(i, code[i]) && i == loops[|loops| - 1].lastContinue {
      ClosingAdvances(code, labels, i, loops[|loops| - 1].head);
    } else {
      if JumpsBack(i, code[i]) { BackJumpIsEnclosed(code, labels, i); }
      StaysOpenUnless(code, labels, i);
      LoopsBelowAgree(labels, i, i + 1, i + 1);
    }
  }

  /** Only the loop that `i` jumps back to can end at `i`. */
  lemma StaysOpenUnless(code: Code, labels: seq<Label>, i: nat)
    requires LabelsOf(code, labels) && i < |code|
    ensures forall h :: 0 <= h <= i && !(JumpsBack(i, code[i]) && code[i].Offset().value == h) ==>
              (Encloses(labels, h, i) <==> Encloses(labels, h, i + 1))
  {
    forall h | 0 <= h <= i && h < |labels| && labels[h].Loop? && labels[h].lastContinue == i
      ensures JumpsBack(i, code[i]) && code[i].Offset().value == h
    {
      assert IsBackJump(code, labels[h].lastContinue, h);
    }
  }

  method CheckCode(code: Code, labels: seq<Label>, check: (LoopStack, nat, Bytecode) -> Verdict)
    returns (r: Verdict)
    requires LabelsOf(code, labels)
    requires forall i :: 0 <= i < |code| && check(EnclosingLoops(labels, i), i, code[i]) == Ok ==>
               CheckContinue(EnclosingLoops(labels, i), i, code[i]) == Ok
    ensures r.Ok? <==> Passes(code, labels, check)
    ensures !r.Ok? ==> exists i :: 0 <= i < |code| && r == check(EnclosingLoops(labels, i), i, code[i])
  {
    var loopStack: LoopStack := [];
    if |code| > 0 { FirstDepth(code, labels); }
    for i := 0 to |code|
      invariant i < |code| ==> EnclosingLoops(labels, i) == AfterPush(loopStack, labels, i)
      invariant forall k :: 0 <= k < i ==> check(EnclosingLoops(labels, k), k, code[k]) == Ok
    {
      if labels[i].Loop? {
        loopStack := loopStack + [LoopRange(i, labels[i].lastContinue)];
      }
      var verdict := check(loopStack, i, code[i]);
      if !verdict.Ok? {
        return verdict;
      }
      if i + 1 < |code| { StackAdvances(code, labels, i); }
      if JumpsBack(i, code[i]) {
        BackJumpIsEnclosed(code, labels, i);
        if i == loopStack[|loopStack| - 1].lastContinue {
          loopStack := loopStack[..|loopStack| - 1];
        }
      }
    }
    return Ok;
  }

  function LastContinues(labels: seq<Label>): set<nat> {
    set h | 0 <= h < |labels| && labels[h].Loop? :: labels[h].lastContinue
  }

  method CountLoopDepth(ghost code: Code, labels: seq<Label>) returns (counts: seq<int>)
    requires LabelsOf(code, labels) && ContinuesOk(code, labels)
    ensures counts == Depths(labels)
  {
    var lastContinues := LastContinues(labels);
    var count := 0;
    counts := [];
    if |code| > 0 { FirstDepth(code, labels); }
    for idx := 0 to |labels|
      invariant |counts| == idx
      invariant forall k :: 0 <= k < idx ==> counts[k] == |EnclosingLoops(labels, k)|
      invariant idx < |labels| ==>
        count + (if labels[idx].Loop? then 1 else 0) == |EnclosingLoops(labels, idx)|
    {
      if labels[idx].Loop? {
        count := count + 1;
      }
      counts := counts + [count];
      if idx + 1 < |labels| { DepthAdvances(code, labels, idx); }
      if idx in lastContinues {
        count := count - 1;
      }
    }
  }

  lemma FirstDepth(code: Code, labels: seq<Label>)
    requires LabelsOf(code, labels) && |code| > 0
    ensures EnclosingLoops(labels, 0) == AfterPush([], labels, 0)
  {
    assert LoopsBelow(labels, 0, 0) == [];
    if labels[0].Loop? { assert IsBackJump(code, labels[0].lastContinue, 0); }
  }

  /** Counting heads up and last continues down follows the number of enclosing loops. */
  lemma DepthAdvances(code: Code, labels: seq<Label>, i: nat)
    requires LabelsOf(code, labels) && ContinuesOk(code, labels) && i + 1 < |code|
    ensures |EnclosingLoops(labels, i + 1)|
         == |EnclosingLoops(labels, i)| - (if i in LastContinues(labels) then 1 else 0)
            + (if labels[i + 1].Loop? then 1 else 0)
  {
    assert CheckContinue(EnclosingLoops(labels, i), i, code[i]) == Ok;
    StackAdvances(code, labels, i);
    EndsHere(code, labels, i);
  }

  /** An offset is the last continue of some loop exactly when the passes pop there. */
  lemma EndsHere(code: Code, labels: seq<Label>, i: nat)
    requires LabelsOf(code, labels) && ContinuesOk(code, labels) && i < |code|
    ensures i in LastContinues(labels)
       <==> (JumpsBack(i, code[i]) && |EnclosingLoops(labels, i)| > 0
             && i == EnclosingLoops(labels, i)[|EnclosingLoops(labels, i)| - 1].lastContinue)
  {
    var loops := EnclosingLoops(labels, i);
    assert CheckContinue(loops, i, code[i]) == Ok;
    LastLoop(labels, i, i + 1);
    if i in LastContinues(labels) {
      var h :| 0 <= h < |labels| && labels[h].Loop? && labels[h].lastContinue == i;
      assert IsBackJump(code, labels[h].lastContinue, h);
      BackJumpIsEnclosed(code, labels, i);
    }
  }

  // ---------------------------------------------------------------- the check from outside

  /** `h` is the greatest head of a loop around `i`. */
  ghost predicate IsInnermost(labels: seq<Label>, i: nat, h: nat) {
    Encloses(labels, h, i) && forall g: nat :: h < g < |labels| ==> !Encloses(labels, g, i)
  }

  /** Every jump back goes to the head of the innermost loop around it. */
  ghost predicate ContinuesReturn(code: Code, labels: seq<Label>) {
    forall i: nat :: i < |code| && JumpsBack(i, code[i]) ==> IsInnermost(labels, i, code[i].Offset().value)
  }

  /** A jump from `i` to `j` out of the innermost loop `h` lands right after it. */
  ghost predicate LandsAfter(labels: seq<Label>, i: nat, j: nat, h: nat) {
    IsInnermost(labels, i, h) && !Encloses(labels, h, j) ==> j == labels[h].lastContinue + 1
  }

  ghost predicate BreaksLand(code: Code, labels: seq<Label>) {
    forall i: nat, h: nat :: i < |code| && IsForwardJump(i, code[i]) ==>
      LandsAfter(labels, i, code[i].Offset().value, h)
  }

  /** A jump from `i` to `j` enters the loop `h` at its head only, and leaves it only if it is the
      innermost one and to the offset right after it. */
  ghost predicate EntersAndLeaves(labels: seq<Label>, i: nat, j: nat, h: nat) {
    && (Encloses(labels, h, j) && !Encloses(labels, h, i) ==> j == h)
    && (Encloses(labels, h, i) && !Encloses(labels, h, j) ==>
          IsInnermost(labels, i, h) && j == labels[h].lastContinue + 1)
  }

  ghost predicate IsStructured(code: Code) {
    && |code| > 0
    && code[|code| - 1].IsUnconditionalBranch()
    && ContinuesReturn(code, Labels(code))
    && forall i: nat, h: nat :: i < |code| && IsForwardJump(i, code[i]) ==>
         EntersAndLeaves(Labels(code), i, code[i].Offset().value, h)
  }

  lemma TopIsInnermost(code: Code, labels: seq<Label>, i: nat, h: nat)
    requires LabelsOf(code, labels) && i < |code|
    ensures var loops := EnclosingLoops(labels, i);
            IsInnermost(labels, i, h) <==> |loops| > 0 && loops[|loops| - 1].head == h
    ensures var loops := EnclosingLoops(labels, i);
            IsInnermost(labels, i, h) ==> loops[|loops| - 1].lastContinue == labels[h].lastContinue
  {
    LastLoop(labels, i, i + 1);
  }

  lemma ContinueMeans(code: Code, labels: seq<Label>, i: nat)
    requires LabelsOf(code, labels) && i < |code|
    ensures CheckContinue(EnclosingLoops(labels, i), i, code[i]) == Ok <==>
            (JumpsBack(i, code[i]) ==> IsInnermost(labels, i, code[i].Offset().value))
  {
    if JumpsBack(i, code[i]) { TopIsInnermost(code, labels, i, code[i].Offset().value); }
  }

  lemma BreakMeans(code: Code, labels: seq<Label>, i: nat)
    requires LabelsOf(code, labels) && i < |code|
    ensures CheckBreak(EnclosingLoops(labels, i), i, code[i]) == Ok <==>
            (IsForwardJump(i, code[i]) ==> forall h: nat :: LandsAfter(labels, i, code[i].Offset().value, h))
  {
    var loops := EnclosingLoops(labels, i);
    if IsForwardJump(i, code[i]) {
      var j := code[i].Offset().value;
      forall h: nat | IsInnermost(labels, i, h)
        ensures |loops| > 0 && loops[|loops| - 1].head == h && loops[|loops| - 1].lastContinue == labels[h].lastContinue
      {
        TopIsInnermost(code, labels, i, h);
      }
      if |loops| > 0 {
        TopIsInnermost(code, labels, i, loops[|loops| - 1].head);
        assert LandsAfter(labels, i, j, loops[|loops| - 1].head) ==>
          CheckBreak(loops, i, code[i]) == Ok;
      }
    }
  }

  /** A jump that enters and leaves loops properly, and is no break, stays at its own depth. */
  lemma StaysAtDepth(code: Code, labels: seq<Label>, i: nat, j: nat)
    requires LabelsOf(code, labels) && i < j < |code|
    requires forall h: nat :: EntersAndLeaves(labels, i, j, h)
    requires !IsBreak(EnclosingLoops(labels, i), j)
    ensures |EnclosingLoops(labels, j)| == |EnclosingLoops(labels, i)| + (if labels[j].Loop? then 1 else 0)
  {
    var here, there := HeadsBelow(labels, i, i + 1), HeadsBelow(labels, j, j + 1);
    forall g | g in here ensures g in there {
      assert EntersAndLeaves(labels, i, j, g);
      if !Encloses(labels, g, j) { TopIsInnermost(code, labels, i, g); }
    }
    forall g | g in there && g !in here ensures g == j {
      assert EntersAndLeaves(labels, i, j, g);
    }
    if labels[j].Loop? {
      assert IsBackJump(code, labels[j].lastContinue, j);
      assert there == here + {j};
    } else {
      assert there == here;
    }
  }

  lemma StructuredPasses(code: Code, i: nat)
    requires JumpsInBounds(code) && IsStructured(code) && i < |code|
    ensures var labels := Labels(code);
            && CheckContinue(EnclosingLoops(labels, i), i, code[i]) == Ok
            && CheckBreak(EnclosingLoops(labels, i), i, code[i]) == Ok
            && CheckSplit(labels, Depths(labels), EnclosingLoops(labels, i), i, code[i]) == Ok
  {
    var labels := Labels(code);
    LabelsMeaning(code);
    ContinueMeans(code, labels, i);
    BreakMeans(code, labels, i);
    if IsForwardJump(i, code[i]) {
      var j := code[i].Offset().value;
      forall h: nat ensures EntersAndLeaves(labels, i, j, h) && LandsAfter(labels, i, j, h) {
        assert EntersAndLeaves(Labels(code), i, code[i].Offset().value, h);
      }
      if !IsBreak(EnclosingLoops(labels, i), j) { StaysAtDepth(code, labels, i, j); }
    }
  }

  /** The three checks and the loop stack accept exactly the structured code. */
  lemma AcceptedIsStructured(code: Code)
    requires JumpsInBounds(code)
    ensures Accepted(code, Labels(code)) <==> IsStructured(code)
  {
    var labels := Labels(code);
    LabelsMeaning(code);
    if IsStructured(code) {
      forall i: nat | i < |code|
        ensures CheckContinue(EnclosingLoops(labels, i), i, code[i]) == Ok
        ensures CheckBreak(EnclosingLoops(labels, i), i, code[i]) == Ok
        ensures CheckSplit(labels, Depths(labels), EnclosingLoops(labels, i), i, code[i]) == Ok
      {
        StructuredPasses(code, i);
      }
    }
    if Accepted(code, labels) {
      PassesMeans(code, labels);
      forall i: nat, h: nat | i < |code| && IsForwardJump(i, code[i])
        ensures EntersAndLeaves(labels, i, code[i].Offset().value, h)
      {
        var j := code[i].Offset().value;
        if Encloses(labels, h, j) && !Encloses(labels, h, i) { EntersAtHead(code, labels, i, j, h); }
        if Encloses(labels, h, i) && !Encloses(labels, h, j) {
          LeavesOneLoop(code, labels, i, j, h);
          TopIsInnermost(code, labels, i, h);
        }
      }
    }
  }

  lemma PassesMeans(code: Code, labels: seq<Label>)
    requires LabelsOf(code, labels)
    ensures Passes(code, labels, CheckContinue) <==> ContinuesReturn(code, labels)
    ensures Passes(code, labels, CheckBreak) <==> BreaksLand(code, labels)
  {
    forall i: nat | i < |code|
      ensures CheckContinue(EnclosingLoops(labels, i), i, code[i]) == Ok <==>
              (JumpsBack(i, code[i]) ==> IsInnermost(labels, i, code[i].Offset().value))
      ensures CheckBreak(EnclosingLoops(labels, i), i, code[i]) == Ok <==>
              (IsForwardJump(i, code[i]) ==> forall h: nat :: LandsAfter(labels, i, code[i].Offset().value, h))
    {
      ContinueMeans(code, labels, i);
      BreakMeans(code, labels, i);
    }
  }

  lemma LoopIsOpen(code: Code, labels: seq<Label>)
    requires LabelsOf(code, labels)
    ensures forall i :: 0 <= i < |code| ==> !CheckContinue(EnclosingLoops(labels, i), i, code[i]).Panic?
  {
    forall i | 0 <= i < |code| ensures !CheckContinue(EnclosingLoops(labels, i), i, code[i]).Panic? {
      if JumpsBack(i, code[i]) { BackJumpIsEnclosed(code, labels, i); }
    }
  }

  /** The checker accepts exactly the structured code, reports the first condition that fails, and
      never finds the loop stack empty on a jump back. */
  method Verify(code: Code) returns (r: Verdict)
    requires JumpsInBounds(code)
    ensures r.Ok? <==> IsStructured(code)
    ensures r.Ok? <==> Accepted(code, Labels(code))
    ensures !r.Panic?
    ensures r == Err(EmptyCodeUnit) <==> |code| == 0
    ensures r == Err(InvalidFallThrough) <==> |code| > 0 && !code[|code| - 1].IsUnconditionalBranch()
    ensures |code| > 0 && code[|code| - 1].IsUnconditionalBranch() ==>
              && (r == Err(InvalidLoopContinue) <==> !ContinuesReturn(code, Labels(code)))
              && (r == Err(InvalidLoopBreak) <==>
                    ContinuesReturn(code, Labels(code)) && !BreaksLand(code, Labels(code)))
  {
    if |code| == 0 { return Err(EmptyCodeUnit); }
    if !code[|code| - 1].IsUnconditionalBranch() { return Err(InvalidFallThrough); }
    var labels := InstructionLabels(code);
    LabelsMeaning(code);
    AcceptedIsStructured(code);
    PassesMeans(code, labels);
    LoopIsOpen(code, labels);
    r := CheckCode(code, labels, CheckContinue);
    if !r.Ok? { return; }
    r := CheckCode(code, labels, CheckBreak);
    if !r.Ok? { return; }
    var depth := CountLoopDepth(code, labels);
    var split := (loops: LoopStack, i: nat, instr: Bytecode) => CheckSplit(labels, depth, loops, i, instr);
    r := CheckCode(code, labels, split);
  }

  // ---------------------------------------------------------------- what acceptance means

  /** `count_loop_depth` counts the loops around each instruction. */
  lemma DepthCountsLoops(labels: seq<Label>, i: nat)
    requires i < |labels|
    ensures Depths(labels)[i] == |set h | 0 <= h < |labels| && Encloses(labels, h, i)|
  {
    assert HeadsBelow(labels, i, i + 1) == set h | 0 <= h < |labels| && Encloses(labels, h, i);
  }

  /** Loop ranges are strictly nested: a loop opened inside another one closes earlier. */
  lemma StrictlyNested(code: Code, labels: seq<Label>, outer: nat, inner: nat)
    requires LabelsOf(code, labels) && ContinuesOk(code, labels)
    requires outer < inner < |code| && labels[outer].Loop? && labels[inner].Loop?
    requires inner <= labels[outer].lastContinue
    ensures labels[inner].lastContinue < labels[outer].lastContinue
  {
    var end := labels[outer].lastContinue;
    assert IsBackJump(code, end, outer);
    assert CheckContinue(EnclosingLoops(labels, end), end, code[end]) == Ok;
    if labels[inner].lastContinue >= end {
      Innermost(labels, end, inner);
    }
  }

  /** The innermost loop around `i` ends before every other loop around `i`. */
  lemma InnermostEndsFirst(code: Code, labels: seq<Label>, i: nat, h: nat)
    requires LabelsOf(code, labels) && ContinuesOk(code, labels)
    requires i < |code| && Encloses(labels, h, i)
    ensures var loops := EnclosingLoops(labels, i);
            && |loops| > 0
            && Encloses(labels, loops[|loops| - 1].head, i)
            && loops[|loops| - 1].lastContinue == labels[loops[|loops| - 1].head].lastContinue
            && (h == loops[|loops| - 1].head
                || (h < loops[|loops| - 1].head
                    && loops[|loops| - 1].lastContinue < labels[h].lastContinue))
  {
    Innermost(labels, i, h);
    var loops := EnclosingLoops(labels, i);
    var top := loops[|loops| - 1].head;
    if h < top { StrictlyNested(code, labels, h, top); }
  }

  /** One step into a loop from outside it lands on the loop's head. */
  lemma EntersAtHead(code: Code, labels: seq<Label>, i: nat, j: nat, h: nat)
    requires Accepted(code, labels) && Flows(code, i, j) && j < |code|
    requires Encloses(labels, h, j) && !Encloses(labels, h, i)
    ensures j == h
  {
    if j != h && j != i + 1 {
      if j <= i {
        assert IsBackJump(code, i, j);
        StrictlyNested(code, labels, h, j);
      } else {
        ForwardJumpStaysOutside(code, labels, i, j, h);
      }
    }
  }

  lemma ForwardJumpStaysOutside(code: Code, labels: seq<Label>, i: nat, j: nat, h: nat)
    requires Accepted(code, labels) && j < |code|
    requires i < h < j && code[i].Offset() == Some(j) && labels[h].Loop?
    ensures !Encloses(labels, h, j)
  {
    var loops := EnclosingLoops(labels, i);
    if Encloses(labels, h, j) {
      if IsBreak(loops, j) {
        LastLoop(labels, i, i + 1);
        assert CheckBreak(loops, i, code[i]) == Ok;
        StrictlyNested(code, labels, loops[|loops| - 1].head, h);
      } else {
        assert CheckSplit(labels, Depths(labels), loops, i, code[i]) == Ok;
        DeeperInside(code, labels, i, j, h);
      }
    }
  }

  /** Without leaving a loop, moving forward into the body of a further loop gets deeper. */
  lemma DeeperInside(code: Code, labels: seq<Label>, i: nat, j: nat, h: nat)
    requires LabelsOf(code, labels) && ContinuesOk(code, labels)
    requires i < h < j < |code| && Encloses(labels, h, j)
    requires !IsBreak(EnclosingLoops(labels, i), j)
    ensures |EnclosingLoops(labels, i)| + (if labels[j].Loop? then 1 else 0) < |EnclosingLoops(labels, j)|
  {
    var here, there := HeadsBelow(labels, i, i + 1), HeadsBelow(labels, j, j + 1);
    forall g | g in here ensures g in there {
      InnermostEndsFirst(code, labels, i, g);
    }
    if labels[j].Loop? {
      assert IsBackJump(code, labels[j].lastContinue, j);
      SubsetSize(here, there - {j});
    } else {
      SubsetSize(here, there);
    }
  }

  /** Accepted control flow is reducible: a run inside a loop has passed the loop's head, and
      has not left the loop since. */
  lemma {:induction false} HeadDominatesBody(code: Code, labels: seq<Label>, trace: seq<nat>, h: nat)
    returns (k: nat)
    requires Accepted(code, labels) && IsRun(code, trace)
    requires Encloses(labels, h, trace[|trace| - 1])
    ensures k < |trace| && trace[k] == h
    ensures forall m :: k <= m < |trace| ==> Encloses(labels, h, trace[m])
    decreases |trace|
  {
    var n := |trace| - 1;
    if trace[n] == h {
      k := n;
    } else {
      assert n > 0;
      assert Flows(code, trace[n - 1], trace[n - 1 + 1]);
      if !Encloses(labels, h, trace[n - 1]) {
        EntersAtHead(code, labels, trace[n - 1], trace[n], h);
      }
      RunPrefix(code, trace);
      k := HeadDominatesBody(code, labels, trace[..n], h);
    }
  }

  lemma RunPrefix(code: Code, trace: seq<nat>)
    requires IsRun(code, trace) && |trace| > 1
    ensures IsRun(code, trace[..|trace| - 1])
  {
    var shorter := trace[..|trace| - 1];
    forall i | 0 <= i < |shorter| - 1 ensures Flows(code, shorter[i], shorter[i + 1]) {
      assert Flows(code, trace[i], trace[i + 1]);
    }
  }

  /** A step leaves at most one loop, the innermost, and lands just after its last continue. */
  lemma LeavesOneLoop(code: Code, labels: seq<Label>, i: nat, j: nat, h: nat)
    requires Accepted(code, labels) && Flows(code, i, j) && j < |code|
    requires Encloses(labels, h, i) && !Encloses(labels, h, j)
    ensures j == labels[h].lastContinue + 1
    ensures var loops := EnclosingLoops(labels, i); |loops| > 0 && h == loops[|loops| - 1].head
  {
    var loops := EnclosingLoops(labels, i);
    InnermostEndsFirst(code, labels, i, h);
    if j != i + 1 {
      assert CheckContinue(loops, i, code[i]) == Ok;
      assert CheckBreak(loops, i, code[i]) == Ok;
    }
  }

  /** Every jump back goes to a head that every run to the jump has visited. */
  lemma BackJumpsAreNatural(code: Code, labels: seq<Label>, trace: seq<nat>) returns (k: nat)
    requires Accepted(code, labels) && IsRun(code, trace)
    requires var last := trace[|trace| - 1]; last < |code| && JumpsBack(last, code[last])
    ensures k < |trace| && trace[k] == code[trace[|trace| - 1]].Offset().value
  {
    var i := trace[|trace| - 1];
    BackJumpIsEnclosed(code, labels, i);
    k := HeadDominatesBody(code, labels, trace, code[i].Offset().value);
  }
}
