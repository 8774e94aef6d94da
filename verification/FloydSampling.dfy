/** Sampling without replacement (Robert Floyd's algorithm F2): what is picked, and that every subset
    is equally likely. */
module FloydSampling {
  import opened Collections

  /** The sources of randomness: source `i`, given a positive bound, yields some number below it. */
  type Sources = (nat, nat) -> nat

  ghost predicate AreSources(indexes: Sources) {
    forall i: nat, n: nat :: n > 0 ==> indexes(i, n) < n
  }

  /** The numbers drawn for a sample below `max`: the one at place `i` from the end is below `max - i`. */
  predicate IsLegal(max: nat, drawn: seq<nat>) {
    var k := |drawn|;
    k == 0 || (max > 0 && drawn[k - 1] < max && IsLegal(max - 1, drawn[..k - 1]))
  }

  /** What is selected: a drawn number, or the largest candidate when the number is taken already. */
  function Selected(max: nat, drawn: seq<nat>): set<nat>
    requires IsLegal(max, drawn)
  {
    var k := |drawn|;
    if k == 0 then {}
    else
      var before := Selected(max - 1, drawn[..k - 1]);
      if drawn[k - 1] in before then before + {max - 1} else before + {drawn[k - 1]}
  }

  /** Each draw adds exactly one number. */
  lemma {:induction false} SelectedSize(max: nat, drawn: seq<nat>)
    requires IsLegal(max, drawn)
    ensures forall x :: x in Selected(max, drawn) ==> x < max
    ensures |Selected(max, drawn)| == |drawn|
  {
    if drawn != [] { SelectedSize(max - 1, drawn[..|drawn| - 1]); }
  }

  function Elements(s: seq<nat>): set<nat> {
    if s == [] then {} else Elements(s[..|s| - 1]) + {s[|s| - 1]}
  }

  lemma {:induction false} ElementsAre(s: seq<nat>, x: nat)
    ensures x in Elements(s) <==> x in s
  {
    if s != [] {
      ElementsAre(s[..|s| - 1], x);
      assert s == s[..|s| - 1] + [s[|s| - 1]];
    }
  }

  lemma {:induction false} AscendingIsDistinct(s: seq<nat>)
    requires IsAscending(s)
    ensures |Elements(s)| == |s|
  {
    if s != [] {
      var init, last := s[..|s| - 1], s[|s| - 1];
      AscendingIsDistinct(init);
      ElementsAre(init, last);
      assert last !in init;
    }
  }

  /** The elements of an ordered set below `bound`, in order. */
  method InOrder(s: set<nat>, bound: nat) returns (r: seq<nat>)
    requires forall x :: x in s ==> x < bound
    ensures IsAscending(r) && (forall x :: x in r <==> x in s) && |r| == |s|
  {
    r := [];
    for x := 0 to bound
      invariant IsAscending(r) && forall i :: 0 <= i < |r| ==> r[i] < x
      invariant forall y :: y in r <==> y in s && y < x
    {
      if x in s { r := r + [x]; }
    }
    AscendingIsDistinct(r);
    forall x ensures x in Elements(r) <==> x in s { ElementsAre(r, x); }
    assert Elements(r) == s;
  }

  /** One more draw. */
  lemma SelectNext(max: nat, drawn: seq<nat>, x: nat)
    requires IsLegal(max, drawn) && x <= max
    ensures IsLegal(max + 1, drawn + [x])
    ensures var before := Selected(max, drawn);
            Selected(max + 1, drawn + [x]) == if x in before then before + {max} else before + {x}
  {
    assert (drawn + [x])[..|drawn|] == drawn;
  }

  /** `drawn` are the first numbers of a sample of `toSelect` from the sources. */
  ghost predicate DrawnFrom(max: nat, toSelect: nat, indexes: Sources, drawn: seq<nat>) {
    && |drawn| <= toSelect <= max
    && forall j :: 0 <= j < |drawn| ==> drawn[j] == indexes(j, max - toSelect + j + 1)
  }

  lemma DrawnNext(max: nat, toSelect: nat, indexes: Sources, drawn: seq<nat>)
    requires DrawnFrom(max, toSelect, indexes, drawn) && |drawn| < toSelect
    ensures DrawnFrom(max, toSelect, indexes,
              drawn + [indexes(|drawn|, max - toSelect + |drawn| + 1)])
  {}

  /** One round of the loop of `pick_idxs`. */
  method SelectOne(choice: nat, idx: nat, selected: set<nat>, ghost drawn: seq<nat>)
    returns (selected': set<nat>)
    requires idx <= choice && IsLegal(choice, drawn) && selected == Selected(choice, drawn)
    ensures IsLegal(choice + 1, drawn + [idx]) && selected' == Selected(choice + 1, drawn + [idx])
  {
    SelectNext(choice, drawn, idx);
    selected' := if idx !in selected then selected + {idx} else selected + {choice};
  }

  method Select(max: nat, toSelect: nat, indexes: Sources)
    returns (selected: set<nat>, ghost drawn: seq<nat>)
    requires toSelect <= max && AreSources(indexes)
    ensures DrawnFrom(max, toSelect, indexes, drawn) && |drawn| == toSelect
    ensures IsLegal(max, drawn) && selected == Selected(max, drawn)
  {
    selected, drawn := {}, [];
    for i := 0 to toSelect
      invariant |drawn| == i && DrawnFrom(max, toSelect, indexes, drawn)
      invariant IsLegal(max - toSelect + i, drawn)
      invariant selected == Selected(max - toSelect + i, drawn)
    {
      var choice := max - toSelect + i;
      var idx := indexes(i, choice + 1);
      selected := SelectOne(choice, idx, selected, drawn);
      DrawnNext(max, toSelect, indexes, drawn);
      drawn := drawn + [idx];
    }
  }

  /** `pick_idxs`: distinct numbers below `max` in ascending order, as many as there are sources, or
      all of them. */
  method PickIdxs(max: nat, indexes: Sources, indexesLen: nat) returns (r: seq<nat>, ghost drawn: seq<nat>)
    requires AreSources(indexes)
    ensures IsAscending(r) && |r| == Min(indexesLen, max)
    ensures forall x :: x in r ==> x < max
    ensures DrawnFrom(max, |r|, indexes, drawn) && IsLegal(max, drawn)
    ensures forall x :: x in r <==> x in Selected(max, drawn)
  {
    var selected;
    selected, drawn := Select(max, Min(indexesLen, max), indexes);
    SelectedSize(max, drawn);
    r := InOrder(selected, max);
  }

  // ---------------------------------------------------------------- every subset is equally likely

  /** All vectors of `k` legal draws. */
  function Vectors(max: nat, k: nat): set<seq<nat>>
    requires k <= max
  {
    if k == 0 then {[]}
    else
      var shorter := Vectors(max - 1, k - 1);
      set w, x | w in shorter && 0 <= x < max :: w + [x]
  }

  lemma {:induction false} VectorsAreLegal(max: nat, k: nat, v: seq<nat>)
    requires k <= max
    ensures v in Vectors(max, k) <==> |v| == k && IsLegal(max, v)
  {
    if k > 0 {
      var shorter := Vectors(max - 1, k - 1);
      if |v| == k {
        VectorsAreLegal(max - 1, k - 1, v[..k - 1]);
        assert v == v[..k - 1] + [v[k - 1]];
      }
      if v in Vectors(max, k) {
        var w, x :| w in shorter && 0 <= x < max && v == w + [x];
        VectorsAreLegal(max - 1, k - 1, w);
        assert v[..|v| - 1] == w;
      }
    }
  }

  /** The draws that select exactly `s`. */
  ghost function Producing(max: nat, k: nat, s: set<nat>): set<seq<nat>>
    requires k <= max
  {
    set v | v in Vectors(max, k) && IsLegal(max, v) && Selected(max, v) == s
  }

  function Factorial(n: nat): nat {
    if n == 0 then 1 else n * Factorial(n - 1)
  }

  /** Each `x` of `xs` put after each vector of its family. */
  ghost function Tagged(xs: set<nat>, family: nat -> set<seq<nat>>): set<seq<nat>> {
    set x, w | x in xs && w in family(x) :: w + [x]
  }

  lemma {:induction false} TaggedOne(ws: set<seq<nat>>, x: nat)
    ensures |set w | w in ws :: w + [x]| == |ws|
  {
    var all := set w | w in ws :: w + [x];
    if ws == {} {
      assert all == {};
    } else {
      var w :| w in ws;
      var fewer := set u | u in ws - {w} :: u + [x];
      TaggedOne(ws - {w}, x);
      assert w + [x] !in fewer by {
        forall u | u in ws - {w} ensures u + [x] != w + [x] {
          assert (u + [x])[..|u|] == u && (w + [x])[..|w|] == w;
        }
      }
      assert all == fewer + {w + [x]};
    }
  }

  lemma TaggedSplit(xs: set<nat>, family: nat -> set<seq<nat>>, x: nat)
    requires x in xs
    ensures var one := set w | w in family(x) :: w + [x];
            Tagged(xs, family) == Tagged(xs - {x}, family) + one && Tagged(xs - {x}, family) !! one
  {
    var fewer, one := Tagged(xs - {x}, family), set w | w in family(x) :: w + [x];
    forall v | v in fewer ensures v !in one {
      var y, w :| y in xs - {x} && w in family(y) && v == w + [y];
      assert v[|v| - 1] == y;
    }
    forall v ensures v in Tagged(xs, family) <==> v in fewer || v in one {
      if v in Tagged(xs, family) {
        var y, w :| y in xs && w in family(y) && v == w + [y];
        assert y != x ==> v in fewer;
      }
    }
  }

  lemma {:induction false} TaggedCount(xs: set<nat>, family: nat -> set<seq<nat>>, c: nat)
    requires forall x :: x in xs ==> |family(x)| == c
    ensures |Tagged(xs, family)| == |xs| * c
  {
    if xs == {} {
      assert Tagged(xs, family) == {};
    } else {
      var x :| x in xs;
      TaggedCount(xs - {x}, family, c);
      TaggedOne(family(x), x);
      TaggedSplit(xs, family, x);
      assert |xs - {x}| == |xs| - 1;
      OneMore(|xs| - 1, c);
    }
  }

  lemma OneMore(n: nat, c: nat)
    ensures n * c + c == (n + 1) * c
  {}

  /** What must have been selected before `x` was drawn last, if the result is `s`. */
  function Earlier(max: nat, s: set<nat>, x: nat): set<nat>
    requires max > 0
  {
    if max - 1 in s then s - {max - 1} else s - {x}
  }

  /** The last draw of a vector that selects `s` is in `s`, and fixes what came before. */
  lemma LastDraw(max: nat, k: nat, s: set<nat>, w: seq<nat>, x: nat)
    requires 0 < k <= max && |w| == k - 1 && IsLegal(max - 1, w) && x < max
    requires forall y :: y in s ==> y < max
    ensures IsLegal(max, w + [x])
    ensures Selected(max, w + [x]) == s <==> x in s && Selected(max - 1, w) == Earlier(max, s, x)
  {
    assert (w + [x])[..k - 1] == w;
    SelectedSize(max - 1, w);
    var before := Selected(max - 1, w);
    if x in before {
      assert before + {max - 1} == s <==> x in s && before == Earlier(max, s, x);
    } else {
      assert before + {x} == s <==> x in s && before == Earlier(max, s, x);
    }
  }

  lemma ProducingSnoc(max: nat, k: nat, s: set<nat>, w: seq<nat>, x: nat)
    requires 0 < k <= max && forall y :: y in s ==> y < max
    ensures w + [x] in Producing(max, k, s) <==>
            x in s && w in Producing(max - 1, k - 1, Earlier(max, s, x))
  {
    assert (w + [x])[..|w|] == w;
    VectorsAreLegal(max, k, w + [x]);
    VectorsAreLegal(max - 1, k - 1, w);
    if |w| == k - 1 && IsLegal(max - 1, w) && x < max { LastDraw(max, k, s, w, x); }
  }

  lemma ProducingByLastDraw(max: nat, k: nat, s: set<nat>, family: nat -> set<seq<nat>>)
    requires 0 < k <= max && forall y :: y in s ==> y < max
    requires forall x :: x in s ==> family(x) == Producing(max - 1, k - 1, Earlier(max, s, x))
    ensures Producing(max, k, s) == Tagged(s, family)
  {
    forall v ensures v in Producing(max, k, s) <==> v in Tagged(s, family) {
      if v in Producing(max, k, s) {
        VectorsAreLegal(max, k, v);
        var w, x := v[..k - 1], v[k - 1];
        assert v == w + [x];
        ProducingSnoc(max, k, s, w, x);
      }
      if v in Tagged(s, family) {
        var x, w :| x in s && w in family(x) && v == w + [x];
        ProducingSnoc(max, k, s, w, x);
      }
    }
  }

  lemma CountByLastDraw(max: nat, k: nat, s: set<nat>, c: nat)
    requires 0 < k <= max && |s| == k && forall y :: y in s ==> y < max
    requires forall x :: x in s ==> |Producing(max - 1, k - 1, Earlier(max, s, x))| == c
    ensures |Producing(max, k, s)| == k * c
  {
    var family := (x: nat) => Producing(max - 1, k - 1, Earlier(max, s, x));
    ProducingByLastDraw(max, k, s, family);
    TaggedCount(s, family, c);
  }

  lemma EarlierIsSubset(max: nat, s: set<nat>, x: nat)
    requires x in s && forall y :: y in s ==> y < max
    ensures max > 0 && |Earlier(max, s, x)| == |s| - 1
    ensures forall y :: y in Earlier(max, s, x) ==> y < max - 1
  {}

  /** Uniformity: every `k`-subset of the numbers below `max` is selected by exactly `k!` of the
      equally likely vectors of draws. */
  lemma {:induction false} EverySubsetEquallyLikely(max: nat, k: nat, s: set<nat>)
    requires k <= max && |s| == k && forall y :: y in s ==> y < max
    ensures |Producing(max, k, s)| == Factorial(k)
    decreases k
  {
    if k == 0 {
      OnlyEmptyDraw(max, s);
    } else {
      forall x | x in s ensures |Producing(max - 1, k - 1, Earlier(max, s, x))| == Factorial(k - 1) {
        EarlierIsSubset(max, s, x);
        EverySubsetEquallyLikely(max - 1, k - 1, Earlier(max, s, x));
      }
      CountByLastDraw(max, k, s, Factorial(k - 1));
    }
  }

  lemma OnlyEmptyDraw(max: nat, s: set<nat>)
    requires s == {}
    ensures Producing(max, 0, s) == {[]}
  {}
}
