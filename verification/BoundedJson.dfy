// The reject-before-write capacity check on JSON payloads: an explicit-stack
// traversal that refines recursive node count and depth.

module BoundedJson {

  /** A decoded payload; scalars include strings and byte strings. */
  datatype Json = Scalar | Sequence(items: seq<Json>) | Mapping(values: seq<Json>)

  function Children(j: Json): seq<Json> {
    match j case Scalar => [] case Sequence(items) => items case Mapping(values) => values
  }

  function Size(j: Json): (n: nat)
    ensures n >= 1
  {
    1 + match j case Scalar => 0 case Sequence(items) => SizeAll(items) case Mapping(values) => SizeAll(values)
  }

  function SizeAll(js: seq<Json>): nat {
    if js == [] then 0 else Size(js[0]) + SizeAll(js[1..])
  }

  function Depth(j: Json): (n: nat)
    ensures n >= 1
  {
    1 + match j case Scalar => 0 case Sequence(items) => DepthAll(items) case Mapping(values) => DepthAll(values)
  }

  function DepthAll(js: seq<Json>): nat {
    if js == [] then 0 else if Depth(js[0]) > DepthAll(js[1..]) then Depth(js[0]) else DepthAll(js[1..])
  }

  type Stack = seq<(Json, int)>

  /** Nodes still to be visited from a stack. */
  function Remaining(stack: Stack): nat {
    if stack == [] then 0 else Remaining(stack[..|stack| - 1]) + Size(stack[|stack| - 1].0)
  }

  function AtDepth(js: seq<Json>, depth: int): Stack { seq(|js|, i requires 0 <= i < |js| => (js[i], depth)) }

  lemma {:induction false} SizeAllSnoc(js: seq<Json>, j: Json)
    ensures SizeAll(js + [j]) == SizeAll(js) + Size(j)
  {
    if js == [] {
      assert [j] == [] + [j] && |[j]| == 1;
      assert SizeAll([j]) == Size(j) + SizeAll([]);
    } else {
      assert (js + [j])[1..] == js[1..] + [j];
      SizeAllSnoc(js[1..], j);
    }
  }

  /** Pushing the children of a node accounts for every node below it. */
  lemma {:induction false} RemainingPush(stack: Stack, js: seq<Json>, depth: int)
    ensures Remaining(stack + AtDepth(js, depth)) == Remaining(stack) + SizeAll(js)
    decreases |js|
  {
    if js == [] {
      assert stack + AtDepth(js, depth) == stack;
    } else {
      var init, last := js[..|js| - 1], js[|js| - 1];
      RemainingPush(stack, init, depth);
      SizeAllSnoc(init, last);
      assert init + [last] == js;
      var whole := stack + AtDepth(js, depth);
      assert whole[..|whole| - 1] == stack + AtDepth(init, depth);
      assert whole[|whole| - 1] == (last, depth);
    }
  }

  /** A bound on a forest's depth is a bound on each of its trees. */
  lemma {:induction false} DepthAllBounds(js: seq<Json>, bound: int)
    requires bound >= 0
    ensures DepthAll(js) <= bound <==> forall i :: 0 <= i < |js| ==> Depth(js[i]) <= bound
  {
    if js != [] {
      DepthAllBounds(js[1..], bound);
      assert forall i :: 0 < i < |js| ==> js[i] == js[1..][i - 1];
    }
  }

  /** Every pending node fits in `bound` levels, counted from the root. */
  predicate Fits(stack: Stack, bound: int) {
    forall i :: 0 <= i < |stack| ==> stack[i].1 - 1 + Depth(stack[i].0) <= bound
  }

  /** A node at `depth` fits if and only if it is itself within the bound and all its
      children, one level deeper, fit. */
  lemma FitsUnfold(stack: Stack, j: Json, depth: int, bound: int)
    requires depth <= bound
    ensures Fits(stack + [(j, depth)], bound) <==> Fits(stack + AtDepth(Children(j), depth + 1), bound)
  {
    var js := Children(j);
    DepthAllBounds(js, bound - depth);
    assert Depth(j) == 1 + DepthAll(js);
    var whole, pushed := stack + [(j, depth)], stack + AtDepth(js, depth + 1);
    assert whole[|stack|] == (j, depth);
    if Fits(whole, bound) {
      forall i | 0 <= i < |pushed| ensures pushed[i].1 - 1 + Depth(pushed[i].0) <= bound {
        if i < |stack| { assert pushed[i] == whole[i]; } else { assert pushed[i] == (js[i - |stack|], depth + 1); }
      }
    }
    if Fits(pushed, bound) {
      forall i | 0 <= i < |js| ensures Depth(js[i]) <= bound - depth { assert pushed[|stack| + i] == (js[i], depth + 1); }
      forall i | 0 <= i < |whole| ensures whole[i].1 - 1 + Depth(whole[i].0) <= bound {
        if i < |stack| { assert whole[i] == pushed[i]; }
      }
    }
  }

  datatype Verdict = Accepted | DepthExceeded(atLeast: int) | NodesExceeded(atLeast: int)

  /** The loop of `encode_bounded_json`.  It accepts exactly the payloads whose node
      count and depth are within the limits, what it reports as a lower bound is one,
      and it pops at most one node more than the limit. */
  method CheckBounded(value: Json, maximumDepth: int, maximumNodes: int) returns (verdict: Verdict, pops: int)
    ensures verdict == Accepted <==> Depth(value) <= maximumDepth && Size(value) <= maximumNodes
    ensures verdict.DepthExceeded? ==> maximumDepth < verdict.atLeast <= Depth(value)
    ensures verdict.NodesExceeded? ==> maximumNodes < verdict.atLeast <= Size(value)
    ensures pops <= (if maximumNodes >= 0 then maximumNodes + 1 else 1)
    ensures verdict == Accepted ==> pops == Size(value)
  {
    var stack: Stack := [(value, 1)];
    pops := 0;
    assert stack[..0] == [];
    while stack != []
      invariant pops + Remaining(stack) == Size(value)
      invariant pops <= maximumNodes || pops == 0
      invariant pops >= 0
      invariant Fits(stack, Depth(value))
      invariant Depth(value) <= maximumDepth <==> Fits(stack, maximumDepth)
      decreases Remaining(stack)
    {
      var (current, depth) := stack[|stack| - 1];
      ghost var whole := stack;
      stack := stack[..|stack| - 1];
      assert whole == stack + [(current, depth)];
      assert whole[|stack|] == (current, depth);
      pops := pops + 1;
      if depth > maximumDepth { return DepthExceeded(depth), pops; }
      if pops > maximumNodes { return NodesExceeded(pops), pops; }
      FitsUnfold(stack, current, depth, Depth(value));
      FitsUnfold(stack, current, depth, maximumDepth);
      RemainingPush(stack, Children(current), depth + 1);
      stack := stack + AtDepth(Children(current), depth + 1);
    }
    return Accepted, pops;
  }
}
