/** Sequences of push and pop calls on one stack, as a producer walking a
    document depth-first issues them, and what they do to the stack and to the
    notification log. DoStep and RunOnStack show that issuing the calls on a
    NamespaceDeclarationStack produces exactly the states Step and Run
    describe, so the lemmas about Run are facts about the class. */
module NamespaceTraces {
  import opened Wrappers
  import opened Sax
  import opened NamespaceSpec
  import opened EdiSaxUtil

  datatype Op =
    | PushOp(prefix: string, namespace: string, attributes: Option<seq<Attribute>>)
    | PopOp

  datatype State = State(stack: seq<Frame>, events: seq<Event>)

  /** The state after a push. */
  function PushState(s: State, prefix: string, namespace: string, attributes: Option<seq<Attribute>>): State
  {
    var input := AttributesOrEmpty(attributes);
    var frame := NewFrame(s.stack, prefix, input);
    FrameKeys(s.stack, prefix, namespace, input);
    State(s.stack + [frame], s.events + StartEvents(frame, NsToUri(s.stack, prefix, namespace, input)))
  }

  /** One call; None when a pop finds the stack empty (Java's Stack.pop
      throws EmptyStackException). */
  function Step(s: State, op: Op): Option<State>
  {
    match op
    case PushOp(prefix, namespace, attributes) => Some(PushState(s, prefix, namespace, attributes))
    case PopOp =>
      if s.stack == [] then None
      else Some(State(s.stack[..|s.stack| - 1], s.events + EndEvents(s.stack[|s.stack| - 1])))
  }

  /** The calls in order; None once one of them fails. */
  function Run(s: State, ops: seq<Op>): Option<State>
  {
    if ops == [] then Some(s)
    else
      match Run(s, ops[..|ops| - 1])
      case None => None
      case Some(t) => Step(t, ops[|ops| - 1])
  }

  /** Pushes minus pops. */
  function Depth(ops: seq<Op>): int
  {
    if ops == [] then 0 else Depth(ops[..|ops| - 1]) + (if ops[|ops| - 1].PushOp? then 1 else -1)
  }

  /** No prefix of the calls pops more than it pushed. */
  predicate NeverUnderflows(ops: seq<Op>)
  {
    forall k :: 0 <= k <= |ops| ==> Depth(ops[..k]) >= 0
  }

  /** Every push is matched by a later pop. */
  predicate Balanced(ops: seq<Op>)
  {
    NeverUnderflows(ops) && Depth(ops) == 0
  }

  /** A run that never pops more than it pushed succeeds, leaves the frames it
      started with untouched below the ones it added, and only appends to the
      log. */
  lemma {:induction false} RunKeepsBase(s: State, ops: seq<Op>)
    requires NeverUnderflows(ops)
    ensures Run(s, ops).Some?
    ensures |Run(s, ops).value.stack| == |s.stack| + Depth(ops)
    ensures s.stack <= Run(s, ops).value.stack
    ensures s.events <= Run(s, ops).value.events
  {
    if ops != [] {
      var init := ops[..|ops| - 1];
      assert NeverUnderflows(init) by {
        forall k | 0 <= k <= |init| ensures Depth(init[..k]) >= 0 {
          assert init[..k] == ops[..k];
        }
      }
      RunKeepsBase(s, init);
      assert ops[..|ops|] == ops;
      var t := Run(s, init).value;
      if ops[|ops| - 1].PopOp? {
        assert |t.stack| > |s.stack|;
        assert s.stack <= t.stack[..|t.stack| - 1];
      }
    }
  }

  /** Balanced push/pop sequences give the stack back as it was. */
  lemma BalancedRestoresStack(s: State, ops: seq<Op>)
    requires Balanced(ops)
    ensures Run(s, ops).Some? && Run(s, ops).value.stack == s.stack
  {
    RunKeepsBase(s, ops);
  }

  /** Starting from an empty stack, a run succeeds exactly when it never pops
      more than it pushed. */
  lemma {:induction false} RunFromEmpty(events: seq<Event>, ops: seq<Op>)
    ensures Run(State([], events), ops).Some? <==> NeverUnderflows(ops)
  {
    if NeverUnderflows(ops) {
      RunKeepsBase(State([], events), ops);
    } else {
      var k :| 0 <= k <= |ops| && Depth(ops[..k]) < 0;
      FirstUnderflowFails(events, ops, k);
    }
  }

  lemma {:induction false} FirstUnderflowFails(events: seq<Event>, ops: seq<Op>, k: nat)
    requires k <= |ops| && Depth(ops[..k]) < 0
    ensures Run(State([], events), ops).None?
    decreases |ops|
  {
    if k < |ops| {
      var init := ops[..|ops| - 1];
      assert init[..k] == ops[..k];
      FirstUnderflowFails(events, init, k);
    } else {
      assert ops[..k] == ops;
      var init := ops[..|ops| - 1];
      if NeverUnderflows(init) {
        RunKeepsBase(State([], events), init);
      } else {
        var j :| 0 <= j <= |init| && Depth(init[..j]) < 0;
        FirstUnderflowFails(events, init, j);
      }
    }
  }

  /** Running two call sequences one after the other. */
  lemma {:induction false} RunAppend(s: State, a: seq<Op>, b: seq<Op>)
    ensures Run(s, a + b) == match Run(s, a) case None => None case Some(t) => Run(t, b)
  {
    if b == [] {
      assert a + b == a;
    } else {
      assert (a + b)[..|a + b| - 1] == a + b[..|b| - 1];
      RunAppend(s, a, b[..|b| - 1]);
    }
  }

  lemma {:induction false} DepthAppend(a: seq<Op>, b: seq<Op>)
    ensures Depth(a + b) == Depth(a) + Depth(b)
  {
    if b == [] {
      assert a + b == a;
    } else {
      assert (a + b)[..|a + b| - 1] == a + b[..|b| - 1];
      assert (a + b)[|a + b| - 1] == b[|b| - 1];
      DepthAppend(a, b[..|b| - 1]);
    }
  }

  /** One element: a push, the calls for its content (balanced), and the
      matching pop. The stack is as before, and the log gains the push's start
      notifications, whatever the content logged, and then the end
      notifications of the very frame the push recorded (so, by
      StartEndSymmetry, the pushed prefixes in reverse order). */
  lemma MatchedPair(s: State, prefix: string, namespace: string, attributes: Option<seq<Attribute>>, inner: seq<Op>)
    requires Balanced(inner)
    ensures var frame := NewFrame(s.stack, prefix, AttributesOrEmpty(attributes));
            var inside := PushState(s, prefix, namespace, attributes);
            && inside.stack == s.stack + [frame]
            && Run(inside, inner).Some?
            && Run(s, [PushOp(prefix, namespace, attributes)] + inner + [PopOp])
                 == Some(State(s.stack, Run(inside, inner).value.events + EndEvents(frame)))
  {
    var frame := NewFrame(s.stack, prefix, AttributesOrEmpty(attributes));
    var inside := PushState(s, prefix, namespace, attributes);
    var push := [PushOp(prefix, namespace, attributes)];
    assert Run(s, push) == Some(inside) by {
      assert push[..0] == [];
    }
    RunAppend(s, push, inner);
    BalancedRestoresStack(inside, inner);
    var closed := Run(inside, inner).value;
    assert closed.stack[|closed.stack| - 1] == frame;
    assert closed.stack[..|closed.stack| - 1] == s.stack;
    RunAppend(s, push + inner, [PopOp]);
    assert [PopOp][..0] == [];
  }

  /** Pushing a prefix inside an element that declared it already is silent:
      push("a", "nsa"), push("a", "nsa"), pop, pop notifies only the outer
      start and end. */
  lemma ShadowedPushIsSilent()
    ensures Run(State([], []), [PushOp("a", "nsa", None), PushOp("a", "nsa", None), PopOp, PopOp])
              == Some(State([], [StartPrefixMapping("a", "nsa"), EndPrefixMapping("a")]))
  {
    var ops := [PushOp("a", "nsa", None), PushOp("a", "nsa", None), PopOp, PopOp];
    var s0 := State([], []);
    var started := [StartPrefixMapping("a", "nsa")];
    OuterPush();
    InnerPush(started);
    OuterPop(started);
    assert ops[..1][..0] == [];
    assert Run(s0, ops[..1]) == Some(State([["a"]], started));
    assert ops[..2][..1] == ops[..1];
    assert Run(s0, ops[..2]) == Some(State([["a"], []], started));
    assert ops[..3][..2] == ops[..2];
    assert Run(s0, ops[..3]) == Some(State([["a"]], started));
    assert ops[..4][..3] == ops[..3] && ops[..4] == ops;
    assert Run(s0, ops) == Some(State([], started + [EndPrefixMapping("a")]));
    assert started + [EndPrefixMapping("a")] == [StartPrefixMapping("a", "nsa"), EndPrefixMapping("a")];
  }

  /** The first push of ShadowedPushIsSilent: a fresh prefix is started. */
  lemma OuterPush()
    ensures PushState(State([], []), "a", "nsa", None) == State([["a"]], [StartPrefixMapping("a", "nsa")])
  {
    assert !Declared([], "a");
    assert NewFrame([], "a", []) == ["a"];
    assert StartEvents(["a"], map["a" := "nsa"]) == [StartPrefixMapping("a", "nsa")] by {
      assert ["a"][..0] == [];
    }
  }

  /** The second push of ShadowedPushIsSilent: the prefix is on the stack, so
      the frame is empty and nothing is notified. */
  lemma InnerPush(events: seq<Event>)
    ensures PushState(State([["a"]], events), "a", "nsa", None) == State([["a"], []], events)
  {
    assert Declared([["a"]], "a") by {
      assert "a" in [["a"]][0];
    }
    assert NewFrame([["a"]], "a", []) == [];
  }

  /** The pops of ShadowedPushIsSilent: the empty frame ends nothing, the outer
      one ends its prefix. */
  lemma OuterPop(events: seq<Event>)
    ensures Step(State([["a"], []], events), PopOp) == Some(State([["a"]], events))
    ensures Step(State([["a"]], events), PopOp) == Some(State([], events + [EndPrefixMapping("a")]))
  {
    assert events + EndEvents([]) == events;
    assert [["a"], []][..1] == [["a"]] && [["a"]][..0] == [];
    assert EndEvents(["a"]) == [EndPrefixMapping("a")] by {
      assert ["a"][1..] == [];
    }
  }

  // ---------------------------------------------------------------------------
  // Driving the class

  /** A call sequence that does not fail succeeds in every prefix. */
  lemma RunPrefix(s: State, ops: seq<Op>, k: nat)
    requires k <= |ops| && Run(s, ops).Some?
    ensures Run(s, ops[..k]).Some?
  {
    assert ops == ops[..k] + ops[k..];
    RunAppend(s, ops[..k], ops[k..]);
  }

  /** One call on the class does to its state what Step does to a State. */
  method DoStep(nds: NamespaceDeclarationStack, op: Op, resolver: Option<Resolver>)
    requires op.PushOp? || nds.nsStack != []
    modifies nds
    ensures Step(State(old(nds.nsStack), old(nds.events)), op) == Some(State(nds.nsStack, nds.events))
  {
    match op
    case PushOp(prefix, namespace, attributes) =>
      var attrs, order := nds.Push(prefix, namespace, attributes, resolver);
    case PopOp =>
      nds.Pop();
  }

  /** Issuing the calls one by one on a NamespaceDeclarationStack leaves it in
      the state Run predicts, so every lemma about Run holds of the class. */
  method RunOnStack(nds: NamespaceDeclarationStack, ops: seq<Op>, resolver: Option<Resolver>)
    requires Run(State(nds.nsStack, nds.events), ops).Some?
    modifies nds
    ensures Run(State(old(nds.nsStack), old(nds.events)), ops) == Some(State(nds.nsStack, nds.events))
  {
    ghost var s0 := State(nds.nsStack, nds.events);
    var i := 0;
    assert ops[..0] == [];
    while i < |ops|
      invariant 0 <= i <= |ops|
      invariant s0 == State(old(nds.nsStack), old(nds.events))
      invariant Run(s0, ops[..i]) == Some(State(nds.nsStack, nds.events))
    {
      RunPrefix(s0, ops, i + 1);
      assert ops[..i + 1][..i] == ops[..i];
      DoStep(nds, ops[i], resolver);
      i := i + 1;
    }
    assert ops[..i] == ops;
  }

  /** A balanced call sequence issued on the class gives its stack back. */
  method RunBalanced(nds: NamespaceDeclarationStack, ops: seq<Op>, resolver: Option<Resolver>)
    requires Balanced(ops)
    modifies nds
    ensures nds.nsStack == old(nds.nsStack)
    ensures old(nds.events) <= nds.events
  {
    RunKeepsBase(State(nds.nsStack, nds.events), ops);
    BalancedRestoresStack(State(nds.nsStack, nds.events), ops);
    RunOnStack(nds, ops, resolver);
  }
}
