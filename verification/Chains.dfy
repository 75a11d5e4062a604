/** Chains of steps: what a byte-driven machine does with a string, as a relation between states. */
module Chains {

  /** Each input takes the machine from one state of the trace to the next. */
  ghost predicate Linked<S(!new), I(!new)>(step: (S, I, S) -> bool, trace: seq<S>, inputs: seq<I>) {
    |trace| == |inputs| + 1
    && forall i {:trigger step(trace[i], inputs[i], trace[i + 1])} :: 0 <= i < |inputs| ==> step(trace[i], inputs[i], trace[i + 1])
  }

  /** The inputs lead from `s` to `t`. */
  ghost predicate Leads<S(!new), I(!new)>(step: (S, I, S) -> bool, s: S, inputs: seq<I>, t: S) {
    exists trace :: Linked(step, trace, inputs) && trace[0] == s && trace[|inputs|] == t
  }

  lemma {:induction false} LeadsNowhere<S(!new), I(!new)>(step: (S, I, S) -> bool, s: S)
    ensures Leads(step, s, [], s)
  {
    assert Linked(step, [s], []);
  }

  lemma {:induction false} LeadsOnce<S(!new), I(!new)>(step: (S, I, S) -> bool, s: S, input: I, t: S)
    requires step(s, input, t)
    ensures Leads(step, s, [input], t)
  {
    assert Linked(step, [s, t], [input]);
  }

  lemma {:induction false} JoinedAt<S, I>(x: seq<S>, a: seq<I>, y: seq<S>, b: seq<I>, i: nat)
    requires |x| == |a| + 1 && |y| == |b| + 1 && x[|a|] == y[0] && i < |a + b|
    ensures var trace := x + y[1..];
            if i < |a| then trace[i] == x[i] && (a + b)[i] == a[i] && trace[i + 1] == x[i + 1]
            else trace[i] == y[i - |a|] && (a + b)[i] == b[i - |a|] && trace[i + 1] == y[i - |a| + 1]
  {
  }

  lemma {:induction false} Joined<S(!new), I(!new)>(step: (S, I, S) -> bool, x: seq<S>, a: seq<I>, y: seq<S>, b: seq<I>)
    requires Linked(step, x, a) && Linked(step, y, b) && x[|a|] == y[0]
    ensures Linked(step, x + y[1..], a + b)
  {
    forall i: nat | i < |a + b| ensures step((x + y[1..])[i], (a + b)[i], (x + y[1..])[i + 1]) {
      JoinedAt(x, a, y, b, i);
      if i < |a| {
        assert step(x[i], a[i], x[i + 1]);
      } else {
        var j := i - |a|;
        assert step(y[j], b[j], y[j + 1]);
      }
    }
  }

  lemma {:induction false} LeadsOn<S(!new), I(!new)>(step: (S, I, S) -> bool, s: S, a: seq<I>, t: S, b: seq<I>, u: S)
    requires Leads(step, s, a, t) && Leads(step, t, b, u)
    ensures Leads(step, s, a + b, u)
  {
    var x :| Linked(step, x, a) && x[0] == s && x[|a|] == t;
    var y :| Linked(step, y, b) && y[0] == t && y[|b|] == u;
    Joined(step, x, a, y, b);
    assert (x + y[1..])[0] == s && (x + y[1..])[|a + b|] == u;
  }
}
