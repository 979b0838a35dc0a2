/** When the gateway's matching thread leaves nothing behind, on its ring buffers. */
module RingDrain {
  import opened SpscMachine
  import opened RingPipeline

  /** The step completes a push. */
  predicate Completes<B, M, R>(s: Whole<B, M, R>, t: Step<M, R>) {
    t.ClientPush? && t.push.PushStore? && s.ingress.producer.Wrote?
  }

  /** On the way some push was completed after the matching thread had left, that
      is, after the emptiness check that let it leave. */
  predicate LatePush<B, M, R>(w: Width, p: P.Program<B, M, R>, s: Whole<B, M, R>, steps: seq<Step<M, R>>)
    requires Fit(s)
  {
    steps != []
    && var before := Walk(w, p, s, steps[..|steps| - 1]);
    LatePush(w, p, s, steps[..|steps| - 1]) || (before.phase.Left? && Completes(before, steps[|steps| - 1]))
  }

  lemma LeavingStep<B, M, R>(p: P.Program<B, M, R>, s: Whole<B, M, R>, t: Step<M, R>)
    requires Fit(s) && !s.phase.Left? && Take(Unbounded, p, s, t).phase.Left?
    ensures s.phase.Check? && s.ingress.head == s.ingress.tail && Take(Unbounded, p, s, t) == s.(phase := Left)
  {
  }

  lemma NothingPending<B, M, R>(p: P.Program<B, M, R>, s: P.Core<B, M, R>)
    requires P.Inv(p, false, s) && s.matcher.AtEmptyCheck? && s.ingress.items == []
    ensures s.pushed == s.executed
  {
  }

  lemma LeavesDrained<B, M, R>(p: P.Program<B, M, R>, s: Whole<B, M, R>, t: Step<M, R>)
    requires s.ingress.tail == s.ingress.head + |Replay(s.ingress.log).items| && Fit(s) && P.Inv(p, false, Abstract(s))
    requires !s.phase.Left? && Take(Unbounded, p, s, t).phase.Left?
    ensures var s' := Take(Unbounded, p, s, t); s.phase.Check? && s'.executed == In(s'.ingress.log)
  {
    LeavingStep(p, s, t);
    NothingPending(p, Abstract(s));
  }

  lemma PushOnce<B, M, R>(s: Whole<B, M, R>, a: Action<M>)
    requires Linked(s) && IsPush(a)
    ensures PushFacts(s.ingress, a, Next(Unbounded, s.ingress, a))
  {
    PushEffect(s.ingress, a);
  }

  lemma OnceLeft<B, M, R>(p: P.Program<B, M, R>, s: Whole<B, M, R>, t: Step<M, R>)
    requires Fit(s) && s.phase.Left? && s.executed <= In(s.ingress.log)
    requires t.ClientPush? && IsPush(t.push) ==> PushFacts(s.ingress, t.push, Next(Unbounded, s.ingress, t.push))
    ensures var s' := Take(Unbounded, p, s, t);
            && s'.phase.Left? && s'.executed <= In(s'.ingress.log)
            && (s'.executed == In(s'.ingress.log) <==> s.executed == In(s.ingress.log) && !Completes(s, t))
  {
  }

  lemma {:induction false} DrainedUnbounded<B, M, R>(p: P.Program<B, M, R>, inSlots: seq<M>, outSlots: seq<R>,
                                                     steps: seq<Step<M, R>>)
    requires inSlots != [] && outSlots != []
    ensures var s, late := Walk(Unbounded, p, Begin(p, inSlots, outSlots), steps),
                           LatePush(Unbounded, p, Begin(p, inSlots, outSlots), steps);
            && (late ==> s.phase.Left?)
            && (s.phase.Left? ==> s.executed <= In(s.ingress.log) && (s.executed == In(s.ingress.log) <==> !late))
  {
    if steps != [] {
      var n := |steps| - 1;
      var s := Walk(Unbounded, p, Begin(p, inSlots, outSlots), steps[..n]);
      DrainedUnbounded(p, inSlots, outSlots, steps[..n]);
      WalkRefines(p, inSlots, outSlots, steps[..n]);
      if s.phase.Left? {
        if steps[n].ClientPush? && IsPush(steps[n].push) { PushOnce(s, steps[n].push); }
        OnceLeft(p, s, steps[n]);
      } else if Take(Unbounded, p, s, steps[n]).phase.Left? {
        WalkKeepsInv(p, inSlots, outSlots, steps[..n]);
        LeavesDrained(p, s, steps[n]);
      }
    }
  }

  lemma {:induction false} LatenessWraps<B, M, R>(p: P.Program<B, M, R>, inSlots: seq<M>, outSlots: seq<R>,
                                                  steps: seq<Step<M, R>>)
    requires Wrapping.Sized(Start(inSlots)) && Wrapping.Sized(Start(outSlots))
    ensures LatePush(Bits64, p, Begin(p, inSlots, outSlots), steps)
         == LatePush(Unbounded, p, Begin(p, inSlots, outSlots), steps)
  {
    if steps != [] {
      LatenessWraps(p, inSlots, outSlots, steps[..|steps| - 1]);
      WalkWraps(p, inSlots, outSlots, steps[..|steps| - 1]);
    }
  }

  /** When the matching thread of the gateway has left its loop, every message whose
      push was completed has been executed if and only if no push was completed
      after the emptiness check that let it leave. */
  lemma DrainedExactlyWhen<B, M, R>(p: P.Program<B, M, R>, inSlots: seq<M>, outSlots: seq<R>, steps: seq<Step<M, R>>)
    requires Wrapping.Sized(Start(inSlots)) && Wrapping.Sized(Start(outSlots))
    requires Walk(Bits64, p, Begin(p, inSlots, outSlots), steps).phase.Left?
    ensures var s := Walk(Bits64, p, Begin(p, inSlots, outSlots), steps);
            s.executed == In(s.ingress.log) <==> !LatePush(Bits64, p, Begin(p, inSlots, outSlots), steps)
  {
    WalkWraps(p, inSlots, outSlots, steps);
    LatenessWraps(p, inSlots, outSlots, steps);
    DrainedUnbounded(p, inSlots, outSlots, steps);
  }
}
