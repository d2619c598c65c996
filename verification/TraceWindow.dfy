/**
  What a ring capture of crates/common/src/tracing.rs is specified to retain:
  the last `before` captured events preceding the first trigger, the trigger,
  and the first `after` captured events following it.
 */
module TraceWindow {
  import opened Wrappers

  /** One event that reached an armed ring capture, with what the two matchers answer for it. */
  datatype Observed<T> = Observed(content: T, captured: bool, triggers: bool)

  datatype Window<T> = Window(pre: seq<T>, trigger: Option<T>, post: seq<T>, complete: bool)

  function FirstTrigger<T>(s: seq<Observed<T>>): (t: nat)
    ensures t <= |s|
    ensures forall i :: 0 <= i < t ==> !s[i].triggers
    ensures t < |s| ==> s[t].triggers
  {
    if s == [] then 0
    else
      var t := FirstTrigger(s[..|s| - 1]);
      if t < |s| - 1 || s[|s| - 1].triggers then t else |s|
  }

  function Captured<T>(s: seq<Observed<T>>): seq<T> {
    if s == [] then []
    else
      var (most, last) := (Captured(s[..|s| - 1]), s[|s| - 1]);
      if last.captured then most + [last.content] else most
  }

  function LastOf<T>(s: seq<T>, n: nat): (r: seq<T>)
    ensures |r| <= n && |r| <= |s|
  {
    if |s| <= n then s else s[|s| - n..]
  }

  function FirstOf<T>(s: seq<T>, n: nat): (r: seq<T>)
    ensures |r| <= n && |r| <= |s|
  {
    if |s| <= n then s else s[..n]
  }

  /** The window a whole stream of events is specified to leave. */
  function Specified<T>(s: seq<Observed<T>>, before: nat, after: nat): Window<T> {
    var t := FirstTrigger(s);
    if t == |s| then
      Window(LastOf(Captured(s), before), None, [], false)
    else
      var rest := Captured(s[t + 1..]);
      Window(LastOf(Captured(s[..t]), before), Some(s[t].content), FirstOf(rest, after), |rest| >= after)
  }

  /** The effect one more event has on a retained window. */
  function Step<T>(w: Window<T>, x: Observed<T>, before: nat, after: nat): Window<T> {
    if w.complete then w
    else if w.trigger.None? && x.triggers then w.(trigger := Some(x.content), complete := after == 0)
    else if !x.captured then w
    else if w.trigger.None? then w.(pre := LastOf(w.pre + [x.content], before))
    else w.(post := w.post + [x.content], complete := |w.post| + 1 >= after)
  }

  /** Retaining one event at a time yields the specified window of the whole stream. */
  lemma StepKeepsSpecified<T>(s: seq<Observed<T>>, x: Observed<T>, before: nat, after: nat)
    ensures Specified(s + [x], before, after) == Step(Specified(s, before, after), x, before, after)
  {
    hide Captured, LastOf, FirstOf;
    var s' := s + [x];
    var t := FirstTrigger(s);
    FirstTriggerExtended(s, x);
    CapturedExtended(s, x);
    if t < |s| {
      assert s'[..t] == s[..t];
      TailExtended(s, x, t + 1);
      CapturedExtended(s[t + 1..], x);
      FirstOfExtended(Captured(s[t + 1..]), x.content, after);
      FirstOfAll(Captured(s[t + 1..]), after);
    } else if x.triggers {
      assert s'[..t] == s;
      NothingCaptured(s'[t + 1..], after);
    } else {
      LastOfExtended(Captured(s), x.content, before);
    }
  }

  lemma FirstTriggerExtended<T>(s: seq<Observed<T>>, x: Observed<T>)
    ensures FirstTrigger(s + [x])
         == if FirstTrigger(s) < |s| || x.triggers then FirstTrigger(s) else |s| + 1
  {
    assert (s + [x])[..|s|] == s;
  }

  lemma FirstOfAll<T>(s: seq<T>, n: nat)
    ensures |FirstOf(s, n)| == if |s| <= n then |s| else n
  {
  }

  lemma NothingCaptured<T>(s: seq<Observed<T>>, n: nat)
    requires |s| == 0
    ensures Captured(s) == [] && FirstOf(Captured(s), n) == []
  {
  }

  lemma CapturedExtended<T>(s: seq<Observed<T>>, x: Observed<T>)
    ensures Captured(s + [x]) == if x.captured then Captured(s) + [x.content] else Captured(s)
  {
    assert (s + [x])[..|s|] == s;
  }

  lemma TailExtended<T>(s: seq<T>, x: T, k: nat)
    requires k <= |s|
    ensures (s + [x])[k..] == s[k..] + [x]
  {
  }

  lemma FirstOfExtended<T>(s: seq<T>, x: T, n: nat)
    ensures FirstOf(s + [x], n) == if |s| >= n then FirstOf(s, n) else FirstOf(s, n) + [x]
  {
  }

  lemma LastOfExtended<T>(s: seq<T>, x: T, n: nat)
    ensures LastOf(s + [x], n) == LastOf(LastOf(s, n) + [x], n)
  {
  }

  /** In a specified window the trigger decides the other parts, and completion is a full tail. */
  lemma SpecifiedShape<T>(s: seq<Observed<T>>, before: nat, after: nat)
    ensures var w := Specified(s, before, after);
      && |w.pre| <= before && |w.post| <= after
      && (w.trigger.Some? <==> exists i :: 0 <= i < |s| && s[i].triggers)
      && (w.trigger.None? ==> w.post == [] && !w.complete)
      && (w.trigger.Some? ==> (w.complete <==> |w.post| == after))
  {
    var t := FirstTrigger(s);
    if t < |s| {
      assert s[t].triggers;
    }
  }

  /** Once complete, a window is final: no later event changes it. */
  lemma {:induction false} CompleteIsFinal<T>(s: seq<Observed<T>>, more: seq<Observed<T>>, before: nat, after: nat)
    requires Specified(s, before, after).complete
    ensures Specified(s + more, before, after) == Specified(s, before, after)
  {
    if more == [] {
      assert s + more == s;
    } else {
      var n := |more| - 1;
      CompleteIsFinal(s, more[..n], before, after);
      assert s + more == (s + more[..n]) + [more[n]];
      StepKeepsSpecified(s + more[..n], more[n], before, after);
    }
  }
}
