/** When a rule run gets through: exactly when no evaluated bar comes to a condition that cannot be evaluated. */
module RuleRuns {
  import opened Prelude
  import opened Market
  import opened Indicators
  import opened RuleBacktest
  import opened RuleSignals

  /** A supported condition with a positive window. */
  predicate Formed(c: Condition) {
    c.kind != OtherKind && c.window > 0
  }

  /** Evaluation comes to a condition that is not formed, every one before it being met. */
  ghost predicate Stuck(cs: seq<Condition>, bars: seq<Bar>, i: nat)
    requires i < |bars|
  {
    exists j :: 0 <= j < |cs| && !Formed(cs[j]) && forall m :: 0 <= m < j ==> Holds(cs[m], bars, i)
  }

  /** Of a flat book the entry conditions are asked; of an open one the exit conditions, if no threshold is crossed. */
  ghost predicate BarStuck(s: Strategy, b: Book, bars: seq<Bar>, i: nat)
    requires i < |bars|
  {
    if b.quantity <= 0.0 then Stuck(s.entry, bars, i)
    else
      && !StopHit(s, b.entryPrice, bars[i].close) && !TargetHit(s, b.entryPrice, bars[i].close) && Stuck(s.exit, bars, i)
  }

  lemma ConditionFails(c: Condition, bars: seq<Bar>, i: nat)
    requires i < |bars|
    ensures ConditionMet(c, Closes(bars), Volumes(bars), i).Err? <==> !Formed(c)
  {
    SmaMeans(Closes(bars), c.window, i, 0.0);
    SmaMeans(Volumes(bars), c.window, i, 0.0);
    RsiMeans(Closes(bars), c.window, i, 0.0);
    hide Sma, Rsi, Closes, Volumes;
  }

  lemma {:induction false} AllFail(cs: seq<Condition>, bars: seq<Bar>, i: nat)
    requires i < |bars|
    ensures AllMet(cs, Closes(bars), Volumes(bars), i).Err? <==> Stuck(cs, bars, i)
  {
    hide ConditionMet, Holds, Formed, Closes, Volumes;
    if cs != [] {
      ConditionMeans(cs[0], bars, i);
      ConditionFails(cs[0], bars, i);
      AllFail(cs[1..], bars, i);
      StuckBehind(cs, bars, i);
    }
    hide Stuck;
  }

  lemma StuckBehind(cs: seq<Condition>, bars: seq<Bar>, i: nat)
    requires i < |bars| && cs != []
    ensures Stuck(cs, bars, i) <==> !Formed(cs[0]) || (Holds(cs[0], bars, i) && Stuck(cs[1..], bars, i))
  {
    hide Holds, Formed;
    var rest := cs[1..];
    assert forall m :: 0 <= m < |rest| ==> rest[m] == cs[m + 1];
    if Holds(cs[0], bars, i) && Stuck(rest, bars, i) {
      var j :| 0 <= j < |rest| && !Formed(rest[j]) && forall m :: 0 <= m < j ==> Holds(rest[m], bars, i);
      forall m | 0 <= m < j + 1 ensures Holds(cs[m], bars, i) {
        assert m > 0 ==> cs[m] == rest[m - 1];
      }
      assert !Formed(cs[j + 1]);
    }
    if Stuck(cs, bars, i) && Formed(cs[0]) {
      var j :| 0 <= j < |cs| && !Formed(cs[j]) && forall m :: 0 <= m < j ==> Holds(cs[m], bars, i);
      assert Holds(cs[0], bars, i) && !Formed(rest[j - 1]);
    }
  }

  lemma ConditionsFail(cs: seq<Condition>, bars: seq<Bar>, i: nat)
    requires i < |bars|
    ensures ConditionsMet(cs, Closes(bars), Volumes(bars), i).Err? <==> Stuck(cs, bars, i)
  {
    AllFail(cs, bars, i);
    hide AllMet, Closes, Volumes, Formed, Holds;
  }

  lemma StepFails(e: Engine, s: Strategy, bars: seq<Bar>, i: nat, st: RuleState)
    requires i < |bars| && st.book.quantity >= 0.0
    ensures RuleStep(e, s, bars, i, st).Err? <==> BarStuck(s, st.book, bars, i)
  {
    ConditionsFail(s.entry, bars, i);
    ConditionsFail(s.exit, bars, i);
    assert Closes(bars)[i] == bars[i].close;
    hide ConditionsMet, Stuck, Closes, Volumes, Execute, Marked;
  }

  /** The loop has reached this bar and cannot go on. */
  ghost predicate StopsAt(e: Engine, s: Strategy, bars: seq<Bar>, start: nat, i: nat) {
    && start <= i < |bars| && RuleLoop(e, s, bars, start, i).Ok?
    && BarStuck(s, RuleLoop(e, s, bars, start, i).value.book, bars, i)
  }

  lemma {:induction false} LoopGoesThrough(e: Engine, s: Strategy, bars: seq<Bar>, start: nat, k: nat)
    requires k <= |bars|
    ensures RuleLoop(e, s, bars, start, k).Ok? <==> forall i: nat :: i < k ==> !StopsAt(e, s, bars, start, i)
  {
    hide RuleStep, BarStuck;
    if k > 0 {
      LoopGoesThrough(e, s, bars, start, k - 1);
      if RuleLoop(e, s, bars, start, k - 1).Ok? && k - 1 >= start {
        var st := RuleLoop(e, s, bars, start, k - 1).value;
        LoopBalanced(e, s, bars, start, k - 1);
        BalancedQuantity(e.initialCash, st.book);
        StepFails(e, s, bars, k - 1, st);
        assert StopsAt(e, s, bars, start, k - 1) <==> RuleStep(e, s, bars, k - 1, st).Err?;
      }
      hide Balanced, StopsAt;
    }
  }

  lemma FormedIsNeverStuck(cs: seq<Condition>, bars: seq<Bar>, i: nat)
    requires i < |bars| && forall c :: c in cs ==> Formed(c)
    ensures !Stuck(cs, bars, i)
  {
  }

  /**
   A run gets through exactly when there are bars, it starts at one of them, and it never comes to a condition that is not
   formed. With well-formed conditions only the bars and the start matter.
   */
  lemma RunsExactly(e: Engine, s: Strategy, bars: seq<Bar>, start: int)
    ensures RunRules(e, s, bars, start).Ok? <==>
              0 <= start < |bars| && forall i: nat :: i < |bars| ==> !StopsAt(e, s, SortBars(bars), start, i)
    ensures (forall c :: c in s.entry + s.exit ==> Formed(c)) ==> (RunRules(e, s, bars, start).Ok? <==> 0 <= start < |bars|)
    ensures bars == [] ==> RunRules(e, s, bars, start) == Err(NoBars)
    ensures bars != [] && !(0 <= start < |bars|) ==> RunRules(e, s, bars, start) == Err(InvalidStart)
  {
    var ordered := SortBars(bars);
    SortBarsSorts(bars);
    hide SortBars, RuleLoop, Liquidated, Formed, Stuck, StopHit, TargetHit, InOrder;
    if 0 <= start < |bars| {
      LoopGoesThrough(e, s, ordered, start, |ordered|);
      if forall c :: c in s.entry + s.exit ==> Formed(c) {
        forall i: nat | i < |bars| ensures !StopsAt(e, s, ordered, start, i) {
          FormedIsNeverStuck(s.entry, ordered, i);
          FormedIsNeverStuck(s.exit, ordered, i);
        }
      }
      hide StopsAt, BarStuck;
    }
  }
}
