/**
 Many clients creating research evidence at once: each reads the store and, if its event is not there, builds an
 artifact on its own clock and inserts it if absent. All calls for one event id return one artifact.
 */
module EvidenceRuns {
  import opened Prelude
  import opened AuditEvents

  /** Where a call of `create_evidence` has got to; every phase carries its event id. */
  datatype Call<A> =
    | Building(id: string, event: Event<A>)
    | Returned(id: string, artifact: A, created: bool)

  datatype State<A> = State(table: Table<A>, calls: map<nat, Call<A>>)

  /**
   One atomic step: a call starts by reading the store (and builds its event if nothing is there), a building call
   inserts, or something else writes to the table.
   */
  datatype Step<A> =
    | Start(call: nat, event: Event<A>)
    | Insert(call: nat)
    | Record(events: seq<Event<A>>)
    | RecordAbsent(event: Event<A>)
    | Delete(run: string)

  function Next<A>(s: State<A>, step: Step<A>): State<A> {
    match step
    case Start(call, event) =>
      if call in s.calls then s
      else if event.id in s.table then s.(calls := s.calls[call := Returned(event.id, s.table[event.id].artifact, false)])
      else s.(calls := s.calls[call := Building(event.id, event)])
    case Insert(call) =>
      if call !in s.calls || !s.calls[call].Building? then s
      else
        var event := s.calls[call].event;
        var table := Inserted(s.table, event);
        State(table, s.calls[call := Returned(event.id, table[event.id].artifact, event.id !in s.table)])
    case Record(events) => s.(table := Upserted(s.table, events))
    case RecordAbsent(event) => s.(table := Inserted(s.table, event))
    case Delete(run) => s.(table := WithoutRun(s.table, run))
  }

  function Run<A>(s: State<A>, steps: seq<Step<A>>): State<A> {
    if steps == [] then s else Next(Run(s, steps[..|steps| - 1]), steps[|steps| - 1])
  }

  /** The last of the events with this id, the one an upsert leaves. */
  function LastWritten<A>(events: seq<Event<A>>, id: string): Option<Event<A>> {
    if events == [] then None
    else if events[|events| - 1].id == id then Some(events[|events| - 1])
    else LastWritten(events[..|events| - 1], id)
  }

  /**
   A write from outside a call leaves the stored artifact alone: it does not touch the event, or finds it stored and
   writes the very artifact again; and it does not delete it.
   */
  predicate Keeps<A(==)>(s: State<A>, step: Step<A>, id: string) {
    match step
    case Start(_, _) => true
    case Insert(_) => true
    case Record(events) =>
      var last := LastWritten(events, id);
      last.Some? ==> id in s.table && s.table[id].artifact == last.value.artifact
    case RecordAbsent(event) => event.id == id ==> id in s.table
    case Delete(run) => run != "" && id in s.table ==> s.table[id].run != Some(run)
  }

  predicate AllKeep<A(==)>(s: State<A>, steps: seq<Step<A>>, id: string) {
    steps == [] || (AllKeep(s, steps[..|steps| - 1], id) && Keeps(Run(s, steps[..|steps| - 1]), steps[|steps| - 1], id))
  }

  function Creators<A>(s: State<A>, id: string): set<nat> {
    set call | call in s.calls && s.calls[call].Returned? && s.calls[call].id == id && s.calls[call].created
  }

  /** Building calls hold an event of their id; every returned artifact is the stored one; one creator per stored event. */
  ghost predicate Agreed<A>(s: State<A>, id: string) {
    && (forall call :: call in s.calls && s.calls[call].Building? ==> s.calls[call].event.id == s.calls[call].id)
    && (forall call :: call in s.calls && s.calls[call].Returned? && s.calls[call].id == id ==>
          id in s.table && s.calls[call].artifact == s.table[id].artifact)
    && (if id in s.table then exists call :: Creators(s, id) == {call} else Creators(s, id) == {})
  }

  lemma {:induction false} UpsertedLast<A>(table: Table<A>, events: seq<Event<A>>, id: string)
    ensures var last := LastWritten(events, id);
            if last.Some? then id in Upserted(table, events) && Upserted(table, events)[id] == last.value
            else (id in Upserted(table, events) <==> id in table) && (id in table ==> Upserted(table, events)[id] == table[id])
  {
    if events != [] {
      UpsertedLast(table, events[..|events| - 1], id);
    }
  }

  /** With the same calls, what is agreed depends on the stored artifact alone, and is lost with it. */
  lemma OnlyTheArtifact<A>(s: State<A>, t: State<A>, id: string)
    requires Agreed(s, id) && t.calls == s.calls
    ensures Agreed(t, id)
       <==> (id in t.table <==> id in s.table) && (id in s.table ==> t.table[id].artifact == s.table[id].artifact)
  {
    assert Creators(t, id) == Creators(s, id);
    if id in s.table {
      var call :| Creators(s, id) == {call};
      assert call in Creators(s, id);
    }
  }

  lemma StartAgrees<A>(s: State<A>, call: nat, event: Event<A>, id: string)
    requires Agreed(s, id)
    ensures Agreed(Next(s, Start(call, event)), id)
  {
    if call !in s.calls {
      assert Creators(Next(s, Start(call, event)), id) == Creators(s, id);
    }
  }

  /** The first call to insert becomes the creator; later ones return what it stored. */
  lemma InsertAgrees<A>(s: State<A>, call: nat, id: string)
    requires Agreed(s, id)
    ensures Agreed(Next(s, Insert(call)), id)
  {
    if call in s.calls && s.calls[call].Building? {
      var created := s.calls[call].event.id == id && id !in s.table;
      assert Creators(Next(s, Insert(call)), id) == if created then {call} else Creators(s, id);
    }
  }

  /** A step keeps the agreement exactly when it leaves the stored artifact alone. */
  lemma StepAgreesExactly<A>(s: State<A>, step: Step<A>, id: string)
    requires Agreed(s, id)
    ensures Agreed(Next(s, step), id) <==> Keeps(s, step, id)
  {
    hide Agreed;
    match step
    case Start(call, event) =>
      StartAgrees(s, call, event, id);
    case Insert(call) =>
      InsertAgrees(s, call, id);
    case Record(events) =>
      UpsertedLast(s.table, events, id);
      OnlyTheArtifact(s, Next(s, step), id);
    case RecordAbsent(event) =>
      OnlyTheArtifact(s, Next(s, step), id);
    case Delete(run) =>
      OnlyTheArtifact(s, Next(s, step), id);
  }

  /** Agreed after every step of the run. */
  ghost predicate AlwaysAgreed<A>(s: State<A>, steps: seq<Step<A>>, id: string) {
    forall k :: 0 <= k <= |steps| ==> Agreed(Run(s, steps[..k]), id)
  }

  lemma {:induction false} RunAgreesExactly<A>(s: State<A>, steps: seq<Step<A>>, id: string)
    requires Agreed(s, id)
    ensures AlwaysAgreed(s, steps, id) <==> AllKeep(s, steps, id)
  {
    hide Agreed, Keeps;
    if steps == [] {
      assert steps[..0] == [];
    } else {
      var n := |steps| - 1;
      RunAgreesExactly(s, steps[..n], id);
      assert forall k :: 0 <= k <= n ==> steps[..n][..k] == steps[..k];
      assert steps[..n + 1] == steps;
      if AllKeep(s, steps[..n], id) {
        assert steps[..n][..n] == steps[..n];
        StepAgreesExactly(Run(s, steps[..n]), steps[n], id);
      }
    }
  }

  /**
   First writer wins: from a state where the event is absent and no call has started, an interleaving has at every
   moment all its returned calls with the stored artifact, and exactly one of them as its creator once it is stored,
   exactly when every write from outside leaves the artifact alone.
   */
  lemma FirstWriterWins<A>(s: State<A>, steps: seq<Step<A>>, id: string)
    requires s.calls == map[] && id !in s.table
    ensures AlwaysAgreed(s, steps, id) <==> AllKeep(s, steps, id)
  {
    assert Creators(s, id) == {};
    RunAgreesExactly(s, steps, id);
  }

  /** Two calls for the same event that have both returned hold the same artifact, whichever clocks they used. */
  lemma ReturnsAgree<A>(s: State<A>, steps: seq<Step<A>>, id: string, first: nat, second: nat)
    requires s.calls == map[] && id !in s.table && AllKeep(s, steps, id)
    ensures var t := Run(s, steps);
            first in t.calls && second in t.calls && t.calls[first].Returned? && t.calls[second].Returned?
            && t.calls[first].id == id && t.calls[second].id == id ==>
              && t.calls[first].artifact == t.calls[second].artifact
              && !(t.calls[first].created && t.calls[second].created && first != second)
  {
    FirstWriterWins(s, steps, id);
    assert steps[..|steps|] == steps;
    var t := Run(s, steps);
    assert first in t.calls && t.calls[first].Returned? && t.calls[first].id == id && t.calls[first].created ==> first in Creators(t, id);
    assert second in t.calls && t.calls[second].Returned? && t.calls[second].id == id && t.calls[second].created ==> second in Creators(t, id);
    hide Run, AllKeep;
  }

  lemma RunThen<A>(s: State<A>, steps: seq<Step<A>>, step: Step<A>)
    ensures Run(s, steps + [step]) == Next(Run(s, steps), step)
  {
  }

  /** An upsert in between breaks it: a call that read before and one that reads after return different artifacts. */
  lemma UpsertBreaksAgreement(first: Event<int>, second: Event<int>)
    requires first.id == second.id && first.artifact != second.artifact
    ensures var steps := [Start(0, first), Insert(0), Record([second]), Start(1, first)];
            var t := Run(State(map[], map[]), steps);
            && 0 in t.calls && t.calls[0] == Returned(first.id, first.artifact, true)
            && 1 in t.calls && t.calls[1] == Returned(first.id, second.artifact, false)
  {
    var s: State<int> := State(map[], map[]);
    RunThen(s, [], Start(0, first));
    RunThen(s, [Start(0, first)], Insert(0));
    RunThen(s, [Start(0, first), Insert(0)], Record([second]));
    RunThen(s, [Start(0, first), Insert(0), Record([second])], Start(1, first));
    assert [] + [Start(0, first)] == [Start(0, first)];
    assert [Start(0, first)] + [Insert(0)] == [Start(0, first), Insert(0)];
    assert [Start(0, first), Insert(0)] + [Record([second])] == [Start(0, first), Insert(0), Record([second])];
    assert [Start(0, first), Insert(0), Record([second])] + [Start(1, first)] == [Start(0, first), Insert(0), Record([second]), Start(1, first)];
    assert [second][..0] == [];
  }
}
