/**
 The audit event store: insertions that keep the first writer, upserts that keep the last, and deletion by run.
 */
module AuditEvents {
  import opened Prelude
  import opened Texts

  /** A stored event; `detail` stands for its descriptive fields and `artifact` for its metadata. */
  datatype Event<A> = Event(id: string, kind: string, run: Option<string>, createdAt: int, detail: string, artifact: A)

  /** An event as it is handed in: its time is a text, None when it does not parse. */
  datatype Raw<A> = Raw(version: int, id: string, kind: string, run: string, createdAt: Option<int>, detail: string, artifact: A)

  datatype EventError = VersionUnsupported | IdRequired | KindRequired | DetailRequired | TimeInvalid

  type Table<A> = map<string, Event<A>>

  /** `_normalize_audit_event`: texts are stripped and must not be empty; an empty run reads as none. */
  function Normalize<A>(raw: Raw<A>): Result<Event<A>, EventError> {
    if raw.version != 1 then Err(VersionUnsupported)
    else if Strip(raw.id) == "" then Err(IdRequired)
    else if Strip(raw.kind) == "" then Err(KindRequired)
    else if Strip(raw.detail) == "" then Err(DetailRequired)
    else if raw.createdAt.None? then Err(TimeInvalid)
    else
      Ok(Event(Strip(raw.id), Strip(raw.kind), if Strip(raw.run) == "" then None else Some(Strip(raw.run)),
               raw.createdAt.value, Strip(raw.detail), raw.artifact))
  }

  function NormalizeAll<A>(raws: seq<Raw<A>>): Result<seq<Event<A>>, EventError> {
    if raws == [] then Ok([])
    else
      var earlier := NormalizeAll(raws[..|raws| - 1]);
      if earlier.Err? then earlier
      else
        var last := Normalize(raws[|raws| - 1]);
        if last.Err? then Err(last.error) else Ok(earlier.value + [last.value])
  }

  /** `insert … on conflict do nothing`. */
  function Inserted<A>(table: Table<A>, event: Event<A>): Table<A> {
    if event.id in table then table else table[event.id := event]
  }

  /** `insert … on conflict do update`, one event after the other. */
  function Upserted<A>(table: Table<A>, events: seq<Event<A>>): Table<A> {
    if events == [] then table
    else Upserted(table, events[..|events| - 1])[events[|events| - 1].id := events[|events| - 1]]
  }

  function WithoutRun<A>(table: Table<A>, run: string): Table<A> {
    if run == "" then table else map id | id in table && table[id].run != Some(run) :: table[id]
  }

  lemma {:induction false} OthersStay<A>(table: Table<A>, events: seq<Event<A>>, id: string)
    requires forall i :: 0 <= i < |events| ==> events[i].id != id
    ensures id in Upserted(table, events) <==> id in table
    ensures id in table ==> Upserted(table, events)[id] == table[id]
  {
    if events != [] {
      OthersStay(table, events[..|events| - 1], id);
    }
  }

  /** Under each id is the last of the events with that id; other ids keep what they had. */
  lemma {:induction false} LastEventWins<A>(table: Table<A>, events: seq<Event<A>>, i: nat)
    requires i < |events| && forall j :: i < j < |events| ==> events[j].id != events[i].id
    ensures events[i].id in Upserted(table, events) && Upserted(table, events)[events[i].id] == events[i]
    ensures forall id :: id in Upserted(table, events) && (forall j :: 0 <= j < |events| ==> events[j].id != id) ==>
              id in table && Upserted(table, events)[id] == table[id]
    decreases |events|
  {
    if i < |events| - 1 {
      LastEventWins(table, events[..|events| - 1], i);
      assert events[..|events| - 1][i] == events[i];
    }
    forall id | id in Upserted(table, events) && forall j :: 0 <= j < |events| ==> events[j].id != id
      ensures id in table && Upserted(table, events)[id] == table[id]
    {
      OthersStay(table, events, id);
    }
    hide Upserted;
  }

  class Store<A> {
    var table: Table<A>

    constructor ()
      ensures table == map[]
    {
      table := map[];
    }

    method Get(id: string) returns (found: Option<Event<A>>)
      ensures found == if Strip(id) != "" && Strip(id) in table then Some(table[Strip(id)]) else None
    {
      var key := Strip(id);
      found := if key != "" && key in table then Some(table[key]) else None;
    }

    /** `record_if_absent`: the stored event and whether this call stored it. */
    method RecordIfAbsent(raw: Raw<A>) returns (r: Result<(Event<A>, bool), EventError>)
      modifies this
      ensures r.Err? <==> Normalize(raw).Err?
      ensures r.Err? ==> r.error == Normalize(raw).error && table == old(table)
      ensures r.Ok? ==> var event := Normalize(raw).value;
                        && table == Inserted(old(table), event)
                        && r.value == (table[event.id], event.id !in old(table))
    {
      var candidate :- Normalize(raw);
      var created := candidate.id !in table;
      if created {
        table := table[candidate.id := candidate];
      }
      r := Ok((table[candidate.id], created));
    }

    /** `record_many`: every event is normalised before the first is written. */
    method RecordMany(raws: seq<Raw<A>>) returns (r: Result<seq<Event<A>>, EventError>)
      modifies this
      ensures r == NormalizeAll(raws)
      ensures table == if r.Ok? then Upserted(old(table), r.value) else old(table)
    {
      var stored: seq<Event<A>> := [];
      for i := 0 to |raws|
        invariant table == old(table) && NormalizeAll(raws[..i]) == Ok(stored)
      {
        assert raws[..i + 1][..i] == raws[..i];
        var event := Normalize(raws[i]);
        if event.Err? {
          ErrorStays(raws, i + 1);
          return Err(event.error);
        }
        stored := stored + [event.value];
      }
      assert raws[..|raws|] == raws;
      for i := 0 to |stored|
        invariant table == Upserted(old(table), stored[..i])
      {
        assert stored[..i + 1][..i] == stored[..i];
        table := table[stored[i].id := stored[i]];
      }
      assert stored[..|stored|] == stored;
      r := Ok(stored);
    }

    method DeleteByRun(run: string)
      modifies this
      ensures table == WithoutRun(old(table), Strip(run))
    {
      var key := Strip(run);
      if key != "" {
        table := map id | id in table && table[id].run != Some(key) :: table[id];
      }
    }
  }

  lemma {:induction false} ErrorStays<A>(raws: seq<Raw<A>>, n: nat)
    requires n <= |raws| && NormalizeAll(raws[..n]).Err?
    ensures NormalizeAll(raws) == NormalizeAll(raws[..n])
    decreases |raws|
  {
    if n == |raws| {
      assert raws[..n] == raws;
    } else {
      var shorter := raws[..|raws| - 1];
      assert shorter[..n] == raws[..n];
      ErrorStays(shorter, n);
    }
  }
}
