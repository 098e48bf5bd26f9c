/**
 The protocol-mapper diff of one scope: which mappers go, which stay, and why afterwards the scope matches.
 */
module KeycloakMappers {
  import opened Prelude
  import opened Keycloak

  /** Everything but the named scope is the same, and ids are only ever handed out. */
  ghost predicate OnlyScope(before: Realm, after: Realm, name: string) {
    && after == before.(scopes := after.scopes, nextId := after.nextId)
    && before.nextId <= after.nextId
    && after.scopes.Keys == before.scopes.Keys && name in after.scopes
    && forall other :: other in before.scopes && other != name ==> after.scopes[other] == before.scopes[other]
  }

  predicate FreshIds(mappers: map<nat, Object>, bound: nat) {
    forall id :: id in mappers ==> id < bound
  }

  /** Only the named scope's mappers changed, and their ids stay below the next one. */
  ghost predicate OnlyMappers(before: Realm, after: Realm, name: string) {
    && OnlyScope(before, after, name) && name in before.scopes
    && after.scopes[name].core == before.scopes[name].core
    && (FreshIds(before.scopes[name].mappers, before.nextId) ==> FreshIds(after.scopes[name].mappers, after.nextId))
  }

  lemma OnlyMappersTwice(before: Realm, middle: Realm, after: Realm, name: string)
    requires OnlyMappers(before, middle, name) && OnlyMappers(middle, after, name)
    ensures OnlyMappers(before, after, name)
  {
  }

  predicate DesiredNamed(desired: map<string, Object>) {
    forall mapper :: mapper in desired ==> Get(desired[mapper], "name") == Text(mapper)
  }

  predicate MappersMatch(mappers: map<nat, Object>, desired: map<string, Object>) {
    ScopeMatches(Scope(map[], mappers), DesiredScope(map[], desired))
  }

  /** Mappers that already match keep their ids. */
  ghost predicate MatchedStay(current: map<nat, Object>, now: map<nat, Object>, desired: map<string, Object>)
    requires NamesUnique(current)
  {
    forall id :: id in current && NameOf(current[id]) in desired && MapperMatches(current[id], desired[NameOf(current[id])]) ==>
      id in now && now[id] == current[id]
  }

  /** `current_by_name`: the ids of uniquely named mappers, by name. */
  function ByName(mappers: map<nat, Object>): map<string, nat>
    requires NamesUnique(mappers)
  {
    map id | id in mappers :: NameOf(mappers[id]) := id
  }

  ghost predicate Indexed(mappers: map<nat, Object>, index: map<string, nat>) {
    && (forall id :: id in mappers ==> Named(mappers[id]) && NameOf(mappers[id]) in index && index[NameOf(mappers[id])] == id)
    && (forall name :: name in index ==> index[name] in mappers && Get(mappers[index[name]], "name") == Text(name))
  }

  lemma ByNameIndexes(mappers: map<nat, Object>)
    requires NamesUnique(mappers)
    ensures Indexed(mappers, ByName(mappers)) && ByName(mappers).Keys == MapperNames(mappers)
  {
  }

  function At(mappers: map<nat, Object>, index: map<string, nat>, name: string): Option<Object> {
    if name in index && index[name] in mappers then Some(mappers[index[name]]) else None
  }

  /** One desired name: matching if it is done, otherwise as it was; what matched from the start is never rewritten. */
  predicate Place(was: Option<Object>, now: Option<Object>, wanted: Object, done: bool) {
    && (done ==> now.Some? && MapperMatches(now.value, wanted))
    && (!done ==> now == was)
    && (was.Some? && MapperMatches(was.value, wanted) ==> now == was)
  }

  /** Placing the desired mappers with `todo` still to do. A name that had a mapper keeps its id. */
  ghost predicate Placing(current: map<nat, Object>, was: map<string, nat>, now: map<nat, Object>, index: map<string, nat>,
                          desired: map<string, Object>, todo: set<string>) {
    && Indexed(current, was) && Indexed(now, index) && index.Keys <= desired.Keys
    && (forall name :: name in was ==> name in index && index[name] == was[name])
    && (forall name :: name in desired ==>
          Place(At(current, was, name), At(now, index, name), desired[name], name !in todo))
  }

  lemma StartPlacing(current: map<nat, Object>, desired: map<string, Object>)
    requires NamesUnique(current) && MapperNames(current) <= desired.Keys
    ensures Placing(current, ByName(current), current, ByName(current), desired, desired.Keys)
  {
  }

  /** A name still to do reads as it did at the start; if it has no matching mapper the scope does not match. */
  lemma NextToPlace(current: map<nat, Object>, now: map<nat, Object>, index: map<string, nat>,
                    desired: map<string, Object>, todo: set<string>, name: string)
    requires NamesUnique(current) && Placing(current, ByName(current), now, index, desired, todo)
    requires name in todo && name in desired
    ensures var was := ByName(current);
            && MapperMatches(desired[name], desired[name])
            && (name in was ==>
                  && was[name] in current && was[name] in now && Get(current[was[name]], "name") == Text(name)
                  && now[was[name]] == current[was[name]])
            && (MappersMatch(current, desired) ==> name in was && MapperMatches(current[was[name]], desired[name]))
  {
    var was := ByName(current);
    ByNameIndexes(current);
    assert MapperMatches(desired[name], desired[name]);
    hide MapperMatches;
    assert Place(At(current, was, name), At(now, index, name), desired[name], false);
  }

  lemma IndexOne(mappers: map<nat, Object>, index: map<string, nat>, name: string, id: nat, value: Object)
    requires Indexed(mappers, index) && Get(value, "name") == Text(name)
    requires if name in index then id == index[name] else id !in mappers
    ensures Indexed(mappers[id := value], index[name := id])
  {
  }

  /** Writing one name's mapper is seen under that name and no other. */
  lemma AtAfter(mappers: map<nat, Object>, index: map<string, nat>, name: string, id: nat, value: Object, other: string)
    requires Indexed(mappers, index)
    requires if name in index then id == index[name] else id !in mappers
    ensures At(mappers[id := value], index[name := id], other) == if other == name then Some(value) else At(mappers, index, other)
  {
  }

  lemma AtId(mappers: map<nat, Object>, index: map<string, nat>, id: nat)
    requires Indexed(mappers, index) && id in mappers
    ensures Named(mappers[id]) && NameOf(mappers[id]) in index && index[NameOf(mappers[id])] == id
    ensures At(mappers, index, NameOf(mappers[id])) == Some(mappers[id])
  {
  }

  lemma StillThere(current: map<nat, Object>, was: map<string, nat>, now: map<nat, Object>, index: map<string, nat>,
                   desired: map<string, Object>, todo: set<string>, name: string)
    requires Placing(current, was, now, index, desired, todo)
    requires name in todo && name in desired
    ensures At(now, index, name) == At(current, was, name) && (name in index <==> name in was)
  {
  }

  lemma PlaceOne(current: map<nat, Object>, was: map<string, nat>, now: map<nat, Object>, index: map<string, nat>,
                 desired: map<string, Object>, todo: set<string>, name: string, id: nat, value: Object)
    requires Placing(current, was, now, index, desired, todo) && name in todo && name in desired
    requires if name in was then id == was[name] else id !in now
    requires Get(value, "name") == Text(name) && Place(At(current, was, name), Some(value), desired[name], true)
    ensures Placing(current, was, now[id := value], index[name := id], desired, todo - {name})
  {
    hide Place, At, Indexed, Get;
    StillThere(current, was, now, index, desired, todo, name);
    IndexOne(now, index, name, id, value);
    forall other | other in desired
      ensures Place(At(current, was, other), At(now[id := value], index[name := id], other), desired[other], other !in todo - {name})
    {
      AtAfter(now, index, name, id, value, other);
    }
  }

  /** Once every name is done the scope's mappers match. */
  lemma PlacedAll(current: map<nat, Object>, was: map<string, nat>, now: map<nat, Object>, index: map<string, nat>,
                  desired: map<string, Object>)
    requires Placing(current, was, now, index, desired, {})
    ensures MappersMatch(now, desired)
  {
  }

  lemma MatchedStays(current: map<nat, Object>, was: map<string, nat>, now: map<nat, Object>, index: map<string, nat>,
                     desired: map<string, Object>, id: nat)
    requires Placing(current, was, now, index, desired, {}) && id in current
    requires Named(current[id]) && NameOf(current[id]) in desired && MapperMatches(current[id], desired[NameOf(current[id])])
    ensures id in now && now[id] == current[id]
  {
    hide MapperMatches, Indexed, NameOf, Named, Get;
    AtId(current, was, id);
    var name := NameOf(current[id]);
    assert Place(At(current, was, name), At(now, index, name), desired[name], true);
  }

  lemma AllMatchedStay(current: map<nat, Object>, was: map<string, nat>, now: map<nat, Object>, index: map<string, nat>,
                       desired: map<string, Object>)
    requires Placing(current, was, now, index, desired, {}) && NamesUnique(current)
    ensures MatchedStay(current, now, desired)
  {
    hide MapperMatches, Placing, NameOf, Get;
    forall id | id in current && NameOf(current[id]) in desired && MapperMatches(current[id], desired[NameOf(current[id])])
      ensures id in now && now[id] == current[id]
    {
      MatchedStays(current, was, now, index, desired, id);
    }
  }

  /** Deleting the mappers with undesired names leaves uniquely named ones, all desired. */
  lemma KeepNamed(current: map<nat, Object>, gone: set<nat>, desired: map<string, Object>)
    requires NamesUnique(current)
    requires gone == set id | id in current && NameOf(current[id]) !in desired
    ensures NamesUnique(current - gone) && MapperNames(current - gone) <= desired.Keys
    ensures MappersMatch(current, desired) ==> gone == {} && current - gone == current
  {
  }

  lemma KeepMatched(current: map<nat, Object>, gone: set<nat>, now: map<nat, Object>, desired: map<string, Object>)
    requires NamesUnique(current) && NamesUnique(current - gone) && MatchedStay(current - gone, now, desired)
    requires gone == set id | id in current && NameOf(current[id]) !in desired
    ensures MatchedStay(current, now, desired)
  {
  }
}
