/**
 What a readable, a synchronised and a settled server store, said of the stored values alone: each predicate the
 reconciler decides by is characterised by the keys and values of the representations it looks at.
 */
module KeycloakValues {
  import opened Prelude
  import opened Keycloak
  import opened KeycloakMappers
  import opened KeycloakWrites

  // ---------------------------------------------------------------- representations

  /** The value stored under a key. A null may be stored or left out. */
  predicate ValueIs(stored: Object, key: string, value: Json) {
    if key in stored then stored[key] == value else value == Null
  }

  predicate ValuesAre(stored: Object, desired: Object) {
    forall key :: key in desired ==> ValueIs(stored, key, desired[key])
  }

  /** A client's fields are as desired, and its attributes include the desired ones. */
  predicate ClientIs(stored: Object, desired: Object) {
    && ValuesAre(stored, desired - {"attributes"})
    && ("attributes" in desired ==>
          && "attributes" in stored && stored["attributes"].Obj? && desired["attributes"].Obj?
          && ValuesAre(stored["attributes"].fields, desired["attributes"].fields))
  }

  /** As stored values, except that any stored secret will do, since it cannot be read back. */
  predicate ReadableIs(stored: Object, desired: Object, part: string, secret: string) {
    && ValuesAre(stored, desired - {part})
    && (part in desired ==>
          && part in stored && stored[part].Obj? && desired[part].Obj?
          && ValuesAre(stored[part].fields, desired[part].fields - {secret})
          && (secret in desired[part].fields ==> secret in stored[part].fields))
  }

  /** Every desired value is there; inside one part, every desired value of that part. */
  predicate Included(stored: Object, desired: Object, part: string) {
    && (forall key :: key in desired && key != part ==> key in stored && stored[key] == desired[key])
    && (part in desired ==>
          && part in stored && stored[part].Obj? && desired[part].Obj?
          && forall key :: key in desired[part].fields ==>
               key in stored[part].fields && stored[part].fields[key] == desired[part].fields[key])
  }

  lemma ClientMeans(stored: Object, desired: Object)
    ensures ClientMatches(stored, desired) <==> ClientIs(stored, desired)
  {
    if ClientMatches(stored, desired) {
      forall key | key in desired - {"attributes"} ensures ValueIs(stored, key, (desired - {"attributes"})[key]) {
        assert Get(stored, key) == desired[key];
      }
    }
    if ClientIs(stored, desired) {
      forall key | key in desired && key != "attributes" ensures Get(stored, key) == desired[key] {
        assert ValueIs(stored, key, (desired - {"attributes"})[key]);
      }
    }
  }

  lemma HeldMeans(stored: Object, desired: Object, part: string)
    ensures Holds(stored, desired, part) <==> Included(stored, desired, part)
  {
  }

  lemma ReadableMeans(stored: Object, desired: Object, part: string, secret: string)
    requires part in desired && desired[part].Obj? && IsSecret(Get(desired[part].fields, secret))
    ensures FieldsMatch(Masked(stored, part, secret), desired, part, secret) <==> ReadableIs(stored, desired, part, secret)
  {
    var shown := Masked(stored, part, secret);
    if FieldsMatch(shown, desired, part, secret) {
      forall key | key in desired - {part} ensures ValueIs(stored, key, (desired - {part})[key]) {
        assert Get(shown, key) == desired[key];
      }
      forall key | key in desired[part].fields - {secret}
        ensures ValueIs(stored[part].fields, key, (desired[part].fields - {secret})[key])
      {
        assert Get(shown[part].fields, key) == desired[part].fields[key];
      }
    }
    if ReadableIs(stored, desired, part, secret) {
      forall key | key in desired && key != part ensures Get(shown, key) == desired[key] {
        assert ValueIs(stored, key, (desired - {part})[key]);
      }
      forall key | key in desired[part].fields && key != secret
        ensures Get(shown[part].fields, key) == desired[part].fields[key]
      {
        assert ValueIs(stored[part].fields, key, (desired[part].fields - {secret})[key]);
      }
    }
  }

  // ---------------------------------------------------------------- protocol mappers

  /** A representation without its null values. */
  function Stated(o: Object): Object {
    map key | key in o && o[key] != Null :: o[key]
  }

  predicate WithoutNulls(o: Object) {
    forall key :: key in o ==> o[key] != Null
  }

  /** Apart from its id a mapper has the desired values and no further key. */
  predicate MapperIs(stored: Object, desired: Object) {
    && Stated(stored - {"id"}) == Stated(desired - {"id"})
    && (forall key :: key in stored ==> key in desired || key == "id")
  }

  lemma MapperMeans(stored: Object, desired: Object)
    ensures MapperMatches(stored, desired) <==> MapperIs(stored, desired)
    ensures WithoutNulls(desired) ==> (MapperIs(stored, desired) <==> stored - {"id"} == desired - {"id"})
  {
    if MapperMatches(stored, desired) {
      MatchingMapper(stored, desired);
    }
    if MapperIs(stored, desired) {
      MapperOf(stored, desired);
    }
    if WithoutNulls(desired) {
      PlainMapper(stored, desired);
    }
  }

  lemma MatchingMapper(stored: Object, desired: Object)
    requires MapperMatches(stored, desired)
    ensures MapperIs(stored, desired)
  {
    var left, right := Stated(stored - {"id"}), Stated(desired - {"id"});
    forall key | key in left || key in right ensures key in left && key in right && left[key] == right[key] {
      assert key in desired && key != "id" && Get(stored, key) == desired[key];
    }
    assert left == right;
  }

  lemma MapperOf(stored: Object, desired: Object)
    requires MapperIs(stored, desired)
    ensures MapperMatches(stored, desired)
  {
    var left, right := Stated(stored - {"id"}), Stated(desired - {"id"});
    forall key | key in desired && key != "id" ensures Get(stored, key) == desired[key] {
      assert key in left <==> key in stored && stored[key] != Null;
      assert key in right <==> desired[key] != Null;
      assert key in left ==> left[key] == right[key];
    }
  }

  lemma PlainMapper(stored: Object, desired: Object)
    requires WithoutNulls(desired)
    ensures MapperIs(stored, desired) <==> stored - {"id"} == desired - {"id"}
  {
    var own, wanted := stored - {"id"}, desired - {"id"};
    assert Stated(wanted) == wanted;
    if MapperIs(stored, desired) {
      assert own.Keys <= wanted.Keys == Stated(own).Keys;
      assert Stated(own) == own;
    }
    if own == wanted {
      forall key | key in stored && key != "id" ensures key in desired {
        assert key in own;
      }
    }
  }

  /** Every mapper has a name of its own. */
  predicate NamedApart(mappers: map<nat, Object>) {
    && (forall id :: id in mappers ==> "name" in mappers[id] && mappers[id]["name"].Text?)
    && (forall i, j :: i in mappers && j in mappers && mappers[i]["name"] == mappers[j]["name"] ==> i == j)
  }

  lemma NamesMean(mappers: map<nat, Object>)
    ensures NamesUnique(mappers) <==> NamedApart(mappers)
  {
    if NamedApart(mappers) {
      forall i, j | i in mappers && j in mappers && i != j ensures NameOf(mappers[i]) != NameOf(mappers[j]) {
        assert mappers[i]["name"] != mappers[j]["name"];
      }
    }
    if NamesUnique(mappers) {
      forall i, j | i in mappers && j in mappers && i != j ensures mappers[i]["name"] != mappers[j]["name"] {
        assert NameOf(mappers[i]) != NameOf(mappers[j]);
      }
    }
  }

  /** The mappers of a scope by name, each without its id. */
  function Keyed(mappers: map<nat, Object>): map<string, Object>
    requires NamedApart(mappers)
  {
    map id | id in mappers :: mappers[id]["name"].text := mappers[id] - {"id"}
  }

  /** The mappers of a scope are the desired ones, no more and no less. */
  ghost predicate MappersAre(mappers: map<nat, Object>, desired: map<string, Object>) {
    && NamedApart(mappers) && Keyed(mappers).Keys == desired.Keys
    && (forall name :: name in desired ==> MapperIs(Keyed(mappers)[name], desired[name]))
  }

  lemma KeyedAt(mappers: map<nat, Object>, id: nat)
    requires NamedApart(mappers) && id in mappers
    ensures NameOf(mappers[id]) in Keyed(mappers) && Keyed(mappers)[NameOf(mappers[id])] == mappers[id] - {"id"}
  {
    assert NameOf(mappers[id]) == mappers[id]["name"].text;
  }

  lemma WithoutId(stored: Object, desired: Object)
    ensures MapperIs(stored - {"id"}, desired) <==> MapperIs(stored, desired)
  {
    assert stored - {"id"} - {"id"} == stored - {"id"};
  }

  lemma MappersMean(mappers: map<nat, Object>, desired: map<string, Object>)
    ensures MappersMatch(mappers, desired) <==> MappersAre(mappers, desired)
  {
    NamesMean(mappers);
    if NamedApart(mappers) {
      assert Keyed(mappers).Keys == MapperNames(mappers) by {
        forall id | id in mappers ensures NameOf(mappers[id]) in Keyed(mappers) {
          KeyedAt(mappers, id);
        }
      }
      hide MapperIs, MapperMatches, NamesUnique, NamedApart, Keyed, NameOf;
      forall id | id in mappers && NameOf(mappers[id]) in desired
        ensures NameOf(mappers[id]) in Keyed(mappers)
        ensures MapperMatches(mappers[id], desired[NameOf(mappers[id])]) <==>
                MapperIs(Keyed(mappers)[NameOf(mappers[id])], desired[NameOf(mappers[id])])
      {
        KeyedAt(mappers, id);
        MapperMeans(mappers[id], desired[NameOf(mappers[id])]);
        WithoutId(mappers[id], desired[NameOf(mappers[id])]);
      }
    }
  }

  /** No desired mapper has an id or a null value. */
  predicate Plain(desired: map<string, Object>) {
    forall name :: name in desired ==> WithoutNulls(desired[name]) && "id" !in desired[name]
  }

  lemma PlainMapperAt(mappers: map<nat, Object>, desired: map<string, Object>, name: string)
    requires NamedApart(mappers) && Plain(desired) && name in Keyed(mappers) && name in desired
    ensures MapperIs(Keyed(mappers)[name], desired[name]) <==> Keyed(mappers)[name] == desired[name]
  {
    var mapper := Keyed(mappers)[name];
    assert mapper - {"id"} == mapper by {
      assert exists id: nat :: id in mappers && mapper == mappers[id] - {"id"};
    }
    MapperMeans(mapper, desired[name]);
    assert desired[name] - {"id"} == desired[name];
  }

  /** Without null values that is plain equality. */
  lemma PlainMappers(mappers: map<nat, Object>, desired: map<string, Object>)
    requires Plain(desired)
    ensures MappersAre(mappers, desired) <==> NamedApart(mappers) && Keyed(mappers) == desired
  {
    if NamedApart(mappers) && Keyed(mappers).Keys == desired.Keys {
      forall name | name in desired ensures MapperIs(Keyed(mappers)[name], desired[name]) <==> Keyed(mappers)[name] == desired[name] {
        PlainMapperAt(mappers, desired, name);
      }
      hide MapperIs, NamedApart, Keyed, Plain;
    }
  }

  /** Mappers stored as desired keep their ids. */
  ghost predicate StoredStay(current: map<nat, Object>, now: map<nat, Object>, desired: map<string, Object>)
    requires NamedApart(current)
  {
    forall id :: id in current && current[id]["name"].text in desired && MapperIs(current[id], desired[current[id]["name"].text]) ==>
      id in now && now[id] == current[id]
  }

  lemma StayMeans(current: map<nat, Object>, now: map<nat, Object>, desired: map<string, Object>)
    requires NamesUnique(current)
    ensures NamedApart(current)
    ensures MatchedStay(current, now, desired) <==> StoredStay(current, now, desired)
  {
    NamesMean(current);
    forall id | id in current && NameOf(current[id]) in desired
      ensures MapperMatches(current[id], desired[NameOf(current[id])]) <==> MapperIs(current[id], desired[NameOf(current[id])])
    {
      MapperMeans(current[id], desired[NameOf(current[id])]);
    }
    hide MapperMatches, MapperIs, NamesUnique;
  }

  // ---------------------------------------------------------------- the clients

  predicate Called(r: Realm, id: nat, names: set<Json>) {
    && id in r.clients
    && "clientId" in r.clients[id].fields && r.clients[id].fields["clientId"] in names
  }

  /** The one client with such a clientId. */
  predicate OnlyClient(r: Realm, id: nat, names: set<Json>) {
    Called(r, id, names) && forall other :: other in r.clients && Called(r, other, names) ==> other == id
  }

  lemma LookupMeans(r: Realm, names: set<Json>)
    requires Null !in names
    ensures forall id: nat :: id in WithClientId(r, names) <==> Called(r, id, names)
  {
  }

  lemma OnlyMeans(r: Realm, id: nat, names: set<Json>)
    requires Null !in names
    ensures WithClientId(r, names) == {id} <==> OnlyClient(r, id, names)
  {
    LookupMeans(r, names);
    hide WithClientId, Called;
    if OnlyClient(r, id, names) {
      assert id in WithClientId(r, names);
    }
  }

  /** The one client with such a clientId has the desired values and exactly the desired scopes. */
  predicate ClientStored(r: Realm, id: nat, c: Client, names: set<Json>) {
    && OnlyClient(r, id, names)
    && ClientIs(r.clients[id].fields, c.fields)
    && r.clients[id].defaults == c.defaults && r.clients[id].optionals == c.optionals
  }

  lemma SettledClientMeans(r: Realm, id: nat, c: Client, names: set<Json>)
    requires Null !in names
    ensures SettledClient(r, id, c, names) <==> ClientStored(r, id, c, names)
  {
    OnlyMeans(r, id, names);
    if id in r.clients {
      ClientMeans(r.clients[id].fields, c.fields);
    }
    hide WithClientId, ClientMatches, ClientIs, Called;
  }

  lemma SettledClientsMean(r: Realm, c: Client, names: set<Json>)
    requires Null !in names
    ensures (exists id: nat :: SettledClient(r, id, c, names)) <==> (exists id: nat :: ClientStored(r, id, c, names))
  {
    forall id: nat ensures SettledClient(r, id, c, names) <==> ClientStored(r, id, c, names) {
      SettledClientMeans(r, id, c, names);
    }
    hide SettledClient, ClientStored;
  }

  // ---------------------------------------------------------------- the scopes

  /** Every managed scope exists with the desired fields and mappers, and the realm's own scope sets are the desired ones. */
  ghost predicate ScopesStored(r: Realm, d: Desired) {
    && (forall name :: name in d.scopes ==> name in r.scopes && ScopeStored(r.scopes[name], d.scopes[name]))
    && r.defaults == d.defaults && r.optionals == d.optionals
  }

  ghost predicate ScopeStored(scope: Scope, desired: DesiredScope) {
    ValuesAre(scope.core, desired.core) && MappersAre(scope.mappers, desired.mappers)
  }

  lemma ScopeMeans(scope: Scope, desired: DesiredScope)
    ensures ScopeMatches(scope, desired) <==> ScopeStored(scope, desired)
  {
    MappersMean(scope.mappers, desired.mappers);
    hide NamesUnique, MapperMatches, MappersAre;
    assert ScopeMatches(scope, desired) <==> CoreMatches(scope.core, desired.core) && MappersMatch(scope.mappers, desired.mappers);
  }

  lemma AllScopesMean(r: Realm, d: Desired)
    ensures AllScopesMatch(r, d) && r.defaults == d.defaults && r.optionals == d.optionals <==> ScopesStored(r, d)
  {
    forall name | name in d.scopes && name in r.scopes
      ensures ScopeMatches(r.scopes[name], d.scopes[name]) <==> ScopeStored(r.scopes[name], d.scopes[name])
    {
      ScopeMeans(r.scopes[name], d.scopes[name]);
    }
    hide ScopeMatches, ScopeStored;
  }

  // ---------------------------------------------------------------- the whole server

  /** The server stores every desired value, the two secrets included. */
  ghost predicate AllStored(r: Realm, d: Desired) {
    && d.realm.Keys <= r.fields.Keys && (forall key :: key in d.realm ==> r.fields[key] == d.realm[key])
    && r.provider.Some? && Included(r.provider.value, d.provider, "config")
    && r.flowSafe
    && (exists id: nat :: ClientStored(r, id, d.client, {HOSTED, LEGACY}))
    && (exists id: nat :: ClientStored(r, id, d.codex, {CODEX}))
    && ScopesStored(r, d)
  }

  /** A settled server is one that stores what is desired. */
  lemma SettledMeans(r: Realm, d: Desired)
    ensures Settled(r, d) <==> AllStored(r, d)
  {
    if r.provider.Some? {
      HeldMeans(r.provider.value, d.provider, "config");
    }
    SettledClientsMean(r, d.client, {HOSTED, LEGACY});
    SettledClientsMean(r, d.codex, {CODEX});
    AllScopesMean(r, d);
    hide ScopeMatches, ScopeStored, SettledClient, ClientStored, Holds, Included, ScopesStored;
  }

  /** Where no desired mapper has a null, the mappers of every managed scope are literally the desired ones. */
  lemma StoredMappers(r: Realm, d: Desired, name: string)
    requires AllStored(r, d) && name in d.scopes && Plain(d.scopes[name].mappers)
    ensures name in r.scopes && NamedApart(r.scopes[name].mappers)
    ensures Keyed(r.scopes[name].mappers) == d.scopes[name].mappers
  {
    hide ClientStored, Included, ValuesAre;
    assert ScopeStored(r.scopes[name], d.scopes[name]);
    PlainMappers(r.scopes[name].mappers, d.scopes[name].mappers);
  }

  /** As far as can be told without reading secrets, the server stores every desired value. */
  ghost predicate AllReadable(r: Realm, d: Desired) {
    && ReadableIs(r.fields, d.realm, "smtpServer", "password")
    && r.provider.Some? && ReadableIs(r.provider.value, d.provider, "config", "clientSecret")
    && (exists id: nat :: ClientStored(r, id, d.client, {HOSTED, LEGACY}))
    && (exists id: nat :: ClientStored(r, id, d.codex, {CODEX}))
    && ScopesStored(r, d)
  }

  lemma ClientsRead(r: Realm, d: Desired, s: Snapshot)
    requires ReadsClients(r, s)
    ensures (exists id: nat :: ClientStored(r, id, d.client, {HOSTED, LEGACY})) <==>
              && ClientMatches(s.client.fields, d.client.fields)
              && s.client.defaults == d.client.defaults && s.client.optionals == d.client.optionals
  {
    OnlyMeans(r, s.clientId, {HOSTED, LEGACY});
    ClientMeans(s.client.fields, d.client.fields);
    hide WithClientId, ClientMatches, ClientIs, Called, ReadsCodex;
    forall id: nat | ClientStored(r, id, d.client, {HOSTED, LEGACY}) ensures id == s.clientId {
    }
    if ClientIs(s.client.fields, d.client.fields) && s.client.defaults == d.client.defaults && s.client.optionals == d.client.optionals {
      assert ClientStored(r, s.clientId, d.client, {HOSTED, LEGACY});
    }
  }

  lemma CodexRead(r: Realm, d: Desired, s: Snapshot)
    requires ReadsCodex(r, s)
    ensures (exists id: nat :: ClientStored(r, id, d.codex, {CODEX})) <==>
              && s.codex.Some? && ClientMatches(s.codex.value.fields, d.codex.fields)
              && s.codex.value.defaults == d.codex.defaults && s.codex.value.optionals == d.codex.optionals
  {
    LookupMeans(r, {CODEX});
    hide ClientMatches, ClientIs, Called;
    if s.codexId.None? {
      forall id: nat ensures !ClientStored(r, id, d.codex, {CODEX}) {
        assert id !in WithClientId(r, {CODEX});
      }
      return;
    }
    OnlyMeans(r, s.codexId.value, {CODEX});
    ClientMeans(s.codex.value.fields, d.codex.fields);
    hide WithClientId;
    forall id: nat | ClientStored(r, id, d.codex, {CODEX}) ensures id == s.codexId.value {
    }
    if && ClientIs(s.codex.value.fields, d.codex.fields) && s.codex.value.defaults == d.codex.defaults
       && s.codex.value.optionals == d.codex.optionals {
      assert ClientStored(r, s.codexId.value, d.codex, {CODEX});
    }
  }

  lemma PayloadsMean(r: Realm, d: Desired, s: Snapshot)
    requires ReadsScopes(r, d, s)
    ensures PayloadsMatch(s.payloads, d.scopes) && s.defaults == d.defaults && s.optionals == d.optionals <==> ScopesStored(r, d)
  {
    PayloadsRead(r, d, s);
    AllScopesMean(r, d);
    hide AllScopesMatch, ScopeStored, PayloadsMatch, MapperNamesUnique;
  }

  /** A reading passes verification exactly when the server stores every desired value that can be read. */
  lemma VerifiedMeans(r: Realm, d: Desired, s: Snapshot)
    requires ValidDesired(d) && Reads(r, d, s)
    ensures Verified(s, d) <==> AllReadable(r, d)
  {
    ReadableMeans(r.fields, d.realm, "smtpServer", "password");
    if r.provider.Some? {
      ReadableMeans(r.provider.value, d.provider, "config", "clientSecret");
    }
    ClientsRead(r, d, s);
    CodexRead(r, d, s);
    PayloadsMean(r, d, s);
    hide FieldsMatch, Masked, ReadableIs, ClientMatches, PayloadsMatch, ScopesStored, ReadsCodex, WithClientId, ClientStored,
         ReadsScopes, ValidDesired;
  }

  // ---------------------------------------------------------------- readable servers

  /** At most one client has such a clientId. */
  predicate AtMostOne(r: Realm, names: set<Json>) {
    forall i, j :: i in r.clients && j in r.clients && Called(r, i, names) && Called(r, j, names) ==> i == j
  }

  /** Every client with such a clientId has a default and an optional scope. */
  predicate ListsFilled(r: Realm, names: set<Json>) {
    forall id :: id in r.clients && Called(r, id, names) ==> |r.clients[id].defaults| > 0 && |r.clients[id].optionals| > 0
  }

  /** When a reading fails, and with which error. */
  lemma ReadErrorMeans(r: Realm)
    ensures var hosted, codex := {HOSTED, LEGACY}, {CODEX};
            && (ReadError(r).None? <==>
                  && r.flowSafe && (exists id: nat :: OnlyClient(r, id, hosted)) && AtMostOne(r, codex)
                  && ListsFilled(r, hosted) && ListsFilled(r, codex))
            && (ReadError(r) == Some(FlowUnsafe) <==> AtMostOne(r, codex) && !r.flowSafe)
            && (ReadError(r) == Some(CodexClientInvalid) <==>
                  && r.flowSafe && (exists id: nat :: OnlyClient(r, id, hosted)) && AtMostOne(r, codex)
                  && ListsFilled(r, hosted) && !ListsFilled(r, codex))
  {
    LookupMeans(r, {HOSTED, LEGACY});
    LookupMeans(r, {CODEX});
    CountMeans(r, {HOSTED, LEGACY});
    CountMeans(r, {CODEX});
    FilledMeans(r, {HOSTED, LEGACY});
    FilledMeans(r, {CODEX});
    hide WithClientId, Called, ListsReadable, AtMostOne, OnlyClient, ListsFilled;
  }

  lemma CountMeans(r: Realm, names: set<Json>)
    requires Null !in names
    ensures |WithClientId(r, names)| <= 1 <==> AtMostOne(r, names)
    ensures |WithClientId(r, names)| == 1 <==> exists id: nat :: OnlyClient(r, id, names)
  {
    var found := WithClientId(r, names);
    LookupMeans(r, names);
    hide WithClientId, Called;
    if |found| == 1 {
      var id: nat :| id in found;
      Singleton(found, id);
      assert OnlyClient(r, id, names);
    }
    if |found| > 1 {
      var i: nat :| i in found;
      assert |found - {i}| > 0;
      var j: nat :| j in found - {i};
      assert Called(r, i, names) && Called(r, j, names);
    }
    forall id: nat | OnlyClient(r, id, names) ensures |found| == 1 {
      assert found == {id};
    }
  }

  lemma FilledMeans(r: Realm, names: set<Json>)
    requires Null !in names
    ensures (exists id :: id in WithClientId(r, names) && !ListsReadable(r.clients[id])) <==> !ListsFilled(r, names)
  {
    LookupMeans(r, names);
    hide WithClientId, Called;
    if !ListsFilled(r, names) {
      var id: nat :| id in r.clients && Called(r, id, names) && !(|r.clients[id].defaults| > 0 && |r.clients[id].optionals| > 0);
      assert id in WithClientId(r, names) && !ListsReadable(r.clients[id]);
    }
  }
}
