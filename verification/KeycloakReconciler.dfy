/**
 The reconciler: it reads the server, writes what differs, reads again and verifies. The server is a class
 whose methods are the admin API's requests.
 */
module KeycloakReconciler {
  import opened Prelude
  import opened Keycloak
  import opened KeycloakMappers
  import opened KeycloakWrites
  import opened KeycloakValues

  class Server {
    var realm: Realm

    constructor (r: Realm)
      ensures realm == r
    {
      realm := r;
    }

    // -------------------------------------------------------------- requests

    method PutRealm(fields: Object)
      modifies this
      ensures realm == old(realm).(fields := fields)
    {
      realm := realm.(fields := fields);
    }

    method PutProvider(fields: Object)
      modifies this
      ensures realm == old(realm).(provider := Some(fields))
    {
      realm := realm.(provider := Some(fields));
    }

    method PutClient(id: nat, fields: Object)
      requires id in realm.clients
      modifies this
      ensures realm == old(realm).(clients := old(realm).clients[id := old(realm).clients[id].(fields := fields)])
    {
      realm := realm.(clients := realm.clients[id := realm.clients[id].(fields := fields)]);
    }

    /** A new client gets a fresh id. Which scopes it starts with is the server's choice, within what exists. */
    method PostClient(c: Client)
      modifies this
      ensures Posted(old(realm), realm, c.fields)
      ensures c.defaults + c.optionals <= realm.scopes.Keys && ListsReadable(c) ==> ListsReadable(realm.clients[old(realm).nextId])
    {
      var names := realm.scopes.Keys;
      var created := c.(defaults := c.defaults * names, optionals := c.optionals * names);
      if c.defaults + c.optionals <= names {
        assert c.defaults * names == c.defaults && c.optionals * names == c.optionals;
      }
      realm := realm.(clients := realm.clients[realm.nextId := created], nextId := realm.nextId + 1);
    }

    method PutScope(name: string, core: Object)
      requires name in realm.scopes
      modifies this
      ensures realm == old(realm).(scopes := old(realm).scopes[name := old(realm).scopes[name].(core := core)])
    {
      realm := realm.(scopes := realm.scopes[name := realm.scopes[name].(core := core)]);
    }

    method DeleteMapper(name: string, id: nat)
      requires name in realm.scopes
      modifies this
      ensures var scope := old(realm).scopes[name];
              realm == old(realm).(scopes := old(realm).scopes[name := scope.(mappers := scope.mappers - {id})])
    {
      var scope := realm.scopes[name];
      realm := realm.(scopes := realm.scopes[name := scope.(mappers := scope.mappers - {id})]);
    }

    method PutMapper(name: string, id: nat, mapper: Object)
      requires name in realm.scopes
      modifies this
      ensures var scope := old(realm).scopes[name];
              realm == old(realm).(scopes := old(realm).scopes[name := scope.(mappers := scope.mappers[id := mapper])])
    {
      var scope := realm.scopes[name];
      realm := realm.(scopes := realm.scopes[name := scope.(mappers := scope.mappers[id := mapper])]);
    }

    method PostMapper(name: string, mapper: Object)
      requires name in realm.scopes
      modifies this
      ensures var scope := old(realm).scopes[name];
              var n := old(realm).nextId;
              realm == old(realm).(scopes := old(realm).scopes[name := scope.(mappers := scope.mappers[n := mapper])],
                                   nextId := n + 1)
    {
      var id := realm.nextId;
      PutMapper(name, id, mapper);
      realm := realm.(nextId := id + 1);
    }

    /** DELETE or PUT of one member of a scope set. */
    method ChangeSet(ref: SetRef, name: string, member: bool)
      requires Has(realm, ref)
      modifies this
      ensures var names := GetSet(old(realm), ref);
              realm == WithSet(old(realm), ref, if member then names + {name} else names - {name})
    {
      var names := GetSet(realm, ref);
      realm := WithSet(realm, ref, if member then names + {name} else names - {name});
    }

    // -------------------------------------------------------------- reading

    /** `_read_current`: it reports what the server shows, or the first check that fails. */
    method ReadCurrent(d: Desired) returns (r: Result<Snapshot, Drift>)
      ensures r.Err? <==> ReadError(realm).Some?
      ensures r.Err? ==> ReadError(realm) == Some(r.error)
      ensures r.Ok? ==> Reads(realm, d, r.value)
    {
      var found := WithClientId(realm, {HOSTED, LEGACY});
      var codexFound := WithClientId(realm, {CODEX});
      if |codexFound| > 1 {
        return Err(McpClientInvalid);
      }
      if !realm.flowSafe {
        return Err(FlowUnsafe);
      }
      if |found| != 1 {
        return Err(McpClientInvalid);
      }
      var id: nat :| id in found;
      Singleton(found, id);
      var codexId: Option<nat>, codex: Option<Client> := None, None;
      if codexFound != {} {
        var c: nat :| c in codexFound;
        assert |codexFound| == 1;
        Singleton(codexFound, c);
        codexId, codex := Some(c), Some(realm.clients[c]);
      }
      if !ListsReadable(realm.clients[id]) {
        return Err(McpClientInvalid);
      }
      if codex.Some? && !ListsReadable(codex.value) {
        return Err(CodexClientInvalid);
      }
      r := Ok(Snapshot(ShownRealm(realm), ShownProvider(realm), id, realm.clients[id], codexId, codex, realm.scopes.Keys,
                       map name | name in d.scopes && name in realm.scopes :: realm.scopes[name],
                       realm.defaults, realm.optionals));
    }

    // -------------------------------------------------------------- scope payloads

    /** The first half of a mapper diff: mappers whose name is not desired are deleted. */
    method DropMappers(name: string, gone: set<nat>)
      requires name in realm.scopes
      modifies this
      ensures OnlyScope(old(realm), realm, name) && realm.nextId == old(realm).nextId
      ensures realm.scopes[name].core == old(realm).scopes[name].core
      ensures realm.scopes[name].mappers == old(realm).scopes[name].mappers - gone
      ensures gone == {} ==> realm == old(realm)
    {
      var todo := gone;
      while todo != {}
        invariant todo <= gone
        invariant OnlyScope(old(realm), realm, name) && realm.nextId == old(realm).nextId
        invariant realm.scopes[name].core == old(realm).scopes[name].core
        invariant realm.scopes[name].mappers == old(realm).scopes[name].mappers - (gone - todo)
        invariant gone == {} ==> realm == old(realm)
        decreases todo
      {
        var id: nat :| id in todo;
        DeleteMapper(name, id);
        todo := todo - {id};
      }
    }

    /** One desired mapper: created if no mapper has its name, rewritten if that mapper differs, else left alone. */
    method PlaceMapper(name: string, found: Option<nat>, wanted: Object) returns (id: nat)
      requires name in realm.scopes && FreshIds(realm.scopes[name].mappers, realm.nextId)
      requires found.Some? ==> found.value in realm.scopes[name].mappers
      modifies this
      ensures OnlyMappers(old(realm), realm, name)
      ensures if found.Some? then id == found.value else id !in old(realm).scopes[name].mappers
      ensures var was := old(realm).scopes[name].mappers;
              var kept := found.Some? && MapperMatches(was[found.value], wanted);
              && realm.scopes[name].mappers == was[id := if kept then was[id] else wanted]
              && (kept ==> realm == old(realm))
    {
      if found.None? {
        id := realm.nextId;
        PostMapper(name, wanted);
        return;
      }
      id := found.value;
      if !MapperMatches(realm.scopes[name].mappers[id], wanted) {
        PutMapper(name, id, wanted);
      }
    }

    /** The second half: each desired mapper is placed. */
    method PlaceMappers(name: string, current: map<nat, Object>, desired: map<string, Object>)
      requires name in realm.scopes && FreshIds(realm.scopes[name].mappers, realm.nextId)
      requires NamesUnique(current) && DesiredNamed(desired) && MapperNames(current) <= desired.Keys
      requires realm.scopes[name].mappers == current
      modifies this
      ensures OnlyMappers(old(realm), realm, name)
      ensures MappersMatch(realm.scopes[name].mappers, desired)
      ensures MatchedStay(current, realm.scopes[name].mappers, desired)
      ensures MappersMatch(current, desired) ==> realm == old(realm)
    {
      var was: map<string, nat> := ByName(current);
      ghost var index: map<string, nat> := was;
      StartPlacing(current, desired);
      var todo := desired.Keys;
      hide Placing, Indexed, NamesUnique, MapperMatches, MapperNames, ByName, MatchedStay, MappersMatch, FreshIds, Get, OnlyScope;
      while todo != {}
        invariant todo <= desired.Keys
        invariant OnlyMappers(old(realm), realm, name)
        invariant Placing(current, was, realm.scopes[name].mappers, index, desired, todo)
        invariant MappersMatch(current, desired) ==> realm == old(realm)
        decreases todo
      {
        var mapper: string :| mapper in todo;
        ghost var before := realm;
        ghost var now := realm.scopes[name].mappers;
        NextToPlace(current, now, index, desired, todo, mapper);
        var found := if mapper in was then Some(was[mapper]) else None;
        var id := PlaceMapper(name, found, desired[mapper]);
        PlaceOne(current, was, now, index, desired, todo, mapper, id, realm.scopes[name].mappers[id]);
        OnlyMappersTwice(old(realm), before, realm, name);
        index := index[mapper := id];
        todo := todo - {mapper};
      }
      PlacedAll(current, was, realm.scopes[name].mappers, index, desired);
      AllMatchedStay(current, was, realm.scopes[name].mappers, index, desired);
    }

    /** The mapper diff of one scope: delete, then create or rewrite. */
    method SyncMappers(name: string, current: map<nat, Object>, desired: map<string, Object>)
      requires name in realm.scopes && FreshIds(current, realm.nextId) && realm.scopes[name].mappers == current
      requires NamesUnique(current) && DesiredNamed(desired)
      modifies this
      ensures OnlyMappers(old(realm), realm, name)
      ensures MappersMatch(realm.scopes[name].mappers, desired)
      ensures MatchedStay(current, realm.scopes[name].mappers, desired)
      ensures MappersMatch(current, desired) ==> realm == old(realm)
      ensures MappersAre(realm.scopes[name].mappers, desired) && NamedApart(current)
      ensures Plain(desired) ==> Keyed(realm.scopes[name].mappers) == desired
      ensures StoredStay(current, realm.scopes[name].mappers, desired)
      ensures MappersAre(current, desired) ==> realm == old(realm)
    {
      MappersMean(current, desired);
      var gone := set id | id in current && NameOf(current[id]) !in desired;
      KeepNamed(current, gone, desired);
      DropMappers(name, gone);
      ghost var middle := realm;
      hide MappersMatch, NamesUnique, MapperNames, MatchedStay, OnlyScope;
      assert OnlyMappers(old(realm), middle, name);
      PlaceMappers(name, current - gone, desired);
      OnlyMappersTwice(old(realm), middle, realm, name);
      KeepMatched(current, gone, realm.scopes[name].mappers, desired);
      hide MappersAre, NamedApart, Keyed, StoredStay;
      MappersMean(realm.scopes[name].mappers, desired);
      StayMeans(current, realm.scopes[name].mappers, desired);
      if Plain(desired) {
        PlainMappers(realm.scopes[name].mappers, desired);
      }
    }

    method SyncCore(name: string, current: Scope, desired: DesiredScope)
      requires name in realm.scopes && realm.scopes[name] == current && FreshIds(current.mappers, realm.nextId)
      modifies this
      ensures OnlyScope(old(realm), realm, name) && realm.nextId == old(realm).nextId
      ensures realm.scopes[name].mappers == current.mappers && CoreMatches(realm.scopes[name].core, desired.core)
      ensures KeptFields(current.core, realm.scopes[name].core, desired.core)
      ensures CoreMatches(current.core, desired.core) ==> realm == old(realm)
    {
      if !CoreMatches(current.core, desired.core) {
        PutScope(name, current.core + desired.core);
      }
    }

    /** One round of `_sync_scope_payloads`: the core is rewritten if it differs, then the mappers are brought in line. */
    method SyncScope(name: string, current: Scope, desired: DesiredScope) returns (e: Option<Drift>)
      requires name in realm.scopes && realm.scopes[name] == current && FreshIds(current.mappers, realm.nextId)
      requires DesiredNamed(desired.mappers)
      modifies this
      ensures OnlyScope(old(realm), realm, name) && FreshIds(realm.scopes[name].mappers, realm.nextId)
      ensures KeptFields(current.core, realm.scopes[name].core, desired.core)
      ensures e == if NamesUnique(current.mappers) then None else Some(MappersInvalid)
      ensures e.Some? ==> realm.scopes[name].mappers == current.mappers
      ensures e.None? ==> ScopeMatches(realm.scopes[name], desired)
      ensures e.None? ==> MatchedStay(current.mappers, realm.scopes[name].mappers, desired.mappers)
      ensures ScopeMatches(current, desired) ==> realm == old(realm)
    {
      hide MatchedStay, NamesUnique, MapperNames, CoreMatches, KeptFields, DesiredNamed, MapperMatches,
           MappersAre, NamedApart, StoredStay, Keyed, Plain;
      SyncCore(name, current, desired);
      if !NamesUnique(current.mappers) {
        return Some(MappersInvalid);
      }
      SyncMappers(name, current.mappers, desired.mappers);
      e := None;
    }

    /** `_sync_scope_payloads`. An ambiguous mapper name stops it, wherever the loop has got to. */
    method SyncScopePayloads(s: Snapshot, d: Desired) returns (e: Option<Drift>)
      requires Consistent(realm) && ReadsScopes(realm, d, s) && ValidDesired(d)
      modifies this
      ensures e != Some(VerificationFailed)
      ensures e.None? <==> d.scopes.Keys <= old(realm).scopes.Keys && MapperNamesUnique(old(realm), d)
      ensures e.Some? && d.scopes.Keys <= old(realm).scopes.Keys ==> e == Some(MappersInvalid)
      ensures !(d.scopes.Keys <= old(realm).scopes.Keys) ==> e == Some(RequiredScopeMissing) && realm == old(realm)
      ensures ScopesOnly(old(realm), realm, d)
      ensures e.None? ==> SyncedBut(old(realm), realm, d, {})
    {
      assert ScopesOnly(realm, realm, d);
      if !(d.scopes.Keys <= s.scopeNames) {
        return Some(RequiredScopeMissing);
      }
      var todo := d.scopes.Keys;
      e := None;
      hide ScopeMatches, NamesUnique, MatchedStay, ScopesOnly, SyncedBut, Consistent, CoreMatches;
      assert SyncedBut(realm, realm, d, todo) by { StartSync(realm, d); }
      while todo != {} && e.None?
        invariant todo <= d.scopes.Keys
        invariant ScopesOnly(old(realm), realm, d)
        invariant e.None? || (e == Some(MappersInvalid) && !MapperNamesUnique(old(realm), d))
        invariant e.None? ==> SyncedBut(old(realm), realm, d, todo)
        decreases todo
      {
        var name: string :| name in todo;
        ghost var before := realm;
        NextToSync(old(realm), realm, d, todo, name);
        e := SyncScope(name, s.payloads[name], d.scopes[name]);
        OneScopeOnly(old(realm), before, realm, d, name);
        if e.None? {
          OneScopeSynced(old(realm), before, realm, d, todo, name);
        }
        todo := todo - {name};
      }
      if e.None? {
        SyncedNames(old(realm), realm, d);
      }
    }

    /** The payloads are synchronised only when the reading does not match. */
    method SyncPayloadsIfNeeded(s: Snapshot, d: Desired) returns (e: Option<Drift>)
      requires Consistent(realm) && ReadsScopes(realm, d, s) && ValidDesired(d)
      modifies this
      ensures e != Some(VerificationFailed)
      ensures e.None? <==> d.scopes.Keys <= old(realm).scopes.Keys && MapperNamesUnique(old(realm), d)
      ensures realm == old(realm).(scopes := realm.scopes, nextId := realm.nextId) && realm.scopes.Keys == old(realm).scopes.Keys
      ensures Consistent(realm) && Frame(old(realm), realm, d)
      ensures e.None? ==> AllScopesMatch(realm, d)
      ensures AllScopesMatch(old(realm), d) ==> realm == old(realm)
    {
      hide ScopeMatches, NamesUnique, Frame, Consistent, ReadsScopes, ValidDesired, PayloadsMatch, AllScopesMatch, ScopesOnly, SyncedBut;
      PayloadsRead(realm, d, s);
      if PayloadsMatch(s.payloads, d.scopes) {
        FrameSame(realm, d);
        return None;
      }
      e := SyncScopePayloads(s, d);
      ScopesFrame(old(realm), realm, d);
      if e.None? {
        SyncedMatch(old(realm), realm, d);
      }
    }

    /** `_sync_default_scopes`: members that are not desired go, missing ones come. */
    method SyncDefaultScopes(ref: SetRef, current: set<string>, desired: set<string>, names: set<string>) returns (e: Option<Drift>)
      requires Has(realm, ref)
      modifies this
      ensures Has(realm, ref) && realm == WithSet(old(realm), ref, GetSet(realm, ref))
      ensures GetSet(realm, ref) <= GetSet(old(realm), ref) + names
      ensures e.None? <==> desired <= names && current <= names
      ensures e.Some? ==> e == Some(if desired <= names then ScopesInvalid else RequiredScopeMissing)
      ensures !(desired <= names) ==> realm == old(realm)
      ensures e.None? ==> GetSet(realm, ref) == GetSet(old(realm), ref) - (current - desired) + (desired - current)
    {
      SetSame(realm, ref);
      if !(desired <= names) {
        return Some(RequiredScopeMissing);
      }
      var todo := current - desired;
      while todo != {}
        invariant todo <= current - desired
        invariant Has(realm, ref) && realm == WithSet(old(realm), ref, GetSet(realm, ref))
        invariant GetSet(realm, ref) == GetSet(old(realm), ref) - ((current - desired) - todo)
        invariant (current - desired) - todo <= names
        decreases todo
      {
        var name: string :| name in todo;
        if name !in names {
          return Some(ScopesInvalid);
        }
        ghost var before := realm;
        ChangeSet(ref, name, false);
        SetTwice(old(realm), ref, GetSet(before, ref), GetSet(before, ref) - {name});
        SetTwice(before, ref, GetSet(before, ref), GetSet(before, ref) - {name});
        todo := todo - {name};
      }
      todo := desired - current;
      while todo != {}
        invariant todo <= desired - current
        invariant Has(realm, ref) && realm == WithSet(old(realm), ref, GetSet(realm, ref))
        invariant GetSet(realm, ref) == GetSet(old(realm), ref) - (current - desired) + ((desired - current) - todo)
        decreases todo
      {
        var name: string :| name in todo;
        ghost var before := realm;
        ChangeSet(ref, name, true);
        SetTwice(old(realm), ref, GetSet(before, ref), GetSet(before, ref) + {name});
        SetTwice(before, ref, GetSet(before, ref), GetSet(before, ref) + {name});
        todo := todo - {name};
      }
      e := None;
    }

    // -------------------------------------------------------------- the writes, in order

    /** The realm is rewritten unless it matches with an unmasked secret; a stored secret always shows masked. */
    method WriteRealm(s: Snapshot, d: Desired)
      requires ValidDesired(d) && s.realm == ShownRealm(realm)
      modifies this
      ensures realm == old(realm).(fields := realm.fields)
      ensures Stores(realm.fields, d.realm) && KeptFields(old(realm).fields, realm.fields, d.realm)
      ensures Stores(old(realm).fields, d.realm) ==> realm == old(realm)
    {
      RealmRewriteSettles(s.realm, d.realm);
      if Stores(realm.fields, d.realm) {
        RealmRewriteIsFixpoint(realm.fields, d.realm);
      }
      if !RealmMatches(s.realm, d.realm) || Get(SubObject(s.realm, "smtpServer"), "password") == MASK {
        PutRealm(s.realm + d.realm);
      } else {
        MatchShowsMask(realm.fields, d.realm, "smtpServer", "password");
      }
    }

    /** The identity provider is created, with a second reading, or rewritten over what is shown. */
    method WriteProvider(s: Snapshot, d: Desired) returns (r: Result<Snapshot, Drift>)
      requires ValidDesired(d) && s.provider == ShownProvider(realm) && ReadsClients(realm, s) && ReadsScopes(realm, d, s)
      modifies this
      ensures realm == old(realm).(provider := realm.provider)
      ensures realm.provider.Some? && Holds(realm.provider.value, d.provider, "config") && ProviderKept(old(realm).provider, realm.provider, d)
      ensures old(realm).provider.Some? && Holds(old(realm).provider.value, d.provider, "config") ==> realm == old(realm)
      ensures r.Err? ==> ReadError(realm) == Some(r.error)
      ensures r.Ok? ==> ReadsClients(realm, r.value) && ReadsScopes(realm, d, r.value)
      ensures s.provider.Some? ==> r == Ok(s)
    {
      hide Holds, FieldsMatch, Masked, Kept, ReadError;
      if s.provider.None? {
        PutProvider(d.provider);
        HoldsItself(d.provider, "config");
        r := ReadCurrent(d);
        return;
      }
      ghost var stored := realm.provider.value;
      var shown := s.provider.value;
      ProviderRewrite(stored, d.provider);
      if !ProviderMatches(shown, d.provider) || Get(SubObject(shown, "config"), "clientSecret") == MASK {
        PutProvider(Merged(shown, d.provider, "config"));
      } else {
        MatchShowsMask(stored, d.provider, "config", "clientSecret");
      }
      r := Ok(s);
    }

    /** The client is merged over its current representation unless it already matches. */
    method WriteClient(s: Snapshot, d: Desired, ready: bool)
      requires ValidDesired(d) && Consistent(realm) && ReadsClients(realm, s) && ReadsScopes(realm, d, s)
      requires ready == ClientMatches(s.client.fields, d.client.fields)
      modifies this
      ensures realm == old(realm).(clients := realm.clients) && Consistent(realm) && Frame(old(realm), realm, d)
      ensures LocatedClient(realm, s) && ReadsCodex(realm, s) && ReadsScopes(realm, d, s)
      ensures ClientMatches(realm.clients[s.clientId].fields, d.client.fields)
      ensures ReadError(realm) == ReadError(old(realm))
      ensures ready ==> realm == old(realm)
    {
      if !ready {
        MergeMatches(s.client.fields, d.client.fields);
        MergedClientFrame(realm, s.clientId, d, d.client.fields);
        MergedClientFound(realm, s.clientId, d, d.client.fields);
        PutClient(s.clientId, Merged(s.client.fields, d.client.fields, "attributes"));
      } else {
        FrameSame(realm, d);
      }
    }

    /** A missing Codex client is created and the server read again. Only the lists it starts with can fail that reading. */
    method CreateCodex(s: Snapshot, d: Desired) returns (r: Result<Snapshot, Drift>)
      requires ValidDesired(d) && Consistent(realm) && ReadError(realm).None?
      requires LocatedClient(realm, s) && WithClientId(realm, {CODEX}) == {}
      requires ClientMatches(realm.clients[s.clientId].fields, d.client.fields)
      modifies this
      ensures r.Err? ==> r.error != VerificationFailed
      ensures realm == old(realm).(clients := realm.clients, nextId := realm.nextId)
      ensures Consistent(realm) && Frame(old(realm), realm, d)
      ensures r.Ok? ==> ClientsPlaced(realm, d, r.value) && ReadsScopes(realm, d, r.value)
      ensures ScopesExist(realm, d) && ListsReadable(d.codex) ==> r.Ok?
    {
      hide ReadError, WithClientId, ClientMatches, Frame, Consistent;
      PostClient(d.codex);
      var posted := old(realm).nextId;
      PostedLookups(old(realm), realm, s.clientId, d);
      PostedFrame(old(realm), realm, d);
      r := ReadCurrent(d);
      if r.Ok? {
        assert s.clientId in {r.value.clientId} && posted in {r.value.codexId.value};
      }
    }

    /** An existing Codex client is merged over its current representation unless it is ready. */
    method RewriteCodex(s: Snapshot, d: Desired, ready: bool)
      requires ValidDesired(d) && Consistent(realm) && LocatedClient(realm, s) && ReadsCodex(realm, s) && s.codex.Some?
      requires ready ==> ClientMatches(s.codex.value.fields, d.codex.fields)
      modifies this
      ensures LocatedClient(realm, s) && LocatedCodex(realm, s) && s.codexId.value != s.clientId
      ensures realm == old(realm).(clients := old(realm).clients[s.codexId.value := realm.clients[s.codexId.value]])
      ensures Consistent(realm) && Frame(old(realm), realm, d)
      ensures ClientMatches(realm.clients[s.codexId.value].fields, d.codex.fields)
      ensures ready ==> realm == old(realm)
    {
      CodexFound(realm, s);
      DesiredClients(d);
      hide WithClientId, RoleOf, Get, ClientMatches, Frame, ReadError, Merged, Consistent, ValidDesired;
      if ready {
        FrameSame(realm, d);
        return;
      }
      MergeMatches(s.codex.value.fields, d.codex.fields);
      MergedClientConsistent(realm, s.codexId.value, d.codex.fields);
      MergedClientFrame(realm, s.codexId.value, d, d.codex.fields);
      MergedClientFound(realm, s.codexId.value, d, d.codex.fields);
      PutClient(s.codexId.value, Merged(s.codex.value.fields, d.codex.fields, "attributes"));
    }

    /** The default and optional sets of one client. */
    method SyncClientSets(id: nat, current: Client, desired: Client, names: set<string>) returns (e: Option<Drift>)
      requires Consistent(realm) && names == realm.scopes.Keys && id in realm.clients
      requires current.defaults == realm.clients[id].defaults && current.optionals == realm.clients[id].optionals
      modifies this
      ensures id in realm.clients && realm.clients[id].fields == old(realm).clients[id].fields
      ensures realm == old(realm).(clients := old(realm).clients[id := realm.clients[id]]) && Consistent(realm)
      ensures e.None? <==> desired.defaults <= names && desired.optionals <= names
      ensures e.None? || e == Some(RequiredScopeMissing)
      ensures e.None? ==> realm.clients[id].defaults == desired.defaults && realm.clients[id].optionals == desired.optionals
      ensures e.None? && current.defaults == desired.defaults && current.optionals == desired.optionals ==> realm == old(realm)
    {
      assert realm.clients[id := realm.clients[id]] == realm.clients;
      e := SyncDefaultScopes(ClientDefault(id), current.defaults, desired.defaults, names);
      if e.Some? {
        return;
      }
      e := SyncDefaultScopes(ClientOptional(id), current.optionals, desired.optionals, names);
    }

    /** The default and optional sets of the realm. */
    method SyncRealmSets(s: Snapshot, d: Desired) returns (e: Option<Drift>)
      requires Consistent(realm) && s.scopeNames == realm.scopes.Keys
      requires s.defaults == realm.defaults && s.optionals == realm.optionals
      modifies this
      ensures realm == old(realm).(defaults := realm.defaults, optionals := realm.optionals) && Consistent(realm)
      ensures e.None? <==> d.defaults <= s.scopeNames && d.optionals <= s.scopeNames
      ensures e.None? || e == Some(RequiredScopeMissing)
      ensures e.None? ==> realm.defaults == d.defaults && realm.optionals == d.optionals
    {
      e := SyncDefaultScopes(RealmDefault, s.defaults, d.defaults, s.scopeNames);
      if e.Some? {
        return;
      }
      e := SyncDefaultScopes(RealmOptional, s.optionals, d.optionals, s.scopeNames);
    }

    method WriteCodex(s: Snapshot, d: Desired, ready: bool) returns (r: Result<Snapshot, Drift>)
      requires ValidDesired(d) && Consistent(realm) && ReadError(realm).None?
      requires LocatedClient(realm, s) && ReadsCodex(realm, s) && ReadsScopes(realm, d, s)
      requires ClientMatches(realm.clients[s.clientId].fields, d.client.fields)
      requires ready ==> s.codex.Some? && ClientMatches(s.codex.value.fields, d.codex.fields)
      modifies this
      ensures r.Err? ==> r.error != VerificationFailed
      ensures realm == old(realm).(clients := realm.clients, nextId := realm.nextId)
      ensures Consistent(realm) && Frame(old(realm), realm, d)
      ensures r.Ok? ==> r.value.codexId.Some? && ClientsLocated(realm, d, r.value) && ReadsScopes(realm, d, r.value)
      ensures ScopesExist(realm, d) && ListsReadable(d.codex) ==> r.Ok?
      ensures ready ==> realm == old(realm) && r == Ok(s)
    {
      hide ClientMatches, ReadError, Frame, WithClientId, Consistent, ValidDesired;
      if s.codex.None? {
        r := CreateCodex(s, d);
      } else {
        RewriteCodex(s, d, ready);
        r := Ok(s);
      }
    }

    /** The first part of a migration: realm, identity provider and the two clients, with up to two more readings. */
    method MigrateClients(s: Snapshot, d: Desired, clientReady: bool, codexReady: bool) returns (r: Result<Snapshot, Drift>)
      requires ValidDesired(d) && Consistent(realm) && ReadError(realm).None? && Reads(realm, d, s)
      requires clientReady == ClientMatches(s.client.fields, d.client.fields)
      requires codexReady ==> s.codex.Some? && ClientMatches(s.codex.value.fields, d.codex.fields)
      modifies this
      ensures r.Err? ==> r.error != VerificationFailed
      ensures realm == old(realm).(fields := realm.fields, provider := realm.provider, clients := realm.clients, nextId := realm.nextId)
      ensures Consistent(realm) && Frame(old(realm), realm, d)
      ensures Stores(realm.fields, d.realm) && realm.provider.Some? && Holds(realm.provider.value, d.provider, "config")
      ensures r.Ok? ==> r.value.codexId.Some? && ClientsLocated(realm, d, r.value) && ReadsScopes(realm, d, r.value)
      ensures r.Ok? ==> r.value.defaults == s.defaults && r.value.optionals == s.optionals
      ensures ScopesExist(realm, d) && ListsReadable(d.codex) ==> r.Ok?
      ensures Settled(old(realm), d) && clientReady && codexReady ==> realm == old(realm) && r == Ok(s)
    {
      hide ClientMatches, ReadError, Frame, Consistent, ValidDesired, Holds, Stores, ReadsClients, ReadsScopes,
           KeptFields, ProviderKept, ScopesExist, LocatedClient, ReadsCodex, ClientsLocated;
      WriteRealm(s, d);
      ReadingStays(old(realm), realm, d, s);
      var reading := WriteProvider(s, d);
      RealmFrame(old(realm), realm, d);
      ReadErrorDependsOnClients(old(realm), realm);
      if reading.Err? {
        return reading;
      }
      ghost var middle := realm;
      SameClients(old(realm), middle, d, s, reading.value);
      WriteClient(reading.value, d, clientReady);
      FrameTwice(old(realm), middle, realm, d);
      ghost var next := realm;
      r := WriteCodex(reading.value, d, codexReady);
      FrameTwice(old(realm), next, realm, d);
      if r.Ok? {
        SameSets(old(realm), realm, d, s, r.value);
      }
    }

    /** The sets of both clients. A reading without the Codex client stops between the two. */
    method SyncBothClients(s: Snapshot, d: Desired) returns (e: Option<Drift>)
      requires Consistent(realm) && s.scopeNames == realm.scopes.Keys && ClientsLocated(realm, d, s)
      modifies this
      ensures e != Some(VerificationFailed)
      ensures realm == old(realm).(clients := realm.clients) && Consistent(realm) && Frame(old(realm), realm, d)
      ensures e.None? <==> s.codexId.Some? && ClientScopesExist(old(realm), d)
      ensures e.None? ==> ClientsSettled(realm, d, s)
      ensures e.None? && ClientsSettled(old(realm), d, s) ==> realm == old(realm)
    {
      hide ClientMatches, Frame, Consistent, WithClientId, RoleOf, Get;
      ClientsFound(realm, d, s);
      e := SyncClientSets(s.clientId, s.client, d.client, s.scopeNames);
      ghost var middle := realm;
      ClientSetsFrame(old(realm), middle, s.clientId, d);
      if e.Some? {
        return;
      }
      if s.codexId.None? {
        return Some(CodexClientInvalid);
      }
      e := SyncClientSets(s.codexId.value, s.codex.value, d.codex, s.scopeNames);
      ClientSetsFrame(middle, realm, s.codexId.value, d);
      FrameTwice(old(realm), middle, realm, d);
    }

    /** The second part of a migration: scope payloads, then the six scope sets. */
    method MigrateScopes(s: Snapshot, d: Desired, ready: bool) returns (e: Option<Drift>)
      requires ValidDesired(d) && Consistent(realm) && ReadsScopes(realm, d, s) && ClientsLocated(realm, d, s)
      requires ready ==> s.defaults == d.defaults && s.optionals == d.optionals
      modifies this
      ensures e != Some(VerificationFailed)
      ensures realm.fields == old(realm).fields && realm.provider == old(realm).provider
      ensures Consistent(realm) && Frame(old(realm), realm, d)
      ensures e.None? <==> s.codexId.Some? && ScopesExist(old(realm), d) && MapperNamesUnique(old(realm), d)
      ensures e.None? ==> ScopesSettled(realm, d, s)
      ensures e.None? && ScopesSettled(old(realm), d, s) ==> realm == old(realm)
    {
      hide Frame, Consistent, ClientsLocated, ClientsSettled, AllScopesMatch, MapperNamesUnique;
      e := SyncPayloadsIfNeeded(s, d);
      if e.Some? {
        return;
      }
      ghost var r1 := realm;
      ClientsStayLocated(old(realm), r1, d, s);
      e := SyncBothClients(s, d);
      FrameTwice(old(realm), r1, realm, d);
      SameScopesMatch(r1, realm, d);
      if e.Some? {
        return;
      }
      ghost var r2 := realm;
      if !ready {
        e := SyncRealmSets(s, d);
        RealmSetsFrame(r2, realm, d);
        FrameTwice(old(realm), r2, realm, d);
        SameScopesMatch(r2, realm, d);
        ClientsStaySettled(r2, realm, d, s);
      }
    }

    /** All the writes of one run: they end in the desired state, or stop at the first drift that cannot be repaired. */
    method Migrate(s: Snapshot, d: Desired, clientReady: bool, codexReady: bool, scopesReady: bool) returns (e: Option<Drift>)
      requires ValidDesired(d) && Consistent(realm) && ReadError(realm).None? && Reads(realm, d, s)
      requires clientReady == ClientMatches(s.client.fields, d.client.fields)
      requires codexReady ==> s.codex.Some? && ClientMatches(s.codex.value.fields, d.codex.fields)
      requires scopesReady ==> s.defaults == d.defaults && s.optionals == d.optionals
      modifies this
      ensures Consistent(realm) && Frame(old(realm), realm, d) && NoMask(realm)
      ensures e.None? ==> Settled(realm, d) && ScopesExist(old(realm), d) && MapperNamesUnique(old(realm), d)
      ensures ScopesExist(old(realm), d) && MapperNamesUnique(old(realm), d) && ListsReadable(d.codex) ==> e.None?
      ensures e != Some(VerificationFailed)
      ensures Settled(old(realm), d) && clientReady && codexReady && e.None? ==> realm == old(realm)
    {
      hide ClientMatches, ReadError, Frame, Consistent, ValidDesired, Holds, Stores, ReadsScopes, ClientsLocated, ScopesSettled,
           ListsReadable, Settled, NoMask;
      var reading := MigrateClients(s, d, clientReady, codexReady);
      StoredIsUnmasked(realm, d);
      if reading.Err? {
        return Some(reading.error);
      }
      ghost var middle := realm;
      e := MigrateScopes(reading.value, d, scopesReady);
      FrameTwice(old(realm), middle, realm, d);
      StoredIsUnmasked(realm, d);
      if e.None? {
        NowSettled(old(realm), realm, d, reading.value);
      }
      if Settled(old(realm), d) && clientReady && codexReady {
        SettledScopes(middle, d, s);
      }
    }

    /**
     `reconcile`. Without `apply` it only reports whether the server is in sync. With it the run ends in the
     desired state exactly when the server can be read, every scope exists, no mapper name is ambiguous and no
     desired scope list is empty; the final verification never fails; and a settled server is not changed.
     */
    method Reconcile(d: Desired, apply: bool) returns (r: Result<Status, Drift>)
      requires ValidDesired(d) && Consistent(realm)
      modifies this
      ensures Consistent(realm) && Frame(old(realm), realm, d)
      ensures NoMask(old(realm)) ==> NoMask(realm)
      ensures ReadError(old(realm)).Some? ==> r == Err(ReadError(old(realm)).value)
      ensures !apply || ReadError(old(realm)).Some? ==> realm == old(realm)
      ensures !apply && ReadError(old(realm)).None? ==> r == if InSync(old(realm), d) then Ok(Ready) else Err(MigrationRequired)
      ensures apply ==> r != Ok(Ready) && (r == Ok(Updated) <==> Reconcilable(old(realm), d))
      ensures r == Ok(Updated) ==> Settled(realm, d)
      ensures r != Err(VerificationFailed)
      ensures apply && Settled(old(realm), d) && ListsDesired(d) ==> r == Ok(Updated) && realm == old(realm)
      ensures !apply && ReadError(old(realm)).None? ==> r == if AllReadable(old(realm), d) then Ok(Ready) else Err(MigrationRequired)
      ensures r == Ok(Updated) ==> AllStored(realm, d)
      ensures r == Ok(Updated) ==> forall name :: name in d.scopes && Plain(d.scopes[name].mappers) ==>
                && name in realm.scopes && NamedApart(realm.scopes[name].mappers)
                && Keyed(realm.scopes[name].mappers) == d.scopes[name].mappers
      ensures apply && AllStored(old(realm), d) && ListsDesired(d) ==> r == Ok(Updated) && realm == old(realm)
    {
      hide Consistent, ValidDesired, ClientMatches, PayloadsMatch, RealmMatches, ProviderMatches, Masked, Frame, Reads, WithClientId,
           ReadError, Holds, Stores, Settled, InSync, NoMask, MapperNamesUnique, AllReadable, AllStored, NamedApart, Keyed, Plain;
      FrameSame(realm, d);
      SettledMeans(realm, d);
      var reading := ReadCurrent(d);
      if reading.Err? {
        NeedsReading(realm, d);
        return Err(reading.error);
      }
      var s := reading.value;
      VerifiedMeans(realm, d, s);
      var realmReady := RealmMatches(s.realm, d.realm);
      var smtpMasked := Get(SubObject(s.realm, "smtpServer"), "password") == MASK;
      var providerReady := s.provider.Some? && ProviderMatches(s.provider.value, d.provider);
      var googleMasked := s.provider.Some? && Get(SubObject(s.provider.value, "config"), "clientSecret") == MASK;
      var clientReady := ClientMatches(s.client.fields, d.client.fields);
      var codexReady := && s.codex.Some? && ClientMatches(s.codex.value.fields, d.codex.fields)
                        && s.codex.value.defaults == d.codex.defaults && s.codex.value.optionals == d.codex.optionals;
      var scopesReady := && s.client.defaults == d.client.defaults && s.client.optionals == d.client.optionals
                         && s.defaults == d.defaults && s.optionals == d.optionals && PayloadsMatch(s.payloads, d.scopes);
      if Settled(realm, d) {
        SettledVerifies(realm, d, s);
        SettledReadable(realm, d);
        SettledIsReconcilable(realm, d);
      }
      ReadyMeansInSync(realm, d, s, realmReady && providerReady && clientReady && codexReady && scopesReady);
      if realmReady && providerReady && clientReady && codexReady && scopesReady && (!apply || !smtpMasked) && (!apply || !googleMasked) {
        ReadyIsMasked(realm, d, s);
        return Ok(Ready);
      }
      if !apply {
        return Err(MigrationRequired);
      }
      var e := Migrate(s, d, clientReady, codexReady, scopesReady);
      if e.Some? {
        return Err(e.value);
      }
      SettledReadable(realm, d);
      var again := ReadCurrent(d);
      if again.Err? {
        return Err(again.error);
      }
      SettledVerifies(realm, d, again.value);
      if !Verified(again.value, d) {
        return Err(VerificationFailed);
      }
      SettledMeans(realm, d);
      forall name | name in d.scopes && Plain(d.scopes[name].mappers)
        ensures name in realm.scopes && NamedApart(realm.scopes[name].mappers)
        ensures Keyed(realm.scopes[name].mappers) == d.scopes[name].mappers
      {
        StoredMappers(realm, d, name);
      }
      r := Ok(Updated);
    }
  }
}
