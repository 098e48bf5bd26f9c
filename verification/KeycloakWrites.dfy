/**
 What the reconciler's writes change and what they leave alone: scope sets, the frame of a whole run, and the
 client look-ups that later requests rely on.
 */
module KeycloakWrites {
  import opened Prelude
  import opened Keycloak
  import opened KeycloakMappers

  /** The six scope sets a reconciliation manages. */
  datatype SetRef = ClientDefault(id: nat) | ClientOptional(id: nat) | RealmDefault | RealmOptional

  predicate Has(r: Realm, ref: SetRef) {
    ref.ClientDefault? || ref.ClientOptional? ==> ref.id in r.clients
  }

  function GetSet(r: Realm, ref: SetRef): set<string>
    requires Has(r, ref)
  {
    match ref
    case ClientDefault(id) => r.clients[id].defaults
    case ClientOptional(id) => r.clients[id].optionals
    case RealmDefault => r.defaults
    case RealmOptional => r.optionals
  }

  function WithSet(r: Realm, ref: SetRef, names: set<string>): Realm
    requires Has(r, ref)
  {
    match ref
    case ClientDefault(id) => r.(clients := r.clients[id := r.clients[id].(defaults := names)])
    case ClientOptional(id) => r.(clients := r.clients[id := r.clients[id].(optionals := names)])
    case RealmDefault => r.(defaults := names)
    case RealmOptional => r.(optionals := names)
  }

  lemma SetTwice(r: Realm, ref: SetRef, first: set<string>, second: set<string>)
    requires Has(r, ref)
    ensures Has(WithSet(r, ref, first), ref) && GetSet(WithSet(r, ref, first), ref) == first
    ensures WithSet(WithSet(r, ref, first), ref, second) == WithSet(r, ref, second)
  {
  }

  lemma SetSame(r: Realm, ref: SetRef)
    requires Has(r, ref)
    ensures WithSet(r, ref, GetSet(r, ref)) == r
  {
  }

  // ---------------------------------------------------------------- frame

  predicate KeptFields(before: Object, after: Object, desired: Object) {
    forall field :: field in before && field !in desired ==> field in after && after[field] == before[field]
  }

  /** Fields, and keys inside one part, that the configuration does not mention survive. */
  predicate Kept(before: Object, after: Object, desired: Object, part: string) {
    KeptFields(before, after, desired) && KeptFields(SubObject(before, part), SubObject(after, part), SubObject(desired, part))
  }

  datatype Role = McpClient | CodexClient | OtherClient

  function RoleOf(c: Client): Role {
    if Get(c.fields, "clientId") in {HOSTED, LEGACY} then McpClient
    else if Get(c.fields, "clientId") == CODEX then CodexClient
    else OtherClient
  }

  ghost predicate ClientKept(before: Client, after: Client, d: Desired) {
    && RoleOf(after) == RoleOf(before)
    && match RoleOf(before)
       case McpClient => Kept(before.fields, after.fields, d.client.fields, "attributes")
       case CodexClient => Kept(before.fields, after.fields, d.codex.fields, "attributes")
       case OtherClient => after == before
  }

  ghost predicate ClientsKept(before: Realm, after: Realm, d: Desired) {
    forall id :: id in before.clients ==> id in after.clients && ClientKept(before.clients[id], after.clients[id], d)
  }

  ghost predicate ScopesKept(before: Realm, after: Realm, d: Desired) {
    && after.scopes.Keys == before.scopes.Keys
    && forall name :: name in before.scopes ==>
         if name in d.scopes then KeptFields(before.scopes[name].core, after.scopes[name].core, d.scopes[name].core)
         else after.scopes[name] == before.scopes[name]
  }

  predicate ProviderKept(before: Option<Object>, after: Option<Object>, d: Desired) {
    before.Some? ==> after.Some? && Kept(before.value, after.value, d.provider, "config")
  }

  /** The frame of a reconciliation: whatever the configuration does not manage is as it was. */
  ghost predicate Frame(before: Realm, after: Realm, d: Desired) {
    && KeptFields(before.fields, after.fields, d.realm)
    && ProviderKept(before.provider, after.provider, d)
    && after.flowSafe == before.flowSafe
    && ClientsKept(before, after, d)
    && ScopesKept(before, after, d)
    && before.nextId <= after.nextId
  }

  lemma FrameSame(r: Realm, d: Desired)
    ensures Frame(r, r, d)
  {
  }

  lemma KeptTwice(a: Object, b: Object, c: Object, desired: Object, part: string)
    requires Kept(a, b, desired, part) && Kept(b, c, desired, part)
    ensures Kept(a, c, desired, part)
  {
  }

  lemma ClientsKeptTwice(a: Realm, b: Realm, c: Realm, d: Desired)
    requires ClientsKept(a, b, d) && ClientsKept(b, c, d)
    ensures ClientsKept(a, c, d)
  {
    hide Kept, RoleOf;
    forall id | id in a.clients ensures id in c.clients && ClientKept(a.clients[id], c.clients[id], d) {
      assert ClientKept(a.clients[id], b.clients[id], d) && ClientKept(b.clients[id], c.clients[id], d);
      match RoleOf(a.clients[id])
      case McpClient =>
        KeptTwice(a.clients[id].fields, b.clients[id].fields, c.clients[id].fields, d.client.fields, "attributes");
      case CodexClient =>
        KeptTwice(a.clients[id].fields, b.clients[id].fields, c.clients[id].fields, d.codex.fields, "attributes");
      case OtherClient =>
    }
  }

  lemma FrameTwice(a: Realm, b: Realm, c: Realm, d: Desired)
    requires Frame(a, b, d) && Frame(b, c, d)
    ensures Frame(a, c, d)
  {
    ClientsKeptTwice(a, b, c, d);
    if a.provider.Some? {
      KeptTwice(a.provider.value, b.provider.value, c.provider.value, d.provider, "config");
    }
    hide Kept, ClientKept;
  }

  // ---------------------------------------------------------------- clients by clientId

  lemma LookupAfterPut(r: Realm, id: nat, fields: Object, names: set<Json>)
    requires id in r.clients && (Get(fields, "clientId") in names <==> Get(r.clients[id].fields, "clientId") in names)
    ensures WithClientId(r.(clients := r.clients[id := r.clients[id].(fields := fields)]), names) == WithClientId(r, names)
  {
  }

  // ---------------------------------------------------------------- where the reconciler stands

  /** The reading's MCP client is the server's, though its fields may have been rewritten since. */
  ghost predicate LocatedClient(r: Realm, s: Snapshot) {
    && s.clientId in r.clients && WithClientId(r, {HOSTED, LEGACY}) == {s.clientId}
    && s.client.defaults == r.clients[s.clientId].defaults && s.client.optionals == r.clients[s.clientId].optionals
  }

  ghost predicate LocatedCodex(r: Realm, s: Snapshot) {
    && s.codexId.Some? && s.codex.Some? && s.codexId.value in r.clients && WithClientId(r, {CODEX}) == {s.codexId.value}
    && s.codex.value.defaults == r.clients[s.codexId.value].defaults
    && s.codex.value.optionals == r.clients[s.codexId.value].optionals
  }

  /** Both clients are where the reading says and their representations match. */
  ghost predicate ClientsPlaced(r: Realm, d: Desired, s: Snapshot) {
    && LocatedClient(r, s) && LocatedCodex(r, s)
    && ClientMatches(r.clients[s.clientId].fields, d.client.fields)
    && ClientMatches(r.clients[s.codexId.value].fields, d.codex.fields)
  }

  /** Neither stored secret is the mask. */
  predicate NoMask(r: Realm) {
    && Get(SubObject(r.fields, "smtpServer"), "password") != MASK
    && (r.provider.Some? ==> Get(SubObject(r.provider.value, "config"), "clientSecret") != MASK)
  }

  /** A configuration that can be applied: the server reads, every scope exists, no mapper name is ambiguous. */
  ghost predicate Reconcilable(r: Realm, d: Desired) {
    ReadError(r).None? && ScopesExist(r, d) && MapperNamesUnique(r, d) && ListsDesired(d)
  }

  lemma ReadErrorDependsOnClients(r: Realm, other: Realm)
    requires other.clients == r.clients && other.flowSafe == r.flowSafe
    ensures ReadError(other) == ReadError(r)
  {
  }

  /** A stored secret reads as the mask, so a matching representation is always a masked one. */
  lemma MatchShowsMask(stored: Object, desired: Object, part: string, secret: string)
    requires part in desired && desired[part].Obj? && IsSecret(Get(desired[part].fields, secret))
    requires FieldsMatch(Masked(stored, part, secret), desired, part, secret)
    ensures Get(SubObject(Masked(stored, part, secret), part), secret) == MASK
  {
  }

  lemma SettledIsReconcilable(r: Realm, d: Desired)
    requires Settled(r, d) && Consistent(r) && ListsDesired(d) && ValidDesired(d)
    ensures Reconcilable(r, d)
  {
    SettledReadable(r, d);
    var id: nat :| SettledClient(r, id, d.client, {HOSTED, LEGACY});
    var codex: nat :| SettledClient(r, codex, d.codex, {CODEX});
    hide WithClientId, ClientMatches, ReadError, CoreMatches, MapperMatches, ListsDesired;
    assert d.scopes.Keys <= r.scopes.Keys;
    assert MapperNamesUnique(r, d);
  }

  // ---------------------------------------------------------------- scope payloads

  /** Only scopes and the id counter moved, and within the frame. */
  ghost predicate ScopesOnly(before: Realm, after: Realm, d: Desired) {
    && after == before.(scopes := after.scopes, nextId := after.nextId)
    && before.nextId <= after.nextId && Consistent(after) && ScopesKept(before, after, d)
  }

  lemma OneScopeOnly(start: Realm, before: Realm, after: Realm, d: Desired, name: string)
    requires ScopesOnly(start, before, d) && Consistent(before) && OnlyScope(before, after, name)
    requires name in d.scopes && name in start.scopes && name in before.scopes && before.scopes[name] == start.scopes[name]
    requires FreshIds(after.scopes[name].mappers, after.nextId)
    requires KeptFields(before.scopes[name].core, after.scopes[name].core, d.scopes[name].core)
    ensures ScopesOnly(start, after, d)
  {
  }

  /** Scopes still to do are untouched; the others had unambiguous mappers and now match. */
  ghost predicate SyncedBut(start: Realm, now: Realm, d: Desired, todo: set<string>) {
    && start.scopes.Keys == now.scopes.Keys && d.scopes.Keys <= now.scopes.Keys
    && (forall name :: name in todo && name in now.scopes ==> now.scopes[name] == start.scopes[name])
    && (forall name :: name in d.scopes && name !in todo ==>
          NamesUnique(start.scopes[name].mappers) && ScopeMatches(now.scopes[name], d.scopes[name]))
  }

  lemma OneScopeSynced(start: Realm, before: Realm, after: Realm, d: Desired, todo: set<string>, name: string)
    requires SyncedBut(start, before, d, todo) && OnlyScope(before, after, name)
    requires name in todo && name in d.scopes
    requires NamesUnique(start.scopes[name].mappers) && ScopeMatches(after.scopes[name], d.scopes[name])
    ensures SyncedBut(start, after, d, todo - {name})
  {
    hide ScopeMatches, NamesUnique;
  }

  lemma StartSync(r: Realm, d: Desired)
    requires d.scopes.Keys <= r.scopes.Keys
    ensures SyncedBut(r, r, d, d.scopes.Keys)
  {
  }

  lemma NextToSync(start: Realm, now: Realm, d: Desired, todo: set<string>, name: string)
    requires SyncedBut(start, now, d, todo) && ScopesOnly(start, now, d) && name in todo && name in d.scopes
    ensures name in start.scopes && name in now.scopes && now.scopes[name] == start.scopes[name]
    ensures Consistent(now) && FreshIds(now.scopes[name].mappers, now.nextId)
  {
  }

  lemma SyncedNames(start: Realm, now: Realm, d: Desired)
    requires SyncedBut(start, now, d, {})
    ensures MapperNamesUnique(start, d)
  {
  }

  // ---------------------------------------------------------------- merged representations

  lemma HoldsItself(desired: Object, part: string)
    requires part in desired && desired[part].Obj?
    ensures Holds(desired, desired, part)
  {
  }

  lemma MergeKeeps(current: Object, desired: Object, part: string)
    requires part in desired && desired[part].Obj?
    ensures Kept(current, Merged(current, desired, part), desired, part)
  {
  }

  /** Merging over a masked reading holds what is desired, keeps the rest, and settles in one step. */
  lemma ProviderRewrite(stored: Object, desired: Object)
    requires "config" in desired && desired["config"].Obj? && IsSecret(Get(desired["config"].fields, "clientSecret"))
    ensures var after := Merged(Masked(stored, "config", "clientSecret"), desired, "config");
            && Holds(after, desired, "config") && Kept(stored, after, desired, "config")
            && (Holds(stored, desired, "config") ==> after == stored)
  {
    var shown := Masked(stored, "config", "clientSecret");
    MergeHolds(shown, desired, "config");
    if Holds(stored, desired, "config") {
      RewriteIsFixpoint(stored, desired, "config", "clientSecret");
    }
    MergeKeeps(shown, desired, "config");
  }

  function ClientMerged(r: Realm, id: nat, desired: Object): Realm
    requires id in r.clients && "attributes" in desired && desired["attributes"].Obj?
  {
    r.(clients := r.clients[id := r.clients[id].(fields := Merged(r.clients[id].fields, desired, "attributes"))])
  }

  /** The desired representation of a client in this role. */
  predicate DesiredFor(d: Desired, role: Role, desired: Object) {
    && "attributes" in desired && desired["attributes"].Obj?
    && match role
       case McpClient => desired == d.client.fields && Get(desired, "clientId") == HOSTED
       case CodexClient => desired == d.codex.fields && Get(desired, "clientId") == CODEX
       case OtherClient => false
  }

  /** Merging a client's representation keeps its role and stays in the frame. */
  lemma MergedClientFrame(r: Realm, id: nat, d: Desired, desired: Object)
    requires id in r.clients && DesiredFor(d, RoleOf(r.clients[id]), desired)
    ensures Frame(r, ClientMerged(r, id, desired), d)
    ensures RoleOf(ClientMerged(r, id, desired).clients[id]) == RoleOf(r.clients[id])
  {
    var fields := Merged(r.clients[id].fields, desired, "attributes");
    assert Get(fields, "clientId") == Get(desired, "clientId");
    MergeKeeps(r.clients[id].fields, desired, "attributes");
    FrameSame(r, d);
    hide Merged, Kept, KeptFields;
  }

  lemma MergedClientLookups(r: Realm, id: nat, d: Desired, desired: Object)
    requires id in r.clients && DesiredFor(d, RoleOf(r.clients[id]), desired)
    ensures WithClientId(ClientMerged(r, id, desired), {HOSTED, LEGACY}) == WithClientId(r, {HOSTED, LEGACY})
    ensures WithClientId(ClientMerged(r, id, desired), {CODEX}) == WithClientId(r, {CODEX})
  {
    MergedClientFrame(r, id, d, desired);
    var fields := Merged(r.clients[id].fields, desired, "attributes");
    LookupAfterPut(r, id, fields, {HOSTED, LEGACY});
    LookupAfterPut(r, id, fields, {CODEX});
    hide Merged, Frame, WithClientId, DesiredFor, Kept;
  }

  lemma MergedClientConsistent(r: Realm, id: nat, desired: Object)
    requires id in r.clients && "attributes" in desired && desired["attributes"].Obj? && Consistent(r)
    ensures Consistent(ClientMerged(r, id, desired))
  {
    hide Merged;
  }

  lemma DesiredClients(d: Desired)
    requires ValidDesired(d)
    ensures DesiredFor(d, McpClient, d.client.fields) && DesiredFor(d, CodexClient, d.codex.fields)
  {
  }

  /** So every look-up still finds it, and a reading succeeds as before. */
  lemma MergedClientFound(r: Realm, id: nat, d: Desired, desired: Object)
    requires id in r.clients && DesiredFor(d, RoleOf(r.clients[id]), desired)
    ensures var after := ClientMerged(r, id, desired);
            && WithClientId(after, {HOSTED, LEGACY}) == WithClientId(r, {HOSTED, LEGACY})
            && WithClientId(after, {CODEX}) == WithClientId(r, {CODEX})
            && ReadError(after) == ReadError(r)
  {
    MergedClientLookups(r, id, d, desired);
    hide Merged, WithClientId, RoleOf, DesiredFor;
    assert forall i :: i in r.clients ==> ListsReadable(ClientMerged(r, id, desired).clients[i]) == ListsReadable(r.clients[i]);
  }

  /** One client was added under the next id, with scope lists of the server's choice. */
  ghost predicate Posted(before: Realm, after: Realm, fields: Object) {
    && before.nextId in after.clients
    && after == before.(clients := before.clients[before.nextId := after.clients[before.nextId]], nextId := before.nextId + 1)
    && after.clients[before.nextId].fields == fields
    && after.clients[before.nextId].defaults <= after.scopes.Keys && after.clients[before.nextId].optionals <= after.scopes.Keys
  }

  lemma PostedFrame(before: Realm, after: Realm, d: Desired)
    requires Consistent(before) && Posted(before, after, d.codex.fields)
    ensures Consistent(after) && Frame(before, after, d)
  {
  }

  /** After the Codex client is created, both clients are found, and only its lists can fail a reading. */
  lemma PostedLookups(before: Realm, after: Realm, clientId: nat, d: Desired)
    requires ValidDesired(d) && Consistent(before) && ReadError(before).None? && Posted(before, after, d.codex.fields)
    requires WithClientId(before, {HOSTED, LEGACY}) == {clientId} && WithClientId(before, {CODEX}) == {}
    ensures WithClientId(after, {HOSTED, LEGACY}) == {clientId} && WithClientId(after, {CODEX}) == {before.nextId}
    ensures clientId in before.clients && clientId != before.nextId
    ensures ListsReadable(after.clients[before.nextId]) ==> ReadError(after).None?
    ensures ClientMatches(d.codex.fields, d.codex.fields)
  {
  }

  // ---------------------------------------------------------------- scopes and scope sets, settled

  ghost predicate AllScopesMatch(r: Realm, d: Desired) {
    forall name :: name in d.scopes ==> name in r.scopes && ScopeMatches(r.scopes[name], d.scopes[name])
  }

  ghost predicate ScopesSettled(r: Realm, d: Desired, s: Snapshot) {
    AllScopesMatch(r, d) && ClientsSettled(r, d, s) && r.defaults == d.defaults && r.optionals == d.optionals
  }

  /** The reading's payloads match exactly when every managed scope does, and then no mapper name is ambiguous. */
  lemma PayloadsRead(r: Realm, d: Desired, s: Snapshot)
    requires ReadsScopes(r, d, s)
    ensures PayloadsMatch(s.payloads, d.scopes) <==> AllScopesMatch(r, d)
    ensures AllScopesMatch(r, d) ==> d.scopes.Keys <= r.scopes.Keys && MapperNamesUnique(r, d)
  {
  }

  lemma ScopesFrame(before: Realm, after: Realm, d: Desired)
    requires ScopesOnly(before, after, d)
    ensures Frame(before, after, d) && Consistent(after)
    ensures after == before.(scopes := after.scopes, nextId := after.nextId) && after.scopes.Keys == before.scopes.Keys
  {
  }

  /** Changing the sets of the MCP or the Codex client stays in the frame and moves no look-up. */
  lemma ClientSetsFrame(before: Realm, after: Realm, id: nat, d: Desired)
    requires id in before.clients && id in after.clients && RoleOf(before.clients[id]) != OtherClient
    requires after == before.(clients := before.clients[id := after.clients[id]])
    requires after.clients[id].fields == before.clients[id].fields
    ensures Frame(before, after, d)
    ensures forall names :: WithClientId(after, names) == WithClientId(before, names)
  {
  }

  lemma RealmSetsFrame(before: Realm, after: Realm, d: Desired)
    requires after == before.(defaults := after.defaults, optionals := after.optionals)
    ensures Frame(before, after, d)
    ensures forall names :: WithClientId(after, names) == WithClientId(before, names)
  {
  }

  lemma SyncedMatch(start: Realm, now: Realm, d: Desired)
    requires SyncedBut(start, now, d, {})
    ensures AllScopesMatch(now, d)
  {
  }

  lemma CodexFound(r: Realm, s: Snapshot)
    requires LocatedClient(r, s) && ReadsCodex(r, s) && s.codex.Some?
    ensures s.codexId.value != s.clientId && RoleOf(r.clients[s.codexId.value]) == CodexClient
  {
  }

  /** The clients are where the reading says and match; the Codex client may be missing from the reading. */
  ghost predicate ClientsLocated(r: Realm, d: Desired, s: Snapshot) {
    && LocatedClient(r, s) && ClientMatches(r.clients[s.clientId].fields, d.client.fields)
    && (s.codexId.Some? ==> LocatedCodex(r, s) && ClientMatches(r.clients[s.codexId.value].fields, d.codex.fields))
  }

  ghost predicate ClientsSettled(r: Realm, d: Desired, s: Snapshot) {
    && SettledClient(r, s.clientId, d.client, {HOSTED, LEGACY})
    && s.codexId.Some? && SettledClient(r, s.codexId.value, d.codex, {CODEX})
  }

  predicate ClientScopesExist(r: Realm, d: Desired) {
    && d.client.defaults <= r.scopes.Keys && d.client.optionals <= r.scopes.Keys
    && d.codex.defaults <= r.scopes.Keys && d.codex.optionals <= r.scopes.Keys
  }

  lemma ClientsFound(r: Realm, d: Desired, s: Snapshot)
    requires ClientsLocated(r, d, s)
    ensures RoleOf(r.clients[s.clientId]) == McpClient
    ensures s.codexId.Some? ==> s.codexId.value != s.clientId && RoleOf(r.clients[s.codexId.value]) == CodexClient
  {
  }

  lemma ClientsStayLocated(before: Realm, after: Realm, d: Desired, s: Snapshot)
    requires ClientsLocated(before, d, s) && after.clients == before.clients
    ensures ClientsLocated(after, d, s)
  {
  }

  lemma ClientsStaySettled(before: Realm, after: Realm, d: Desired, s: Snapshot)
    requires ClientsSettled(before, d, s) && after.clients == before.clients
    ensures ClientsSettled(after, d, s)
  {
  }

  lemma SameScopesMatch(before: Realm, after: Realm, d: Desired)
    requires AllScopesMatch(before, d) && after.scopes == before.scopes
    ensures AllScopesMatch(after, d)
  {
  }

  // ---------------------------------------------------------------- readings across writes

  lemma ReadingStays(before: Realm, after: Realm, d: Desired, s: Snapshot)
    requires Reads(before, d, s) && after == before.(fields := after.fields)
    ensures s.provider == ShownProvider(after) && ReadsClients(after, s) && ReadsScopes(after, d, s)
  {
  }

  lemma RealmFrame(before: Realm, after: Realm, d: Desired)
    requires Consistent(before) && after == before.(fields := after.fields, provider := after.provider)
    requires KeptFields(before.fields, after.fields, d.realm) && ProviderKept(before.provider, after.provider, d)
    ensures Consistent(after) && Frame(before, after, d)
  {
  }

  lemma SameClients(before: Realm, after: Realm, d: Desired, s: Snapshot, again: Snapshot)
    requires Reads(before, d, s) && after.clients == before.clients && ReadsClients(after, again)
    ensures again.client == s.client && again.codex == s.codex
  {
  }

  lemma SameSets(before: Realm, after: Realm, d: Desired, s: Snapshot, again: Snapshot)
    requires Reads(before, d, s) && ReadsScopes(after, d, again)
    requires after.defaults == before.defaults && after.optionals == before.optionals
    ensures again.defaults == s.defaults && again.optionals == s.optionals
  {
  }

  // ---------------------------------------------------------------- the whole run

  /** What a run without `apply` calls ready: every reading of the server passes verification. */
  ghost predicate InSync(r: Realm, d: Desired) {
    forall s :: Reads(r, d, s) ==> Verified(s, d)
  }

  lemma ReadyMeansInSync(r: Realm, d: Desired, s: Snapshot, ready: bool)
    requires Reads(r, d, s) && ready == Verified(s, d)
    ensures InSync(r, d) <==> ready
  {
  }

  lemma NeedsReading(r: Realm, d: Desired)
    requires ReadError(r).Some?
    ensures !Reconcilable(r, d)
    ensures Settled(r, d) ==> !ListsDesired(d)
  {
  }

  /** A server that matches shows both secrets masked, so a run with `apply` never stops at "ready". */
  lemma ReadyIsMasked(r: Realm, d: Desired, s: Snapshot)
    requires ValidDesired(d) && Reads(r, d, s)
    requires RealmMatches(s.realm, d.realm)
    ensures Get(SubObject(s.realm, "smtpServer"), "password") == MASK
  {
  }

  lemma StoredIsUnmasked(r: Realm, d: Desired)
    requires ValidDesired(d) && Stores(r.fields, d.realm) && r.provider.Some? && Holds(r.provider.value, d.provider, "config")
    ensures NoMask(r)
  {
  }

  lemma NowSettled(start: Realm, r: Realm, d: Desired, s: Snapshot)
    requires ReadError(start).None? && Frame(start, r, d)
    requires Stores(r.fields, d.realm) && r.provider.Some? && Holds(r.provider.value, d.provider, "config")
    requires ScopesSettled(r, d, s)
    ensures Settled(r, d)
  {
  }

  lemma SettledScopes(r: Realm, d: Desired, s: Snapshot)
    requires Settled(r, d) && ReadsClients(r, s)
    ensures ScopesSettled(r, d, s)
  {
  }
}
