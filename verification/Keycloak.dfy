/**
 The Keycloak realm as the admin API shows it, the desired configuration, and the predicates that say
 when the one matches the other. Secrets are stored in clear and shown as a mask.
 */
module Keycloak {
  import opened Prelude

  datatype Json = Null | Truth(value: bool) | Text(text: string) | List(items: seq<Json>) | Obj(fields: map<string, Json>)

  type Object = map<string, Json>

  /** A client: its representation, and the two scope sets that a PUT of the representation leaves alone. */
  datatype Client = Client(fields: Object, defaults: set<string>, optionals: set<string>)

  /** A client scope without its name and id; its mappers are keyed by their own ids. */
  datatype Scope = Scope(core: Object, mappers: map<nat, Object>)

  /** The server. Scopes are keyed by name, clients by internal id. */
  datatype Realm = Realm(
    fields: Object,
    provider: Option<Object>,
    flowSafe: bool,
    clients: map<nat, Client>,
    scopes: map<string, Scope>,
    defaults: set<string>,
    optionals: set<string>,
    nextId: nat)

  datatype DesiredScope = DesiredScope(core: Object, mappers: map<string, Object>)

  datatype Desired = Desired(
    realm: Object,
    provider: Object,
    client: Client,
    codex: Client,
    scopes: map<string, DesiredScope>,
    defaults: set<string>,
    optionals: set<string>)

  datatype Drift =
    | McpClientInvalid
    | CodexClientInvalid
    | FlowUnsafe
    | ScopesInvalid
    | MappersInvalid
    | RequiredScopeMissing
    | MigrationRequired
    | VerificationFailed

  datatype Status = Ready | Updated

  const MASK := Text("**********")
  const HOSTED := Text("https://claude.ai/oauth/mcp-oauth-client-metadata")
  const LEGACY := Text("aiqt-mcp")
  const CODEX := Text("aiqt-codex-cli")

  /** `dict.get`: a missing key reads as null. */
  function Get(o: Object, key: string): Json {
    if key in o then o[key] else Null
  }

  function SubObject(o: Object, key: string): Object {
    if key in o && o[key].Obj? then o[key].fields else map[]
  }

  // ---------------------------------------------------------------- what the API shows

  function Hidden(o: Object, key: string): Object {
    if key in o then o[key := MASK] else o
  }

  /** A representation with the secret inside one of its sub-objects masked. */
  function Masked(o: Object, part: string, secret: string): Object {
    if part in o && o[part].Obj? then o[part := Obj(Hidden(o[part].fields, secret))] else o
  }

  function ShownRealm(r: Realm): Object {
    Masked(r.fields, "smtpServer", "password")
  }

  function ShownProvider(r: Realm): Option<Object> {
    if r.provider.None? then None else Some(Masked(r.provider.value, "config", "clientSecret"))
  }

  function WithClientId(r: Realm, names: set<Json>): set<nat> {
    set id | id in r.clients && Get(r.clients[id].fields, "clientId") in names
  }

  /** One reading of the server, secrets masked. */
  datatype Snapshot = Snapshot(
    realm: Object,
    provider: Option<Object>,
    clientId: nat,
    client: Client,
    codexId: Option<nat>,
    codex: Option<Client>,
    scopeNames: set<string>,
    payloads: map<string, Scope>,
    defaults: set<string>,
    optionals: set<string>)

  predicate ListsReadable(c: Client) {
    c.defaults != {} && c.optionals != {}
  }

  /** The error `_read_current` raises, if any. */
  function ReadError(r: Realm): (e: Option<Drift>)
    ensures e.Some? ==> e.value in {McpClientInvalid, CodexClientInvalid, FlowUnsafe}
  {
    var candidates := WithClientId(r, {HOSTED, LEGACY});
    var codex := WithClientId(r, {CODEX});
    if |codex| > 1 then Some(McpClientInvalid)
    else if !r.flowSafe then Some(FlowUnsafe)
    else if |candidates| != 1 then Some(McpClientInvalid)
    else if exists id :: id in candidates && !ListsReadable(r.clients[id]) then Some(McpClientInvalid)
    else if exists id :: id in codex && !ListsReadable(r.clients[id]) then Some(CodexClientInvalid)
    else None
  }

  /** What a successful reading reports. */
  ghost predicate Reads(r: Realm, d: Desired, s: Snapshot) {
    s.realm == ShownRealm(r) && s.provider == ShownProvider(r) && ReadsClients(r, s) && ReadsScopes(r, d, s)
  }

  ghost predicate ReadsClients(r: Realm, s: Snapshot) {
    && s.clientId in r.clients && WithClientId(r, {HOSTED, LEGACY}) == {s.clientId} && s.client == r.clients[s.clientId]
    && ReadsCodex(r, s)
  }

  ghost predicate ReadsCodex(r: Realm, s: Snapshot) {
    && (s.codexId.None? <==> WithClientId(r, {CODEX}) == {})
    && (s.codexId.None? <==> s.codex.None?)
    && (s.codexId.Some? ==> s.codexId.value in r.clients && WithClientId(r, {CODEX}) == {s.codexId.value}
                            && s.codex == Some(r.clients[s.codexId.value]))
  }

  ghost predicate ReadsScopes(r: Realm, d: Desired, s: Snapshot) {
    && s.scopeNames == r.scopes.Keys
    && s.payloads == (map name | name in d.scopes && name in r.scopes :: r.scopes[name])
    && s.defaults == r.defaults && s.optionals == r.optionals
  }

  // ---------------------------------------------------------------- match predicates

  /** Each desired field has its value, looking inside one part and excusing a masked secret there. */
  predicate FieldsMatch(current: Object, desired: Object, part: string, secret: string) {
    forall field :: field in desired ==>
      if field != part then Get(current, field) == desired[field]
      else
        && field in current && current[field].Obj? && desired[field].Obj?
        && forall key :: key in desired[field].fields ==>
             || (key == secret && Get(current[field].fields, key) == MASK)
             || Get(current[field].fields, key) == desired[field].fields[key]
  }

  predicate RealmMatches(current: Object, desired: Object) {
    FieldsMatch(current, desired, "smtpServer", "password")
  }

  predicate ProviderMatches(current: Object, desired: Object) {
    FieldsMatch(current, desired, "config", "clientSecret")
  }

  /** `_client_matches`: attributes need only be included. */
  predicate ClientMatches(current: Object, desired: Object) {
    forall field :: field in desired ==>
      if field != "attributes" then Get(current, field) == desired[field]
      else
        && field in current && current[field].Obj? && desired[field].Obj?
        && forall key :: key in desired[field].fields ==> Get(current[field].fields, key) == desired[field].fields[key]
  }

  predicate MapperMatches(current: Object, desired: Object) {
    && (forall field :: field in desired && field != "id" ==> Get(current, field) == desired[field])
    && current.Keys <= desired.Keys + {"id"}
  }

  predicate Named(mapper: Object) {
    Get(mapper, "name").Text?
  }

  function NameOf(mapper: Object): string
    requires Named(mapper)
  {
    Get(mapper, "name").text
  }

  predicate NamesUnique(mappers: map<nat, Object>) {
    && (forall id :: id in mappers ==> Named(mappers[id]))
    && (forall i, j :: i in mappers && j in mappers && i != j ==> NameOf(mappers[i]) != NameOf(mappers[j]))
  }

  function MapperNames(mappers: map<nat, Object>): set<string>
    requires NamesUnique(mappers)
  {
    set id | id in mappers :: NameOf(mappers[id])
  }

  predicate CoreMatches(current: Object, desired: Object) {
    forall field :: field in desired ==> Get(current, field) == desired[field]
  }

  predicate ScopeMatches(current: Scope, desired: DesiredScope) {
    && CoreMatches(current.core, desired.core)
    && NamesUnique(current.mappers)
    && MapperNames(current.mappers) == desired.mappers.Keys
    && (forall id :: id in current.mappers ==> MapperMatches(current.mappers[id], desired.mappers[NameOf(current.mappers[id])]))
  }

  predicate PayloadsMatch(current: map<string, Scope>, desired: map<string, DesiredScope>) {
    current.Keys == desired.Keys && forall name :: name in desired ==> ScopeMatches(current[name], desired[name])
  }

  /** The whole conjunction the final verification tests on a reading. */
  predicate Verified(s: Snapshot, d: Desired) {
    && RealmMatches(s.realm, d.realm)
    && s.provider.Some? && ProviderMatches(s.provider.value, d.provider)
    && ClientMatches(s.client.fields, d.client.fields)
    && s.codex.Some? && ClientMatches(s.codex.value.fields, d.codex.fields)
    && PayloadsMatch(s.payloads, d.scopes)
    && s.client.defaults == d.client.defaults && s.client.optionals == d.client.optionals
    && s.codex.value.defaults == d.codex.defaults && s.codex.value.optionals == d.codex.optionals
    && s.defaults == d.defaults && s.optionals == d.optionals
  }

  // ---------------------------------------------------------------- well-formedness

  /** A secret is a text other than the mask. */
  predicate IsSecret(value: Json) {
    value.Text? && value != MASK
  }

  /** What building a desired configuration from the template and the environment guarantees. */
  ghost predicate ValidDesired(d: Desired) {
    && "smtpServer" in d.realm && d.realm["smtpServer"].Obj?
    && IsSecret(Get(d.realm["smtpServer"].fields, "password"))
    && "config" in d.provider && d.provider["config"].Obj?
    && IsSecret(Get(d.provider["config"].fields, "clientSecret"))
    && Get(d.client.fields, "clientId") == HOSTED && Get(d.codex.fields, "clientId") == CODEX
    && "attributes" in d.client.fields && d.client.fields["attributes"].Obj?
    && "attributes" in d.codex.fields && d.codex.fields["attributes"].Obj?
    && d.scopes.Keys == d.defaults + d.optionals
    && (forall name :: name in d.scopes ==> forall mapper :: mapper in d.scopes[name].mappers ==>
          "id" !in d.scopes[name].mappers[mapper] && Get(d.scopes[name].mappers[mapper], "name") == Text(mapper))
  }

  /** What the server keeps true of itself. */
  ghost predicate Consistent(r: Realm) {
    && (forall id :: id in r.clients ==> id < r.nextId)
    && (forall id :: id in r.clients ==> r.clients[id].defaults <= r.scopes.Keys)
    && (forall id :: id in r.clients ==> r.clients[id].optionals <= r.scopes.Keys)
    && (forall name :: name in r.scopes ==> forall id :: id in r.scopes[name].mappers ==> id < r.nextId)
    && r.defaults <= r.scopes.Keys && r.optionals <= r.scopes.Keys
  }

  /** Every scope the configuration mentions exists. */
  predicate ScopesExist(r: Realm, d: Desired) {
    && d.scopes.Keys <= r.scopes.Keys
    && d.client.defaults <= r.scopes.Keys && d.client.optionals <= r.scopes.Keys
    && d.codex.defaults <= r.scopes.Keys && d.codex.optionals <= r.scopes.Keys
  }

  /** No managed scope holds two mappers of one name. */
  predicate MapperNamesUnique(r: Realm, d: Desired) {
    forall name :: name in d.scopes && name in r.scopes ==> NamesUnique(r.scopes[name].mappers)
  }

  /** The desired configuration itself can be read back: no client has an empty scope list. */
  predicate ListsDesired(d: Desired) {
    ListsReadable(d.client) && ListsReadable(d.codex)
  }

  // ---------------------------------------------------------------- the settled state

  ghost predicate Stores(stored: Object, desired: Object) {
    forall field :: field in desired ==> field in stored && stored[field] == desired[field]
  }

  /** Every managed field of `desired` is stored as desired; inside `part` only its own keys are managed. */
  ghost predicate Holds(stored: Object, desired: Object, part: string) {
    forall field :: field in desired ==>
      && field in stored
      && (if field != part then stored[field] == desired[field]
          else
            && stored[field].Obj? && desired[field].Obj?
            && forall key :: key in desired[field].fields ==>
                 key in stored[field].fields && stored[field].fields[key] == desired[field].fields[key])
  }

  /** The server stores everything the configuration asks for, secrets included. */
  ghost predicate Settled(r: Realm, d: Desired) {
    && Stores(r.fields, d.realm)
    && r.provider.Some? && Holds(r.provider.value, d.provider, "config")
    && r.flowSafe
    && (exists id: nat :: SettledClient(r, id, d.client, {HOSTED, LEGACY}))
    && (exists id: nat :: SettledClient(r, id, d.codex, {CODEX}))
    && (forall name :: name in d.scopes ==> name in r.scopes && ScopeMatches(r.scopes[name], d.scopes[name]))
    && r.defaults == d.defaults && r.optionals == d.optionals
  }

  ghost predicate SettledClient(r: Realm, id: nat, c: Client, names: set<Json>) {
    && id in r.clients && WithClientId(r, names) == {id}
    && ClientMatches(r.clients[id].fields, c.fields)
    && r.clients[id].defaults == c.defaults && r.clients[id].optionals == c.optionals
  }

  // ---------------------------------------------------------------- what writes do

  /** `{**current, **desired}` with one sub-object merged key by key. */
  function Merged(current: Object, desired: Object, part: string): Object
    requires part in desired && desired[part].Obj?
  {
    current + desired[part := Obj(SubObject(current, part) + desired[part].fields)]
  }

  /** A merge stores what is desired and leaves every unmanaged field and key as it was. */
  lemma MergeHolds(current: Object, desired: Object, part: string)
    requires part in desired && desired[part].Obj?
    ensures Holds(Merged(current, desired, part), desired, part)
    ensures forall field :: field in current && field !in desired ==>
              field in Merged(current, desired, part) && Merged(current, desired, part)[field] == current[field]
    ensures forall key :: key in SubObject(current, part) && key !in desired[part].fields ==>
              key in SubObject(Merged(current, desired, part), part)
              && SubObject(Merged(current, desired, part), part)[key] == SubObject(current, part)[key]
  {
  }

  /** Writing a client this way makes it match. */
  lemma MergeMatches(current: Object, desired: Object)
    requires "attributes" in desired && desired["attributes"].Obj?
    ensures ClientMatches(Merged(current, desired, "attributes"), desired)
  {
  }

  /** What is stored reads back as matching, because the one key that reads differently is the masked secret. */
  lemma HeldReadsAsMatching(stored: Object, desired: Object, part: string, secret: string)
    requires Holds(stored, desired, part)
    ensures FieldsMatch(Masked(stored, part, secret), desired, part, secret)
  {
  }

  /** A rewrite from a masked reading of a settled representation changes nothing: the desired secret covers the mask. */
  lemma RewriteIsFixpoint(stored: Object, desired: Object, part: string, secret: string)
    requires part in desired && desired[part].Obj? && secret in desired[part].fields
    requires Holds(stored, desired, part)
    ensures Merged(Masked(stored, part, secret), desired, part) == stored
  {
    var sub := SubObject(Masked(stored, part, secret), part) + desired[part].fields;
    assert sub == stored[part].fields;
    var after := Merged(Masked(stored, part, secret), desired, part);
    assert after[part] == stored[part];
    forall field | field in after ensures field in stored && after[field] == stored[field] {
    }
    assert after.Keys == stored.Keys;
  }

  /** The mask never reaches the store: a rewrite puts the desired secret in its place. */
  lemma MaskNotStored(shown: Object, desired: Object, part: string, secret: string)
    requires part in desired && desired[part].Obj? && secret in desired[part].fields && desired[part].fields[secret] != MASK
    ensures SubObject(Merged(shown, desired, part), part)[secret] != MASK
  {
  }

  /** The realm is rewritten with whole fields, so its mail settings are replaced, not merged. */
  lemma RealmRewriteIsFixpoint(stored: Object, desired: Object)
    requires "smtpServer" in desired
    requires Stores(stored, desired)
    ensures Masked(stored, "smtpServer", "password") + desired == stored
  {
  }

  lemma RealmRewriteSettles(shown: Object, desired: Object)
    ensures var stored := shown + desired;
            && Stores(stored, desired)
            && (forall field :: field in shown && field !in desired ==> field in stored && stored[field] == shown[field])
  {
  }

  lemma SettledRealmMatches(stored: Object, desired: Object)
    requires "smtpServer" in desired && desired["smtpServer"].Obj?
    requires Stores(stored, desired)
    ensures RealmMatches(Masked(stored, "smtpServer", "password"), desired)
  {
  }

  /** The clients of a settled server are the ones a reading reports. */
  lemma SettledClientsRead(r: Realm, d: Desired, s: Snapshot)
    requires Settled(r, d) && ReadsClients(r, s)
    ensures SettledClient(r, s.clientId, d.client, {HOSTED, LEGACY})
    ensures s.codexId.Some? && SettledClient(r, s.codexId.value, d.codex, {CODEX})
  {
  }

  lemma SettledPayloadsMatch(r: Realm, d: Desired, s: Snapshot)
    requires Settled(r, d) && Reads(r, d, s)
    ensures PayloadsMatch(s.payloads, d.scopes)
  {
  }

  /** A settled server passes verification, whatever its unmanaged parts. */
  lemma SettledVerifies(r: Realm, d: Desired, s: Snapshot)
    requires ValidDesired(d) && Settled(r, d) && Reads(r, d, s)
    ensures Verified(s, d)
  {
    SettledRealmMatches(r.fields, d.realm);
    HeldReadsAsMatching(r.provider.value, d.provider, "config", "clientSecret");
    SettledClientsRead(r, d, s);
    SettledPayloadsMatch(r, d, s);
    hide FieldsMatch, ClientMatches, PayloadsMatch, Masked, WithClientId, Holds;
  }

  lemma Singleton<T>(s: set<T>, x: T)
    requires |s| == 1 && x in s
    ensures s == {x}
  {
    assert |s - {x}| == 0;
    assert s == {x} + (s - {x});
  }

  /** A settled server can be read exactly when none of its desired scope lists is empty. */
  lemma SettledReadable(r: Realm, d: Desired)
    requires Settled(r, d)
    ensures ReadError(r).None? <==> ListsDesired(d)
  {
  }
}
