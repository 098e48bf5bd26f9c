/**
 A desired configuration whose client has an empty scope list: the server can be brought to it, and then can no longer
 be read.
 */
module KeycloakEmptyLists {
  import opened Prelude
  import opened Keycloak
  import opened KeycloakWrites

  function MappersAbsent(): map<string, Object> {
    map[]
  }

  /** A valid configuration in which the hosted client has these default scopes, all of them managed. */
  function Configuration(password: string, secret: string, defaults: set<string>): Desired {
    Desired(map["smtpServer" := Obj(map["password" := Text(password)])],
            map["config" := Obj(map["clientSecret" := Text(secret)])],
            Client(map["clientId" := HOSTED, "attributes" := Obj(map[])], defaults, {"email"}),
            Client(map["clientId" := CODEX, "attributes" := Obj(map[])], {"basic"}, {"email"}),
            map["basic" := DesiredScope(map[], MappersAbsent()), "email" := DesiredScope(map[], MappersAbsent())],
            {"basic"}, {"email"})
  }

  /** A server that stores a configuration, with these default scopes for the hosted client. */
  function Server(d: Desired, defaults: set<string>): Realm {
    Realm(d.realm, Some(d.provider), true, map[0 := d.client.(defaults := defaults), 1 := d.codex],
          map["basic" := Scope(map[], map[]), "email" := Scope(map[], map[])], d.defaults, d.optionals, 2)
  }

  lemma ClientsOfServer(password: string, secret: string, wanted: set<string>, defaults: set<string>)
    ensures var r := Server(Configuration(password, secret, wanted), defaults);
            WithClientId(r, {HOSTED, LEGACY}) == {0} && WithClientId(r, {CODEX}) == {1}
  {
    var r := Server(Configuration(password, secret, wanted), defaults);
    assert Get(r.clients[0].fields, "clientId") == HOSTED && Get(r.clients[1].fields, "clientId") == CODEX;
    assert |"aiqt-codex-cli"| == 14 && |"aiqt-mcp"| == 8 && |"https://claude.ai/oauth/mcp-oauth-client-metadata"| == 49;
  }

  /** The server reads unless the hosted client has no default scope. */
  lemma ServerReads(password: string, secret: string, wanted: set<string>, defaults: set<string>)
    ensures ReadError(Server(Configuration(password, secret, wanted), defaults)) == if defaults == {} then Some(McpClientInvalid) else None
  {
    ClientsOfServer(password, secret, wanted, defaults);
    var r := Server(Configuration(password, secret, wanted), defaults);
    hide WithClientId, Configuration;
    assert r.clients[0].defaults == defaults;
    assert defaults == {} ==> 0 in WithClientId(r, {HOSTED, LEGACY}) && !ListsReadable(r.clients[0]);
    assert ListsReadable(r.clients[1]) && r.clients[0].optionals == {"email"} by {
      ConfiguredLists(password, secret, wanted);
    }
  }

  lemma ConfiguredLists(password: string, secret: string, wanted: set<string>)
    ensures var d := Configuration(password, secret, wanted);
            ListsReadable(d.codex) && d.client.optionals == {"email"} && d.client.defaults == wanted
  {
    assert "basic" in {"basic"} && "email" in {"email"};
  }

  lemma ServerScopes(password: string, secret: string, wanted: set<string>, defaults: set<string>)
    requires wanted <= {"basic"} && defaults <= {"basic"}
    ensures var d := Configuration(password, secret, wanted);
            var r := Server(d, defaults);
            && ScopesExist(r, d) && MapperNamesUnique(r, d) && Consistent(r)
            && (forall name :: name in d.scopes ==> name in r.scopes && ScopeMatches(r.scopes[name], d.scopes[name]))
  {
  }

  lemma ServerIsSettled(password: string, secret: string, wanted: set<string>)
    requires wanted <= {"basic"}
    ensures var d := Configuration(password, secret, wanted); Settled(Server(d, wanted), d)
  {
    var d := Configuration(password, secret, wanted);
    var r := Server(d, wanted);
    ClientsOfServer(password, secret, wanted, wanted);
    ServerScopes(password, secret, wanted, wanted);
    hide WithClientId, ScopeMatches, Consistent, MapperNamesUnique, Configuration;
    assert r.clients[0].fields == d.client.fields && r.clients[1] == d.codex;
    ConfigurationHolds(password, secret, wanted);
    assert SettledClient(r, 0, d.client, {HOSTED, LEGACY});
    assert SettledClient(r, 1, d.codex, {CODEX});
  }

  lemma ConfigurationHolds(password: string, secret: string, wanted: set<string>)
    ensures var d := Configuration(password, secret, wanted);
            && Stores(d.realm, d.realm) && Holds(d.provider, d.provider, "config")
            && ClientMatches(d.client.fields, d.client.fields) && ClientMatches(d.codex.fields, d.codex.fields)
  {
  }

  lemma ConfigurationIsValid(password: string, secret: string, wanted: set<string>)
    requires Text(password) != MASK && Text(secret) != MASK
    ensures ValidDesired(Configuration(password, secret, wanted))
  {
  }

  /**
   Without a default scope for the hosted client: from a readable server on which nothing else is missing, the run
   does not end well; the settled server it is to reach is refused by the reading that verifies it.
   */
  lemma EmptyListIsUnreadable(password: string, secret: string)
    requires Text(password) != MASK && Text(secret) != MASK
    ensures var d := Configuration(password, secret, {});
            var before, after := Server(d, {"basic"}), Server(d, {});
            && ValidDesired(d)
            && Consistent(before) && ReadError(before).None? && ScopesExist(before, d) && MapperNamesUnique(before, d)
            && !Reconcilable(before, d)
            && Settled(after, d) && ReadError(after) == Some(McpClientInvalid)
  {
    ConfigurationIsValid(password, secret, {});
    ConfiguredLists(password, secret, {});
    ServerIsSettled(password, secret, {});
    ServerScopes(password, secret, {}, {"basic"});
    ServerReads(password, secret, {}, {});
    ServerReads(password, secret, {}, {"basic"});
    assert "basic" in {"basic"};
    hide Configuration, Server, Settled, ValidDesired, ReadError, ScopesExist, MapperNamesUnique, Consistent;
  }

  /** With one, the same server is brought to it and stays readable. */
  lemma FilledListIsReadable(password: string, secret: string)
    requires Text(password) != MASK && Text(secret) != MASK
    ensures var d := Configuration(password, secret, {"basic"});
            var r := Server(d, {"basic"});
            ValidDesired(d) && Settled(r, d) && ReadError(r).None? && Reconcilable(r, d)
  {
    ConfigurationIsValid(password, secret, {"basic"});
    ConfiguredLists(password, secret, {"basic"});
    ServerIsSettled(password, secret, {"basic"});
    ServerScopes(password, secret, {"basic"}, {"basic"});
    ServerReads(password, secret, {"basic"}, {"basic"});
    assert "basic" in {"basic"} && "email" in {"email"};
    hide Configuration, Server, Settled, ValidDesired, ReadError, ScopesExist, MapperNamesUnique, Consistent;
  }
}
