// The upstream settings of a domain: what a request may ask for, what an update
// stores, and what the relay later builds a connection from.
//
// Encryption is a sealed box: what was sealed is what is opened.

module SmtpConfigs {

  import opened Names
  import opened Hosts
  import opened Wrappers

  datatype Security = Plain | StartTls | Tls

  datatype Auth = NoAuth | Password

  datatype Sealed = Sealed(plain: string)

  datatype Request = Request(
    host: string, port: int, security: Security, auth: Auth,
    username: Option<string>, password: Option<string>)

  datatype Config = Config(
    host: string, port: int, security: Security, auth: Auth,
    username: Option<string>, sealed: Option<Sealed>)

  datatype Endpoint = Endpoint(
    host: string, port: int, security: Security, auth: Auth,
    username: Option<string>, password: Option<string>)

  type DomainId = nat

  type Configs = map<DomainId, Config>

  /** Host normalization, and which normal hosts resolve to public addresses only. */
  datatype Network = Network(host: string -> Option<string>, public: string -> bool) {
    /** `validate_upstream_host`: normalizes once more, then resolves. */
    predicate ResolvesPublicly(name: string) {
      host(name).Some? && public(host(name).value)
    }
  }

  /** The network whose host normalization is the code's. */
  ghost predicate Normalizes(net: Network, ip: IpText, idna: Idna) {
    forall name :: net.host(name) == NormalizeHost(ip, idna, name)
  }

  predicate Filled(text: Option<string>) {
    text.Some? && text.value != ""
  }

  predicate HasLineBreak(text: string) {
    exists i :: 0 <= i < |text| && (text[i] == '\r' || text[i] == '\n' || text[i] == '\0')
  }

  /** The validated request: the host is replaced by its normal form. */
  function Validated(net: Network, req: Request): Option<Request> {
    if !(1 <= |req.host| <= 253) || !(1 <= req.port <= 65535)
       || (req.username.Some? && |req.username.value| > 255)
       || (req.password.Some? && |req.password.value| > 4096)
    then None
    else if net.host(req.host).None? then None
    else if req.auth.Password? && req.security.Plain? then None
    else if req.auth.Password? && !Filled(req.username) then None
    else if Filled(req.username) && HasLineBreak(req.username.value) then None
    else Some(req.(host := net.host(req.host).value))
  }

  const OK := 200
  const UNPROCESSABLE := 422

  /** What storing a request does to the table, and the response status. */
  function Put(net: Network, configs: Configs, domain: DomainId, raw: Request): (Configs, int) {
    var payload := Validated(net, raw);
    if payload.None? || !net.ResolvesPublicly(payload.value.host) then (configs, UNPROCESSABLE)
    else
      var p := payload.value;
      var kept := if domain in configs then configs[domain].sealed else None;
      if p.auth.NoAuth? then
        (configs[domain := Config(p.host, p.port, p.security, NoAuth, None, None)], OK)
      else if Filled(p.password) then
        (configs[domain := Config(p.host, p.port, p.security, Password, p.username, Some(Sealed(p.password.value)))], OK)
      else if kept.None? then
        (configs, UNPROCESSABLE)
      else
        (configs[domain := Config(p.host, p.port, p.security, Password, p.username, kept)], OK)
  }

  class ConfigTable {
    var configs: Configs

    constructor ()
      ensures configs == map[]
    {
      configs := map[];
    }

    /** Assigns the row's fields one by one; nothing is kept unless the end is reached. */
    method PutSmtpConfig(net: Network, domain: DomainId, raw: Request) returns (status: int)
      modifies this
      ensures (configs, status) == Put(net, old(configs), domain, raw)
    {
      var payload := Validated(net, raw);
      if payload.None? {
        return UNPROCESSABLE;
      }
      var p := payload.value;
      if !net.ResolvesPublicly(p.host) {
        return UNPROCESSABLE;
      }
      var row := if domain in configs then configs[domain]
                 else Config(p.host, p.port, p.security, p.auth, None, None);
      row := row.(host := p.host);
      row := row.(port := p.port);
      row := row.(security := p.security);
      row := row.(auth := p.auth);
      if p.auth.NoAuth? {
        row := row.(username := None);
        row := row.(sealed := None);
      } else {
        row := row.(username := p.username);
        if Filled(p.password) {
          row := row.(sealed := Some(Sealed(p.password.value)));
        } else if row.sealed.None? {
          return UNPROCESSABLE;
        }
      }
      configs := configs[domain := row];
      return OK;
    }
  }

  // ---- Which updates are accepted, and what they store ------------------------------

  /** An update is stored exactly when its fields fit, its host has a normal form that
      resolves to public addresses, and authentication, if asked for, has an encrypted
      connection, a user name, and a password, new or already stored. */
  lemma UpdateAcceptedIff(net: Network, configs: Configs, domain: DomainId, raw: Request)
    ensures Put(net, configs, domain, raw).1 == 200 <==>
            && 1 <= |raw.host| <= 253 && 1 <= raw.port <= 65535
            && (raw.username.Some? ==> |raw.username.value| <= 255)
            && (raw.password.Some? ==> |raw.password.value| <= 4096)
            && net.host(raw.host).Some?
            && net.host(net.host(raw.host).value).Some?
            && net.public(net.host(net.host(raw.host).value).value)
            && (raw.username.Some? ==> forall i :: 0 <= i < |raw.username.value| ==>
                  raw.username.value[i] != '\r' && raw.username.value[i] != '\n' && raw.username.value[i] != '\0')
            && (raw.auth == Password ==>
                  && raw.security != Plain
                  && raw.username.Some? && raw.username.value != ""
                  && ((raw.password.Some? && raw.password.value != "")
                      || (domain in configs && configs[domain].sealed.Some?)))
    ensures Put(net, configs, domain, raw).1 != 200 ==> Put(net, configs, domain, raw) == (configs, 422)
  {
  }

  /** What an accepted update leaves in the domain's row, and that no other row changes. */
  lemma UpdateStoresItsFields(net: Network, configs: Configs, domain: DomainId, raw: Request, other: DomainId)
    requires Put(net, configs, domain, raw).1 == 200
    ensures var after := Put(net, configs, domain, raw).0;
            && domain in after && Some(after[domain].host) == net.host(raw.host)
            && after[domain].port == raw.port
            && after[domain].security == raw.security && after[domain].auth == raw.auth
            && after[domain].username == (if raw.auth == NoAuth then None else raw.username)
            && EndpointOf(after[domain]).host == after[domain].host
            && EndpointOf(after[domain]).port == raw.port
            && EndpointOf(after[domain]).security == raw.security && EndpointOf(after[domain]).auth == raw.auth
            && EndpointOf(after[domain]).username == after[domain].username
            && (other != domain ==>
                  (other in after <==> other in configs) && (other in configs ==> after[other] == configs[other]))
  {
  }

  // ---- What is stored is always usable --------------------------------------------

  /** The table's check constraints. */
  predicate DatabaseChecks(c: Config) {
    && 1 <= c.port <= 65535
    && (c.auth.NoAuth? || (!c.security.Plain? && c.username.Some? && c.sealed.Some?))
  }

  /** The connection settings the relay builds from a stored row. */
  function EndpointOf(c: Config): Endpoint {
    Endpoint(c.host, c.port, c.security, c.auth, c.username,
             if c.sealed.Some? then Some(c.sealed.value.plain) else None)
  }

  /** `validate_upstream_endpoint` raises nothing. */
  predicate EndpointAccepted(net: Network, e: Endpoint) {
    && net.host(e.host).Some?
    && 1 <= e.port <= 65535
    && (if e.auth.Password? then
          && !e.security.Plain?
          && Filled(e.username) && e.password.Some?
          && !HasLineBreak(e.username.value)
        else
          e.username.None? && e.password.None?)
  }

  predicate Usable(net: Network, c: Config) {
    DatabaseChecks(c) && EndpointAccepted(net, EndpointOf(c))
  }

  ghost predicate AllUsable(net: Network, configs: Configs) {
    forall domain :: domain in configs ==> Usable(net, configs[domain])
  }

  datatype Update = Update(domain: DomainId, request: Request)

  function PutAll(net: Network, configs: Configs, updates: seq<Update>): Configs
    decreases |updates|
  {
    if updates == [] then configs
    else PutAll(net, Put(net, configs, updates[0].domain, updates[0].request).0, updates[1..])
  }

  /** Whatever the sequence of updates (authentication switched off and on again,
      passwords omitted, hosts of any spelling), every stored row satisfies the
      database checks and yields an endpoint the relay accepts. */
  lemma {:induction false} EveryStoredConfigIsUsable(net: Network, configs: Configs, updates: seq<Update>)
    requires AllUsable(net, configs)
    ensures AllUsable(net, PutAll(net, configs, updates))
    decreases |updates|
  {
    if updates != [] {
      var next := Put(net, configs, updates[0].domain, updates[0].request).0;
      forall domain | domain in next
        ensures Usable(net, next[domain])
      {
        assert domain in configs ==> Usable(net, configs[domain]);
      }
      EveryStoredConfigIsUsable(net, next, updates[1..]);
    }
  }

  /** A stored password is only ever one that was submitted for that domain and
      sealed; an update without a password keeps it, and switching authentication
      off forgets it. */
  lemma PasswordIsKeptOrReplaced(net: Network, configs: Configs, domain: DomainId, raw: Request)
    ensures var (after, status) := Put(net, configs, domain, raw);
            && (status != OK ==> after == configs)
            && (status == OK ==>
                  && domain in after
                  && after[domain].sealed ==
                     if raw.auth.NoAuth? then None
                     else if Filled(raw.password) then Some(Sealed(raw.password.value))
                     else if domain in configs then configs[domain].sealed else None)
            && (forall other :: other != domain ==>
                  (other in after <==> other in configs) && (other in configs ==> after[other] == configs[other]))
  {
  }

  /** An accepted update that stores a new password for the domain, or none. */
  predicate SetsPassword(net: Network, configs: Configs, update: Update, domain: DomainId) {
    && update.domain == domain && Put(net, configs, domain, update.request).1 == OK
    && (update.request.auth.NoAuth? || Filled(update.request.password))
  }

  predicate NoneSetsPassword(net: Network, configs: Configs, updates: seq<Update>, domain: DomainId)
    decreases |updates|
  {
    updates != [] ==>
      && !SetsPassword(net, configs, updates[0], domain)
      && NoneSetsPassword(net, Put(net, configs, updates[0].domain, updates[0].request).0, updates[1..], domain)
  }

  /** Some accepted update submits the password for the domain, with authentication
      on, and no later one submits another or switches authentication off. */
  predicate LastSubmitted(net: Network, configs: Configs, updates: seq<Update>, domain: DomainId, password: string)
    decreases |updates|
  {
    updates != [] &&
      var u := updates[0];
      var next := Put(net, configs, u.domain, u.request).0;
      || (SetsPassword(net, configs, u, domain) && u.request.auth.Password? && u.request.password == Some(password)
          && NoneSetsPassword(net, next, updates[1..], domain))
      || LastSubmitted(net, next, updates[1..], domain, password)
  }

  predicate Stores(configs: Configs, domain: DomainId, password: string) {
    domain in configs && configs[domain].sealed == Some(Sealed(password))
  }

  lemma {:induction false} StoredAfter(
    net: Network, configs: Configs, updates: seq<Update>, domain: DomainId, password: string)
    ensures Stores(PutAll(net, configs, updates), domain, password) <==>
            || LastSubmitted(net, configs, updates, domain, password)
            || (NoneSetsPassword(net, configs, updates, domain) && Stores(configs, domain, password))
    decreases |updates|
  {
    if updates != [] {
      var u := updates[0];
      PasswordIsKeptOrReplaced(net, configs, u.domain, u.request);
      StoredAfter(net, Put(net, configs, u.domain, u.request).0, updates[1..], domain, password);
    }
  }

  /** Over any updates of an empty table, the relay would log in with a password for
      a domain exactly when it is the last one accepted for that domain since
      authentication was last switched off. */
  lemma StoredPasswordIsTheLastSubmitted(net: Network, updates: seq<Update>, domain: DomainId, password: string)
    ensures (domain in PutAll(net, map[], updates)
             && EndpointOf(PutAll(net, map[], updates)[domain]).password == Some(password))
       <==> LastSubmitted(net, map[], updates, domain, password)
  {
    StoredAfter(net, map[], updates, domain, password);
  }

  /** A stored host keeps its spelling on every later use unless it ends like an
      IPv6 scope can, in a dot or a space. */
  lemma StoredHostIsStable(net: Network, ip: IpText, idna: Idna, configs: Configs, domain: DomainId, raw: Request)
    requires Sane(ip) && Normalizes(net, ip, idna) && Put(net, configs, domain, raw).1 == OK
    ensures var host := Put(net, configs, domain, raw).0[domain].host;
            && host != "" && net.host(host).Some?
            && (net.host(host) == Some(host) <==> host[|host| - 1] != '.' && !IsSpace(host[|host| - 1]))
  {
    UpdateAcceptedIff(net, configs, domain, raw);
    UpdateStoresItsFields(net, configs, domain, raw, domain);
    HostIsStableIff(net, ip, idna, raw.host, Put(net, configs, domain, raw).0[domain].host);
  }

  lemma HostIsStableIff(net: Network, ip: IpText, idna: Idna, raw: string, host: string)
    requires Sane(ip) && Normalizes(net, ip, idna) && net.host(raw) == Some(host)
    ensures host != ""
    ensures net.host(host) == Some(host) <==> host[|host| - 1] != '.' && !IsSpace(host[|host| - 1])
  {
    assert net.host(raw) == NormalizeHost(ip, idna, raw) && net.host(host) == NormalizeHost(ip, idna, host);
    NormalHostIsStableIff(ip, idna, raw);
  }
}
