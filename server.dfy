/**
 * Building the server: the configuration it needs, the order in which
 * `NewServer` checks it, and the broker it returns. Starting the server
 * (routing, CORS, the database, listening) is not part of this model.
 */
module Server {
  import opened Wrappers
  import Websockets

  /** `ServerConfig` */
  datatype ServerConfig = ServerConfig(port: string, jwtSecret: string, databaseUrl: string)

  /** The fields `NewServer` requires, in the order it checks them, each with the error it reports when empty. */
  function RequiredFields(c: ServerConfig): seq<(string, string)> {
    [(c.port, "port must be specified"),
     (c.jwtSecret, "JWT secret must be specified"),
     (c.databaseUrl, "database URL must be specified")]
  }

  /** Position `i` holds the first empty field. */
  predicate FirstEmptyAt(fields: seq<(string, string)>, i: int) {
    0 <= i < |fields| && fields[i].0 == "" && forall j :: 0 <= j < i ==> fields[j].0 != ""
  }

  /** The error of the first empty field, checking in order, or none when every field is set. */
  function FirstMissing(fields: seq<(string, string)>): (e: Option<string>)
    ensures e.None? <==> forall i :: 0 <= i < |fields| ==> fields[i].0 != ""
    ensures e.Some? ==> exists i :: FirstEmptyAt(fields, i) && e.value == fields[i].1
  {
    if fields == [] then None
    else if fields[0].0 == "" then
      assert FirstEmptyAt(fields, 0);
      Some(fields[0].1)
    else
      var e := FirstMissing(fields[1..]);
      assert e.Some? ==> exists i :: FirstEmptyAt(fields, i) && e.value == fields[i].1 by {
        if e.Some? {
          var i :| FirstEmptyAt(fields[1..], i) && e.value == fields[1..][i].1;
          assert FirstEmptyAt(fields, i + 1) by {
            forall j | 0 <= j < i + 1 ensures fields[j].0 != "" {
              if j > 0 { assert fields[j] == fields[1..][j - 1]; }
            }
          }
        }
      }
      e
  }

  /** The validation chain of `NewServer`: the port, then the JWT secret, then the database URL. */
  function ConfigError(c: ServerConfig): (e: Option<string>)
    ensures c.port == "" ==> e == Some("port must be specified")
    ensures c.port != "" && c.jwtSecret == "" ==> e == Some("JWT secret must be specified")
    ensures c.port != "" && c.jwtSecret != "" && c.databaseUrl == "" ==> e == Some("database URL must be specified")
    ensures e.None? <==> c.port != "" && c.jwtSecret != "" && c.databaseUrl != ""
  {
    if c.port == "" then Some("port must be specified")
    else if c.jwtSecret == "" then Some("JWT secret must be specified")
    else if c.databaseUrl == "" then Some("database URL must be specified")
    else None
  }

  /** The chain reports the first empty field in checking order. */
  lemma ConfigErrorIsFirstMissing(c: ServerConfig)
    ensures ConfigError(c) == FirstMissing(RequiredFields(c))
  {
    var f := RequiredFields(c);
    assert f[1..] == [f[1], f[2]] && f[1..][1..] == [f[2]] && f[1..][1..][1..] == [];
  }

  /** `Broker`: the configuration and the hub it was built with (the router belongs to `Start`). */
  class Broker {
    const config: ServerConfig
    const hub: Websockets.Hub

    constructor (config: ServerConfig, hub: Websockets.Hub)
      ensures this.config == config && this.hub == hub
    {
      this.config := config;
      this.hub := hub;
    }

    /** `Config()` */
    function Config(): (c: ServerConfig)
      ensures c == config
    {
      config
    }

    /** `Hub()`: the same hub every time. */
    function Hub(): (h: Websockets.Hub)
      ensures h == hub
    {
      hub
    }
  }

  /**
   * `NewServer` (its context argument is unused): an error for the first
   * missing field and no broker, or a new broker holding the configuration and
   * a new hub with no clients.
   */
  method NewServer(config: ServerConfig) returns (r: Result<Broker, string>)
    ensures r.Failure? <==> ConfigError(config).Some?
    ensures r.Failure? ==> r.error == ConfigError(config).value
    ensures r.Success? ==> fresh(r.value) && fresh(r.value.Hub())
    ensures r.Success? ==> r.value.Config() == config && r.value.Hub().clients == []
  {
    var e := ConfigError(config);
    if e.Some? {
      return Failure(e.value);
    }
    var hub := new Websockets.Hub.NewHub();
    var broker := new Broker(config, hub);
    r := Success(broker);
  }
}
