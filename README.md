# WebSocket hub and authentication core of a Go REST/WebSocket API, in Dafny

This project models the parts of a small Go HTTP API (signup/login, JWT
authentication, posts, WebSocket broadcast) that carry logic of their own:

- **the WebSocket hub** (`websockets/hub.go`): an ordered list of client
  handles; `onConnect` appends, `onDisconnect` removes the first entry that is
  the same handle, `SendMessageToClients` puts one payload on the outbound queue
  of every listed client except an optional ignored one, and `Run` dispatches
  register / unregister events to those two operations;
- **the client writer** (`websockets/client.go`): `NewClient` and `Write`, which
  drains the outbound queue into text frames and then sends a close frame;
- **the authentication middleware** (`middlewares/auth_middleware.go`): the
  public routes and the pass / 401 decision;
- **the token helpers** (`utils/auth_util.go`): bearer-token extraction and the
  error mapping of token validation;
- **server construction** (`server/server.go`): the validation chain of
  `NewServer` and the broker it builds.

The hub is modelled sequentially: events reach it one at a time, which is what
its single dispatch goroutine provides. Hub, clients, outbound queues and
sockets are classes whose fields the methods update in place; client handles
are objects, so `==` between them is identity, as the Go pointer comparisons
are. The hub's list operations are specified by pure functions over sequences
(module `Registry`), and the lemmas about those functions state the
properties: what `RemoveFirst` removes, what the `Apply` fold of `Run` leaves
in the list, who a broadcast reaches and how often.

Files, one module each: `wrappers.dfy` (Option, Result), `http.dfy` (status
codes, error response), `strings.dfy` (`strings.TrimSpace`), `registry.dfy`
(the list as a value), `websockets.dfy` (hub and client), `middlewares.dfy`,
`utils.dfy`, `server.dfy`.

Foreign code is a parameter: `json.Marshal` is the function `marshal` given to
`SendMessageToClients`; the upgrader's outcome is the `Option<Socket>` given to
`WebSocketHandler`; `RemoteAddr().String()` is the socket's `remoteAddr`; which
socket writes fail is the socket's `failing` set; `jwt.ParseWithClaims` is the
oracle `parses` (middleware) or `parse` (utils); the application claims type
is the type parameter `C`. A missing `Authorization` header is the empty
string, as `Header.Get` returns it.

`onConnect` makes no duplicate check, so a handle registered twice is listed
twice and gets each broadcast twice; `SendMessageToClients` discards the
`json.Marshal` error and still sends the payload.

## Model

| member | source | states |
|---|---|---|
| `Websockets.Hub.NewHub` | websockets/hub.go:37-44 | a new hub lists no client |
| `Websockets.Hub.OnConnect` | websockets/hub.go:91-98 | the client's id becomes its socket's remote address and the client is appended at the end, every earlier entry staying in place; no duplicate check, so a second registration adds a second entry |
| `Websockets.Hub.OnDisconnect` | websockets/hub.go:103-115 | the scan stops at the first entry identical to the client and the new list is `RemoveFirst` of the old one |
| `Registry.RemoveFirstSpec` | websockets/hub.go:108-114 | without a match the list is unchanged; with one, exactly the first matching entry is gone, the rest keep their relative order, the length drops by one and the multiset loses one copy |
| `Registry.RemoveFirstAt` | websockets/hub.go:108-113 | cutting out position `i`, when `i` is the first match, is `RemoveFirst` |
| `Registry.RemoveFirstAbsent` | websockets/hub.go:108-114 | deregistering a client that is not listed changes nothing, so no unrelated client is removed |
| `Registry.RemoveFirstNoDup` | websockets/hub.go:108-113 | on a duplicate-free list the removed client is no longer listed, everyone else still is, and the list stays duplicate-free |
| `Registry.DeregisterTwice` | websockets/hub.go:103-115 | on a duplicate-free list a second deregistration of the same client is a no-op |
| `Websockets.Hub.Run` | websockets/hub.go:72-86 | each register event goes to `OnConnect` and each unregister event to `OnDisconnect`, in arrival order: the final list is the `Apply` fold of the events over the old list, and every registered client's id is its remote address |
| `Registry.ApplyMembership` | websockets/hub.go:74-85 | when each handle registers at most once, was not listed before, and deregisters only after registering, the final list has no duplicates and holds exactly the listed or registered handles minus the deregistered ones |
| `Registry.RegisterThenUnregister` | websockets/hub.go:74-85 | registering a fresh handle and deregistering it leaves the list as it was |
| `Websockets.TwoClientsRegister` | websockets/hub.go:74-98 | from an empty hub, registering `a` then `b` gives the list `[a, b]` |
| `Websockets.Hub.SendMessageToClients` | websockets/hub.go:117-125 | the message is serialised once; each listed client's queue gets that payload appended once per send to the queue, sends going to the listed entries other than `ignore`; the list is unchanged and no other queue changes |
| `Websockets.RecipientsSpec` | websockets/hub.go:120-124 | `ignore` is never sent to; every other client is sent to as often as it is listed; with `ignore` nil or not listed every entry is sent to; the number of sends is the list length minus the copies of `ignore` |
| `Websockets.BroadcastCount` | websockets/hub.go:121 | with N distinct clients and `ignore` among them there are exactly N-1 sends |
| `Websockets.BroadcastDelivery` | websockets/hub.go:120-124 | when each client owns its queue, `ignore`'s queue receives nothing and every other client's queue receives the payload once per listing, so once on a duplicate-free list |
| `Websockets.TwoClientsBroadcast` | websockets/hub.go:117-125 | two clients with their own queues, broadcast ignoring nobody: each queue receives exactly one payload |
| `Websockets.RegisterUnregisterBroadcast` | websockets/hub.go:103-124 | after a client registers and deregisters, a broadcast sends to nobody |
| `Websockets.Hub.WebSocketHandler` | websockets/hub.go:52-67 | a failed upgrade calls `http.Error` with 500 "Could not upgrade websocket connection" and creates and registers nothing; a successful one builds a new client for this hub and the upgraded socket and returns it as the value submitted for registration, the list itself being left to `Run` |
| `Websockets.Client.NewClient` | websockets/client.go:21-27 | the client holds the given hub and socket, a new, empty outbound queue and an empty id |
| `Websockets.Client.Write` | websockets/client.go:33-41 | the queue is drained and the socket's log grows by `WriterFrames` of the queued messages, whatever writes fail: a failed text-frame write does not stop the loop |
| `Websockets.WriterFramesShape` | websockets/client.go:35-40 | for N queued messages the writer sends N+1 frames: the i-th is a text frame carrying the i-th message, and the last, and only that one, is a close frame with an empty payload |
| `Strings.TrimSpace` | utils/auth_util.go:21 | the result is the slice of the input between a leading and a trailing run of white space, neither starts nor ends with white space, and is empty exactly when the input is all white space |
| `Middlewares.ShouldCheckToken` | middlewares/auth_middleware.go:12-22 | no token is needed exactly when the route is "/signup" or "/login" |
| `Middlewares.NearMissesNeedToken` | middlewares/auth_middleware.go:21 | matching is exact: "/", "/signup/" and "/login?x" need a token |
| `Middlewares.CheckAuthMiddleware` | middlewares/auth_middleware.go:27-50 | on a public route the next handler runs and nothing is parsed; on a protected one the trimmed header is parsed with the JWT secret, and the next handler runs, once, exactly when parsing succeeds; otherwise the answer is 401 "Unauthorized" |
| `Utils.ExtractTokenFromRequest` | utils/auth_util.go:20-26 | the token is the trimmed header; an absent or all-white-space header gives `ErrMissingAuthHeader` and ""; a success is non-empty with no leading or trailing white space |
| `Utils.ParseAndValidateToken` | utils/auth_util.go:30-44 | `ErrInvalidToken` exactly when parsing errs or the token is invalid; the claims exactly when a valid token carries claims of the application type; `ErrInvalidClaims` exactly in the remaining case; being a function, it has no side effects |
| `Server.ConfigError` | server/server.go:64-72 | an empty port gives "port must be specified"; with a port, an empty secret gives "JWT secret must be specified"; with both, an empty database URL gives "database URL must be specified"; no error exactly when all three are set |
| `Server.FirstMissing` | server/server.go:64-72 | reference definition of an ordered chain of non-empty checks: no error exactly when every field is set, otherwise the error of the first empty field |
| `Server.ConfigErrorIsFirstMissing` | server/server.go:64-72 | the chain of `NewServer` is the ordered check of port, JWT secret and database URL, so the first empty field decides the error |
| `Server.Broker.Config` | server/server.go:42-44 | returns the configuration the broker was built with |
| `Server.Broker.Hub` | server/server.go:48-50 | returns the hub the broker was built with, the same object on every call |
| `Server.NewServer` | server/server.go:63-81 | on an error no broker is returned and the error is `ConfigError`'s; otherwise a new broker whose `Config()` is the given configuration and whose `Hub()` is a new hub with no clients (`Config` and `Hub` are field reads, server/server.go:42-50, so every call answers the same) |

## Left out

- Concurrency: the goroutines (`go b.hub.Run()`, `go client.Write()`), channel blocking and back-pressure (the outbound channel is unbuffered), and the hub's mutex. Events are a sequence handled one at a time; no claim is made about races (`SendMessageToClients` reads the list without the lock).
- The `register` and `unregister` channels are not fields of the hub: `Run` takes the events as a sequence, and `WebSocketHandler` returns the client it would send on `register` instead of blocking on the send.
- `Websockets.Client.Write`: modelled as running after the queue has been closed, with the queue's contents at that time as every message it will receive. No code in the repository closes a client's outbound channel or sends on `unregister`, so in the running program the close frame is never reached and clients are never removed; the model does not capture that non-termination.
- `Websockets.BroadcastDelivery`: takes "each client owns its queue" as a hypothesis. `NewClient` creates a new queue for every client, but the hub accepts any client object, so this is not kept as a hub invariant.
- `json.Marshal` is an arbitrary function argument; its error is discarded by the code and not modelled.
- The gorilla upgrader, `CheckOrigin`, the socket and `RemoteAddr` are abstract; the upgrader's own error reply and the newline `http.Error` appends are not modelled.
- `strings.TrimSpace` white space is the Latin-1 part of `unicode.IsSpace`; the other Unicode space characters are not modelled. Header values are taken to be valid UTF-8 read as code points; Go strings are bytes, and an invalid byte such as a lone 0xA0 decodes to U+FFFD and is not trimmed, while the model's U+00A0 is.
- The log lines of `Run` (the start-up message and the register / unregister messages that call `RemoteAddr()`) are output only and are not modelled.
- JWT parsing and its cryptography are oracles; the claims type `models.AppClaims` is not part of this model (a type parameter stands for it). The oracles `parse` and `parses` are pure functions of token and key, so they also hide the clock that `jwt.ParseWithClaims` reads for the expiry check (`StandardClaims.Valid`): the model is deterministic because of that abstraction, not because the library is.
- `Server.NewServer`: the broker keeps the configuration by value, not the caller's pointer, so later changes through that pointer are not modelled; the router field and the unused context argument are left out.
- `Start`, `main.go`, the database, repository, handler, service and model packages are routing, bootstrap, SQL and HTTP glue and are not part of this model.
