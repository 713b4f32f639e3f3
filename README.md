# Anonymous account service of the Pal server — a Dafny model

This project models the decision logic of `AccountService` in the Pal server.
The service hands out pseudonymous accounts keyed by a salted fingerprint of
the client's IP address. It also issues one-day session tokens for those
accounts.

- **CreateAccount** first resolves the client address. A loopback peer
  (text starting with `127.` or equal to `::1`) is taken to be the local
  reverse proxy, so the first `x-real-ip` request header is parsed instead.
  It then loads the `salt` setting, but only while the `_salt` field is still
  unset. It fingerprints the address: base64 of 24 PBKDF2 bytes, 10000
  iterations. Finally it answers the id of the account with that
  fingerprint, or inserts exactly one new account. Every exception collapses
  to `Success = false`.
- **Login** returns `Unknown` for an id that does not parse, and
  `InvalidAccountId` for an id not in the table. Otherwise it issues a token
  whose subject is the canonical text of the id and which expires one day
  from now. The reply reports an expiry five minutes earlier.

Layout:

- `wrappers.dfy`: `Option` and `Result`.
- `platform.dfy`: bytes, GUIDs, IP addresses, headers and ticks. It also has
  `Library`, which holds the library routines the service calls
  (`IPAddress.Parse`, base64, PBKDF2, `Guid.TryParse`/`ToString`) as opaque
  functions. Every result here therefore holds for any deterministic
  implementation of them.
- `address_resolution.dfy`: `Resolve` specifies the address rule, and the
  header-scanning loop `ResolveClientAddress` is proved to follow it.
- `provisioning.dfy`: `CreateAccountStep` is one CreateAccount call as a
  function of the service state before the call: the salt cache, the
  settings and the account table. It comes with the lemmas about that
  function.
- `service.dfy`: the `AccountService` class with its `salt` field and a
  `PalContext` holding the tables. `CreateAccount` is imperative and is
  proved to follow `CreateAccountStep`. It also keeps the class invariant:
  fingerprints stay unique, and the cached salt stays equal to the decoded
  setting.
- `sessions.dfy`: `Login` as a pure function over the account table, with
  its lemmas. It also has the round trip from CreateAccount's answer to a
  successful login.

The inputs that the running service gets from its environment are
parameters of the model:

- the peer address and the ordered request headers;
- `now`: the clock, in 100 ns ticks;
- `newId`: the result of `Guid.NewGuid()`;
- `saveFails`: whether `SaveChangesAsync` throws;
- `lookupFails`: whether Login's table lookup throws.

Behaviour worth noting:

- **Login with an unparseable id** answers `Unknown`, not `InvalidAccountId`.
- **A missing salt setting** is a null dereference. It is caught like any
  other exception and gives `Success = false`.
- **The loopback test** looks only at the address text. For example, the
  IPv4-mapped form `::ffff:127.0.0.1` is not treated as loopback.

## Model

| member | source | states |
|---|---|---|
| AddressResolution.IsLoopbackText | Pal.Server/Services/AccountService.cs:42 | the loopback test on the address text: it starts with `127.` or equals `::1` (see `LoopbackExamples`) |
| AddressResolution.FirstRealIp | Pal.Server/Services/AccountService.cs:45-52 | the value of the first header keyed exactly `x-real-ip` (characterised by `FirstRealIpAt` and `FirstRealIpAbsent`) |
| AddressResolution.Resolve | Pal.Server/Services/AccountService.cs:41-53 | no address exactly when the peer is missing or loopback with no `x-real-ip` header; a resolved address is either the non-loopback peer itself or the parse of the first `x-real-ip` value |
| AddressResolution.ResolveClientAddress | Pal.Server/Services/AccountService.cs:41-53 | the header loop computes exactly the resolution rule `Resolve`: no peer gives no address, a non-loopback peer is kept, a loopback peer is replaced by the parse of the first `x-real-ip` value |
| AddressResolution.FirstRealIpAt | Pal.Server/Services/AccountService.cs:45-51 | the value taken is the one of the first header keyed exactly `x-real-ip` |
| AddressResolution.FirstRealIpAbsent | Pal.Server/Services/AccountService.cs:44-52 | no header value is taken if and only if no header is keyed `x-real-ip` |
| AddressResolution.LoopbackUsesFirstRealIpHeader | Pal.Server/Services/AccountService.cs:42-52 | a loopback peer resolves to `IPAddress.Parse` of the first `x-real-ip` value (or to the parse failure) |
| AddressResolution.LaterHeadersIgnored | Pal.Server/Services/AccountService.cs:47-50 | appending any headers after the first `x-real-ip` header does not change the resolved address |
| AddressResolution.NonLoopbackPeerUsedAsIs | Pal.Server/Services/AccountService.cs:41-42 | a non-loopback peer address is used unchanged whatever the headers say |
| AddressResolution.UnresolvedExactly | Pal.Server/Services/AccountService.cs:41-54 | no address is resolved if and only if the peer is missing, or is loopback with no `x-real-ip` header |
| AddressResolution.LoopbackExamples | Pal.Server/Services/AccountService.cs:42 | `127.0.0.1` and `::1` count as loopback; `203.0.113.7` and `::ffff:127.0.0.1` do not |
| Provisioning.LoadSalt | Pal.Server/Services/AccountService.cs:57 | fails exactly when the cache is empty and the `salt` setting is missing or not base64; otherwise yields the cached salt if there is one, else the decoded setting |
| Provisioning.IpHash | Pal.Server/Services/AccountService.cs:58 | the fingerprint: base64 of 24 bytes of PBKDF2 over the address bytes with the salt and 10000 iterations |
| Provisioning.ProvisionIntended | Pal.Server/Services/AccountService.cs:60-82 | corrected lookup-or-create: existing exactly when an account has the hash; created exactly when none has it, the save succeeds and the new key is free; the answered account has the hash; the table gains the new account only on creation |
| Provisioning.Provision | Pal.Server/Services/AccountService.cs:60-82 | lookup-or-create as written: as the corrected one, except that an existing account is answered only for address text of at least five characters |
| Provisioning.CreateAccountStep | Pal.Server/Services/AccountService.cs:41-88 | one call: settings are never written; no address exactly when resolution finds none; an answered id means the address resolved and the salt is cached; the table changes only when an account is created |
| Provisioning.AccountWithHash | Pal.Server/Services/AccountService.cs:60 | the account the fingerprint lookup finds is in the table and has that fingerprint |
| Provisioning.ReplyFor | Pal.Server/Services/AccountService.cs:54-88 | the reply succeeds exactly for an existing or created account and then carries its id text; every other outcome (no address, any fault) is `Success = false` with no id |
| Provisioning.NoAddressChangesNothing | Pal.Server/Services/AccountService.cs:54-55 | with no peer, or a loopback peer without `x-real-ip`, the call fails with no id, loads no salt and leaves the table unchanged |
| Provisioning.SaltLoadedOnce | Pal.Server/Services/AccountService.cs:57 | settings are never written; a cached salt is never reloaded or changed; a newly cached salt is the decoded `salt` setting; a call with an address fills an empty cache from a present, decodable setting; cache/storage agreement is preserved |
| Provisioning.AnswerUsesCachedSalt | Pal.Server/Services/AccountService.cs:57-82 | an answered id belongs to an account whose fingerprint is the resolved address hashed with the salt left in the cache |
| Provisioning.ExistingAccountReturned | Pal.Server/Services/AccountService.cs:60-65 | if an account has the fingerprint (and the address text has at least five characters), its id is answered and the table is unchanged |
| Provisioning.NewAccountInserted | Pal.Server/Services/AccountService.cs:68-82 | an account is created only when no account has the fingerprint; it gets a key not in the table, the fingerprint and the current time, and nothing else changes; otherwise the table is unchanged |
| Provisioning.NoMatchingAccountCreatesOne | Pal.Server/Services/AccountService.cs:68-82 | when the address resolves, the salt loads and no account has the fingerprint, the call creates the new account (key, fingerprint, current time) if the save succeeds and the key is free, and otherwise fails with the table unchanged |
| Provisioning.StepKeepsHashesUnique | Pal.Server/Services/AccountService.cs:60-82 | one call keeps at most one account per fingerprint, never removes or alters an account and adds at most one |
| Provisioning.AccountWithHashIsTheOne | Pal.Server/Services/AccountService.cs:60 | with unique fingerprints the lookup returns the one account holding the fingerprint |
| Provisioning.CreateAccountIdempotent | Pal.Server/Services/AccountService.cs:57-65 | a second call resolving to the same address returns the same id as a successful first call and changes no state |
| Provisioning.ProvisionShortTextRepeatFails | Pal.Server/Services/AccountService.cs:63 | as written: once a call from an address text under five characters has created the account, the next call from it fails |
| Provisioning.ShortAddressTextIsPossible | Pal.Server/Services/AccountService.cs:42 | `::2` is not loopback and is shorter than five characters |
| Provisioning.ProvisionIntendedIdempotent | Pal.Server/Services/AccountService.cs:60-82 | corrected lookup-or-create: a repeat for the same fingerprint returns the first answer's id and leaves the table unchanged |
| Provisioning.ProvisionDiffersOnlyOnShortText | Pal.Server/Services/AccountService.cs:61-65 | the code as written differs from the corrected behaviour exactly when an account exists and the address text is under five characters |
| Service.AccountService.constructor | Pal.Server/Services/AccountService.cs:23 | a new service has no salt cached and satisfies the class invariant |
| Service.AccountService.CreateAccount | Pal.Server/Services/AccountService.cs:37-89 | the reply and the new salt cache and account table are those of `CreateAccountStep` on the old state; the invariant (unique fingerprints, salt equal to the decoded setting) is kept |
| Sessions.Login | Pal.Server/Services/AccountService.cs:92-131 | success if and only if the id parses, the lookup works and the id is in the table; `InvalidAccountId` if and only if the id parses and is absent; a failure carries an error and no token or expiry |
| Sessions.UnparseableIdIsUnknown | Pal.Server/Services/AccountService.cs:96-100 | an id that does not parse gives `Unknown` (not `InvalidAccountId`), independent of the table and of whether it can be read |
| Sessions.LoginTokenBoundToAccount | Pal.Server/Services/AccountService.cs:109-124 | the token's subject is the canonical text of the parsed id; issuer, audience, key and HMAC-SHA256 are the configured ones; it expires now + 1 day; the reported expiry is exactly 5 minutes earlier |
| Sessions.CreatedAccountCanLogIn | Pal.Server/Services/AccountService.cs:64-112 | the id text CreateAccount answers logs in successfully against the resulting table, and the token's subject is that same text (given that `Guid.TryParse` reads back `Guid.ToString`) |

## Findings

| source | as written | input that shows it | evidently intended | confidence | as-written member | corrected member |
|---|---|---|---|---|---|---|
| Pal.Server/Services/AccountService.cs:63 | logging a returning client evaluates `Substring(0, 5)` of the address text. This throws for text under five characters, and the catch answers `Success = false` although the account exists | two CreateAccount calls from the non-loopback address `::2`: the first creates the account, the second fails | the second call answers the existing id | not executed | Provisioning.ProvisionShortTextRepeatFails | Provisioning.ProvisionIntendedIdempotent |

`Provision`, the code as written, is defined as `ProvisionIntended` plus the
logging fault. `CreateAccountStep` and the class method follow the code as
written. So their idempotence lemma, `CreateAccountIdempotent`, needs an
address text of at least five characters.

## Left out

- `Verify` is not modelled. It only reads the account id that the
  authorization middleware and `GetAccountId` put in place, and those are
  not part of this model.
- The constructor's configuration reads (issuer, audience, base64 signing
  key) are not modelled. Login takes them as a `TokenConfig` value.
- Cryptography is not modelled. PBKDF2 (RFC 8018 section 5.2), base64
  (RFC 4648 section 4) and JWT creation and signing (RFC 7519, RFC 7518
  section 3.2) are opaque functions, or in the JWT case omitted. Login's
  `AuthToken` is modelled as the token's claims and signing credentials, not
  as its signed compact text.
- `IPAddress.Parse`, `Guid.TryParse`, `Guid.ToString` and
  `Convert.From/ToBase64String` are opaque partial functions.
  `Guid.NewGuid` and `DateTime.Now` are parameters.
- Sessions.Login: exceptions thrown while creating or signing the token
  (such as a signing key too short for HMAC-SHA256) are not modelled. Only
  a failing table lookup leads to the catch block's `Unknown`.
- Sessions.Login: `DateTime.Now` for the token and `DateTime.UtcNow` for
  `ExpiresAt` are read as one instant. The local/UTC conversion and the JWT
  `exp` claim's rounding to whole seconds are not modelled.
- Concurrency is not modelled. The model is single-threaded. A concurrent
  request that wins the insert race shows up only as `saveFails`. The
  concurrent first loads of the salt cache are not modelled.
- EF Core plumbing is not modelled: async queries, the change tracker
  keeping an unsaved entity after a failed save, and cancellation tokens. A
  failed save leaves the table unchanged. An id collision with an existing
  key fails the save like a duplicate key would.
- The gRPC/ASP.NET call context is not modelled. It enters the model only
  as the peer address and the ordered list of request headers.
- Logging is not modelled. The exception is the `Substring(0, 5)` argument
  at line 63, which is evaluated and can throw.
