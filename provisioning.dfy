/**
 * The decisions CreateAccount takes once an address is resolved: load the
 * salt once, fingerprint the address, return the account that already has
 * that fingerprint or insert exactly one new account. `CreateAccountStep` is
 * the whole operation as a function of the service state before the call;
 * the imperative method in module Service is proved to follow it.
 */
module Provisioning {
  import opened Wrappers
  import opened Platform
  import opened AddressResolution

  /** Key of the GlobalSettings record holding the base64 salt. */
  const SaltKey: string := "salt"
  /** PBKDF2 parameters of the address fingerprint. */
  const Pbkdf2Iterations: nat := 10000
  const IpHashLength: nat := 24
  /** How many characters of the address text the "existing account" log line shows. */
  const LoggedAddressPrefix: nat := 5

  /** A stored account; its id is its key in the table. */
  datatype Account = Account(ipHash: string, createdAt: int)

  type AccountTable = map<Guid, Account>

  /** What the service sees: its salt cache, the settings records and the account table. */
  datatype State = State(salt: Option<seq<byte>>, settings: map<string, string>, accounts: AccountTable)

  /** Why CreateAccount's catch block answered Success = false. */
  datatype Fault =
    | AddressUnparseable   // IPAddress.Parse threw on the x-real-ip value
    | SaltSettingMissing   // FindAsync("salt") returned null and `.Value` was read from it
    | SaltNotBase64        // Convert.FromBase64String threw
    | LoggedPrefixTooShort // Substring(0, 5) of an address text shorter than 5 characters
    | SaveRejected         // SaveChangesAsync failed (including a duplicate key)

  datatype Outcome =
    | NoAddress
    | Existing(id: Guid)
    | Created(id: Guid)
    | Faulted(fault: Fault)

  datatype StepResult = StepResult(outcome: Outcome, state: State)

  datatype Provisioned = Provisioned(outcome: Outcome, accounts: AccountTable)

  /** The wire reply of CreateAccount. */
  datatype CreateAccountReply = CreateAccountReply(success: bool, accountId: Option<string>)

  /** At most one account per fingerprint: the unique index on IpHash. */
  ghost predicate UniqueHashes(accounts: AccountTable) {
    forall a, b :: a in accounts && b in accounts && accounts[a].ipHash == accounts[b].ipHash ==> a == b
  }

  /** The in-memory salt, once set, is the decoded durable setting. */
  ghost predicate SaltConsistent(lib: Library, salt: Option<seq<byte>>, settings: map<string, string>) {
    salt.Some? ==> SaltKey in settings && lib.fromBase64(settings[SaltKey]) == salt
  }

  predicate HashInUse(accounts: AccountTable, hash: string) {
    exists id :: id in accounts && accounts[id].ipHash == hash
  }

  /** The account `FirstOrDefaultAsync(a => a.IpHash == hash)` finds. */
  ghost function AccountWithHash(accounts: AccountTable, hash: string): (id: Guid)
    requires HashInUse(accounts, hash)
    ensures id in accounts && accounts[id].ipHash == hash
  {
    var id :| id in accounts && accounts[id].ipHash == hash; id
  }

  /** `_salt ??= FromBase64String(FindAsync("salt")!.Value)`: the cached salt, or the loaded one. */
  function LoadSalt(lib: Library, cache: Option<seq<byte>>, settings: map<string, string>): (r: Result<seq<byte>, Fault>)
    ensures r.Failure? <==> cache == None && (SaltKey !in settings || lib.fromBase64(settings[SaltKey]) == None)
    ensures r.Success? ==> Some(r.value) == (if cache.Some? then cache else lib.fromBase64(settings[SaltKey]))
  {
    if cache.Some? then Success(cache.value)
    else if SaltKey !in settings then Failure(SaltSettingMissing)
    else match lib.fromBase64(settings[SaltKey])
      case None => Failure(SaltNotBase64)
      case Some(salt) => Success(salt)
  }

  /** The fingerprint: base64 of 24 PBKDF2 bytes of the address bytes under the salt. */
  function IpHash(lib: Library, address: IpAddress, salt: seq<byte>): string {
    lib.toBase64(lib.deriveBytes(address.bytes, salt, Pbkdf2Iterations, IpHashLength))
  }

  /** Lookup-or-create without the logging fault: the evidently intended behaviour. */
  ghost function ProvisionIntended(accounts: AccountTable, hash: string, newId: Guid, now: int, saveFails: bool): (p: Provisioned)
    ensures p.outcome.Existing? || p.outcome.Created? ==> p.outcome.id in p.accounts && p.accounts[p.outcome.id].ipHash == hash
    ensures p.outcome.Existing? <==> HashInUse(accounts, hash)
    ensures p.outcome.Created? <==> !HashInUse(accounts, hash) && !saveFails && newId !in accounts
    ensures p.accounts == if p.outcome.Created? then accounts[newId := Account(hash, now)] else accounts
  {
    if HashInUse(accounts, hash) then Provisioned(Existing(AccountWithHash(accounts, hash)), accounts)
    else if saveFails || newId in accounts then Provisioned(Faulted(SaveRejected), accounts)
    else Provisioned(Created(newId), accounts[newId := Account(hash, now)])
  }

  /**
   * Lookup-or-create as written: logging an existing account takes the first
   * five characters of the address text, which throws on shorter text.
   */
  ghost function Provision(accounts: AccountTable, address: IpAddress, hash: string, newId: Guid, now: int, saveFails: bool): (p: Provisioned)
    ensures p.outcome.Existing? || p.outcome.Created? ==> p.outcome.id in p.accounts && p.accounts[p.outcome.id].ipHash == hash
    ensures p.outcome.Existing? <==> HashInUse(accounts, hash) && |address.text| >= LoggedAddressPrefix
    ensures p.outcome.Created? <==> !HashInUse(accounts, hash) && !saveFails && newId !in accounts
    ensures p.accounts == if p.outcome.Created? then accounts[newId := Account(hash, now)] else accounts
  {
    if HashInUse(accounts, hash) && |address.text| < LoggedAddressPrefix then Provisioned(Faulted(LoggedPrefixTooShort), accounts)
    else ProvisionIntended(accounts, hash, newId, now, saveFails)
  }

  /**
   * One CreateAccount call. `now` is DateTime.Now, `newId` is Guid.NewGuid(),
   * `saveFails` says whether SaveChangesAsync throws.
   */
  ghost function CreateAccountStep(lib: Library, st: State, observed: Option<IpAddress>, headers: seq<Header>,
                                   now: int, newId: Guid, saveFails: bool): (r: StepResult)
    ensures r.state.settings == st.settings
    ensures r.outcome == NoAddress <==> Resolve(lib, observed, headers) == Unresolved
    ensures r.outcome.Existing? || r.outcome.Created? ==> Resolve(lib, observed, headers).Resolved? && r.state.salt.Some?
    ensures !r.outcome.Created? ==> r.state.accounts == st.accounts
  {
    match Resolve(lib, observed, headers)
    case Unresolved => StepResult(NoAddress, st)
    case Unparseable => StepResult(Faulted(AddressUnparseable), st)
    case Resolved(address) =>
      match LoadSalt(lib, st.salt, st.settings)
      case Failure(f) => StepResult(Faulted(f), st)
      case Success(salt) =>
        var p := Provision(st.accounts, address, IpHash(lib, address, salt), newId, now, saveFails);
        StepResult(p.outcome, State(Some(salt), st.settings, p.accounts))
  }

  /** Every outcome but an account id collapses to Success = false with no id. */
  function ReplyFor(lib: Library, outcome: Outcome): (r: CreateAccountReply)
    ensures r.success <==> outcome.Existing? || outcome.Created?
    ensures r.success ==> r.accountId == Some(lib.formatGuid(outcome.id))
    ensures !r.success ==> r.accountId == None
  {
    match outcome
    case Existing(id) => CreateAccountReply(true, Some(lib.formatGuid(id)))
    case Created(id) => CreateAccountReply(true, Some(lib.formatGuid(id)))
    case _ => CreateAccountReply(false, None)
  }

  // ---------------------------------------------------------------------
  // Properties of one call
  // ---------------------------------------------------------------------

  /** Without an address the call fails before the salt is loaded and changes nothing. */
  lemma NoAddressChangesNothing(lib: Library, st: State, observed: Option<IpAddress>, headers: seq<Header>,
                                now: int, newId: Guid, saveFails: bool)
    requires observed == None ||
      (IsLoopbackText(observed.value.text) && forall j :: 0 <= j < |headers| ==> headers[j].key != RealIpHeader)
    ensures CreateAccountStep(lib, st, observed, headers, now, newId, saveFails) == StepResult(NoAddress, st)
    ensures !ReplyFor(lib, NoAddress).success && ReplyFor(lib, NoAddress).accountId == None
  {
    UnresolvedExactly(lib, observed, headers);
  }

  /**
   * The salt is read from the settings only while the cache is empty, and a
   * call with an address fills an empty cache from a present, decodable
   * setting; once set it never changes, and it is always the decoded durable
   * setting.
   */
  lemma SaltLoadedOnce(lib: Library, st: State, observed: Option<IpAddress>, headers: seq<Header>,
                       now: int, newId: Guid, saveFails: bool)
    ensures var r := CreateAccountStep(lib, st, observed, headers, now, newId, saveFails);
      && r.state.settings == st.settings
      && (st.salt.Some? ==> r.state.salt == st.salt)
      && (r.state.salt != st.salt ==> st.salt == None && SaltKey in st.settings && r.state.salt == lib.fromBase64(st.settings[SaltKey]))
      && (st.salt == None && Resolve(lib, observed, headers).Resolved? && SaltKey in st.settings && lib.fromBase64(st.settings[SaltKey]) != None
          ==> r.state.salt == lib.fromBase64(st.settings[SaltKey]))
      && (SaltConsistent(lib, st.salt, st.settings) ==> SaltConsistent(lib, r.state.salt, r.state.settings))
  {
  }

  /** A call that answers with an id has used the salt it leaves cached. */
  lemma AnswerUsesCachedSalt(lib: Library, st: State, observed: Option<IpAddress>, headers: seq<Header>,
                             now: int, newId: Guid, saveFails: bool)
    requires var o := CreateAccountStep(lib, st, observed, headers, now, newId, saveFails).outcome; o.Existing? || o.Created?
    ensures var r := CreateAccountStep(lib, st, observed, headers, now, newId, saveFails);
      && Resolve(lib, observed, headers).Resolved?
      && r.state.salt.Some?
      && r.outcome.id in r.state.accounts
      && r.state.accounts[r.outcome.id].ipHash == IpHash(lib, Resolve(lib, observed, headers).address, r.state.salt.value)
  {
  }

  /** An account with the fingerprint exists: its id is answered and the table is unchanged. */
  lemma ExistingAccountReturned(lib: Library, st: State, observed: Option<IpAddress>, headers: seq<Header>,
                                now: int, newId: Guid, saveFails: bool, id: Guid)
    requires UniqueHashes(st.accounts)
    requires Resolve(lib, observed, headers).Resolved?
    requires |Resolve(lib, observed, headers).address.text| >= LoggedAddressPrefix
    requires LoadSalt(lib, st.salt, st.settings).Success?
    requires id in st.accounts
    requires st.accounts[id].ipHash == IpHash(lib, Resolve(lib, observed, headers).address, LoadSalt(lib, st.salt, st.settings).value)
    ensures var r := CreateAccountStep(lib, st, observed, headers, now, newId, saveFails);
      r.outcome == Existing(id) && r.state.accounts == st.accounts
  {
  }

  /**
   * A new account is only ever added when no account has the fingerprint; it
   * gets a key not yet in the table, the fingerprint and the current time,
   * and every other account is left as it was.
   */
  lemma NewAccountInserted(lib: Library, st: State, observed: Option<IpAddress>, headers: seq<Header>,
                           now: int, newId: Guid, saveFails: bool)
    ensures var r := CreateAccountStep(lib, st, observed, headers, now, newId, saveFails);
      if r.outcome.Created? then
        && r.outcome.id == newId
        && newId !in st.accounts
        && Resolve(lib, observed, headers).Resolved?
        && r.state.salt.Some?
        && var hash := IpHash(lib, Resolve(lib, observed, headers).address, r.state.salt.value);
        && !HashInUse(st.accounts, hash)
        && r.state.accounts == st.accounts[newId := Account(hash, now)]
      else
        r.state.accounts == st.accounts
  {
  }

  /**
   * When the address resolves, the salt loads and no account has the
   * fingerprint, the call inserts the new account if the save succeeds and
   * the new key is free, and otherwise fails with the table unchanged.
   */
  lemma NoMatchingAccountCreatesOne(lib: Library, st: State, observed: Option<IpAddress>, headers: seq<Header>,
                                    now: int, newId: Guid, saveFails: bool)
    requires Resolve(lib, observed, headers).Resolved?
    requires LoadSalt(lib, st.salt, st.settings).Success?
    requires !HashInUse(st.accounts, IpHash(lib, Resolve(lib, observed, headers).address, LoadSalt(lib, st.salt, st.settings).value))
    ensures var r := CreateAccountStep(lib, st, observed, headers, now, newId, saveFails);
      var hash := IpHash(lib, Resolve(lib, observed, headers).address, LoadSalt(lib, st.salt, st.settings).value);
      if !saveFails && newId !in st.accounts then
        r.outcome == Created(newId) && r.state.accounts == st.accounts[newId := Account(hash, now)]
      else
        r.outcome == Faulted(SaveRejected) && r.state.accounts == st.accounts
  {
  }

  /** The table only grows, by at most one account, and at most one account per fingerprint is kept. */
  lemma {:induction false} StepKeepsHashesUnique(lib: Library, st: State, observed: Option<IpAddress>, headers: seq<Header>,
                                                 now: int, newId: Guid, saveFails: bool)
    requires UniqueHashes(st.accounts)
    ensures var r := CreateAccountStep(lib, st, observed, headers, now, newId, saveFails);
      && UniqueHashes(r.state.accounts)
      && st.accounts.Keys <= r.state.accounts.Keys
      && |r.state.accounts| <= |st.accounts| + 1
      && forall id :: id in st.accounts ==> r.state.accounts[id] == st.accounts[id]
  {
    var r := CreateAccountStep(lib, st, observed, headers, now, newId, saveFails);
    NewAccountInserted(lib, st, observed, headers, now, newId, saveFails);
    if r.outcome.Created? {
      var hash := r.state.accounts[newId].ipHash;
      forall a, b | a in r.state.accounts && b in r.state.accounts && r.state.accounts[a].ipHash == r.state.accounts[b].ipHash
        ensures a == b
      {
        if a != newId && b != newId {
          assert st.accounts[a].ipHash == st.accounts[b].ipHash;
        }
      }
      assert r.state.accounts.Keys == st.accounts.Keys + {newId};
    }
  }

  /** With unique fingerprints the lookup finds the one account that has it. */
  lemma AccountWithHashIsTheOne(accounts: AccountTable, hash: string, id: Guid)
    requires UniqueHashes(accounts)
    requires id in accounts && accounts[id].ipHash == hash
    ensures AccountWithHash(accounts, hash) == id
  {
  }

  // ---------------------------------------------------------------------
  // Two calls
  // ---------------------------------------------------------------------

  /**
   * Two calls that resolve to the same address return the same id, and the
   * second changes nothing, provided the address text has at least five
   * characters (see ProvisionShortTextRepeatFails for shorter text).
   */
  lemma CreateAccountIdempotent(lib: Library, st: State, observed: Option<IpAddress>, headers: seq<Header>,
                                now1: int, newId1: Guid, saveFails1: bool,
                                observed2: Option<IpAddress>, headers2: seq<Header>,
                                now2: int, newId2: Guid, saveFails2: bool)
    requires UniqueHashes(st.accounts)
    requires var o := CreateAccountStep(lib, st, observed, headers, now1, newId1, saveFails1).outcome; o.Existing? || o.Created?
    requires Resolve(lib, observed2, headers2) == Resolve(lib, observed, headers)
    requires |Resolve(lib, observed, headers).address.text| >= LoggedAddressPrefix
    ensures var r1 := CreateAccountStep(lib, st, observed, headers, now1, newId1, saveFails1);
      var r2 := CreateAccountStep(lib, r1.state, observed2, headers2, now2, newId2, saveFails2);
      r2.outcome == Existing(r1.outcome.id) && r2.state == r1.state
  {
    var r1 := CreateAccountStep(lib, st, observed, headers, now1, newId1, saveFails1);
    AnswerUsesCachedSalt(lib, st, observed, headers, now1, newId1, saveFails1);
    StepKeepsHashesUnique(lib, st, observed, headers, now1, newId1, saveFails1);
    ExistingAccountReturned(lib, r1.state, observed2, headers2, now2, newId2, saveFails2, r1.outcome.id);
  }

  // ---------------------------------------------------------------------
  // The logging fault of the "existing account" path
  // ---------------------------------------------------------------------

  /** As written: after a first call creates the account, a repeat from a short address text fails. */
  lemma ProvisionShortTextRepeatFails(accounts: AccountTable, address: IpAddress, hash: string,
                                      newId1: Guid, now1: int, saveFails1: bool,
                                      newId2: Guid, now2: int, saveFails2: bool)
    requires |address.text| < LoggedAddressPrefix
    requires Provision(accounts, address, hash, newId1, now1, saveFails1).outcome.Created?
    ensures var p1 := Provision(accounts, address, hash, newId1, now1, saveFails1);
      Provision(p1.accounts, address, hash, newId2, now2, saveFails2).outcome == Faulted(LoggedPrefixTooShort)
  {
    var p1 := Provision(accounts, address, hash, newId1, now1, saveFails1);
    assert p1.accounts[newId1].ipHash == hash;
  }

  /** A non-loopback address text shorter than five characters exists ("::2"). */
  lemma ShortAddressTextIsPossible()
    ensures !IsLoopbackText("::2") && |"::2"| < LoggedAddressPrefix
  {
    assert "::2"[0] != "127."[0];
  }

  /** Corrected: the second lookup-or-create for the same fingerprint returns the same id and changes nothing. */
  lemma {:induction false} ProvisionIntendedIdempotent(accounts: AccountTable, hash: string,
                                                       newId1: Guid, now1: int, saveFails1: bool,
                                                       newId2: Guid, now2: int, saveFails2: bool)
    requires UniqueHashes(accounts)
    requires var o := ProvisionIntended(accounts, hash, newId1, now1, saveFails1).outcome; o.Existing? || o.Created?
    ensures var p1 := ProvisionIntended(accounts, hash, newId1, now1, saveFails1);
      var p2 := ProvisionIntended(p1.accounts, hash, newId2, now2, saveFails2);
      p2.outcome == Existing(p1.outcome.id) && p2.accounts == p1.accounts
  {
    var p1 := ProvisionIntended(accounts, hash, newId1, now1, saveFails1);
    if p1.outcome.Created? {
      forall a, b | a in p1.accounts && b in p1.accounts && p1.accounts[a].ipHash == p1.accounts[b].ipHash
        ensures a == b
      {
        if a != newId1 && b != newId1 {
          assert accounts[a].ipHash == accounts[b].ipHash;
        }
      }
    }
    AccountWithHashIsTheOne(p1.accounts, hash, p1.outcome.id);
  }

  /** The two versions differ only on the existing-account path for address text under five characters. */
  lemma ProvisionDiffersOnlyOnShortText(accounts: AccountTable, address: IpAddress, hash: string, newId: Guid, now: int, saveFails: bool)
    ensures Provision(accounts, address, hash, newId, now, saveFails) != ProvisionIntended(accounts, hash, newId, now, saveFails)
      <==> HashInUse(accounts, hash) && |address.text| < LoggedAddressPrefix
  {
  }
}
