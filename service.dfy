/**
 * The account service object: its `_salt` cache and the database context
 * whose account table CreateAccount inserts into.
 */
module Service {
  import opened Wrappers
  import opened Platform
  import opened AddressResolution
  import opened Provisioning

  /** The database context: the Accounts table and the GlobalSettings records. */
  class PalContext {
    var accounts: AccountTable
    var globalSettings: map<string, string>

    constructor (accounts: AccountTable, globalSettings: map<string, string>)
      ensures this.accounts == accounts && this.globalSettings == globalSettings
    {
      this.accounts := accounts;
      this.globalSettings := globalSettings;
    }
  }

  class AccountService {
    const lib: Library
    const db: PalContext
    var salt: Option<seq<byte>>

    /** Fingerprints are unique (the database index) and the salt cache agrees with storage. */
    ghost predicate Valid()
      reads this, db
    {
      UniqueHashes(db.accounts) && SaltConsistent(lib, salt, db.globalSettings)
    }

    ghost function State(): State
      reads this, db
    {
      Provisioning.State(salt, db.globalSettings, db.accounts)
    }

    /** A fresh service starts with no salt cached. */
    constructor (lib: Library, db: PalContext)
      requires UniqueHashes(db.accounts)
      ensures Valid() && this.lib == lib && this.db == db && salt == None
    {
      this.lib := lib;
      this.db := db;
      salt := None;
    }

    /**
     * CreateAccount: resolve the client address, load the salt if it is not
     * cached, and answer the id of the account with the address fingerprint,
     * inserting one if there is none.
     */
    method CreateAccount(observed: Option<IpAddress>, headers: seq<Header>, now: int, newId: Guid, saveFails: bool)
      returns (reply: CreateAccountReply)
      requires Valid()
      modifies this`salt, db`accounts
      ensures Valid()
      ensures var r := CreateAccountStep(lib, old(State()), observed, headers, now, newId, saveFails);
        reply == ReplyFor(lib, r.outcome) && State() == r.state
    {
      ghost var st := State();
      SaltLoadedOnce(lib, st, observed, headers, now, newId, saveFails);
      StepKeepsHashesUnique(lib, st, observed, headers, now, newId, saveFails);
      var resolved := ResolveClientAddress(lib, observed, headers);
      if !resolved.Resolved? {
        return CreateAccountReply(false, None);
      }
      var address := resolved.address;
      if salt == None {
        if SaltKey !in db.globalSettings {
          return CreateAccountReply(false, None);
        }
        var decoded := lib.fromBase64(db.globalSettings[SaltKey]);
        if decoded == None {
          return CreateAccountReply(false, None);
        }
        salt := decoded;
      }
      var hash := IpHash(lib, address, salt.value);
      if HashInUse(db.accounts, hash) {
        var id :| id in db.accounts && db.accounts[id].ipHash == hash;
        AccountWithHashIsTheOne(db.accounts, hash, id);
        if |address.text| < LoggedAddressPrefix {
          return CreateAccountReply(false, None);
        }
        return CreateAccountReply(true, Some(lib.formatGuid(id)));
      }
      if saveFails || newId in db.accounts {
        return CreateAccountReply(false, None);
      }
      db.accounts := db.accounts[newId := Account(hash, now)];
      reply := CreateAccountReply(true, Some(lib.formatGuid(newId)));
    }
  }
}
