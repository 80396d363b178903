/** The wallet session hook: the connected Hive account, the `isConnecting` flag, the last
    error, whether the Keychain extension was detected, and the browser's local storage, where
    the last username is kept under `hiveUsername`. The Keychain answer is a parameter. */
module Wallet {
  import opened Text

  /** The connected account; only its name is read elsewhere. */
  datatype HiveAccount = HiveAccount(name: string)

  const UsernameKey: string := "hiveUsername"
  const ConnectFailed: string := "Failed to connect wallet"

  /** How `connectWithKeychain(username)` ended: with a response (whose `account` and `message`
      may be missing), or by throwing (an error whose `message` may be missing). */
  datatype ConnectOutcome =
    | Answered(success: bool, account: Option<HiveAccount>, message: Option<string>)
    | Threw(message: Option<string>)

  /** The account a connection attempt establishes: only a successful response that carries
      an account does. */
  function ConnectedAccount(o: ConnectOutcome): (r: Option<HiveAccount>)
    ensures r.Some? <==> o.Answered? && o.success && o.account.Some?
    ensures r.Some? ==> r == o.account
  {
    match o
    case Answered(success, account, _) => if success && account.Some? then account else None
    case Threw(_) => None
  }

  /** The error an attempt that did not connect leaves: the response's own message (which may
      be missing), or the thrown error's message, falling back to the default when it is
      missing or empty. */
  function ConnectError(o: ConnectOutcome): (r: Option<string>)
    requires ConnectedAccount(o).None?
    ensures o.Answered? ==> r == o.message
    ensures o.Threw? ==> r.Some? && r.value != []
    ensures o.Threw? && Truthy(o.message) ==> r == o.message
    ensures o.Threw? && !Truthy(o.message) ==> r == Some(ConnectFailed)
  {
    match o
    case Answered(_, _, message) => message
    case Threw(message) => Some(OrElse(message, ConnectFailed))
  }

  /** The saved username the auto-connect effect connects with, if it fires: the stored name
      must be present and non-empty, and the extension must have been detected. */
  function AutoConnectTarget(storage: map<string, string>, keychainDetected: bool): (r: Option<string>)
    ensures r.Some? <==> keychainDetected && UsernameKey in storage && storage[UsernameKey] != []
    ensures r.Some? ==> r.value == storage[UsernameKey]
  {
    if UsernameKey in storage && storage[UsernameKey] != [] && keychainDetected
    then Some(storage[UsernameKey]) else None
  }

  /** Once the saved name is removed, auto-connect no longer fires, whatever the extension. */
  lemma NoAutoConnectAfterRemoval(storage: map<string, string>, keychainDetected: bool)
    ensures AutoConnectTarget(storage - {UsernameKey}, keychainDetected).None?
  {
  }

  /** A missing extension or a missing name each stop auto-connect on their own. */
  lemma AutoConnectNeedsBoth(storage: map<string, string>, keychainDetected: bool)
    ensures !keychainDetected ==> AutoConnectTarget(storage, keychainDetected).None?
    ensures UsernameKey !in storage ==> AutoConnectTarget(storage, keychainDetected).None?
    ensures UsernameKey in storage && storage[UsernameKey] == [] ==> AutoConnectTarget(storage, keychainDetected).None?
  {
  }

  /** Only the `hiveUsername` entry of local storage is consulted: writing any other key
      leaves the auto-connect decision as it was. */
  lemma AutoConnectIgnoresOtherKeys(storage: map<string, string>, keychainDetected: bool, k: string, v: string)
    requires k != UsernameKey
    ensures AutoConnectTarget(storage[k := v], keychainDetected) == AutoConnectTarget(storage, keychainDetected)
  {
    assert (UsernameKey in storage[k := v]) == (UsernameKey in storage);
    if UsernameKey in storage {
      assert storage[k := v][UsernameKey] == storage[UsernameKey];
    }
  }

  class WalletSession {
    var account: Option<HiveAccount>
    var isConnecting: bool
    var error: Option<string>
    var keychainDetected: bool
    var storage: map<string, string>

    /** The hook's initial state; `installed` is what the extension check reports at mount. */
    constructor(installed: bool, saved: map<string, string>)
      ensures account.None? && !isConnecting && error.None?
      ensures keychainDetected == installed && storage == saved
    {
      account := None;
      isConnecting := false;
      error := None;
      keychainDetected := installed;
      storage := saved;
    }

    /** The delayed second look for the extension. `rerun` tells whether the auto-connect
        effect, which depends on `keychainDetected` alone, runs again after it. */
    method RecheckKeychain(installed: bool) returns (rerun: bool)
      modifies this
      ensures keychainDetected == installed
      ensures rerun <==> installed != old(keychainDetected)
      ensures account == old(account) && isConnecting == old(isConnecting) && error == old(error)
      ensures storage == old(storage)
    {
      rerun := installed != keychainDetected;
      keychainDetected := installed;
    }

    /** `handleConnect` up to its `await`: the flag is raised and the error cleared before the
        extension is asked; the name it is asked for is returned. */
    method BeginConnect(username: string) returns (request: string)
      modifies this
      ensures request == username
      ensures isConnecting && error.None?
      ensures account == old(account) && keychainDetected == old(keychainDetected) && storage == old(storage)
    {
      isConnecting := true;
      error := None;
      request := username;
    }

    /** `handleConnect` after its `await`, including the `finally`: the flag is lowered on every
        path, the account changes only on a successful response with an account, and an
        attempt that did not connect records its error. */
    method CompleteConnect(outcome: ConnectOutcome) returns (connected: bool)
      modifies this
      ensures connected <==> ConnectedAccount(outcome).Some?
      ensures !isConnecting
      ensures account == (if connected then ConnectedAccount(outcome) else old(account))
      ensures error == (if connected then old(error) else ConnectError(outcome))
      ensures keychainDetected == old(keychainDetected) && storage == old(storage)
    {
      var established := ConnectedAccount(outcome);
      if established.Some? {
        account := established;
        connected := true;
      } else {
        error := ConnectError(outcome);
        connected := false;
      }
      isConnecting := false;
    }

    /** `connect(username)`: the whole handler, for the given answer of the extension. */
    method HandleConnect(username: string, outcome: ConnectOutcome) returns (connected: bool)
      modifies this
      ensures connected <==> ConnectedAccount(outcome).Some?
      ensures !isConnecting
      ensures account == (if connected then ConnectedAccount(outcome) else old(account))
      ensures error == (if connected then None else ConnectError(outcome))
      ensures keychainDetected == old(keychainDetected) && storage == old(storage)
    {
      var _ := BeginConnect(username);
      connected := CompleteConnect(outcome);
    }

    /** `disconnect()`: forgets the saved name and the account, and nothing else. */
    method Disconnect()
      modifies this
      ensures storage == old(storage) - {UsernameKey}
      ensures account.None?
      ensures isConnecting == old(isConnecting) && error == old(error) && keychainDetected == old(keychainDetected)
    {
      storage := storage - {UsernameKey};
      account := None;
    }

    /** The auto-connect effect: connects with the saved name when it fires, and otherwise
        changes nothing. */
    method RunAutoConnect(outcome: ConnectOutcome) returns (attempted: Option<string>, connected: bool)
      modifies this
      ensures attempted == AutoConnectTarget(old(storage), old(keychainDetected))
      ensures connected ==> attempted.Some?
      ensures attempted.None? ==> account == old(account) && isConnecting == old(isConnecting) && error == old(error)
      ensures attempted.Some? ==> (connected <==> ConnectedAccount(outcome).Some?) && !isConnecting
      ensures attempted.Some? ==> account == (if connected then ConnectedAccount(outcome) else old(account))
      ensures attempted.Some? ==> error == (if connected then None else ConnectError(outcome))
      ensures keychainDetected == old(keychainDetected) && storage == old(storage)
    {
      attempted := AutoConnectTarget(storage, keychainDetected);
      connected := false;
      if attempted.Some? {
        connected := HandleConnect(attempted.value, outcome);
      }
    }
  }
}
