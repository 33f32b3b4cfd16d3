/**
 The client's custody of its secret (src/client_ops.c:67-168, 279-376): in cleartext, or in
 an attached provider under the secret's bundle hash.

 A provider is a foreign object: it keeps records by bundle hash, and a store may succeed,
 be refused, or fail with its record torn. A record opens under options that fit it.
 */
module Custody {
  import opened Basics

  /** The label, passphrase, recovery passphrase, and whether an unrecoverable store is allowed. */
  datatype Options = Options(keyLabel: Text, passphrase: Text, recovery: Text, allowUnrecoverable: bool)

  const NO_OPTIONS := Options(None, None, None, false)

  datatype Record = Record(secret: string, options: Options)

  type Vault = map<string, Record>

  /** What a provider does with a store; Torn leaves any record, or none, behind its error. */
  datatype StoreOutcome = Stored | Refused | Torn(left: Option<Record>)

  /** bundleHash is SHAKE256; opens(written, given) says whether a record opens. */
  datatype Env = Env(bundleHash: string -> string, opens: (Options, Options) -> bool) {
    ghost predicate Valid() {
      forall o: Options {:trigger opens(o, o)} :: opens(o, o)
    }
  }

  function VaultAfter(vault: Vault, bundle: string, secret: string, options: Options, outcome: StoreOutcome): Vault {
    match outcome
    case Stored => vault[bundle := Record(secret, options)]
    case Refused => vault
    case Torn(None) => vault - {bundle}
    case Torn(Some(left)) => vault[bundle := left]
  }

  /** The provider's retrieve_secret: None is its success without a secret. */
  function Opened(env: Env, vault: Vault, bundle: string, options: Options): Result<Text> {
    if bundle !in vault then Success(None)
    else if env.opens(vault[bundle].options, options) then Success(Some(vault[bundle].secret))
    else Failure(CryptoError)
  }

  // ---------------------------------------------------------------- the machine

  datatype State = State(secret: Text, bundle: Text, vault: Option<Vault>, options: Options)

  const INITIAL := State(None, None, None, NO_OPTIONS)

  datatype Op =
    | SetSecret(secret: string, outcome: StoreOutcome)
    | SetStorage(provider: Option<Vault>, bundle: Text, options: Option<Options>, outcome: StoreOutcome)

  /** client_store_secret. */
  function StoreSecret(env: Env, s: State, secret: string, outcome: StoreOutcome): (Error, State) {
    var bundle := env.bundleHash(secret);
    if s.vault.None? then (Ok, s.(bundle := Some(bundle), secret := Some(secret)))
    else
      var t := s.(vault := Some(VaultAfter(s.vault.value, bundle, secret, s.options, outcome)));
      if outcome.Stored? then (Ok, t.(bundle := Some(bundle), secret := None)) else (MemoryError, t)
  }

  /** The state of set_secret_storage before it moves a cleartext secret. */
  function Attached(s: State, provider: Option<Vault>, bundle: Text, options: Option<Options>): State {
    s.(vault := provider, options := if options.Some? then options.value else NO_OPTIONS,
    bundle := if bundle.Some? then bundle else s.bundle)
  }

  function SetSecretStorage(env: Env, s: State, provider: Option<Vault>, bundle: Text, options: Option<Options>,
                            outcome: StoreOutcome): (Error, State) {
    if bundle == Some("") then (InvalidArgs, s)
    else
      var attached := Attached(s, provider, bundle, options);
      if provider.None? || s.secret.None? then (Ok, attached)
      else
        var stored := StoreSecret(env, attached.(secret := None), s.secret.value, outcome);
        if stored.0 != Ok then (stored.0, stored.1.(secret := s.secret)) else stored
  }

  function Step(env: Env, s: State, op: Op): (Error, State) {
    match op
    case SetSecret(secret, outcome) => StoreSecret(env, s, secret, outcome)
    case SetStorage(provider, bundle, options, outcome) => SetSecretStorage(env, s, provider, bundle, options, outcome)
  }

  /** knishio_client_retrieve_secret. */
  function Retrieved(env: Env, s: State): Result<string> {
    if s.secret.Some? then Success(s.secret.value)
    else if s.vault.None? || s.bundle.None? then Failure(InvalidState)
    else
      match Opened(env, s.vault.value, s.bundle.value, s.options)
      case Failure(e) => Failure(e)
      case Success(None) => Failure(InvalidState)
      case Success(Some(secret)) => Success(secret)
  }

  // ---------------------------------------------------------------- one step

  /** A secret that was set is the secret retrieved, wherever it went. */
  lemma {:induction false} SetIsRetrieved(env: Env, s: State, secret: string, outcome: StoreOutcome)
    requires env.Valid() && Step(env, s, SetSecret(secret, outcome)).0 == Ok
    ensures Retrieved(env, Step(env, s, SetSecret(secret, outcome)).1) == Success(secret)
  {
    assert env.opens(s.options, s.options);
  }

  /** A store that is refused changes nothing; one that tears its record spoils only the secret of that bundle. */
  lemma {:induction false} FailedSet(env: Env, s: State, secret: string, outcome: StoreOutcome)
    requires Step(env, s, SetSecret(secret, outcome)).0 != Ok
    ensures var after := Step(env, s, SetSecret(secret, outcome)).1;
            (outcome.Refused? ==> after == s) &&
            Retrieved(env, after)
            == if s.secret.None? && outcome.Torn? && s.bundle == Some(env.bundleHash(secret)) then
                 match outcome.left
                 case None => Failure(InvalidState)
                 case Some(left) =>
                   if env.opens(left.options, s.options) then Success(left.secret) else Failure(CryptoError)
               else Retrieved(env, s)
  {
  }

  /**
   Attaching, replacing or detaching a provider keeps the retrieved secret exactly when it was
   held in cleartext or the new provider has it under the bundle and options now in force.
   */
  lemma {:induction false} AttachKeeps(env: Env, s: State, provider: Option<Vault>, bundle: Text,
                                       options: Option<Options>, outcome: StoreOutcome, secret: string)
    requires env.Valid() && bundle != Some("") && Retrieved(env, s) == Success(secret)
    ensures var after := Step(env, s, SetStorage(provider, bundle, options, outcome)).1;
            var attached := Attached(s, provider, bundle, options);
            Retrieved(env, after) == Success(secret) <==>
              s.secret.Some? ||
              (provider.Some? && attached.bundle.Some? &&
               Opened(env, provider.value, attached.bundle.value, attached.options) == Success(Some(secret)))
  {
    var o := Attached(s, provider, bundle, options).options;
    assert env.opens(o, o);
  }

  // ---------------------------------------------------------------- runs

  /** The state after some operations, and what each answered. */
  function Run(env: Env, ops: seq<Op>): (r: (State, seq<Error>))
    ensures |r.1| == |ops|
  {
    if ops == [] then (INITIAL, [])
    else
      var front := Run(env, ops[..|ops| - 1]);
      var step := Step(env, front.0, ops[|ops| - 1]);
      (step.1, front.1 + [step.0])
  }

  /** The last secret whose SetSecret succeeded. */
  function LastSet(env: Env, ops: seq<Op>): Text {
    if ops == [] then None
    else
      var n := |ops| - 1;
      if ops[n].SetSecret? && Run(env, ops).1[n] == Ok then Some(ops[n].secret) else LastSet(env, ops[..n])
  }

  /** In every run, cleartext the client still holds is the last secret set. */
  lemma {:induction false} CleartextIsLastSet(env: Env, ops: seq<Op>)
    ensures var s := Run(env, ops).0; s.secret.Some? ==> LastSet(env, ops) == s.secret
  {
    if ops != [] {
      CleartextIsLastSet(env, ops[..|ops| - 1]);
    }
  }

  /** The vault has this secret under a record that opens. */
  predicate HoldsCopy(env: Env, vault: Option<Vault>, bundle: Text, options: Options, secret: string) {
    vault.Some? && bundle.Some? && bundle.value in vault.value && vault.value[bundle.value].secret == secret &&
    env.opens(vault.value[bundle.value].options, options)
  }

  /**
   What a caller can check before a call, from its arguments and the last secret set. It matters
   while no cleartext is held. A new secret does not share the bundle in force, unless it is the
   last one again; storage stays as it is, or already has a copy of the last secret.
   */
  predicate Careful(env: Env, s: State, last: string, op: Op) {
    match op
    case SetSecret(secret, _) => s.secret.Some? || s.bundle != Some(env.bundleHash(secret)) || secret == last
    case SetStorage(provider, bundle, options, _) =>
      s.secret.Some? || bundle == Some("") || Attached(s, provider, bundle, options) == s ||
      HoldsCopy(env, provider, if bundle.Some? then bundle else s.bundle,
                if options.Some? then options.value else NO_OPTIONS, last)
  }

  predicate CarefulRun(env: Env, ops: seq<Op>) {
    ops == [] ||
    var front := ops[..|ops| - 1];
    CarefulRun(env, front) &&
    (LastSet(env, front).Some? ==> Careful(env, Run(env, front).0, LastSet(env, front).value, ops[|ops| - 1]))
  }

  /** A provider that fails a store keeps its old record, or has the new secret under a record that opens. */
  predicate KeepsRecord(env: Env, s: State, op: Op) {
    op.SetSecret? && s.vault.Some? && op.outcome.Torn? ==>
      var bundle, left := env.bundleHash(op.secret), op.outcome.left;
      left == (if bundle in s.vault.value then Some(s.vault.value[bundle]) else None) ||
      (left.Some? && left.value.secret == op.secret && env.opens(left.value.options, s.options))
  }

  predicate KeptRun(env: Env, ops: seq<Op>) {
    ops == [] ||
    (KeptRun(env, ops[..|ops| - 1]) && KeepsRecord(env, Run(env, ops[..|ops| - 1]).0, ops[|ops| - 1]))
  }

  /** The call, had the provider answered it this way. */
  function Answered(op: Op, outcome: StoreOutcome): Op {
    op.(outcome := outcome)
  }

  /** Retrieval gives the last secret set after this call. */
  predicate StillRemembers(env: Env, s: State, last: string, op: Op) {
    Retrieved(env, Step(env, s, op).1)
    == Success(if op.SetSecret? && Step(env, s, op).0 == Ok then op.secret else last)
  }

  /** A careful call keeps the last secret retrievable, whatever a provider that keeps records answers. */
  lemma {:induction false} CarefulRemembers(env: Env, s: State, last: string, op: Op)
    requires env.Valid() && Retrieved(env, s) == Success(last)
    requires Careful(env, s, last, op) && KeepsRecord(env, s, op)
    ensures StillRemembers(env, s, last, op)
  {
    match op
    case SetSecret(secret, outcome) =>
      if Step(env, s, op).0 == Ok {
        SetIsRetrieved(env, s, secret, outcome);
      } else {
        FailedSet(env, s, secret, outcome);
      }
    case SetStorage(provider, bundle, options, outcome) =>
      if bundle != Some("") {
        AttachKeeps(env, s, provider, bundle, options, outcome, last);
      }
  }

  /** And no weaker rule on the arguments does: after any other call some such answer loses the secret. */
  lemma {:induction false} CarefulExactly(env: Env, s: State, last: string, op: Op)
    requires env.Valid() && Retrieved(env, s) == Success(last)
    ensures Careful(env, s, last, op) <==>
              forall outcome :: KeepsRecord(env, s, Answered(op, outcome)) ==>
                                  StillRemembers(env, s, last, Answered(op, outcome))
  {
    if Careful(env, s, last, op) {
      forall outcome | KeepsRecord(env, s, Answered(op, outcome))
        ensures StillRemembers(env, s, last, Answered(op, outcome))
      {
        CarefulRemembers(env, s, last, Answered(op, outcome));
      }
    } else {
      var torn := Torn(Some(Record(if op.SetSecret? then op.secret else last, s.options)));
      assert env.opens(s.options, s.options);
      assert KeepsRecord(env, s, Answered(op, torn));
      assert !StillRemembers(env, s, last, Answered(op, torn));
    }
  }

  /**
   Custody refines remembering the last secret set: with providers that keep records, every run of
   careful calls retrieves it, whichever stores failed.
   */
  lemma {:induction false} CustodyRemembers(env: Env, ops: seq<Op>)
    requires env.Valid() && CarefulRun(env, ops) && KeptRun(env, ops) && LastSet(env, ops).Some?
    ensures Retrieved(env, Run(env, ops).0) == Success(LastSet(env, ops).value)
  {
    var n := |ops| - 1;
    var s, op := Run(env, ops[..n]).0, ops[n];
    if op.SetSecret? && Step(env, s, op).0 == Ok {
      SetIsRetrieved(env, s, op.secret, op.outcome);
    } else {
      CustodyRemembers(env, ops[..n]);
      CarefulRemembers(env, s, LastSet(env, ops).value, op);
    }
  }

  /** A provider that drops the record of a failed store loses the only copy of the secret. */
  lemma {:induction false} TornRecordLoses(env: Env, secret: string)
    ensures var ops := [SetStorage(Some(map[]), None, None, Stored), SetSecret(secret, Stored),
                        SetSecret(secret, Torn(None))];
            CarefulRun(env, ops) && LastSet(env, ops) == Some(secret) &&
            Retrieved(env, Run(env, ops).0) == Failure(InvalidState)
  {
    var attach, store: Op := SetStorage(Some(map[]), None, None, Stored), SetSecret(secret, Stored);
    var again: Op := SetSecret(secret, Torn(None));
    var ops := [attach, store, again];
    assert ops[..2] == [attach, store] && [attach, store][..1] == [attach] && [attach][..0] == [];
    assert Run(env, [attach]).0 == INITIAL.(vault := Some(map[]));
    assert CarefulRun(env, [attach]) && LastSet(env, [attach]) == None;
    assert CarefulRun(env, ops[..2]) && LastSet(env, ops[..2]) == Some(secret);
  }

  predicate Coexist(s: State) {
    s.secret.Some? && s.vault.Some?
  }

  /** Operation i attached a provider and failed to move the cleartext into it. */
  predicate FailedAttach(ops: seq<Op>, errors: seq<Error>, i: nat)
    requires |ops| == |errors|
  {
    i < |ops| && ops[i].SetStorage? && ops[i].provider.Some? && ops[i].bundle != Some("") && errors[i] != Ok
  }

  ghost predicate FailedSince(ops: seq<Op>, errors: seq<Error>)
    requires |ops| == |errors|
  {
    exists i: nat :: FailedAttach(ops, errors, i) && forall j :: i < j < |ops| ==> errors[j] != Ok
  }

  lemma {:induction false} FailedSinceSnoc(ops: seq<Op>, errors: seq<Error>)
    requires |ops| == |errors| > 0
    ensures var n := |ops| - 1;
            FailedSince(ops, errors) <==>
              errors[n] != Ok && (FailedAttach(ops, errors, n) || FailedSince(ops[..n], errors[..n]))
  {
    var n := |ops| - 1;
    if FailedSince(ops, errors) {
      var i: nat :| FailedAttach(ops, errors, i) && forall j :: i < j < |ops| ==> errors[j] != Ok;
      if i < n {
        assert FailedAttach(ops[..n], errors[..n], i);
      }
    }
    if errors[n] != Ok && FailedSince(ops[..n], errors[..n]) {
      var i: nat :| FailedAttach(ops[..n], errors[..n], i) && forall j :: i < j < n ==> errors[..n][j] != Ok;
      assert FailedAttach(ops, errors, i);
      forall j | i < j < |ops| ensures errors[j] != Ok {
        if j < n {
          assert errors[..n][j] != Ok;
        }
      }
    }
  }

  /** Cleartext and provider coexist exactly after a failed attach with no success since. */
  lemma {:induction false} CoexistAfterFailedAttach(env: Env, ops: seq<Op>)
    ensures Coexist(Run(env, ops).0) <==> FailedSince(ops, Run(env, ops).1)
  {
    if ops != [] {
      var n := |ops| - 1;
      CoexistAfterFailedAttach(env, ops[..n]);
      FailedSinceSnoc(ops, Run(env, ops).1);
      var errors := Run(env, ops).1;
      assert errors[..n] == Run(env, ops[..n]).1;
      var s := Run(env, ops[..n]).0;
      assert errors[n] == Step(env, s, ops[n]).0;
    }
  }

  // ---------------------------------------------------------------- the objects

  class SecretProvider {
    var vault: Vault

    constructor (vault: Vault)
      ensures this.vault == vault
    {
      this.vault := vault;
    }

    method Store(bundle: string, secret: string, options: Options, outcome: StoreOutcome) returns (error: Error)
      modifies this
      ensures vault == VaultAfter(old(vault), bundle, secret, options, outcome)
      ensures error == if outcome.Stored? then Ok else MemoryError
    {
      vault := VaultAfter(vault, bundle, secret, options, outcome);
      error := if outcome.Stored? then Ok else MemoryError;
    }
  }

  class Client {
    var secret: Text
    var bundleHash: Text
    var secretStorage: SecretProvider?
    var keyLabel: Text
    var passphrase: Text
    var recoveryPassphrase: Text
    var allowUnrecoverable: bool

    constructor ()
      ensures Custodian() == INITIAL
    {
      secret, bundleHash, secretStorage := None, None, null;
      keyLabel, passphrase, recoveryPassphrase, allowUnrecoverable := None, None, None, false;
    }

    function Custodian(): State
      reads this, if secretStorage == null then {} else {secretStorage}
    {
      State(secret, bundleHash, if secretStorage == null then None else Some(secretStorage.vault),
            Options(keyLabel, passphrase, recoveryPassphrase, allowUnrecoverable))
    }

    /** client_clear_storage_options. */
    method ClearStorageOptions()
      modifies this`keyLabel, this`passphrase, this`recoveryPassphrase, this`allowUnrecoverable
      ensures Custodian() == old(Custodian()).(options := NO_OPTIONS)
    {
      keyLabel, passphrase, recoveryPassphrase, allowUnrecoverable := None, None, None, false;
    }

    /** client_store_secret: nothing of the client changes unless the provider took the secret. */
    method StoreClientSecret(env: Env, newSecret: string, outcome: StoreOutcome) returns (error: Error)
      modifies this, secretStorage
      ensures secretStorage == old(secretStorage)
      ensures (error, Custodian()) == StoreSecret(env, old(Custodian()), newSecret, outcome)
    {
      var bundle := env.bundleHash(newSecret);
      if secretStorage != null {
        error := secretStorage.Store(bundle, newSecret, Options(keyLabel, passphrase, recoveryPassphrase, allowUnrecoverable),
                                     outcome);
        if error != Ok {
          return error;
        }
        bundleHash := Some(bundle);
        if secret.Some? {
          secret := None;
        }
      } else {
        bundleHash := Some(bundle);
        secret := Some(newSecret);
        error := Ok;
      }
    }

    /** knishio_client_set_secret. */
    method SetSecret(env: Env, newSecret: Text, outcome: StoreOutcome) returns (error: Error)
      modifies this, secretStorage
      ensures newSecret.None? ==> error == InvalidArgs && Custodian() == old(Custodian())
      ensures newSecret.Some? ==>
                (error, Custodian()) == Step(env, old(Custodian()), Op.SetSecret(newSecret.value, outcome))
    {
      if newSecret.None? {
        return InvalidArgs;
      }
      error := StoreClientSecret(env, newSecret.value, outcome);
    }

    /** knishio_client_set_secret_storage. */
    method AttachStorage(env: Env, provider: SecretProvider?, bundle: Text, options: Option<Options>,
                                  outcome: StoreOutcome)
      returns (error: Error)
      modifies this, provider
      ensures (error, Custodian())
           == Step(env, old(Custodian()),
                   SetStorage(if provider == null then None else Some(old(provider.vault)), bundle, options, outcome))
    {
      if bundle.Some? && bundle.value == "" {
        return InvalidArgs;
      }
      ClearStorageOptions();
      secretStorage := provider;
      if options.Some? {
        keyLabel := options.value.keyLabel;
        passphrase := options.value.passphrase;
        recoveryPassphrase := options.value.recovery;
        allowUnrecoverable := options.value.allowUnrecoverable;
      }
      if bundle.Some? {
        bundleHash := bundle;
      }
      error := Ok;
      if provider != null && secret.Some? {
        var currentSecret := secret.value;
        secret := None;
        error := StoreClientSecret(env, currentSecret, outcome);
        if error != Ok {
          secret := Some(currentSecret);
        }
      }
    }

    /** client_resolve_secret and its copy: cleartext first, then the provider. */
    method RetrieveSecret(env: Env) returns (error: Error, plaintext: string)
      ensures match Retrieved(env, Custodian())
              case Success(s) => error == Ok && plaintext == s
              case Failure(e) => error == e
    {
      if secret.Some? {
        return Ok, secret.value;
      }
      if secretStorage != null && bundleHash.Some? {
        var answer := Opened(env, secretStorage.vault, bundleHash.value,
                             Options(keyLabel, passphrase, recoveryPassphrase, allowUnrecoverable));
        if answer.Failure? {
          return answer.error, "";
        }
        if answer.value.None? {
          return InvalidState, "";
        }
        return Ok, answer.value.value;
      }
      return InvalidState, "";
    }
  }
}
