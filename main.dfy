/** The main process: the module-level key maps, the signing key and the
    persisted configuration as the fields of one object, and the IPC handlers
    as its methods. Calls into the OpenPGP library, gpg and the file system are
    parameters: the key batches they yield, or the failure they report. */
module Main {
  import opened Wrappers
  import opened KeyIndex

  /** The plugin's persisted configuration. */
  datatype Config = Config(useSystemGPG: bool, signKeyID: Option<string>, keyBinding: seq<Binding>)

  const DefaultConfig := Config(false, None, [])

  /** A thrown error, kept only for its message. */
  datatype Error = Error(message: string)

  /** What `loadKeychain` finds at one entry of the keychain folder. */
  datatype FolderEntry =
    | Directory                         // skipped
    | Unreadable                        // lstat or readFile rejects: the error leaves loadKeychain
    | KeyFile(keys: Option<seq<Key>>)   // the keys readKeys finds, None when it rejects the text

  /** The key batches that a folder listing contributes: one per readable file
      whose text parses, up to the first entry that cannot be read. */
  function FolderBatches(entries: seq<FolderEntry>): seq<seq<Key>>
  {
    if entries == [] then []
    else match entries[0]
      case Unreadable => []
      case Directory => FolderBatches(entries[1..])
      case KeyFile(keys) => (if keys.Some? then [keys.value] else []) + FolderBatches(entries[1..])
  }

  predicate AllReadable(entries: seq<FolderEntry>)
  {
    forall i :: 0 <= i < |entries| ==> !entries[i].Unreadable?
  }

  lemma {:induction false} FolderBatchesSnoc(entries: seq<FolderEntry>, e: FolderEntry)
    requires AllReadable(entries)
    ensures FolderBatches(entries + [e]) == FolderBatches(entries) +
              (if e.KeyFile? && e.keys.Some? then [e.keys.value] else [])
    decreases |entries|
  {
    if entries == [] {
      assert ([] + [e])[1..] == [];
    } else {
      assert (entries + [e])[1..] == entries[1..] + [e];
      FolderBatchesSnoc(entries[1..], e);
    }
  }

  lemma {:induction false} FolderBatchesStop(entries: seq<FolderEntry>, i: nat)
    requires i < |entries| && entries[i].Unreadable? && AllReadable(entries[..i])
    ensures FolderBatches(entries) == FolderBatches(entries[..i])
    decreases i
  {
    if i > 0 {
      assert entries[1..][..i - 1] == entries[..i][1..];
      FolderBatchesStop(entries[1..], i - 1);
    }
  }

  lemma FolderStart(entries: seq<FolderEntry>, done: seq<seq<Key>>)
    ensures AllReadable(entries[..0]) && done + FolderBatches(entries[..0]) == done
  {
    assert entries[..0] == [];
    assert done + [] == done;
  }

  /** One iteration of the folder loop, as the batches it appends. */
  lemma FolderStep(entries: seq<FolderEntry>, i: nat, done: seq<seq<Key>>)
    requires i < |entries| && AllReadable(entries[..i])
    ensures !entries[i].Unreadable? ==> AllReadable(entries[..i + 1])
    ensures entries[i].Directory? || entries[i] == KeyFile(None) ==>
              done + FolderBatches(entries[..i + 1]) == done + FolderBatches(entries[..i])
    ensures entries[i].KeyFile? && entries[i].keys.Some? ==>
              done + FolderBatches(entries[..i + 1]) == (done + FolderBatches(entries[..i])) + [entries[i].keys.value]
  {
    assert entries[..i + 1] == entries[..i] + [entries[i]];
    FolderBatchesSnoc(entries[..i], entries[i]);
  }

  /** The batches the two gpg exports contribute when gpg is in use; a failed
      export, or an output readKeys rejects, contributes nothing. */
  function GpgBatches(useSystemGPG: bool, exportPublic: Option<seq<Key>>, exportSecret: Option<seq<Key>>): seq<seq<Key>>
  {
    if !useSystemGPG then []
    else
      (if exportPublic.Some? then [exportPublic.value] else [])
      + (if exportSecret.Some? then [exportSecret.value] else [])
  }

  /** The first position in message order whose key ID names a private key. */
  function FirstOwned(ids: seq<string>, privateSubkeys: map<string, Key>): (r: Option<nat>)
    ensures r.Some? ==> r.value < |ids| && ids[r.value] in privateSubkeys
    ensures r.Some? ==> forall j :: 0 <= j < r.value ==> ids[j] !in privateSubkeys
    ensures r.None? ==> forall j :: 0 <= j < |ids| ==> ids[j] !in privateSubkeys
  {
    if ids == [] then None
    else if ids[0] in privateSubkeys then Some(0)
    else match FirstOwned(ids[1..], privateSubkeys)
      case Some(j) => Some(j + 1)
      case None => None
  }

  /** The verification keys the decrypt handler passes: for each of the
      message's encryption key IDs, in order, its public owner when known. */
  function VerificationKeys(ids: seq<string>, publicSubkeys: map<string, Key>): (r: seq<Key>)
    ensures |r| <= |ids|
    ensures forall k :: k in r ==> exists i :: 0 <= i < |ids| && ids[i] in publicSubkeys && publicSubkeys[ids[i]] == k
    ensures forall i :: 0 <= i < |ids| && ids[i] in publicSubkeys ==> publicSubkeys[ids[i]] in r
    decreases |ids|
  {
    if ids == [] then []
    else
      var n := |ids| - 1;
      var init := VerificationKeys(ids[..n], publicSubkeys);
      assert forall i :: 0 <= i < n ==> ids[..n][i] == ids[i];
      if ids[n] in publicSubkeys then init + [publicSubkeys[ids[n]]] else init
  }

  /** A signature found while decrypting; `verified` is None when its
      verification promise rejects. */
  datatype Signature = Signature(keyID: string, verified: Option<bool>)
  datatype Decrypted = Decrypted(data: string, signatures: seq<Signature>)

  datatype SignatureStatus = SignatureStatus(keyID: string, verified: bool)

  /** The object the decrypt handler returns. */
  datatype DecryptResult = DecryptResult(
    error: Option<Error>,
    keyIDs: seq<string>,
    signatures: seq<SignatureStatus>,
    data: Option<string>)

  /** Each signature's key ID and verdict, a rejected verification read as false. */
  function Statuses(sigs: seq<Signature>): (r: seq<SignatureStatus>)
    ensures |r| == |sigs|
    ensures forall i :: 0 <= i < |sigs| ==> r[i].keyID == sigs[i].keyID
    ensures forall i :: 0 <= i < |sigs| ==> (r[i].verified <==> sigs[i].verified == Some(true))
  {
    seq(|sigs|, i requires 0 <= i < |sigs| => SignatureStatus(sigs[i].keyID, sigs[i].verified.GetOr(false)))
  }

  /** What the decrypt handler returns on the embedded OpenPGP path, given what
      the library makes of the message (its encryption key IDs or a parse error)
      and what it answers when asked to decrypt with a key. */
  function EmbeddedDecrypt(
    message: Result<seq<string>, Error>,
    privateSubkeys: map<string, Key>,
    publicSubkeys: map<string, Key>,
    decrypt: (Key, seq<Key>) -> Result<Decrypted, Error>): (r: DecryptResult)
    ensures message.Failure? ==> r == DecryptResult(Some(message.error), [], [], None)
    ensures message.Success? ==> r.keyIDs == message.value
    ensures message.Success? && FirstOwned(message.value, privateSubkeys).None? ==>
              r.error.None? && r.data.None? && r.signatures == []
    ensures message.Success? && FirstOwned(message.value, privateSubkeys).Some? ==>
              var out := decrypt(privateSubkeys[message.value[FirstOwned(message.value, privateSubkeys).value]],
                                 VerificationKeys(message.value, publicSubkeys));
              (out.Success? ==> r.error.None? && r.data == Some(out.value.data)
                                && r.signatures == Statuses(out.value.signatures))
              && (out.Failure? ==> r.error == Some(out.error) && r.data.None? && r.signatures == [])
    ensures r.error.Some? ==> r.data.None? && r.signatures == []
  {
    match message
    case Failure(e) => DecryptResult(Some(e), [], [], None)
    case Success(ids) =>
      match FirstOwned(ids, privateSubkeys)
      case None => DecryptResult(None, ids, [], None)
      case Some(i) =>
        match decrypt(privateSubkeys[ids[i]], VerificationKeys(ids, publicSubkeys))
        case Failure(e) => DecryptResult(Some(e), ids, [], None)
        case Success(d) => DecryptResult(None, ids, Statuses(d.signatures), Some(d.data))
  }

  /** The gpg path of the decrypt handler: gpg's stdout, or its failure. */
  function GpgDecrypt(gpgOutput: Result<string, Error>): (r: DecryptResult)
    ensures r.keyIDs == [] && r.signatures == []
    ensures r.error.Some? <==> gpgOutput.Failure?
    ensures r.data.Some? <==> gpgOutput.Success?
    ensures gpgOutput.Success? ==> r.data.value == gpgOutput.value
  {
    match gpgOutput
    case Success(stdout) => DecryptResult(None, [], [], Some(stdout))
    case Failure(e) => DecryptResult(Some(e), [], [], None)
  }

  /** The loop of the decrypt handler, proved to compute `EmbeddedDecrypt`. */
  method DecryptEmbedded(
    message: Result<seq<string>, Error>,
    privateSubkeys: map<string, Key>,
    publicSubkeys: map<string, Key>,
    decrypt: (Key, seq<Key>) -> Result<Decrypted, Error>) returns (r: DecryptResult)
    ensures r == EmbeddedDecrypt(message, privateSubkeys, publicSubkeys, decrypt)
  {
    r := DecryptResult(None, [], [], None);
    if message.Failure? {
      r := r.(error := Some(message.error));
      return;
    }
    var ids := message.value;
    r := r.(keyIDs := ids);
    var i := 0;
    while i < |ids|
      invariant 0 <= i <= |ids|
      invariant forall j :: 0 <= j < i ==> ids[j] !in privateSubkeys
      invariant r == DecryptResult(None, ids, [], None)
    {
      if ids[i] in privateSubkeys {
        var key := privateSubkeys[ids[i]];
        var decrypted := decrypt(key, VerificationKeys(ids, publicSubkeys));
        if decrypted.Failure? {
          r := r.(error := Some(decrypted.error));
          return;
        }
        var d := decrypted.value;
        var sigs: seq<SignatureStatus> := [];
        for k := 0 to |d.signatures|
          invariant sigs == Statuses(d.signatures[..k])
        {
          var signature := d.signatures[k];
          sigs := sigs + [SignatureStatus(signature.keyID, signature.verified.GetOr(false))];
        }
        assert d.signatures[..|d.signatures|] == d.signatures;
        r := r.(signatures := sigs, data := Some(d.data));
        return;
      }
      i := i + 1;
    }
  }

  /** The recipients on the embedded encrypt path: the signing key and the
      target, unless there is no signing key or it has the target's primary ID. */
  function EncryptionKeys(signKey: Option<Key>, target: Key): (r: seq<Key>)
    ensures 1 <= |r| <= 2 && r[|r| - 1] == target
    ensures |r| == 2 <==> signKey.Some? && signKey.value.primaryID != target.primaryID
    ensures |r| == 2 ==> r[0] == signKey.value
    ensures signKey.Some? ==> exists k :: k in r && k.primaryID == signKey.value.primaryID
    ensures forall i, j :: 0 <= i < j < |r| ==> r[i].primaryID != r[j].primaryID
  {
    if signKey.Some? && signKey.value.primaryID != target.primaryID then [signKey.value, target] else [target]
  }

  /** The gpg command line of the encrypt handler. */
  function GpgEncryptArgs(targetKeyID: string, signKey: Option<Key>): (r: seq<string>)
    ensures |r| >= 4 && r[..4] == ["--armor", "--encrypt", "--recipient", targetKeyID]
    ensures signKey.None? ==> |r| == 4
    ensures signKey.Some? ==> r[4..] == ["--sign", "--local-user", signKey.value.primaryID]
  {
    ["--armor", "--encrypt", "--recipient", targetKeyID]
      + (if signKey.Some? then ["--sign", "--local-user", signKey.value.primaryID] else [])
  }

  /** The error an encrypt request for an unknown target key ends in. The
      source does not raise an error of its own there: dereferencing the missing
      key fails inside the runtime or the OpenPGP library, with a message that is
      not part of this model. The text here only names the case. */
  const UnknownTargetError := Error("target key not found")

  /** The target and signing key a view of a key offers to the renderer. */
  datatype KeyRef = KeyRef(userIDs: seq<UserView>, keyID: string)

  function RefOf(k: Key): (r: KeyRef)
    ensures r.keyID == k.primaryID && r.userIDs == UserViews(k.users)
  {
    KeyRef(UserViews(k.users), k.primaryID)
  }

  class Plugin {
    var keychain: map<string, Key>
    var privateSubkeys: map<string, Key>
    var publicSubkeys: map<string, Key>
    var keyBindings: map<int, Key>
    var signKey: Option<Key>
    var config: Config

    ghost function Index(): Indices
      reads this
    {
      Indices(keychain, privateSubkeys, publicSubkeys)
    }

    /** The maps are consistent, every binding has a positive uin and a public
        key, and the signing key, when set, is private. */
    ghost predicate Valid()
      reads this
    {
      && Consistent(Index())
      && (forall u :: u in keyBindings ==> u > 0 && !keyBindings[u].isPrivate)
      && (signKey.Some? ==> signKey.value.isPrivate)
    }

    constructor (config: Config)
      ensures Valid()
      ensures Index() == EmptyIndices && keyBindings == map[] && signKey == None
      ensures this.config == config
    {
      keychain, privateSubkeys, publicSubkeys := map[], map[], map[];
      keyBindings := map[];
      signKey := None;
      this.config := config;
    }

    /** `addKeys` once `readKeys` has produced the batch. */
    method AddKeys(keys: seq<Key>)
      requires Valid()
      modifies this
      ensures Valid()
      ensures Index() == AddAll(old(Index()), keys)
      ensures keyBindings == old(keyBindings) && signKey == old(signKey) && config == old(config)
    {
      for i := 0 to |keys|
        invariant Valid()
        invariant Index() == AddAll(old(Index()), keys[..i])
        invariant keyBindings == old(keyBindings) && signKey == old(signKey) && config == old(config)
      {
        AddKeyConsistent(Index(), keys[i]);
        IndexKey(keys[i]);
        assert keys[..i + 1][..i] == keys[..i];
      }
      assert keys[..|keys|] == keys;
    }

    /** The body of the loop in `addKeys`, for one key. */
    method IndexKey(key: Key)
      modifies this
      ensures Index() == AddKey(old(Index()), key)
      ensures keyBindings == old(keyBindings) && signKey == old(signKey) && config == old(config)
    {
      if key.isPrivate {
        var publicKey := ToPublic(key);
        var privates := SetEach(privateSubkeys, AllIDs(key), key);
        var publics := SetEach(publicSubkeys, AllIDs(publicKey), publicKey);
        keychain, privateSubkeys, publicSubkeys := keychain[key.primaryID := key], privates, publics;
      } else if key.primaryID !in privateSubkeys {
        var publics := SetEach(publicSubkeys, AllIDs(key), key);
        keychain, publicSubkeys := keychain[key.primaryID := key], publics;
      }
    }

    /** `loadKeychain`: clear everything, add the gpg exports (when gpg is in
        use) and then the key files of the keychain folder, then resolve the
        persisted bindings and signing key. `folder` is None when the folder
        cannot be created or listed. An entry that cannot be read ends the load
        with `completed` false, with bindings and signing key left cleared. The
        configuration is read, never written. */
    method LoadKeychain(
      exportPublic: Option<seq<Key>>,
      exportSecret: Option<seq<Key>>,
      folder: Option<seq<FolderEntry>>) returns (completed: bool)
      requires Valid()
      modifies this
      ensures Valid()
      ensures config == old(config)
      ensures completed <==> folder.Some? && AllReadable(folder.value)
      ensures Index() == AddBatches(EmptyIndices,
                GpgBatches(config.useSystemGPG, exportPublic, exportSecret)
                + (if folder.Some? then FolderBatches(folder.value) else []))
      ensures completed ==> keyBindings == Reconcile(publicSubkeys, config.keyBinding)
      ensures completed ==> signKey == LoadedSignKey(privateSubkeys, config.signKeyID)
      ensures !completed ==> keyBindings == map[] && signKey == None
    {
      keychain, privateSubkeys, publicSubkeys := map[], map[], map[];
      keyBindings := map[];
      signKey := None;
      EmptyConsistent();
      ghost var gpg := GpgBatches(config.useSystemGPG, exportPublic, exportSecret);
      if config.useSystemGPG {
        AddGpgExports(exportPublic, exportSecret);
      }
      if folder.None? {
        assert gpg + [] == gpg;
        return false;
      }
      completed := AddFolder(folder.value, gpg);
      if completed {
        ResolveConfig();
      }
    }

    /** The two gpg exports of `loadKeychain`, each skipped when it failed. */
    method AddGpgExports(exportPublic: Option<seq<Key>>, exportSecret: Option<seq<Key>>)
      requires Valid()
      modifies this
      ensures Valid()
      ensures Index() == AddBatches(old(Index()), GpgBatches(true, exportPublic, exportSecret))
      ensures keyBindings == old(keyBindings) && signKey == old(signKey) && config == old(config)
    {
      var pre: seq<seq<Key>> := [];
      if exportPublic.Some? {
        AddKeys(exportPublic.value);
        pre := [exportPublic.value];
        assert pre[..0] == [];
      }
      assert Index() == AddBatches(old(Index()), pre);
      if exportSecret.Some? {
        AddKeys(exportSecret.value);
        assert (pre + [exportSecret.value])[..|pre|] == pre;
      }
    }

    /** The folder loop of `loadKeychain`: directories are skipped, a file
        readKeys rejects adds nothing, and an entry that cannot be read stops
        the loop with `completed` false. */
    method AddFolder(entries: seq<FolderEntry>, ghost done: seq<seq<Key>>) returns (completed: bool)
      requires Valid()
      requires Index() == AddBatches(EmptyIndices, done)
      modifies this
      ensures Valid()
      ensures completed <==> AllReadable(entries)
      ensures Index() == AddBatches(EmptyIndices, done + FolderBatches(entries))
      ensures keyBindings == old(keyBindings) && signKey == old(signKey) && config == old(config)
    {
      FolderStart(entries, done);
      for i := 0 to |entries|
        invariant Valid()
        invariant AllReadable(entries[..i])
        invariant Index() == AddBatches(EmptyIndices, done + FolderBatches(entries[..i]))
        invariant keyBindings == old(keyBindings) && signKey == old(signKey) && config == old(config)
      {
        FolderStep(entries, i, done);
        match entries[i]
        case Directory =>
        case Unreadable =>
          FolderBatchesStop(entries, i);
          return false;
        case KeyFile(keys) =>
          if keys.Some? {
            AddKeys(keys.value);
            AddBatchesSnoc(EmptyIndices, done + FolderBatches(entries[..i]), keys.value);
          }
      }
      assert entries[..|entries|] == entries;
      completed := true;
    }

    /** The end of `loadKeychain`: the persisted bindings and the configured
        signing key, resolved against the freshly built maps. */
    method ResolveConfig()
      requires Valid() && keyBindings == map[] && signKey == None
      modifies this
      ensures Valid()
      ensures keyBindings == Reconcile(publicSubkeys, config.keyBinding)
      ensures signKey == LoadedSignKey(privateSubkeys, config.signKeyID)
      ensures Index() == old(Index()) && config == old(config)
    {
      var kbs := config.keyBinding;
      for i := 0 to |kbs|
        invariant Valid()
        invariant keyBindings == Reconcile(publicSubkeys, kbs[..i])
        invariant signKey == None && config == old(config) && Index() == old(Index())
      {
        assert kbs[..i + 1][..i] == kbs[..i];
        var kb := kbs[i];
        if kb.uin <= 0 || kb.keyID !in publicSubkeys {
          continue;
        }
        keyBindings := keyBindings[kb.uin := publicSubkeys[kb.keyID]];
      }
      assert kbs[..|kbs|] == kbs;
      if config.signKeyID.Some? && config.signKeyID.value != "" && config.signKeyID.value in privateSubkeys {
        signKey := Some(privateSubkeys[config.signKeyID.value]);
      }
    }

    /** `setSignKeyID`: the private key owning `keyID` becomes the signing key
        and its ID is persisted; an ID no private key has (or none) clears both. */
    method SetSignKeyID(keyID: Option<string>)
      requires Valid()
      modifies this
      ensures Valid()
      ensures keyID.Some? && keyID.value in privateSubkeys ==>
                signKey == Some(privateSubkeys[keyID.value]) && config == old(config).(signKeyID := keyID)
      ensures !(keyID.Some? && keyID.value in privateSubkeys) ==>
                signKey == None && config == old(config).(signKeyID := None)
      ensures Index() == old(Index()) && keyBindings == old(keyBindings)
    {
      if keyID.Some? && keyID.value in privateSubkeys {
        signKey := Some(privateSubkeys[keyID.value]);
        config := config.(signKeyID := keyID);
      } else {
        signKey := None;
        config := config.(signKeyID := None);
      }
    }

    /** `getSignKeyID`: the signing key's user IDs and primary key ID, or null. */
    method GetSignKeyID() returns (r: Option<KeyRef>)
      ensures r.Some? <==> signKey.Some?
      ensures r.Some? ==> r.value.keyID == signKey.value.primaryID
      ensures r.Some? ==> r.value.userIDs == UserViews(signKey.value.users)
    {
      if signKey.None? {
        return None;
      }
      r := Some(RefOf(signKey.value));
    }

    /** `setKeyBinding`: both the in-memory map and the persisted list are
        rebuilt from the input alone, keeping the entries that survive, in
        order. */
    method SetKeyBinding(entries: seq<Binding>)
      requires Valid()
      modifies this
      ensures Valid()
      ensures keyBindings == Reconcile(publicSubkeys, entries)
      ensures config == old(config).(keyBinding := Surviving(publicSubkeys, entries))
      ensures Index() == old(Index()) && signKey == old(signKey)
    {
      config := config.(keyBinding := []);
      keyBindings := map[];
      for i := 0 to |entries|
        invariant Valid()
        invariant keyBindings == Reconcile(publicSubkeys, entries[..i])
        invariant config == old(config).(keyBinding := Surviving(publicSubkeys, entries[..i]))
        invariant Index() == old(Index()) && signKey == old(signKey)
      {
        assert entries[..i + 1][..i] == entries[..i];
        var kb := entries[i];
        if kb.uin <= 0 || kb.keyID !in publicSubkeys {
          continue;
        }
        keyBindings := keyBindings[kb.uin := publicSubkeys[kb.keyID]];
        config := config.(keyBinding := config.keyBinding + [kb]);
      }
      assert entries[..|entries|] == entries;
    }

    /** `getKeyBinding`: the key bound to `uin`, or null for an unbound uin. */
    method GetKeyBinding(uin: int) returns (r: Option<KeyRef>)
      ensures r.Some? <==> uin in keyBindings
      ensures r.Some? ==> r.value == RefOf(keyBindings[uin])
    {
      if uin !in keyBindings {
        return None;
      }
      r := Some(RefOf(keyBindings[uin]));
    }

    /** `getUserIDsByKeyID`: the user IDs of the private owner of `keyID`, else
        of its public owner, else undefined. */
    method GetUserIDsByKeyID(keyID: string) returns (r: Option<seq<UserView>>)
      ensures r.Some? <==> keyID in privateSubkeys || keyID in publicSubkeys
      ensures keyID in privateSubkeys ==> r == Some(UserViews(privateSubkeys[keyID].users))
      ensures keyID !in privateSubkeys && keyID in publicSubkeys ==>
                r == Some(UserViews(publicSubkeys[keyID].users))
    {
      if keyID in privateSubkeys {
        r := Some(UserViews(privateSubkeys[keyID].users));
      } else if keyID in publicSubkeys {
        r := Some(UserViews(publicSubkeys[keyID].users));
      } else {
        r := None;
      }
    }

    /** `handleEncryptedMessage`: gpg's answer on the gpg path, otherwise the
        embedded path. Failures are returned in `error`, never thrown. */
    method HandleEncryptedMessage(
      gpgOutput: Result<string, Error>,
      message: Result<seq<string>, Error>,
      decrypt: (Key, seq<Key>) -> Result<Decrypted, Error>) returns (r: DecryptResult)
      ensures config.useSystemGPG ==> r == GpgDecrypt(gpgOutput)
      ensures !config.useSystemGPG ==> r == EmbeddedDecrypt(message, privateSubkeys, publicSubkeys, decrypt)
    {
      if config.useSystemGPG {
        r := GpgDecrypt(gpgOutput);
      } else {
        r := DecryptEmbedded(message, privateSubkeys, publicSubkeys, decrypt);
      }
    }

    /** `encryptMessage`: on the gpg path, gpg's answer to the command line for
        the target (and the signing key); on the embedded path, the library's
        answer for the chosen recipients with the signing key, if any, as
        signer. An unknown target ends in an error. */
    method EncryptMessage(
      targetKeyID: string,
      plaintext: string,
      gpgEncrypt: (seq<string>, string) -> Result<string, Error>,
      encrypt: (seq<Key>, Option<Key>, string) -> Result<string, Error>) returns (r: Result<string, Error>)
      ensures config.useSystemGPG ==> r == gpgEncrypt(GpgEncryptArgs(targetKeyID, signKey), plaintext)
      ensures !config.useSystemGPG && targetKeyID !in publicSubkeys ==> r == Failure(UnknownTargetError)
      ensures !config.useSystemGPG && targetKeyID in publicSubkeys ==>
                r == encrypt(EncryptionKeys(signKey, publicSubkeys[targetKeyID]), signKey, plaintext)
    {
      if config.useSystemGPG {
        r := gpgEncrypt(GpgEncryptArgs(targetKeyID, signKey), plaintext);
      } else if targetKeyID !in publicSubkeys {
        r := Failure(UnknownTargetError);
      } else {
        var targetKey := publicSubkeys[targetKeyID];
        r := encrypt(EncryptionKeys(signKey, targetKey), signKey, plaintext);
      }
    }
  }

  /** The `forEach` that records one key under each of its IDs. */
  method SetEach(m: map<string, Key>, ids: seq<string>, v: Key) returns (r: map<string, Key>)
    ensures r == SetAll(m, ids, v)
    ensures r.Keys == m.Keys + (set id | id in ids)
  {
    r := m;
    for i := 0 to |ids|
      invariant r == SetAll(m, ids[..i], v)
    {
      assert ids[..i + 1][..i] == ids[..i];
      r := r[ids[i] := v];
    }
    assert ids[..|ids|] == ids;
  }

  /** A reload against the same public keys restores what `setKeyBinding` set:
      resolving the persisted list gives the map it built, and persisting it
      again changes nothing. */
  lemma BindingsSurviveReload(publicSubkeys: map<string, Key>, entries: seq<Binding>)
    ensures Reconcile(publicSubkeys, Surviving(publicSubkeys, entries)) == Reconcile(publicSubkeys, entries)
    ensures Surviving(publicSubkeys, Surviving(publicSubkeys, entries)) == Surviving(publicSubkeys, entries)
  {
    ReconcileSurviving(publicSubkeys, entries);
    SurvivingIdempotent(publicSubkeys, entries);
  }
}
