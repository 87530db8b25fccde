/** The key indices kept by the main process, as values: what `addKeys` does to
    them for each key it reads, and how persisted bindings and the configured
    signing key are resolved against them. The class in module `Main` updates
    its fields in place and is proved to follow these definitions. */
module KeyIndex {
  import opened Wrappers

  /** A user packet of an OpenPGP key. A user-attribute packet (a photo) has no
      user ID, so `userID` is absent for it. */
  datatype UserIDPacket = UserIDPacket(name: string, email: string)
  datatype User = User(userID: Option<UserIDPacket>)

  /** An OpenPGP key as far as the plugin looks into it: the key ID of its
      primary key, those of its subkeys, whether it holds secret material, and
      its users. Everything else the OpenPGP library does with a key is outside
      this model. */
  datatype Key = Key(primaryID: string, subkeyIDs: seq<string>, isPrivate: bool, users: seq<User>)

  /** The public half of a key: same IDs and users, no secret material. */
  function ToPublic(k: Key): (p: Key)
    ensures p.primaryID == k.primaryID && p.subkeyIDs == k.subkeyIDs && p.users == k.users
    ensures !p.isPrivate
  {
    k.(isPrivate := false)
  }

  /** `[key, ...key.subkeys]` mapped to their key IDs. */
  function AllIDs(k: Key): seq<string>
  {
    [k.primaryID] + k.subkeyIDs
  }

  /** `ids.forEach(id => m.set(id, v))`. */
  function SetAll(m: map<string, Key>, ids: seq<string>, v: Key): (r: map<string, Key>)
    ensures r.Keys == m.Keys + (set id | id in ids)
    ensures forall id :: id in r ==> r[id] == if id in ids then v else m[id]
    decreases |ids|
  {
    if ids == [] then m else SetAll(m, ids[..|ids| - 1], v)[ids[|ids| - 1] := v]
  }

  /** The three key maps: `keychain` by primary key ID, and `privateSubkeys`
      and `publicSubkeys` from any key ID (primary or subkey) to its owner. */
  datatype Indices = Indices(
    keychain: map<string, Key>,
    privateSubkeys: map<string, Key>,
    publicSubkeys: map<string, Key>)

  const EmptyIndices := Indices(map[], map[], map[])

  /** One iteration of the loop in `addKeys`. A private key is recorded in all
      three maps (its public half in `publicSubkeys`); a public key is recorded
      unless its primary ID already names a private key, in which case nothing
      changes. */
  function AddKey(ix: Indices, k: Key): Indices
  {
    if k.isPrivate then
      var p := ToPublic(k);
      Indices(ix.keychain[k.primaryID := k],
              SetAll(ix.privateSubkeys, AllIDs(k), k),
              SetAll(ix.publicSubkeys, AllIDs(p), p))
    else if k.primaryID !in ix.privateSubkeys then
      Indices(ix.keychain[k.primaryID := k], ix.privateSubkeys, SetAll(ix.publicSubkeys, AllIDs(k), k))
    else
      ix
  }

  /** The whole loop of `addKeys`, in batch order. */
  function AddAll(ix: Indices, keys: seq<Key>): Indices
    decreases |keys|
  {
    if keys == [] then ix else AddKey(AddAll(ix, keys[..|keys| - 1]), keys[|keys| - 1])
  }

  /** Several batches fed through `addKeys` one after another. */
  function AddBatches(ix: Indices, batches: seq<seq<Key>>): Indices
    decreases |batches|
  {
    if batches == [] then ix else AddAll(AddBatches(ix, batches[..|batches| - 1]), batches[|batches| - 1])
  }

  lemma AddBatchesSnoc(ix: Indices, batches: seq<seq<Key>>, b: seq<Key>)
    ensures AddBatches(ix, batches + [b]) == AddAll(AddBatches(ix, batches), b)
  {
    assert (batches + [b])[..|batches|] == batches;
  }

  /** The invariant the maps keep:
      - every key ID in `privateSubkeys`, and every primary ID in `keychain`, is
        also in `publicSubkeys`;
      - `keychain` is indexed by each key's own primary ID, and a private key in
        `keychain` is also in `privateSubkeys`;
      - every key ID of `privateSubkeys` or `publicSubkeys` belongs to the key it
        maps to, and that key is private, respectively public. */
  ghost predicate Consistent(ix: Indices)
  {
    && ix.privateSubkeys.Keys <= ix.publicSubkeys.Keys
    && ix.keychain.Keys <= ix.publicSubkeys.Keys
    && (forall id :: id in ix.keychain ==> ix.keychain[id].primaryID == id)
    && (forall id :: id in ix.keychain && ix.keychain[id].isPrivate ==> id in ix.privateSubkeys)
    && (forall id :: id in ix.privateSubkeys ==>
          ix.privateSubkeys[id].isPrivate && id in AllIDs(ix.privateSubkeys[id]))
    && (forall id :: id in ix.publicSubkeys ==>
          !ix.publicSubkeys[id].isPrivate && id in AllIDs(ix.publicSubkeys[id]))
  }

  lemma EmptyConsistent()
    ensures Consistent(EmptyIndices)
  {
  }

  /** Adding a private key sets `keychain[primaryID]` to it, maps each of its
      key IDs to it in `privateSubkeys` and to its public half in
      `publicSubkeys`, and leaves every other entry alone. */
  lemma AddPrivateKey(ix: Indices, k: Key)
    requires k.isPrivate
    ensures AddKey(ix, k).keychain == ix.keychain[k.primaryID := k]
    ensures AddKey(ix, k).privateSubkeys.Keys == ix.privateSubkeys.Keys + set id | id in AllIDs(k)
    ensures AddKey(ix, k).publicSubkeys.Keys == ix.publicSubkeys.Keys + set id | id in AllIDs(k)
    ensures forall id :: id in AllIDs(k) ==>
              AddKey(ix, k).privateSubkeys[id] == k && AddKey(ix, k).publicSubkeys[id] == ToPublic(k)
    ensures forall id :: id in ix.privateSubkeys && id !in AllIDs(k) ==>
              AddKey(ix, k).privateSubkeys[id] == ix.privateSubkeys[id]
    ensures forall id :: id in ix.publicSubkeys && id !in AllIDs(k) ==>
              AddKey(ix, k).publicSubkeys[id] == ix.publicSubkeys[id]
  {
    assert AllIDs(ToPublic(k)) == AllIDs(k);
  }

  /** A public key whose primary ID is already a private key's changes nothing. */
  lemma AddShadowedPublicKey(ix: Indices, k: Key)
    requires !k.isPrivate && k.primaryID in ix.privateSubkeys
    ensures AddKey(ix, k) == ix
  {
  }

  /** Any other public key overwrites `keychain[primaryID]` and the
      `publicSubkeys` entry of each of its key IDs, and leaves `privateSubkeys`
      alone. */
  lemma AddUnshadowedPublicKey(ix: Indices, k: Key)
    requires !k.isPrivate && k.primaryID !in ix.privateSubkeys
    ensures AddKey(ix, k).keychain == ix.keychain[k.primaryID := k]
    ensures AddKey(ix, k).privateSubkeys == ix.privateSubkeys
    ensures AddKey(ix, k).publicSubkeys.Keys == ix.publicSubkeys.Keys + set id | id in AllIDs(k)
    ensures forall id :: id in AllIDs(k) ==> AddKey(ix, k).publicSubkeys[id] == k
    ensures forall id :: id in ix.publicSubkeys && id !in AllIDs(k) ==>
              AddKey(ix, k).publicSubkeys[id] == ix.publicSubkeys[id]
  {
  }

  lemma AddPrivateKeyConsistent(ix: Indices, k: Key)
    requires Consistent(ix) && k.isPrivate
    ensures Consistent(AddKey(ix, k))
  {
    var p := ToPublic(k);
    assert AllIDs(p) == AllIDs(k);
    var kc := ix.keychain[k.primaryID := k];
    var priv := SetAll(ix.privateSubkeys, AllIDs(k), k);
    var pub := SetAll(ix.publicSubkeys, AllIDs(k), p);
    assert AddKey(ix, k) == Indices(kc, priv, pub);
    assert k.primaryID in AllIDs(k);
    forall id | id in priv
      ensures priv[id].isPrivate && id in AllIDs(priv[id])
    {
      if id !in AllIDs(k) {
        assert priv[id] == ix.privateSubkeys[id];
      }
    }
    forall id | id in pub
      ensures !pub[id].isPrivate && id in AllIDs(pub[id])
    {
      if id !in AllIDs(k) {
        assert pub[id] == ix.publicSubkeys[id];
      }
    }
  }

  lemma AddPublicKeyConsistent(ix: Indices, k: Key)
    requires Consistent(ix) && !k.isPrivate
    ensures Consistent(AddKey(ix, k))
  {
    if k.primaryID !in ix.privateSubkeys {
      var r := AddKey(ix, k);
      assert k.primaryID in AllIDs(k);
      forall id | id in r.publicSubkeys
        ensures !r.publicSubkeys[id].isPrivate && id in AllIDs(r.publicSubkeys[id])
      {
      }
    }
  }

  lemma AddKeyConsistent(ix: Indices, k: Key)
    requires Consistent(ix)
    ensures Consistent(AddKey(ix, k))
  {
    if k.isPrivate {
      AddPrivateKeyConsistent(ix, k);
    } else {
      AddPublicKeyConsistent(ix, k);
    }
  }

  lemma {:induction false} AddAllConsistent(ix: Indices, keys: seq<Key>)
    requires Consistent(ix)
    ensures Consistent(AddAll(ix, keys))
    decreases |keys|
  {
    if keys != [] {
      AddAllConsistent(ix, keys[..|keys| - 1]);
      AddKeyConsistent(AddAll(ix, keys[..|keys| - 1]), keys[|keys| - 1]);
    }
  }

  lemma {:induction false} AddBatchesConsistent(ix: Indices, batches: seq<seq<Key>>)
    requires Consistent(ix)
    ensures Consistent(AddBatches(ix, batches))
    decreases |batches|
  {
    if batches != [] {
      AddBatchesConsistent(ix, batches[..|batches| - 1]);
      AddAllConsistent(AddBatches(ix, batches[..|batches| - 1]), batches[|batches| - 1]);
    }
  }

  /** Adding keys never removes a private key ID. */
  lemma {:induction false} AddAllKeepsPrivate(ix: Indices, keys: seq<Key>)
    ensures ix.privateSubkeys.Keys <= AddAll(ix, keys).privateSubkeys.Keys
    decreases |keys|
  {
    if keys != [] {
      AddAllKeepsPrivate(ix, keys[..|keys| - 1]);
    }
  }

  /** Feeding one batch after another is feeding their concatenation. */
  lemma {:induction false} AddAllAppend(ix: Indices, a: seq<Key>, b: seq<Key>)
    ensures AddAll(ix, a + b) == AddAll(AddAll(ix, a), b)
    decreases |b|
  {
    if b == [] {
      assert a + b == a;
    } else {
      assert (a + b)[..|a + b| - 1] == a + b[..|b| - 1];
      AddAllAppend(ix, a, b[..|b| - 1]);
    }
  }

  /** Private precedence: once `keychain` holds a private key for a primary ID,
      no later key makes that entry public again. */
  lemma AddKeyKeepsPrivateEntry(ix: Indices, k: Key, id: string)
    requires Consistent(ix)
    requires id in ix.keychain && ix.keychain[id].isPrivate
    ensures id in AddKey(ix, k).keychain && AddKey(ix, k).keychain[id].isPrivate
  {
  }

  /** Private precedence over a whole batch: whatever preceded or follows it, a
      private key in the batch leaves `keychain` holding a private key for its
      primary ID. */
  lemma {:induction false} PrivateKeyWins(ix: Indices, keys: seq<Key>, i: nat)
    requires Consistent(ix)
    requires i < |keys| && keys[i].isPrivate
    ensures keys[i].primaryID in AddAll(ix, keys).keychain
    ensures AddAll(ix, keys).keychain[keys[i].primaryID].isPrivate
    decreases |keys|
  {
    var id := keys[i].primaryID;
    var init := keys[..|keys| - 1];
    AddAllConsistent(ix, init);
    if i == |keys| - 1 {
    } else {
      PrivateKeyWins(ix, init, i);
      AddKeyKeepsPrivateEntry(AddAll(ix, init), keys[|keys| - 1], id);
    }
  }

  /** Last writer wins: the last key of a batch with a given primary ID is the
      one `keychain` holds for it, unless it is a public key arriving when that
      ID is already private. */
  lemma {:induction false} LastWriterWins(ix: Indices, keys: seq<Key>, j: nat)
    requires j < |keys|
    requires forall k :: j < k < |keys| ==> keys[k].primaryID != keys[j].primaryID
    requires keys[j].isPrivate || keys[j].primaryID !in AddAll(ix, keys[..j]).privateSubkeys
    ensures keys[j].primaryID in AddAll(ix, keys).keychain
    ensures AddAll(ix, keys).keychain[keys[j].primaryID] == keys[j]
    decreases |keys|
  {
    var init := keys[..|keys| - 1];
    if j == |keys| - 1 {
      assert init == keys[..j];
    } else {
      assert init[..j] == keys[..j];
      LastWriterWins(ix, init, j);
    }
  }

  /** `AddBatches` over a list of batches is `AddAll` over their concatenation. */
  function Flatten(batches: seq<seq<Key>>): seq<Key>
    decreases |batches|
  {
    if batches == [] then [] else Flatten(batches[..|batches| - 1]) + batches[|batches| - 1]
  }

  lemma {:induction false} AddBatchesFlatten(ix: Indices, batches: seq<seq<Key>>)
    ensures AddBatches(ix, batches) == AddAll(ix, Flatten(batches))
    decreases |batches|
  {
    if batches != [] {
      var init := batches[..|batches| - 1];
      AddBatchesFlatten(ix, init);
      AddAllAppend(ix, Flatten(init), batches[|batches| - 1]);
    }
  }

  /** A persisted key binding: a QQ number (uin) and the key ID bound to it. */
  datatype Binding = Binding(uin: int, keyID: string)

  /** The test both binding loops apply: a positive uin and a known public key ID. */
  predicate Survives(publicSubkeys: map<string, Key>, b: Binding)
  {
    b.uin > 0 && b.keyID in publicSubkeys
  }

  /** The entries a binding loop keeps, in input order. */
  function Surviving(publicSubkeys: map<string, Key>, entries: seq<Binding>): (r: seq<Binding>)
    ensures |r| <= |entries|
    ensures forall b :: b in r <==> b in entries && Survives(publicSubkeys, b)
    decreases |entries|
  {
    if entries == [] then []
    else
      var init := Surviving(publicSubkeys, entries[..|entries| - 1]);
      var last := entries[|entries| - 1];
      assert entries == entries[..|entries| - 1] + [last];
      if Survives(publicSubkeys, last) then init + [last] else init
  }

  /** The `keyBindings` map a binding loop builds from an empty map: each
      surviving entry binds its uin to the public key owning its key ID, a
      later entry replacing an earlier one for the same uin. */
  function Reconcile(publicSubkeys: map<string, Key>, entries: seq<Binding>): (r: map<int, Key>)
    ensures forall u :: u in r ==> u > 0
    ensures forall u :: u in r ==> exists id :: id in publicSubkeys && r[u] == publicSubkeys[id]
    decreases |entries|
  {
    if entries == [] then map[]
    else
      var init := Reconcile(publicSubkeys, entries[..|entries| - 1]);
      var last := entries[|entries| - 1];
      if Survives(publicSubkeys, last) then init[last.uin := publicSubkeys[last.keyID]] else init
  }

  /** A uin is bound exactly when some surviving entry names it, and it is then
      bound to the key of the LAST surviving entry that names it. */
  lemma ReconcileLookup(publicSubkeys: map<string, Key>, entries: seq<Binding>, u: int)
    ensures u in Reconcile(publicSubkeys, entries) <==>
              exists i :: 0 <= i < |entries| && entries[i].uin == u && Survives(publicSubkeys, entries[i])
    ensures u in Reconcile(publicSubkeys, entries) ==>
              exists i :: 0 <= i < |entries| && entries[i].uin == u && Survives(publicSubkeys, entries[i])
                && Reconcile(publicSubkeys, entries)[u] == publicSubkeys[entries[i].keyID]
                && forall j :: i < j < |entries| && entries[j].uin == u ==> !Survives(publicSubkeys, entries[j])
  {
    ReconcileDomain(publicSubkeys, entries, u);
    if u in Reconcile(publicSubkeys, entries) {
      ReconcileValue(publicSubkeys, entries, u);
    }
  }

  /** The uins bound are those of the surviving entries. */
  lemma {:induction false} ReconcileDomain(publicSubkeys: map<string, Key>, entries: seq<Binding>, u: int)
    ensures u in Reconcile(publicSubkeys, entries) <==>
              exists i :: 0 <= i < |entries| && entries[i].uin == u && Survives(publicSubkeys, entries[i])
    decreases |entries|
  {
    if entries != [] {
      var n := |entries| - 1;
      var init := entries[..n];
      ReconcileDomain(publicSubkeys, init, u);
      if !(Survives(publicSubkeys, entries[n]) && entries[n].uin == u) {
        if u in Reconcile(publicSubkeys, init) {
          var i :| 0 <= i < |init| && init[i].uin == u && Survives(publicSubkeys, init[i]);
          assert entries[i] == init[i];
        }
        if exists i :: 0 <= i < |entries| && entries[i].uin == u && Survives(publicSubkeys, entries[i]) {
          var i :| 0 <= i < |entries| && entries[i].uin == u && Survives(publicSubkeys, entries[i]);
          assert i < n && init[i] == entries[i];
        }
      }
    }
  }

  /** A bound uin holds the key of its last surviving entry. */
  lemma {:induction false} ReconcileValue(publicSubkeys: map<string, Key>, entries: seq<Binding>, u: int)
    requires u in Reconcile(publicSubkeys, entries)
    ensures exists i :: 0 <= i < |entries| && entries[i].uin == u && Survives(publicSubkeys, entries[i])
              && Reconcile(publicSubkeys, entries)[u] == publicSubkeys[entries[i].keyID]
              && forall j :: i < j < |entries| && entries[j].uin == u ==> !Survives(publicSubkeys, entries[j])
    decreases |entries|
  {
    var n := |entries| - 1;
    var init := entries[..n];
    if Survives(publicSubkeys, entries[n]) && entries[n].uin == u {
      assert Reconcile(publicSubkeys, entries)[u] == publicSubkeys[entries[n].keyID];
    } else {
      assert u in Reconcile(publicSubkeys, init);
      ReconcileValue(publicSubkeys, init, u);
      var i :| 0 <= i < |init| && init[i].uin == u && Survives(publicSubkeys, init[i])
              && Reconcile(publicSubkeys, init)[u] == publicSubkeys[init[i].keyID]
              && forall j :: i < j < |init| && init[j].uin == u ==> !Survives(publicSubkeys, init[j]);
      assert entries[i] == init[i];
      assert Reconcile(publicSubkeys, entries)[u] == Reconcile(publicSubkeys, init)[u];
      forall j | i < j < |entries| && entries[j].uin == u
        ensures !Survives(publicSubkeys, entries[j])
      {
        if j < n {
          assert entries[j] == init[j];
        }
      }
    }
  }

  lemma {:induction false} SurvivingAppend(publicSubkeys: map<string, Key>, a: seq<Binding>, b: seq<Binding>)
    ensures Surviving(publicSubkeys, a + b) == Surviving(publicSubkeys, a) + Surviving(publicSubkeys, b)
    decreases |b|
  {
    if b == [] {
      assert a + b == a;
    } else {
      var n := |b| - 1;
      assert (a + b)[..|a + b| - 1] == a + b[..n];
      assert (a + b)[|a + b| - 1] == b[n];
      SurvivingAppend(publicSubkeys, a, b[..n]);
    }
  }

  /** Filtering again keeps everything: the persisted list is a fixed point. */
  lemma {:induction false} SurvivingIdempotent(publicSubkeys: map<string, Key>, entries: seq<Binding>)
    ensures Surviving(publicSubkeys, Surviving(publicSubkeys, entries)) == Surviving(publicSubkeys, entries)
    decreases |entries|
  {
    if entries != [] {
      var n := |entries| - 1;
      var init := entries[..n];
      SurvivingIdempotent(publicSubkeys, init);
      var s := Surviving(publicSubkeys, init);
      if Survives(publicSubkeys, entries[n]) {
        SurvivingAppend(publicSubkeys, s, [entries[n]]);
        assert Surviving(publicSubkeys, [entries[n]]) == [entries[n]] by {
          assert [entries[n]][..0] == [];
        }
      }
    }
  }

  /** Resolving the persisted (filtered) list gives the same map as resolving the
      original input: a reload against the same keys restores the bindings that
      `setKeyBinding` made. */
  lemma {:induction false} ReconcileSurviving(publicSubkeys: map<string, Key>, entries: seq<Binding>)
    ensures Reconcile(publicSubkeys, Surviving(publicSubkeys, entries)) == Reconcile(publicSubkeys, entries)
    decreases |entries|
  {
    if entries != [] {
      var n := |entries| - 1;
      var init := entries[..n];
      ReconcileSurviving(publicSubkeys, init);
      var s := Surviving(publicSubkeys, init);
      if Survives(publicSubkeys, entries[n]) {
        assert (s + [entries[n]])[..|s|] == s;
      }
    }
  }

  /** The signing key `loadKeychain` selects: the private key owning the
      configured ID, when that ID is a non-empty string (the source tests its
      truthiness) present in `privateSubkeys`; otherwise none. */
  function LoadedSignKey(privateSubkeys: map<string, Key>, signKeyID: Option<string>): (r: Option<Key>)
    ensures r.Some? <==> signKeyID.Some? && signKeyID.value != "" && signKeyID.value in privateSubkeys
    ensures r.Some? ==> r.value == privateSubkeys[signKeyID.value]
  {
    if signKeyID.Some? && signKeyID.value != "" && signKeyID.value in privateSubkeys
    then Some(privateSubkeys[signKeyID.value]) else None
  }

  /** `{name: e.userID?.name, email: e.userID?.email}` for one user. */
  datatype UserView = UserView(name: Option<string>, email: Option<string>)

  function UserViews(users: seq<User>): (r: seq<UserView>)
    ensures |r| == |users|
    ensures forall i :: 0 <= i < |users| ==>
              (r[i].name.Some? <==> users[i].userID.Some?) && (r[i].email.Some? <==> users[i].userID.Some?)
    ensures forall i :: 0 <= i < |users| && users[i].userID.Some? ==>
              r[i] == UserView(Some(users[i].userID.value.name), Some(users[i].userID.value.email))
  {
    seq(|users|, i requires 0 <= i < |users| =>
      match users[i].userID
      case Some(p) => UserView(Some(p.name), Some(p.email))
      case None => UserView(None, None))
  }
}
