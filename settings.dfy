/** The list rules of the renderer (src/renderer/index.ts): the binding editor
    of the settings page, the bindings it keeps when it loads, and the key list
    of the status label shown beside the chat input. */
module Settings {
  import opened Wrappers
  import opened Strings
  import opened KeyIndex
  import opened Main
  import opened Format

  /** A binding as the settings page holds it. The key ID is whatever the key
      selector last reported, `null` before any selection. */
  datatype BindingEntry = BindingEntry(uin: int, keyID: Option<string>)

  /** An entry of the keychain list the page shows (the result of
      `getKeychain`): its primary key ID and its user IDs, among others. */
  datatype ListedKey = ListedKey(private: bool, userIDs: seq<UserView>, keyID: string, keyIDs: seq<string>)

  /** `list.some(e => e.uin === uin && e.keyID === keyID)`. */
  predicate HasPair(list: seq<BindingEntry>, uin: int, keyID: Option<string>)
  {
    exists i :: 0 <= i < |list| && list[i] == BindingEntry(uin, keyID)
  }

  /** The list after `addKeyBinding` with the parsed uin (`None` is `NaN`). */
  function WithBinding(list: seq<BindingEntry>, uin: Option<int>, keyID: Option<string>): (r: seq<BindingEntry>)
    ensures r == list || (uin.Some? && r == list + [BindingEntry(uin.value, keyID)])
  {
    if uin.Some? && uin.value > 0 && !HasPair(list, uin.value, keyID) then list + [BindingEntry(uin.value, keyID)]
    else list
  }

  /** Every uin is positive and no pair appears twice. */
  predicate WellFormedBindings(list: seq<BindingEntry>)
  {
    (forall i :: 0 <= i < |list| ==> list[i].uin > 0)
    && (forall i, j :: 0 <= i < j < |list| ==> list[i] != list[j])
  }

  /** The pair is in the list afterwards exactly when the uin is a positive
      number (or the pair was already there); a `NaN` or non-positive uin
      changes nothing. */
  lemma WithBindingPresent(list: seq<BindingEntry>, uin: Option<int>, keyID: Option<string>)
    ensures uin.Some? ==>
              (HasPair(WithBinding(list, uin, keyID), uin.value, keyID) <==> uin.value > 0 || HasPair(list, uin.value, keyID))
    ensures (uin.None? || uin.value <= 0) ==> WithBinding(list, uin, keyID) == list
  {
    if uin.Some? && uin.value > 0 && !HasPair(list, uin.value, keyID) {
      var r := WithBinding(list, uin, keyID);
      assert r[|list|] == BindingEntry(uin.value, keyID);
    }
    if uin.Some? && HasPair(WithBinding(list, uin, keyID), uin.value, keyID) && uin.value <= 0 {
      assert WithBinding(list, uin, keyID) == list;
    }
  }

  /** The list never gains a duplicate pair or a non-positive uin. */
  lemma WithBindingWellFormed(list: seq<BindingEntry>, uin: Option<int>, keyID: Option<string>)
    requires WellFormedBindings(list)
    ensures WellFormedBindings(WithBinding(list, uin, keyID))
  {
    var r := WithBinding(list, uin, keyID);
    if r != list {
      forall i, j | 0 <= i < j < |r| ensures r[i] != r[j] {
        if j == |list| {
          assert r[i] == list[i];
          assert r[j] == BindingEntry(uin.value, keyID);
        }
      }
    }
  }

  /** Adding the same input twice is the same as adding it once. */
  lemma WithBindingIdempotent(list: seq<BindingEntry>, uin: Option<int>, keyID: Option<string>)
    ensures WithBinding(WithBinding(list, uin, keyID), uin, keyID) == WithBinding(list, uin, keyID)
  {
    WithBindingPresent(list, uin, keyID);
  }

  /** A binding's key ID is the primary key ID of a listed key. */
  predicate Listed(keychain: seq<ListedKey>, keyID: string)
  {
    exists t :: t in keychain && t.keyID == keyID
  }

  /** The filter in `load`: the configured bindings whose key ID is the
      primary key ID of a listed key, in configured order. */
  function KnownBindings(bindings: seq<Binding>, keychain: seq<ListedKey>): (r: seq<BindingEntry>)
    ensures |r| <= |bindings|
  {
    if bindings == [] then [] else Kept(bindings[0], keychain) + KnownBindings(bindings[1..], keychain)
  }

  /** What the filter keeps of one configured binding. */
  function Kept(b: Binding, keychain: seq<ListedKey>): seq<BindingEntry>
  {
    if Listed(keychain, b.keyID) then [BindingEntry(b.uin, Some(b.keyID))] else []
  }

  /** A binding is kept exactly when it is configured and its key is listed. */
  lemma {:induction false} KnownBindingsMembers(bindings: seq<Binding>, keychain: seq<ListedKey>, e: BindingEntry)
    ensures e in KnownBindings(bindings, keychain) <==>
              e.keyID.Some? && Binding(e.uin, e.keyID.value) in bindings && Listed(keychain, e.keyID.value)
  {
    if bindings != [] {
      KnownBindingsMembers(bindings[1..], keychain, e);
      assert bindings == [bindings[0]] + bindings[1..];
    }
  }

  /** The filter keeps the configured order: it works entry by entry. */
  lemma {:induction false} KnownBindingsAppend(a: seq<Binding>, b: seq<Binding>, keychain: seq<ListedKey>)
    ensures KnownBindings(a + b, keychain) == KnownBindings(a, keychain) + KnownBindings(b, keychain)
  {
    if a == [] {
      assert a + b == b;
    } else {
      assert (a + b)[0] == a[0];
      assert (a + b)[1..] == a[1..] + b;
      KnownBindingsAppend(a[1..], b, keychain);
      var h := Kept(a[0], keychain);
      assert KnownBindings(a + b, keychain) == h + KnownBindings(a[1..] + b, keychain);
      assert h + (KnownBindings(a[1..], keychain) + KnownBindings(b, keychain))
          == (h + KnownBindings(a[1..], keychain)) + KnownBindings(b, keychain);
    }
  }

  /** When every configured key ID is listed, nothing is dropped. */
  lemma {:induction false} KnownBindingsAllListed(bindings: seq<Binding>, keychain: seq<ListedKey>)
    requires forall i :: 0 <= i < |bindings| ==> Listed(keychain, bindings[i].keyID)
    ensures |KnownBindings(bindings, keychain)| == |bindings|
    ensures forall i :: 0 <= i < |bindings| ==>
              KnownBindings(bindings, keychain)[i] == BindingEntry(bindings[i].uin, Some(bindings[i].keyID))
  {
    if bindings != [] {
      KnownBindingsAllListed(bindings[1..], keychain);
    }
  }

  /** The settings page's state. */
  class SettingsView {
    var keychain: seq<ListedKey>
    var signKeyID: Option<string>
    var keyBinding: seq<BindingEntry>
    var inputUin: string
    var inputKeyID: Option<string>

    /** The initial data of the page. */
    constructor ()
      ensures keychain == [] && signKeyID == None && keyBinding == []
      ensures inputUin == "" && inputKeyID == None
    {
      keychain := [];
      signKeyID := None;
      keyBinding := [];
      inputUin := "";
      inputKeyID := None;
    }

    /** `addKeyBinding`: append the input pair when its uin parses to a positive
        number and the pair is not already listed. */
    method AddKeyBinding()
      modifies this
      ensures keyBinding == WithBinding(old(keyBinding), ParseInt(inputUin), inputKeyID)
      ensures old(WellFormedBindings(keyBinding)) ==> WellFormedBindings(keyBinding)
      ensures keychain == old(keychain) && signKeyID == old(signKeyID)
      ensures inputUin == old(inputUin) && inputKeyID == old(inputKeyID)
    {
      var uin := ParseInt(inputUin);
      var keyID := inputKeyID;
      if uin.Some? && uin.value > 0 && !HasPair(keyBinding, uin.value, keyID) {
        keyBinding := keyBinding + [BindingEntry(uin.value, keyID)];
      }
      if old(WellFormedBindings(keyBinding)) {
        WithBindingWellFormed(old(keyBinding), uin, keyID);
      }
    }

    /** `load`, given what `getKeychain` and `getConfig` return: the keychain
        list and the sign key ID are replaced, and the binding list is emptied
        and refilled with the configured bindings of listed keys. */
    method Load(listed: seq<ListedKey>, config: Config)
      modifies this
      ensures keychain == listed && signKeyID == config.signKeyID
      ensures keyBinding == KnownBindings(config.keyBinding, listed)
      ensures inputUin == old(inputUin) && inputKeyID == old(inputKeyID)
    {
      keychain := [];
      keychain := keychain + listed;
      signKeyID := config.signKeyID;
      keyBinding := [];
      keyBinding := keyBinding + KnownBindings(config.keyBinding, keychain);
    }
  }

  // ---------------------------------------------------------------------------
  // The status label

  /** Some target has the sign key's key ID. */
  predicate SharesKeyID(targets: seq<KeyRef>, signKey: KeyRef)
  {
    exists i :: 0 <= i < |targets| && targets[i].keyID == signKey.keyID
  }

  /** The keys listed under `加密密钥`: the sign key first when it is set and no
      target has its key ID, then the targets in order. */
  function EncryptionKeyList(signKey: Option<KeyRef>, targets: seq<KeyRef>): seq<KeyRef>
  {
    (if signKey.Some? && !SharesKeyID(targets, signKey.value) then [signKey.value] else []) + targets
  }

  function KeyIDs(keys: seq<KeyRef>): (r: seq<string>)
    ensures |r| == |keys| && forall i :: 0 <= i < |keys| ==> r[i] == keys[i].keyID
  {
    seq(|keys|, i requires 0 <= i < |keys| => keys[i].keyID)
  }

  predicate Distinct(ids: seq<string>)
  {
    forall i, j :: 0 <= i < j < |ids| ==> ids[i] != ids[j]
  }

  /** The list ends with the targets; the sign key is added exactly when it is
      set and no target shares its key ID, so a set sign key's ID is always
      listed, and the IDs stay distinct when the targets' IDs are. */
  lemma EncryptionKeyListShape(signKey: Option<KeyRef>, targets: seq<KeyRef>)
    ensures var r := EncryptionKeyList(signKey, targets);
            r[|r| - |targets|..] == targets
            && (|r| == |targets| + 1 <==> signKey.Some? && !SharesKeyID(targets, signKey.value))
            && (|r| == |targets| + 1 ==> r[0] == signKey.value)
            && (signKey.Some? ==> signKey.value.keyID in KeyIDs(r))
            && (Distinct(KeyIDs(targets)) ==> Distinct(KeyIDs(r)))
  {
    var r := EncryptionKeyList(signKey, targets);
    if signKey.Some? {
      if SharesKeyID(targets, signKey.value) {
        var i :| 0 <= i < |targets| && targets[i].keyID == signKey.value.keyID;
        assert KeyIDs(r)[i] == signKey.value.keyID;
      } else {
        assert KeyIDs(r)[0] == signKey.value.keyID;
        if Distinct(KeyIDs(targets)) {
          forall i, j | 0 <= i < j < |r| ensures KeyIDs(r)[i] != KeyIDs(r)[j] {
            if i == 0 {
              assert r[j] == targets[j - 1];
            } else {
              assert r[i] == targets[i - 1] && r[j] == targets[j - 1];
            }
          }
        }
      }
    }
  }

  /** One key as `user IDs (key ID)`; `None` when the key ID cannot be
      formatted (the call throws). */
  function KeyLine(k: KeyRef): Option<string>
  {
    match FormatKeyID(k.keyID)
    case None => None
    case Some(id) => Some(FormatUserIDs(k.userIDs) + " (" + id + ")")
  }

  function KeyLines(keys: seq<KeyRef>): (r: Option<seq<string>>)
    ensures r.Some? <==> forall i :: 0 <= i < |keys| ==> KeyLine(keys[i]).Some?
    ensures r.Some? ==> |r.value| == |keys| && forall i :: 0 <= i < |keys| ==> r.value[i] == KeyLine(keys[i]).value
  {
    if keys == [] then Some([])
    else
      match KeyLine(keys[0])
      case None => None
      case Some(line) =>
        match KeyLines(keys[1..])
        case None =>
          assert forall i :: 1 <= i < |keys| ==> keys[i] == keys[1..][i - 1];
          None
        case Some(rest) =>
          assert forall i :: 1 <= i < |keys| ==> keys[i] == keys[1..][i - 1];
          Some([line] + rest)
  }

  /** The status label's title: empty without targets; otherwise the hint,
      the sign key when it is set, and the encryption keys, one per line.
      `None` when a key ID cannot be formatted. */
  function StatusTitle(signKey: Option<KeyRef>, targets: seq<KeyRef>): Option<string>
  {
    if targets == [] then Some("")
    else
      var shown := (if signKey.Some? then [signKey.value] else []) + EncryptionKeyList(signKey, targets);
      match KeyLines(shown)
      case None => None
      case Some(lines) =>
        var signLines := if signKey.Some? then ["签名密钥：", lines[0]] else [];
        var keyLines := if signKey.Some? then lines[1..] else lines;
        Some(Join(["按 Ctrl + / 键加密当前输入的消息"] + signLines + ["加密密钥："] + keyLines, "\n"))
  }

  /** The keys the title shows are the targets and the sign key, if set. */
  lemma ShownKeys(signKey: Option<KeyRef>, targets: seq<KeyRef>, k: KeyRef)
    ensures k in (if signKey.Some? then [signKey.value] else []) + EncryptionKeyList(signKey, targets)
            <==> k in targets || signKey == Some(k)
  {
    var pre := if signKey.Some? && !SharesKeyID(targets, signKey.value) then [signKey.value] else [];
    assert EncryptionKeyList(signKey, targets) == pre + targets;
  }

  /** `KeyLines` fails exactly when one of the keys has no formattable ID. */
  lemma KeyLinesNone(keys: seq<KeyRef>)
    ensures KeyLines(keys).None? <==> exists k :: k in keys && FormatKeyID(k.keyID).None?
  {
    if KeyLines(keys).None? {
      var i :| 0 <= i < |keys| && KeyLine(keys[i]).None?;
      assert keys[i] in keys;
    }
  }

  /** The title can only fail on a key ID with no hex digit, among the keys it
      shows; without targets it is empty. */
  lemma StatusTitleFails(signKey: Option<KeyRef>, targets: seq<KeyRef>)
    ensures targets == [] ==> StatusTitle(signKey, targets) == Some("")
    ensures targets != [] ==>
              (StatusTitle(signKey, targets).None? <==>
               exists k :: (k in targets || signKey == Some(k)) && FormatKeyID(k.keyID).None?)
  {
    if targets != [] {
      var shown := (if signKey.Some? then [signKey.value] else []) + EncryptionKeyList(signKey, targets);
      KeyLinesNone(shown);
      assert StatusTitle(signKey, targets).None? <==> KeyLines(shown).None?;
      forall k ensures k in shown <==> k in targets || signKey == Some(k) {
        ShownKeys(signKey, targets, k);
      }
    }
  }
}
