# PGP encryption for a chat client: a Dafny model of the keychain and renderer rules

The plugin keeps a local PGP keychain for a chat client. It decrypts incoming
armoured messages and encrypts outgoing ones. The work goes to either the
embedded OpenPGP library or the system's `gpg`. This project models three parts
of it:

- **The main process** (`src/main/index.ts`). It holds four maps:
  - `keychain`, from primary key ID to key;
  - `privateSubkeys` and `publicSubkeys`, from each key or subkey ID to its
    owning private or public key;
  - `keyBindings`, from chat uin to the public key used for it.

  It also holds the selected sign key. In `KeyIndex` the first three maps are a
  value, `Indices`, built by pure functions (`AddKey`, `AddAll`, `AddBatches`).
  The class `Main.Plugin` holds the same maps as fields. Its methods mirror the
  IPC handlers: `loadKeychain`, `setSignKeyID`, `getSignKeyID`, `setKeyBinding`,
  `getKeyBinding`, `getUserIDsByKeyID`, `handleEncryptedMessage` and
  `encryptMessage`. The methods that change the indices (`AddKeys`,
  `LoadKeychain` and its steps) are proved against those functions. The others
  are stated against the fields they read or set: `Reconcile` and `Surviving`
  for the bindings, `LoadedSignKey` for the sign key, and `UserViews`,
  `EmbeddedDecrypt` and `EncryptionKeys` for what is returned.
  - `Plugin.Valid()` holds after every method. It says that every indexed ID
    belongs to the key stored for it, and that every ID of the private index
    is in the public index too. The public entry need not be that private
    key's public half: a later public key sharing a subkey ID replaces it, as
    the source's `publicSubkeys.set` does.
  - The OpenPGP library and `gpg` are parameters: a function for decryption, a
    function for encryption, and the parsed exports or key files.
- **The renderer** (`src/renderer/index.ts`):
  - the formatting helpers, in `Format`: user IDs, the grouped key ID, the
    algorithm name taken from the numeric enum's reverse mapping, and the
    key tooltip;
  - the armour detector `isPGPMessage`, in `Format`;
  - the editor-to-text conversion `viewToPlainText`, in `ViewText`, as a
    recursive method with its loop;
  - the settings page's binding list, and the key list in the status label's
    title, in `Settings`.
- **The GnuPG records** (`src/gnupg.ts`). These are in `GnuPG`: the algorithm
  and validity enums with their numeric codes, and the key-info records.

JavaScript semantics are written out where the code relies on them, in
`Strings`:
- `parseInt` skips leading JavaScript whitespace, takes an optional sign and an
  optional `0x` prefix, reads the longest digit prefix, and gives `NaN`
  (`None`) when there are no digits;
- the model's `toUpperCase` covers ASCII only;
- numbers are rendered in decimal into template strings;
- `split` and `join` on strings.

A `match(...)!` that finds nothing throws. The model gives `None` there.

Some behaviour of the code worth knowing:
- a uin binds to one key, and the last valid entry for it wins
  (src/main/index.ts:90-93, :279-283);
- persisted bindings keep their input order (src/main/index.ts:282);
- `loadKeychain` leaves a `signKeyID` that no longer resolves in the
  configuration; only `setSignKeyID` clears it (src/main/index.ts:94-96,
  :252-262);
- when decrypting with the embedded library and no key is owned, `error`
  stays empty (src/main/index.ts:139-160);
- decrypting and encrypting with `gpg` time out after 5 seconds
  (src/main/index.ts:129, :180); the two export calls have no timeout.

## Model

| member | source | states |
|---|---|---|
| GnuPG.AlgorithmTable | src/gnupg.ts:2-16 | the thirteen algorithms are listed once each, in ascending code order, with exactly the codes 0,1,2,3,16,17,18,19,22,25,26,27,28 |
| GnuPG.AlgorithmCodesDistinct | src/gnupg.ts:2-16 | two algorithms have the same code iff they are the same algorithm |
| GnuPG.AlgorithmFromCode | src/gnupg.ts:2-16 | a found algorithm has the given code; no algorithm has the code when none is found |
| GnuPG.AlgorithmCodeRoundTrip | src/gnupg.ts:2-16 | looking up an algorithm's code gives that algorithm back |
| GnuPG.KeyInfoSplit | src/gnupg.ts:30-59 | a key info is its subkey-info part plus its four own fields, so nothing is lost when it is used as a subkey info |
| GnuPG.SubKeyInfoKept | src/gnupg.ts:46 | a key info built on a subkey info gives that subkey info back |
| GnuPG.ValidityOrder | src/gnupg.ts:19-28 | the validities run from Invalid = -3 to Ultimate = 4 in steps of one, and list order agrees with code order |
| Strings.ToUpperAscii | src/renderer/index.ts:10 | `a`..`z` move down by 32 code points; every other character is unchanged |
| Strings.NatToString | src/renderer/index.ts:11 | the decimal rendering of a number is all digits, has no leading zero and denotes the number |
| Strings.TrimStartSpace | src/renderer/index.ts:97 | parseInt's trimming drops a prefix made only of whitespace, and what is left starts with a non-space |
| Strings.DigitPrefix | src/renderer/index.ts:97 | the digit prefix is made only of digits of the radix, and the next character is not one |
| Strings.ParseIntRoundTrip | src/renderer/index.ts:97 | parseInt of the decimal rendering of any integer gives that integer back |
| Strings.ParseIntSkipsSpace | src/renderer/index.ts:97 | leading whitespace does not change what parseInt returns |
| KeyIndex.ToPublic | src/main/index.ts:34-35 | the public half keeps the key's IDs and users and is not private |
| KeyIndex.SetAll | src/main/index.ts:33-38 | setting every ID of a list adds exactly those IDs, maps them to the value, and leaves every other entry as it was |
| KeyIndex.AddPrivateKey | src/main/index.ts:31-35 | a private key replaces the keychain entry of its primary ID. Its own IDs map to it in the private index and to its public half in the public index. No other entry changes |
| KeyIndex.AddShadowedPublicKey | src/main/index.ts:36-39 | a public key whose primary ID is already in the private index changes nothing |
| KeyIndex.AddUnshadowedPublicKey | src/main/index.ts:36-39 | any other public key replaces its keychain entry, maps its IDs in the public index and leaves the private index alone |
| KeyIndex.EmptyConsistent | src/main/index.ts:20-22 | the cleared indices are consistent |
| KeyIndex.AddPrivateKeyConsistent | src/main/index.ts:31-35 | adding a private key keeps the indices consistent |
| KeyIndex.AddPublicKeyConsistent | src/main/index.ts:36-39 | adding a public key keeps the indices consistent |
| KeyIndex.AddKeyConsistent | src/main/index.ts:30-39 | adding any key keeps the indices consistent |
| KeyIndex.AddAllConsistent | src/main/index.ts:28-41 | `addKeys` on a batch keeps the indices consistent |
| KeyIndex.AddBatchesConsistent | src/main/index.ts:43-89 | the whole load, batch after batch, keeps the indices consistent |
| KeyIndex.AddAllKeepsPrivate | src/main/index.ts:28-41 | no ID ever leaves the private index during a load |
| KeyIndex.AddAllAppend | src/main/index.ts:28-41 | adding `a + b` is adding `a` and then `b` |
| KeyIndex.AddKeyKeepsPrivateEntry | src/main/index.ts:36-39 | a private keychain entry stays private whatever key comes next |
| KeyIndex.PrivateKeyWins | src/main/index.ts:28-41 | once a private key is loaded, its primary ID stays a private keychain entry for the rest of the load |
| KeyIndex.LastWriterWins | src/main/index.ts:28-41 | the last key with a given primary ID is the keychain entry, unless it is public and shadowed by a private key |
| KeyIndex.AddBatchesFlatten | src/main/index.ts:43-89 | loading batch by batch is loading their concatenation |
| KeyIndex.Surviving | src/main/index.ts:279-283 | the persisted bindings are exactly the entries with a positive uin and a known public key ID, at most as many as given |
| KeyIndex.Reconcile | src/main/index.ts:90-93 | every resolved uin is positive and maps to a key of the public index |
| KeyIndex.ReconcileLookup | src/main/index.ts:90-93 | a uin is bound iff some entry for it survives, and then it is bound to the key of the last surviving entry for it |
| KeyIndex.SurvivingAppend | src/main/index.ts:279-283 | the filter works entry by entry and keeps the input order |
| KeyIndex.SurvivingIdempotent | src/main/index.ts:279-283 | filtering persisted bindings again changes nothing |
| KeyIndex.ReconcileSurviving | src/main/index.ts:275-285 | resolving the persisted bindings gives the same map as resolving the submitted ones |
| KeyIndex.LoadedSignKey | src/main/index.ts:94-96 | a sign key is loaded iff the configured ID is set, non-empty and in the private index, and it is that index's key |
| KeyIndex.UserViews | src/main/index.ts:201-204 | one view per user. Name and email are present iff the user has a user ID packet, and they are its name and email |
| Main.FolderBatchesSnoc | src/main/index.ts:78-89 | one more folder entry adds its keys, if any, after the earlier batches |
| Main.FolderBatchesStop | src/main/index.ts:78-89 | an unreadable entry ends the folder load: nothing after it is added |
| Main.FolderStep | src/main/index.ts:79-88 | a directory or an unparsable file adds nothing; a parsed file adds its batch |
| Main.FirstOwned | src/main/index.ts:139-141 | the chosen message key ID is in the private index and is the first such; none is chosen iff none is there |
| Main.VerificationKeys | src/main/index.ts:145-149 | the verification keys are exactly the public keys of the message's key IDs that are indexed |
| Main.Statuses | src/main/index.ts:151-156 | one status per signature, same key ID, verified iff its verification resolved to true (a rejected one counts as false) |
| Main.EmbeddedDecrypt | src/main/index.ts:137-160 | a failed read reports only the error. Otherwise it reports the message's key IDs and decrypts with the first owned key, and a failed decryption reports only the error. With no owned key, error, data and signatures are all empty |
| Main.GpgDecrypt | src/main/index.ts:122-135 | `gpg` output becomes the data; a `gpg` failure becomes the error; no key IDs or signatures |
| Main.DecryptEmbedded | src/main/index.ts:137-160 | the loop over the message's key IDs computes EmbeddedDecrypt |
| Main.EncryptionKeys | src/main/index.ts:192 | the target comes last. The sign key comes first iff it is set and has a different primary ID. A set sign key is always a recipient, and no recipient appears twice |
| Main.GpgEncryptArgs | src/main/index.ts:175-179 | `--armor --encrypt --recipient <target>`, followed by `--sign --local-user <sign key ID>` iff a sign key is set |
| Main.RefOf | src/main/index.ts:290-296 | the reference has the key's primary ID and the user views of the key's users |
| Main.Plugin.constructor | src/main/index.ts:20-24 | the maps start empty, with no sign key |
| Main.Plugin.AddKeys | src/main/index.ts:28-41 | the indices become AddAll of the old indices. Bindings, sign key and configuration are unchanged, and validity is kept |
| Main.Plugin.IndexKey | src/main/index.ts:30-39 | one key of the loop updates the indices as AddKey |
| Main.Plugin.LoadKeychain | src/main/index.ts:43-97 | The indices are rebuilt from the `gpg` exports, when enabled, then from the folder. The load completes iff every folder entry is readable. If it completes, the bindings are resolved and the sign key is reloaded; otherwise both stay cleared |
| Main.Plugin.AddGpgExports | src/main/index.ts:52-73 | the public export, then the secret export, are added; a failed export adds nothing |
| Main.Plugin.AddFolder | src/main/index.ts:75-89 | the folder loop adds FolderBatches of the entries and reports whether every entry was readable |
| Main.Plugin.ResolveConfig | src/main/index.ts:90-96 | the bindings become Reconcile of the configured list and the sign key becomes LoadedSignKey of the configured ID |
| Main.Plugin.SetSignKeyID | src/main/index.ts:252-262 | a key ID in the private index selects its key and is stored in the configuration; any other ID clears both |
| Main.Plugin.GetSignKeyID | src/main/index.ts:264-273 | null iff no sign key is set; otherwise the key's primary ID and user views |
| Main.Plugin.SetKeyBinding | src/main/index.ts:275-285 | the bindings become Reconcile of the list and the configuration stores its surviving entries; nothing else changes |
| Main.Plugin.GetKeyBinding | src/main/index.ts:287-297 | null iff the uin is unbound; otherwise the bound key's reference |
| Main.Plugin.GetUserIDsByKeyID | src/main/index.ts:199-205 | The user views of the private key owning the ID, else of the public key owning it. Undefined iff neither index has the ID |
| Main.Plugin.HandleEncryptedMessage | src/main/index.ts:105-167 | with `gpg` the result is GpgDecrypt of its output, otherwise EmbeddedDecrypt |
| Main.Plugin.EncryptMessage | src/main/index.ts:169-197 | With `gpg`, it runs gpg with GpgEncryptArgs. Embedded, an unknown target fails, and a known one is encrypted to EncryptionKeys and signed with the sign key |
| Main.SetEach | src/main/index.ts:33 | the `forEach` over IDs computes SetAll |
| Main.BindingsSurviveReload | src/main/index.ts:275-285 | the stored bindings resolve after a reload to the same map, and storing them again changes nothing |
| Format.FormatUserIDs | src/renderer/index.ts:9 | the text is empty iff there are no user IDs |
| Format.FormatUserIDsSnoc | src/renderer/index.ts:9 | one more user ID is appended after `, ` |
| Format.HexRun | src/renderer/index.ts:10 | a run is at most `max` hex digits and stops at the first non-hex character |
| Format.HexGroups | src/renderer/index.ts:10 | every match is one to four hex digits |
| Format.HexOnly | src/renderer/index.ts:10 | what the matches cover is made only of hex digits |
| Format.HexGroupsConcat | src/renderer/index.ts:10 | the matches together are exactly the hex digits of the input in order |
| Format.FormatKeyIDGroups | src/renderer/index.ts:10 | Formatting throws iff the uppercased ID has no hex digit. Otherwise, removing the spaces gives the ID's hex digits, and every space-separated piece is one to four hex digits |
| Format.UpperHexDigit | src/renderer/index.ts:10 | a character is a hex digit once uppercased iff it is a digit or `a`-`f` of either case |
| Format.FormatKeyIDFails | src/renderer/index.ts:10 | formatting throws iff the key ID as given holds no hex digit of either case |
| Format.HexGroupsOfSixteen | src/renderer/index.ts:10 | sixteen hex digits fall into four groups of four |
| Format.FormatLongKeyID | src/renderer/index.ts:10 | a 16-digit key ID reads as four uppercase groups of four; removing the spaces gives the uppercased ID |
| Format.AlgorithmKeysAreCodes | src/renderer/index.ts:11 | the first half of the enum's keys are the algorithm codes rendered in decimal, in order |
| Format.IndexOf | src/renderer/index.ts:11 | `indexOf` gives -1 iff the value is absent, otherwise the first position holding it |
| Format.AlgorithmEnumShape | src/renderer/index.ts:11 | The enum's values are thirteen names, then the thirteen codes. Its keys are the code strings, then the names |
| Format.KnownAlgorithmKey | src/renderer/index.ts:11 | the key at a known code's position is the algorithm's name |
| Format.FormatKnownAlgorithm | src/renderer/index.ts:11 | a known code is shown by its enum name |
| Format.FormatUnknownAlgorithm | src/renderer/index.ts:11 | any other number is shown as `KeyAlgorithm #<n>` |
| Format.FormatKeyAlgorithmName | src/renderer/index.ts:11 | the shown text is the name of AlgorithmFromCode, or `KeyAlgorithm #<n>` when there is none |
| Format.ValidityLabel | src/renderer/index.ts:13-21 | every validity except Invalid has a label |
| Format.ValidityLabelsDistinct | src/renderer/index.ts:13-21 | no two validities share a label |
| Format.CapabilityLabelsUnrolled | src/renderer/index.ts:24-29 | the labels are those of sign, certify, encrypt and authentication, in that order, each present iff held |
| Format.CapabilityLabelsHeld | src/renderer/index.ts:24-29 | a capability's label is listed iff the key holds it |
| Format.CapabilityLabelsOrdered | src/renderer/index.ts:24-29 | the labels keep the table's order |
| Format.LabelsClean | src/renderer/index.ts:24-29 | no label is empty or holds the separator `、` or a line feed |
| Format.CapabilityLineRoundTrip | src/renderer/index.ts:24-29 | the capability line determines the capabilities: reading it back gives them |
| Format.ExtraInfoLayout | src/renderer/index.ts:12-30 | With dates rendered on one line, the tooltip has exactly four lines: the trust label (`undefined` for Invalid), the creation date, the expiry (`永不过期` when absent or 0) and the capability line |
| Format.TrustLineClean | src/renderer/index.ts:13-21 | the trust line has no line feed |
| Format.CapabilityLineClean | src/renderer/index.ts:24-29 | the capability line has no line feed |
| Format.TrimEndSpace | src/renderer/index.ts:43 | trailing whitespace is dropped, and what is left ends in a non-space |
| Format.NewlineInSpaceRunMeaning | src/renderer/index.ts:43 | `\s*\n` matches a prefix iff some line feed follows only whitespace |
| Format.HeaderMeaning | src/renderer/index.ts:43 | the header test holds iff the text starts with the armour header, whitespace and a line feed |
| Format.FooterMeaning | src/renderer/index.ts:43 | the footer test holds iff the armour footer is followed by nothing but whitespace |
| Format.IsPGPMessageMeaning | src/renderer/index.ts:42-44 | a text is taken for a PGP message iff both regular expressions match it |
| Format.ArmoredMessageDetected | src/renderer/index.ts:42-44 | any body framed by the armour header and footer lines is detected |
| ViewText.ViewToPlainText | src/renderer/index.ts:47-76 | the loop with its `prev` computes PlainText, the recursive definition of the view's text |
| ViewText.ContainerChildrenLines | src/renderer/index.ts:59-72 | children that are all container elements give their texts joined by line feeds |
| ViewText.InlineChildrenConcat | src/renderer/index.ts:59-72 | children that are neither containers nor `br` give their texts run together |
| ViewText.LineBreakInParagraph | src/renderer/index.ts:47-76 | a paragraph with `a`, a `br` and `b` reads as `a`, a line feed and `b` |
| Settings.WithBinding | src/renderer/index.ts:96-102 | the list is unchanged or gains exactly the input pair at its end |
| Settings.WithBindingPresent | src/renderer/index.ts:96-102 | The pair is listed afterwards iff its uin is positive or it was already listed. A NaN or non-positive uin changes nothing |
| Settings.WithBindingWellFormed | src/renderer/index.ts:96-102 | the list never gains a non-positive uin or a duplicate pair |
| Settings.WithBindingIdempotent | src/renderer/index.ts:96-102 | adding the same input twice is adding it once |
| Settings.KnownBindings | src/renderer/index.ts:122 | the filter keeps at most the configured entries |
| Settings.KnownBindingsMembers | src/renderer/index.ts:122 | an entry is kept iff it is configured and its key ID is a listed primary key ID |
| Settings.KnownBindingsAppend | src/renderer/index.ts:122 | the filter works entry by entry and keeps the configured order |
| Settings.KnownBindingsAllListed | src/renderer/index.ts:122 | when every configured key is listed, every entry is kept, in place |
| Settings.SettingsView.constructor | src/renderer/index.ts:80-85 | the page starts with empty lists, no sign key and an empty input |
| Settings.SettingsView.AddKeyBinding | src/renderer/index.ts:96-102 | the list becomes WithBinding of the parsed input and stays well-formed; nothing else changes |
| Settings.SettingsView.Load | src/renderer/index.ts:113-122 | the keychain list and the sign key ID are replaced, and the bindings become the filtered configuration |
| Settings.KeyLines | src/renderer/index.ts:327-331 | one line per key, and none at all as soon as one key ID cannot be formatted |
| Settings.EncryptionKeyListShape | src/renderer/index.ts:329-331 | The list ends with the targets. The sign key is put first iff it is set and no target shares its key ID. A set sign key's ID is always listed, and distinct target IDs stay distinct |
| Settings.StatusTitleFails | src/renderer/index.ts:321-336 | the title is empty without targets; with targets it cannot be built iff some shown key's ID has no hex digit |

## Left out

- Cryptography, the OpenPGP library and `gpg` itself. Reading and writing
  armoured keys, decrypting, encrypting and signing are parameters of the
  methods. Their results (parsed key lists, decrypted data, signature results)
  are inputs.
- The `gpg` processes, the 5-second timeout of decryption and encryption, the file system (`existsSync`,
  `mkdir`, `readdir`, `lstat`, `readFile`), logging, IPC, and the settings
  storage. The configuration is a field of `Plugin` and is written in place.
- Asynchrony. Each handler runs to completion; no two overlap.
- `getKeychain`, `getConfig` and `setSystemGPG` only copy data out or set one
  flag. The settings page's `Load` takes their results as inputs.
- The renderer's `setSignKey`, `saveKeyBinding`, `openRepository` and
  `clearDecryptResultCache` only forward to IPC or the shell.
- The `nextTick` check of the selected sign key in the settings page, polling,
  the mutation observer, the DOM elements, and the key handler of the chat
  editor.
- `toISOString` of dates is a function parameter of the tooltip, and nothing is
  assumed of it beyond what `ExtraInfoLayout` requires.
- Format.ExtraInfoLayout: the expiry line for a set, non-zero expiry date is
  not stated (it is the function parameter's text).
- Unicode case mapping beyond ASCII. `toUpperCase` maps some characters to
  several (`ﬀ` to `FF`), and none of those are letters or digits of a key ID.
- Floating point numbers. Numbers are integers; `NaN` is `None`; `parseInt`
  beyond 2^53 is exact here.
- The insertion order of JavaScript maps. The keychain is a Dafny `map`, so the
  order of `getKeychain`'s list is not modelled.
- The renderer calls `getKeyBindings`, `clearDecryptResultCache`,
  `result.output`, and passes a list of key IDs to `encryptMessage`; the main
  process has `getKeyBinding` (one key or null) and takes one key ID. The
  renderer expects bindings as a list of key references; they are taken as such
  in `Settings`, and the main-process handlers are modelled as written.
- Main.Plugin.GetUserIDsByKeyID and the sign key lookups: which subkey of a key
  the given ID names is not tracked; a key is known by primary ID, subkey IDs
  and users only.
- ViewText.ViewToPlainText: `is('img')` is taken as a check of the element's
  name, and container-ness is a flag of the node.
- Settings.StatusTitle: only its failure cases and the key list are stated,
  not the full text when every key ID can be formatted.
