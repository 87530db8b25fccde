/** The renderer's formatting helpers (src/renderer/index.ts): user IDs, key IDs
    in groups of four, algorithm names, the key-details tooltip, and the test
    that recognises an ASCII-armored OpenPGP message. */
module Format {
  import opened Wrappers
  import opened Strings
  import opened GnuPG
  import opened KeyIndex

  // ---------------------------------------------------------------------------
  // formatUserIDs

  /** A template literal renders a missing value as `undefined`. */
  function Shown(o: Option<string>): string
  {
    o.GetOr("undefined")
  }

  /** One user ID as `name <email>`. */
  function UserIDText(u: UserView): string
  {
    Shown(u.name) + " <" + Shown(u.email) + ">"
  }

  function UserIDTexts(users: seq<UserView>): (r: seq<string>)
    ensures |r| == |users|
    ensures forall i :: 0 <= i < |users| ==> r[i] == UserIDText(users[i])
  {
    seq(|users|, i requires 0 <= i < |users| => UserIDText(users[i]))
  }

  /** `formatUserIDs`: the user IDs in order, joined by `", "`; only the empty
      list gives the empty string. */
  function FormatUserIDs(users: seq<UserView>): (r: string)
    ensures r == "" <==> users == []
  {
    Join(UserIDTexts(users), ", ")
  }

  /** One more user ID adds `", "` and its text at the end. */
  lemma FormatUserIDsSnoc(users: seq<UserView>, u: UserView)
    ensures FormatUserIDs(users + [u]) ==
              if users == [] then UserIDText(u) else FormatUserIDs(users) + ", " + UserIDText(u)
  {
    assert UserIDTexts(users + [u]) == UserIDTexts(users) + [UserIDText(u)];
    JoinSnoc(UserIDTexts(users), UserIDText(u), ", ");
  }

  // ---------------------------------------------------------------------------
  // formatKeyID

  /** `[\dA-F]` (without the `u` flag `\d` is the ASCII digits only). */
  predicate IsHexDigit(c: char)
  {
    '0' <= c <= '9' || 'A' <= c <= 'F'
  }

  /** The characters that are hex digits once uppercased: the check can be
      read on the key ID as given. */
  lemma UpperHexDigit(c: char)
    ensures IsHexDigit(ToUpperAscii(c)) <==> c in "0123456789abcdefABCDEF"
  {
    if 'a' <= c <= 'z' {
      assert 'A' <= ToUpperAscii(c) <= 'Z';
    }
  }

  predicate AllHex(s: string)
  {
    forall i :: 0 <= i < |s| ==> IsHexDigit(s[i])
  }

  /** The length of the run of hex digits at the start of `s`, at most `max`. */
  function HexRun(s: string, max: nat): (n: nat)
    ensures n <= max && n <= |s|
    ensures AllHex(s[..n])
    ensures n < max && n < |s| ==> !IsHexDigit(s[n])
  {
    if max == 0 || s == [] || !IsHexDigit(s[0]) then 0
    else
      var m := HexRun(s[1..], max - 1);
      assert s[..m + 1] == [s[0]] + s[1..][..m];
      1 + m
  }

  /** The matches of the global expression `/[\dA-F]{1,4}/g`, left to right:
      the scan skips other characters, and each match takes as many hex digits
      as it can, up to four. */
  function HexGroups(s: string): (g: seq<string>)
    ensures forall k :: 0 <= k < |g| ==> 1 <= |g[k]| <= 4 && AllHex(g[k])
    decreases |s|
  {
    if s == [] then []
    else if !IsHexDigit(s[0]) then HexGroups(s[1..])
    else
      var n := HexRun(s, 4);
      [s[..n]] + HexGroups(s[n..])
  }

  /** The hex digits of `s`, in order. */
  function HexOnly(s: string): (r: string)
    ensures |r| <= |s| && AllHex(r)
  {
    if s == [] then "" else (if IsHexDigit(s[0]) then [s[0]] else "") + HexOnly(s[1..])
  }

  /** `formatKeyID`: the upper-cased ID's hex digits in groups of four,
      separated by single spaces. `match` gives `null` when there is no group,
      and the non-null assertion then throws: that is `None`. */
  function FormatKeyID(keyID: string): Option<string>
  {
    var groups := HexGroups(UpperAscii(keyID));
    if groups == [] then None else Some(Join(groups, " "))
  }

  lemma {:induction false} HexOnlyAppend(a: string, b: string)
    ensures HexOnly(a + b) == HexOnly(a) + HexOnly(b)
  {
    if a == [] {
      assert a + b == b;
    } else {
      var head := if IsHexDigit(a[0]) then [a[0]] else "";
      assert (a + b)[0] == a[0];
      assert (a + b)[1..] == a[1..] + b;
      assert HexOnly(a + b) == head + HexOnly(a[1..] + b);
      assert HexOnly(a) == head + HexOnly(a[1..]);
      HexOnlyAppend(a[1..], b);
      assert head + (HexOnly(a[1..]) + HexOnly(b)) == (head + HexOnly(a[1..])) + HexOnly(b);
    }
  }

  lemma {:induction false} HexOnlyOfHex(s: string)
    requires AllHex(s)
    ensures HexOnly(s) == s
  {
    if s != [] {
      HexOnlyOfHex(s[1..]);
    }
  }

  lemma {:induction false} HexOnlyEmpty(s: string)
    ensures HexOnly(s) == "" <==> forall i :: 0 <= i < |s| ==> !IsHexDigit(s[i])
  {
    if s != [] {
      HexOnlyEmpty(s[1..]);
      if !IsHexDigit(s[0]) {
        assert forall i :: 1 <= i < |s| ==> s[i] == s[1..][i - 1];
      }
    }
  }

  lemma ConcatCons(x: string, rest: seq<string>)
    ensures Concat([x] + rest) == x + Concat(rest)
  {
    assert ([x] + rest)[1..] == rest;
  }

  /** The groups, put back together, are exactly the hex digits of the input. */
  lemma {:induction false} HexGroupsConcat(s: string)
    ensures Concat(HexGroups(s)) == HexOnly(s)
    decreases |s|
  {
    if s != [] {
      if !IsHexDigit(s[0]) {
        HexGroupsConcat(s[1..]);
      } else {
        var n := HexRun(s, 4);
        HexGroupsConcat(s[n..]);
        ConcatCons(s[..n], HexGroups(s[n..]));
        assert s == s[..n] + s[n..];
        HexOnlyAppend(s[..n], s[n..]);
        HexOnlyOfHex(s[..n]);
      }
    }
  }

  /** Deleting the spaces from the formatted ID leaves the upper-cased ID's hex
      digits, and what lies between spaces is always a group of one to four hex
      digits. The ID fails to format exactly when it holds no hex digit. */
  lemma FormatKeyIDGroups(keyID: string)
    ensures FormatKeyID(keyID).None? <==>
              forall i :: 0 <= i < |keyID| ==> !IsHexDigit(ToUpperAscii(keyID[i]))
    ensures FormatKeyID(keyID).Some? ==>
              Delete(FormatKeyID(keyID).value, ' ') == HexOnly(UpperAscii(keyID))
    ensures FormatKeyID(keyID).Some? ==>
              forall piece :: piece in Split(FormatKeyID(keyID).value, ' ') ==>
                1 <= |piece| <= 4 && AllHex(piece)
  {
    var u := UpperAscii(keyID);
    var groups := HexGroups(u);
    HexGroupsConcat(u);
    HexOnlyEmpty(u);
    if groups != [] {
      ConcatCons(groups[0], groups[1..]);
      assert [groups[0]] + groups[1..] == groups;
      assert forall k, i :: 0 <= k < |groups| && 0 <= i < |groups[k]| ==> groups[k][i] != ' ' by {
        forall k, i | 0 <= k < |groups| && 0 <= i < |groups[k]| ensures groups[k][i] != ' ' {
          assert IsHexDigit(groups[k][i]);
        }
      }
      DeleteFromJoin(groups, ' ');
      SplitJoin(groups, ' ');
    }
  }

  /** Formatting throws exactly when the key ID as given holds no hex digit of
      either case. */
  lemma FormatKeyIDFails(keyID: string)
    ensures FormatKeyID(keyID).None? <==> forall i :: 0 <= i < |keyID| ==> keyID[i] !in "0123456789abcdefABCDEF"
  {
    FormatKeyIDGroups(keyID);
    forall i | 0 <= i < |keyID| {
      UpperHexDigit(keyID[i]);
    }
  }

  lemma {:induction false} HexRunOfHex(s: string, max: nat)
    requires AllHex(s)
    ensures HexRun(s, max) == if max < |s| then max else |s|
  {
    if max > 0 && s != [] {
      HexRunOfHex(s[1..], max - 1);
    }
  }

  /** A run of hex digits is cut into fours from the left. */
  lemma HexGroupsOfHex(s: string)
    requires AllHex(s) && s != []
    ensures HexGroups(s) == if |s| <= 4 then [s] else [s[..4]] + HexGroups(s[4..])
  {
    assert IsHexDigit(s[0]);
    var n := HexRun(s, 4);
    HexRunOfHex(s, 4);
    assert HexGroups(s) == [s[..n]] + HexGroups(s[n..]);
    if |s| <= 4 {
      assert n == |s| && s[..n] == s && s[n..] == [];
      assert HexGroups(s[n..]) == [];
    } else {
      assert n == 4;
    }
  }

  lemma HexGroupsOfSixteen(u: string)
    requires |u| == 16 && AllHex(u)
    ensures HexGroups(u) == [u[..4], u[4..8], u[8..12], u[12..]]
  {
    HexGroupsOfHex(u);
    HexGroupsOfHex(u[4..]);
    HexGroupsOfHex(u[8..]);
    HexGroupsOfHex(u[12..]);
    assert u[4..][..4] == u[4..8] && u[4..][4..] == u[8..];
    assert u[8..][..4] == u[8..12] && u[8..][4..] == u[12..];
  }

  lemma JoinFour(a: string, b: string, c: string, d: string, sep: string)
    ensures Join([a, b, c, d], sep) == a + sep + b + sep + c + sep + d
  {
    assert [c, d][1..] == [d];
    assert Join([c, d], sep) == c + sep + d;
    assert [b, c, d][1..] == [c, d];
    assert Join([b, c, d], sep) == b + sep + (c + sep + d);
    assert [a, b, c, d][1..] == [b, c, d];
    assert Join([a, b, c, d], sep) == a + sep + (b + sep + (c + sep + d));
  }

  /** A 16-digit key ID (the usual long form) gives four groups of four, and
      once the spaces are deleted it reads as the upper-cased ID. */
  lemma FormatLongKeyID(keyID: string)
    requires |keyID| == 16
    requires forall i :: 0 <= i < 16 ==> IsHexDigit(ToUpperAscii(keyID[i]))
    ensures var u := UpperAscii(keyID);
            FormatKeyID(keyID) == Some(u[..4] + " " + u[4..8] + " " + u[8..12] + " " + u[12..])
    ensures Delete(FormatKeyID(keyID).value, ' ') == UpperAscii(keyID)
  {
    var u := UpperAscii(keyID);
    assert AllHex(u);
    HexGroupsOfSixteen(u);
    JoinFour(u[..4], u[4..8], u[8..12], u[12..], " ");
    FormatKeyIDGroups(keyID);
    HexOnlyOfHex(u);
  }

  // ---------------------------------------------------------------------------
  // formatKeyAlgorithm

  /** An entry of `Object.values` of a numeric enum: a member name (the value of
      a reverse-mapping key) or a code (the value of a name key). */
  datatype EnumValue = NameValue(name: string) | CodeValue(code: int)

  /** `Object.keys(KeyAlgorithm)`: the reverse-mapping keys, which are the codes
      as strings in ascending numeric order, then the member names in
      declaration order. The codes ascend in declaration order
      (`AlgorithmTable`), so both halves follow `AllAlgorithms`. */
  function AlgorithmKeys(): seq<string>
  {
    ["0", "1", "2", "3", "16", "17", "18", "19", "22", "25", "26", "27", "28"]
    + seq(|AllAlgorithms|, i requires 0 <= i < |AllAlgorithms| => AlgorithmName(AllAlgorithms[i]))
  }

  /** The reverse-mapping keys are the decimal renderings of the codes. */
  lemma AlgorithmKeysAreCodes()
    ensures forall j :: 0 <= j < |AllAlgorithms| ==> AlgorithmKeys()[j] == NatToString(AlgorithmCode(AllAlgorithms[j]))
  {
    forall j | 0 <= j < |AllAlgorithms|
      ensures AlgorithmKeys()[j] == NatToString(AlgorithmCode(AllAlgorithms[j]))
    {
      var c := AlgorithmCode(AllAlgorithms[j]);
      if c >= 10 {
        assert NatToString(c) == NatToString(c / 10) + [DigitChar(c % 10)];
      }
    }
  }

  /** `Object.values(KeyAlgorithm)`, key by key. */
  function AlgorithmValues(): seq<EnumValue>
  {
    seq(|AllAlgorithms|, i requires 0 <= i < |AllAlgorithms| => NameValue(AlgorithmName(AllAlgorithms[i])))
    + seq(|AllAlgorithms|, i requires 0 <= i < |AllAlgorithms| => CodeValue(AlgorithmCode(AllAlgorithms[i])))
  }

  /** `Array.prototype.indexOf` with strict equality: the first position, or -1. */
  function IndexOf<T(==)>(s: seq<T>, x: T): (r: int)
    ensures -1 <= r < |s|
    ensures r == -1 <==> x !in s
    ensures 0 <= r ==> s[r] == x && forall j :: 0 <= j < r ==> s[j] != x
  {
    if s == [] then -1
    else if s[0] == x then 0
    else
      var k := IndexOf(s[1..], x);
      if k == -1 then -1 else k + 1
  }

  /** `Object.keys(KeyAlgorithm)[i]`; index -1 reads `undefined`. */
  function AlgorithmKeyAt(i: int): Option<string>
  {
    if 0 <= i < |AlgorithmKeys()| then Some(AlgorithmKeys()[i]) else None
  }

  /** `formatKeyAlgorithm`. Like the empty string, `undefined` is falsy and
      selects the fallback text. */
  function FormatKeyAlgorithm(algorithm: int): string
  {
    KeyOr(AlgorithmKeyAt(IndexOf(AlgorithmValues(), CodeValue(algorithm))), "KeyAlgorithm #" + IntToString(algorithm))
  }

  /** `key || fallback` for a string or `undefined`. */
  function KeyOr(key: Option<string>, fallback: string): string
  {
    if key.Some? && key.value != "" then key.value else fallback
  }

  /** The position of a member in `AllAlgorithms`. */
  function AlgorithmIndex(a: KeyAlgorithm): (i: nat)
    ensures i < |AllAlgorithms| && AllAlgorithms[i] == a
  {
    match a
    case Reserved => 0
    case RSAEncryptSign => 1
    case RSAEncryptOnly => 2
    case RSASignOnly => 3
    case Elgamal => 4
    case DSA => 5
    case ECDH => 6
    case ECDSA => 7
    case EdDSALegacy => 8
    case X25519 => 9
    case X448 => 10
    case Ed25519 => 11
    case Ed448 => 12
  }

  /** The layout of the enum object: names first, then codes, both in
      declaration order, with each name key opposite its code value. */
  lemma AlgorithmEnumShape()
    ensures |AlgorithmValues()| == 2 * |AllAlgorithms| && |AlgorithmKeys()| == 2 * |AllAlgorithms|
    ensures forall k :: 0 <= k < |AllAlgorithms| ==> AlgorithmValues()[k].NameValue?
    ensures forall j :: 0 <= j < |AllAlgorithms| ==>
              AlgorithmValues()[|AllAlgorithms| + j] == CodeValue(AlgorithmCode(AllAlgorithms[j]))
    ensures forall j :: 0 <= j < |AllAlgorithms| ==>
              AlgorithmKeys()[|AllAlgorithms| + j] == AlgorithmName(AllAlgorithms[j])
  {
  }

  lemma AlgorithmNameEntry(k: nat)
    requires k < |AllAlgorithms|
    ensures AlgorithmValues()[k].NameValue?
  {
    AlgorithmEnumShape();
  }

  lemma AlgorithmEntry(j: nat)
    requires j < |AllAlgorithms|
    ensures |AlgorithmValues()| == |AlgorithmKeys()| == 2 * |AllAlgorithms|
    ensures AlgorithmValues()[|AllAlgorithms| + j] == CodeValue(AlgorithmCode(AllAlgorithms[j]))
    ensures AlgorithmKeys()[|AllAlgorithms| + j] == AlgorithmName(AllAlgorithms[j]) != ""
  {
    AlgorithmEnumShape();
  }

  /** In a table whose first half holds no code, a code that sits in the second
      half at `half + j` is first found there or earlier in that half. */
  lemma IndexOfCode(v: seq<EnumValue>, half: nat, j: nat, x: EnumValue)
    requires |v| == 2 * half && j < half && x.CodeValue? && v[half + j] == x
    requires forall k :: 0 <= k < half ==> v[k].NameValue?
    ensures half <= IndexOf(v, x) <= half + j
  {
  }

  lemma KnownAlgorithmKey(a: KeyAlgorithm)
    ensures AlgorithmKeyAt(IndexOf(AlgorithmValues(), CodeValue(AlgorithmCode(a)))) == Some(AlgorithmName(a))
  {
    var n := |AllAlgorithms|;
    var x := CodeValue(AlgorithmCode(a));
    AlgorithmEnumShape();
    IndexOfCode(AlgorithmValues(), n, AlgorithmIndex(a), x);
    var i := IndexOf(AlgorithmValues(), x);
    AlgorithmEntry(i - n);
    AlgorithmCodesDistinct(AllAlgorithms[i - n], a);
  }

  lemma FormatKnownAlgorithm(a: KeyAlgorithm)
    ensures FormatKeyAlgorithm(AlgorithmCode(a)) == AlgorithmName(a)
  {
    KnownAlgorithmKey(a);
    AlgorithmEntry(AlgorithmIndex(a));
  }

  lemma FormatUnknownAlgorithm(algorithm: int)
    requires forall a :: AlgorithmCode(a) != algorithm
    ensures FormatKeyAlgorithm(algorithm) == "KeyAlgorithm #" + IntToString(algorithm)
  {
    AlgorithmEnumShape();
    var n := |AllAlgorithms|;
    var v := AlgorithmValues();
    var x := CodeValue(algorithm);
    assert x !in v by {
      forall k | 0 <= k < |v| ensures v[k] != x {
        if n <= k { assert v[k] == CodeValue(AlgorithmCode(AllAlgorithms[k - n])); }
      }
    }
    assert AlgorithmKeyAt(IndexOf(v, x)) == None;
  }

  /** A registered code is shown as its member name, any other number as
      `KeyAlgorithm #n`. */
  lemma FormatKeyAlgorithmName(algorithm: int)
    ensures FormatKeyAlgorithm(algorithm) ==
              match AlgorithmFromCode(algorithm)
              case Some(a) => AlgorithmName(a)
              case None => "KeyAlgorithm #" + IntToString(algorithm)
  {
    match AlgorithmFromCode(algorithm)
    case Some(a) => FormatKnownAlgorithm(a);
    case None => FormatUnknownAlgorithm(algorithm);
  }

  // ---------------------------------------------------------------------------
  // formatKeyExtraInfo

  /** The trust labels; `Invalid` has none (the lookup gives `undefined`). */
  function ValidityLabel(v: KeyValidity): (r: Option<string>)
    ensures r.None? <==> v == Invalid
  {
    match v
    case Invalid => None
    case Revoked => Some("已吊销")
    case Expired => Some("已过期")
    case Unknown => Some("未知")
    case Never => Some("永不信任")
    case Marginal => Some("勉强信任")
    case Full => Some("完全信任")
    case Ultimate => Some("绝对信任")
  }

  /** Distinct validities carry distinct labels. */
  lemma ValidityLabelsDistinct(v: KeyValidity, w: KeyValidity)
    requires ValidityLabel(v).Some? && ValidityLabel(v) == ValidityLabel(w)
    ensures v == w
  {
  }

  datatype Capability = Sign | Certify | Encrypt | Authentication

  predicate Holds(c: Capabilities, x: Capability)
  {
    match x
    case Sign => c.sign
    case Certify => c.certify
    case Encrypt => c.encrypt
    case Authentication => c.authentication
  }

  /** The capability table in its fixed order, each with its label. */
  const CapabilityTable: seq<(Capability, string)> :=
    [(Sign, "签名（Sign）"), (Certify, "认证（Certify）"),
     (Encrypt, "加密（Encrypt）"), (Authentication, "身份验证（Authenticate）")]

  function CapabilityLabel(x: Capability): string
  {
    match x
    case Sign => CapabilityTable[0].1
    case Certify => CapabilityTable[1].1
    case Encrypt => CapabilityTable[2].1
    case Authentication => CapabilityTable[3].1
  }

  /** `.filter(([k, _]) => key.capabilities[k]).map(([_, v]) => v)`. */
  function HeldLabels(c: Capabilities, rows: seq<(Capability, string)>): seq<string>
  {
    if rows == [] then []
    else (if Holds(c, rows[0].0) then [rows[0].1] else []) + HeldLabels(c, rows[1..])
  }

  function CapabilityLabels(c: Capabilities): seq<string>
  {
    HeldLabels(c, CapabilityTable)
  }

  /** The `密钥用途` line: the held capabilities' labels joined by `、`. */
  function CapabilityLine(c: Capabilities): string
  {
    Join(CapabilityLabels(c), "、")
  }

  function Opt(b: bool, s: string): seq<string>
  {
    if b then [s] else []
  }

  /** The filter over the table, unrolled. */
  lemma CapabilityLabelsUnrolled(c: Capabilities)
    ensures CapabilityLabels(c) ==
              Opt(c.sign, CapabilityLabel(Sign)) + Opt(c.certify, CapabilityLabel(Certify))
              + Opt(c.encrypt, CapabilityLabel(Encrypt)) + Opt(c.authentication, CapabilityLabel(Authentication))
  {
    var t := CapabilityTable;
    var l0 := Opt(c.sign, CapabilityLabel(Sign));
    var l1 := Opt(c.certify, CapabilityLabel(Certify));
    var l2 := Opt(c.encrypt, CapabilityLabel(Encrypt));
    var l3 := Opt(c.authentication, CapabilityLabel(Authentication));
    assert t[3..][1..] == [];
    assert HeldLabels(c, t[3..]) == l3 + [];
    assert t[2..][1..] == t[3..];
    assert HeldLabels(c, t[2..]) == l2 + l3;
    assert t[1..][1..] == t[2..];
    assert HeldLabels(c, t[1..]) == l1 + (l2 + l3);
    assert HeldLabels(c, t) == l0 + (l1 + (l2 + l3));
  }

  /** Reads the capabilities back from labels. */
  function CapabilitiesOfLabels(labels: seq<string>): Capabilities
  {
    Capabilities(CapabilityLabel(Sign) in labels, CapabilityLabel(Certify) in labels,
                 CapabilityLabel(Encrypt) in labels, CapabilityLabel(Authentication) in labels)
  }

  /** Reads the capabilities back from a capability line. */
  function CapabilitiesOfLine(line: string): Capabilities
  {
    CapabilitiesOfLabels(if line == "" then [] else Split(line, '、'))
  }

  /** The line lists a capability's label exactly when it is held. */
  lemma CapabilityLabelsHeld(c: Capabilities)
    ensures forall x :: CapabilityLabel(x) in CapabilityLabels(c) <==> Holds(c, x)
  {
    CapabilityLabelsUnrolled(c);
    forall x ensures CapabilityLabel(x) in CapabilityLabels(c) <==> Holds(c, x) {
      match x
      case Sign =>
      case Certify =>
      case Encrypt =>
      case Authentication =>
    }
  }

  /** The labels keep the table's order. */
  lemma CapabilityLabelsOrdered(c: Capabilities)
    ensures forall i, j :: 0 <= i < j < |CapabilityLabels(c)| ==>
              LabelRank(CapabilityLabels(c)[i]) < LabelRank(CapabilityLabels(c)[j])
  {
    CapabilityLabelsUnrolled(c);
  }

  /** No label is empty or contains the separator or a line feed. */
  lemma LabelsClean(c: Capabilities)
    ensures forall k :: 0 <= k < |CapabilityLabels(c)| ==> CapabilityLabels(c)[k] != ""
    ensures forall k, i :: 0 <= k < |CapabilityLabels(c)| && 0 <= i < |CapabilityLabels(c)[k]| ==>
              CapabilityLabels(c)[k][i] != '、' && CapabilityLabels(c)[k][i] != '\n'
  {
    CapabilityLabelsUnrolled(c);
    forall x: Capability, i | 0 <= i < |CapabilityLabel(x)|
      ensures CapabilityLabel(x)[i] != '、' && CapabilityLabel(x)[i] != '\n'
    {
      match x
      case Sign =>
      case Certify =>
      case Encrypt =>
      case Authentication =>
    }
  }

  /** The held capabilities can be read back from the line. */
  lemma CapabilityLineRoundTrip(c: Capabilities)
    ensures CapabilitiesOfLine(CapabilityLine(c)) == c
  {
    CapabilityLabelsHeld(c);
    LabelsClean(c);
    var labels := CapabilityLabels(c);
    if labels != [] {
      SplitJoin(labels, '、');
      assert |labels[0]| > 0;
      assert CapabilityLine(c) != "" by {
        assert |labels| == 1 || Join(labels, "、") == labels[0] + "、" + Join(labels[1..], "、");
      }
    }
  }

  /** The position of a label in the table (4 for any other string). */
  function LabelRank(text: string): nat
  {
    if text == CapabilityLabel(Sign) then 0
    else if text == CapabilityLabel(Certify) then 1
    else if text == CapabilityLabel(Encrypt) then 2
    else if text == CapabilityLabel(Authentication) then 3
    else 4
  }

  /** `key.expirationDate ? … : '永不过期'`: an absent date and the date 0 are
      both falsy. */
  function ExpiryText(expirationDate: Option<int>, isoDate: int -> string): string
  {
    if expirationDate.Some? && expirationDate.value != 0 then isoDate(expirationDate.value) else "永不过期"
  }

  function ExtraInfoLines(key: SubKeyInfo, isoDate: int -> string): seq<string>
  {
    ["信任等级：" + Shown(ValidityLabel(key.validity)),
     "创建时间：" + isoDate(key.creationDate),
     "过期时间：" + ExpiryText(key.expirationDate, isoDate),
     "密钥用途：" + CapabilityLine(key.capabilities)]
  }

  /** `formatKeyExtraInfo`; `isoDate` stands for `new Date(seconds * 1e3).toISOString()`. */
  function FormatKeyExtraInfo(key: SubKeyInfo, isoDate: int -> string): string
  {
    Join(ExtraInfoLines(key, isoDate), "\n")
  }

  predicate NoNewline(s: string)
  {
    forall i :: 0 <= i < |s| ==> s[i] != '\n'
  }

  /** The tooltip has four lines: trust, creation, expiry and capabilities. A
      key without an expiry date, or with date 0, never expires; the last line
      carries the capability line, which reads back as the key's capabilities
      (`CapabilityLineRoundTrip`). */
  lemma ExtraInfoLayout(key: SubKeyInfo, isoDate: int -> string)
    requires NoNewline(isoDate(key.creationDate))
    requires key.expirationDate.Some? ==> NoNewline(isoDate(key.expirationDate.value))
    ensures var lines := Split(FormatKeyExtraInfo(key, isoDate), '\n');
            |lines| == 4
            && lines[0] == "信任等级：" + (if key.validity == Invalid then "undefined" else ValidityLabel(key.validity).value)
            && lines[1] == "创建时间：" + isoDate(key.creationDate)
            && (key.expirationDate.None? || key.expirationDate == Some(0) ==> lines[2] == "过期时间：永不过期")
            && lines[3] == "密钥用途：" + CapabilityLine(key.capabilities)
  {
    var lines := ExtraInfoLines(key, isoDate);
    TrustLineClean(key.validity);
    CapabilityLineClean(key.capabilities);
    NoNewlineConcat("创建时间：", isoDate(key.creationDate));
    NoNewlineConcat("过期时间：", ExpiryText(key.expirationDate, isoDate));
    NoNewlineConcat("密钥用途：", CapabilityLine(key.capabilities));
    assert forall k :: 0 <= k < |lines| ==> NoNewline(lines[k]);
    SplitJoin(lines, '\n');
  }

  lemma NoNewlineConcat(a: string, b: string)
    requires NoNewline(a) && NoNewline(b)
    ensures NoNewline(a + b)
  {
    assert forall i :: |a| <= i < |a + b| ==> (a + b)[i] == b[i - |a|];
  }

  lemma TrustLineClean(v: KeyValidity)
    ensures NoNewline("信任等级：" + Shown(ValidityLabel(v)))
  {
    assert NoNewline(Shown(ValidityLabel(v))) by {
      match v
      case Invalid =>
      case Revoked =>
      case Expired =>
      case Unknown =>
      case Never =>
      case Marginal =>
      case Full =>
      case Ultimate =>
    }
    NoNewlineConcat("信任等级：", Shown(ValidityLabel(v)));
  }

  lemma CapabilityLineClean(c: Capabilities)
    ensures NoNewline(CapabilityLine(c))
  {
    LabelsClean(c);
    JoinNoChar(CapabilityLabels(c), "、", '\n');
  }

  // ---------------------------------------------------------------------------
  // isPGPMessage

  const ArmorHeader: string := "-----BEGIN PGP MESSAGE-----"
  const ArmorFooter: string := "-----END PGP MESSAGE-----"

  /** `s` starts with a run of whitespace that contains a line feed. */
  predicate NewlineInSpaceRun(s: string)
  {
    s != [] && IsJsSpace(s[0]) && (s[0] == '\n' || NewlineInSpaceRun(s[1..]))
  }

  /** `s` without its trailing whitespace. */
  function TrimEndSpace(s: string): (r: string)
    ensures |r| <= |s| && r == s[..|r|]
    ensures AllSpace(s[|r|..])
    ensures r == [] || !IsJsSpace(r[|r| - 1])
  {
    if s != [] && IsJsSpace(s[|s| - 1]) then
      var r := TrimEndSpace(s[..|s| - 1]);
      assert s[|r|..] == s[..|s| - 1][|r|..] + [s[|s| - 1]];
      r
    else s
  }

  predicate HasHeader(text: string)
  {
    |ArmorHeader| <= |text| && text[..|ArmorHeader|] == ArmorHeader
    && NewlineInSpaceRun(text[|ArmorHeader|..])
  }

  predicate HasFooter(text: string)
  {
    var t := TrimEndSpace(text);
    |ArmorFooter| <= |t| && t[|t| - |ArmorFooter|..] == ArmorFooter
  }

  /** `isPGPMessage`: both regular expressions match. */
  predicate IsPGPMessage(text: string)
  {
    HasHeader(text) && HasFooter(text)
  }

  /** `/^-----BEGIN PGP MESSAGE-----\s*\n/` matches: after the header at the
      very start comes whitespace up to a line feed at position `j`. */
  ghost predicate HeaderMatches(text: string)
  {
    |ArmorHeader| <= |text| && text[..|ArmorHeader|] == ArmorHeader
    && exists j :: |ArmorHeader| <= j < |text| && AllSpace(text[|ArmorHeader|..j]) && text[j] == '\n'
  }

  /** `/-----END PGP MESSAGE-----\s*$/` matches: the footer ends at some
      position `e` and only whitespace follows it. */
  ghost predicate FooterMatches(text: string)
  {
    exists e :: |ArmorFooter| <= e <= |text| && text[e - |ArmorFooter|..e] == ArmorFooter && AllSpace(text[e..])
  }

  lemma {:induction false} NewlineInSpaceRunMeaning(s: string)
    ensures NewlineInSpaceRun(s) <==> exists j :: 0 <= j < |s| && AllSpace(s[..j]) && s[j] == '\n'
  {
    if s != [] {
      NewlineInSpaceRunMeaning(s[1..]);
      if NewlineInSpaceRun(s) && s[0] != '\n' {
        var j :| 0 <= j < |s[1..]| && AllSpace(s[1..][..j]) && s[1..][j] == '\n';
        assert s[..j + 1] == [s[0]] + s[1..][..j];
        assert AllSpace(s[..j + 1]) && s[j + 1] == '\n';
      }
      if exists j :: 0 <= j < |s| && AllSpace(s[..j]) && s[j] == '\n' {
        var j :| 0 <= j < |s| && AllSpace(s[..j]) && s[j] == '\n';
        if j > 0 {
          assert s[0] == s[..j][0];
          assert s[1..][..j - 1] == s[..j][1..];
          assert AllSpace(s[1..][..j - 1]) && s[1..][j - 1] == '\n';
        }
      }
    }
  }

  lemma HeaderMeaning(text: string)
    ensures HasHeader(text) <==> HeaderMatches(text)
  {
    var h := |ArmorHeader|;
    if h <= |text| && text[..h] == ArmorHeader {
      var s := text[h..];
      NewlineInSpaceRunMeaning(s);
      if NewlineInSpaceRun(s) {
        var j :| 0 <= j < |s| && AllSpace(s[..j]) && s[j] == '\n';
        assert text[h..h + j] == s[..j];
        assert text[h + j] == '\n';
      }
      if HeaderMatches(text) {
        var j :| h <= j < |text| && AllSpace(text[h..j]) && text[j] == '\n';
        assert s[..j - h] == text[h..j];
        assert s[j - h] == '\n';
      }
    }
  }

  /** Trimming stops at the last non-whitespace character. */
  lemma {:induction false} TrimEndAt(s: string, e: nat)
    requires 0 < e <= |s| && AllSpace(s[e..]) && !IsJsSpace(s[e - 1])
    ensures TrimEndSpace(s) == s[..e]
    decreases |s|
  {
    if e < |s| {
      assert IsJsSpace(s[|s| - 1]) by { assert s[|s| - 1] == s[e..][|s| - 1 - e]; }
      var p := s[..|s| - 1];
      assert p[e..] == s[e..][..|s| - 1 - e];
      assert p[e - 1] == s[e - 1];
      TrimEndAt(p, e);
      assert p[..e] == s[..e];
    } else {
      assert s[..e] == s;
    }
  }

  lemma FooterFound(text: string)
    requires HasFooter(text)
    ensures FooterMatches(text)
  {
    var f := |ArmorFooter|;
    var t := TrimEndSpace(text);
    var e := |t|;
    assert text[e - f..e] == t[e - f..];
    assert AllSpace(text[e..]);
  }

  lemma FooterTrimmed(text: string, e: nat)
    requires |ArmorFooter| <= e <= |text| && text[e - |ArmorFooter|..e] == ArmorFooter && AllSpace(text[e..])
    ensures HasFooter(text)
  {
    var f := |ArmorFooter|;
    assert text[e - 1] == text[e - f..e][f - 1] == '-';
    TrimEndAt(text, e);
    var t := TrimEndSpace(text);
    assert t[|t| - f..] == text[e - f..e];
  }

  lemma FooterMeaning(text: string)
    ensures HasFooter(text) <==> FooterMatches(text)
  {
    if HasFooter(text) {
      FooterFound(text);
    }
    if FooterMatches(text) {
      var e :| |ArmorFooter| <= e <= |text| && text[e - |ArmorFooter|..e] == ArmorFooter && AllSpace(text[e..]);
      FooterTrimmed(text, e);
    }
  }

  /** The detector holds exactly when both regular expressions match. */
  lemma IsPGPMessageMeaning(text: string)
    ensures IsPGPMessage(text) <==> HeaderMatches(text) && FooterMatches(text)
  {
    HeaderMeaning(text);
    FooterMeaning(text);
  }

  /** An armored message as gpg writes it, with any body, is recognised. */
  lemma ArmoredMessageDetected(body: string)
    ensures IsPGPMessage(ArmorHeader + "\n" + body + "\n" + ArmorFooter + "\n")
  {
    var text := ArmorHeader + "\n" + body + "\n" + ArmorFooter + "\n";
    var h := |ArmorHeader|;
    assert text[..h] == ArmorHeader;
    assert AllSpace(text[h..h]) && text[h] == '\n';
    assert HeaderMatches(text);
    var e := |text| - 1;
    assert text[e - |ArmorFooter|..e] == ArmorFooter;
    assert AllSpace(text[e..]) by { assert text[e..] == "\n"; }
    assert FooterMatches(text);
    IsPGPMessageMeaning(text);
  }
}
