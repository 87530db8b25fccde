/** The shared data model of the plugin: algorithm and validity codes and the
    record shapes that describe a key and its subkeys. */
module GnuPG {
  import opened Wrappers

  /** Public-key algorithm identifiers, as registered in section 9.1 of RFC 9580. */
  datatype KeyAlgorithm =
    | Reserved
    | RSAEncryptSign
    | RSAEncryptOnly
    | RSASignOnly
    | Elgamal
    | DSA
    | ECDH
    | ECDSA
    | EdDSALegacy
    | X25519
    | X448
    | Ed25519
    | Ed448

  /** The members in declaration order. */
  const AllAlgorithms: seq<KeyAlgorithm> :=
    [Reserved, RSAEncryptSign, RSAEncryptOnly, RSASignOnly, Elgamal, DSA, ECDH, ECDSA,
     EdDSALegacy, X25519, X448, Ed25519, Ed448]

  function AlgorithmCode(a: KeyAlgorithm): nat
  {
    match a
    case Reserved => 0
    case RSAEncryptSign => 1
    case RSAEncryptOnly => 2
    case RSASignOnly => 3
    case Elgamal => 16
    case DSA => 17
    case ECDH => 18
    case ECDSA => 19
    case EdDSALegacy => 22
    case X25519 => 25
    case X448 => 26
    case Ed25519 => 27
    case Ed448 => 28
  }

  /** The member's name as written in the enum declaration. */
  function AlgorithmName(a: KeyAlgorithm): string
  {
    match a
    case Reserved => "Reserved"
    case RSAEncryptSign => "RSAEncryptSign"
    case RSAEncryptOnly => "RSAEncryptOnly"
    case RSASignOnly => "RSASignOnly"
    case Elgamal => "Elgamal"
    case DSA => "DSA"
    case ECDH => "ECDH"
    case ECDSA => "ECDSA"
    case EdDSALegacy => "EdDSALegacy"
    case X25519 => "X25519"
    case X448 => "X448"
    case Ed25519 => "Ed25519"
    case Ed448 => "Ed448"
  }

  /** Every member is listed once, and the codes are exactly the registry values
      0, 1, 2, 3, 16, 17, 18, 19, 22, 25, 26, 27, 28, strictly ascending in
      declaration order (so no two members share a code). */
  lemma AlgorithmTable()
    ensures forall a :: a in AllAlgorithms
    ensures forall i, j :: 0 <= i < j < |AllAlgorithms| ==> AllAlgorithms[i] != AllAlgorithms[j]
    ensures forall i, j :: 0 <= i < j < |AllAlgorithms| ==>
              AlgorithmCode(AllAlgorithms[i]) < AlgorithmCode(AllAlgorithms[j])
    ensures seq(|AllAlgorithms|, i requires 0 <= i < |AllAlgorithms| => AlgorithmCode(AllAlgorithms[i]))
            == [0, 1, 2, 3, 16, 17, 18, 19, 22, 25, 26, 27, 28]
  {
    forall a ensures a in AllAlgorithms {
      match a
      case Reserved => assert AllAlgorithms[0] == a;
      case RSAEncryptSign => assert AllAlgorithms[1] == a;
      case RSAEncryptOnly => assert AllAlgorithms[2] == a;
      case RSASignOnly => assert AllAlgorithms[3] == a;
      case Elgamal => assert AllAlgorithms[4] == a;
      case DSA => assert AllAlgorithms[5] == a;
      case ECDH => assert AllAlgorithms[6] == a;
      case ECDSA => assert AllAlgorithms[7] == a;
      case EdDSALegacy => assert AllAlgorithms[8] == a;
      case X25519 => assert AllAlgorithms[9] == a;
      case X448 => assert AllAlgorithms[10] == a;
      case Ed25519 => assert AllAlgorithms[11] == a;
      case Ed448 => assert AllAlgorithms[12] == a;
    }
  }

  /** Codes identify members: the enum is injective. */
  lemma AlgorithmCodesDistinct(a: KeyAlgorithm, b: KeyAlgorithm)
    ensures AlgorithmCode(a) == AlgorithmCode(b) <==> a == b
  {
  }

  /** The member with a given code, if the registry lists one. */
  function AlgorithmFromCode(n: int): (r: Option<KeyAlgorithm>)
    ensures r.Some? ==> AlgorithmCode(r.value) == n
    ensures r.None? ==> forall a :: AlgorithmCode(a) != n
  {
    match n
    case 0 => Some(Reserved)
    case 1 => Some(RSAEncryptSign)
    case 2 => Some(RSAEncryptOnly)
    case 3 => Some(RSASignOnly)
    case 16 => Some(Elgamal)
    case 17 => Some(DSA)
    case 18 => Some(ECDH)
    case 19 => Some(ECDSA)
    case 22 => Some(EdDSALegacy)
    case 25 => Some(X25519)
    case 26 => Some(X448)
    case 27 => Some(Ed25519)
    case 28 => Some(Ed448)
    case _ => None
  }

  lemma AlgorithmCodeRoundTrip(a: KeyAlgorithm)
    ensures AlgorithmFromCode(AlgorithmCode(a)) == Some(a)
  {
  }

  /** Validity of a key (field 2 of GnuPG's colon listing), from the least to
      the most trusted. */
  datatype KeyValidity = Invalid | Revoked | Expired | Unknown | Never | Marginal | Full | Ultimate

  const AllValidities: seq<KeyValidity> :=
    [Invalid, Revoked, Expired, Unknown, Never, Marginal, Full, Ultimate]

  /** Invalid, Revoked, Expired and Unknown carry explicit values. Never,
      Marginal, Full and Ultimate have none in the enum: TypeScript gives a
      member without a value the previous member's value plus one, so they are
      1, 2, 3 and 4. */
  function ValidityCode(v: KeyValidity): int
  {
    match v
    case Invalid => -3
    case Revoked => -2
    case Expired => -1
    case Unknown => 0
    case Never => 1
    case Marginal => 2
    case Full => 3
    case Ultimate => 4
  }

  /** The codes run from -3 to 4 in declaration order, one apart, so that
      comparing codes compares trust. */
  lemma ValidityOrder()
    ensures forall v :: v in AllValidities
    ensures forall i :: 0 <= i < |AllValidities| ==> ValidityCode(AllValidities[i]) == i - 3
    ensures forall i, j :: 0 <= i < |AllValidities| && 0 <= j < |AllValidities| ==>
              (i < j <==> ValidityCode(AllValidities[i]) < ValidityCode(AllValidities[j]))
  {
    forall v ensures v in AllValidities {
      match v
      case Invalid => assert AllValidities[0] == v;
      case Revoked => assert AllValidities[1] == v;
      case Expired => assert AllValidities[2] == v;
      case Unknown => assert AllValidities[3] == v;
      case Never => assert AllValidities[4] == v;
      case Marginal => assert AllValidities[5] == v;
      case Full => assert AllValidities[6] == v;
      case Ultimate => assert AllValidities[7] == v;
    }
  }

  datatype Capabilities = Capabilities(sign: bool, certify: bool, encrypt: bool, authentication: bool)

  /** A user ID: the name is optional, the email is always present. */
  datatype UserID = UserID(name: Option<string>, email: string)

  /** One key (a primary key or a subkey). A `None` expiration date means the key
      never expires. The algorithm is kept as a number: a numeric enum admits any
      number at run time, and the renderer formats unknown codes too. */
  datatype SubKeyInfo = SubKeyInfo(
    validity: KeyValidity,
    algorithm: int,
    curve: string,
    keyLength: int,
    keyID: string,
    creationDate: int,
    expirationDate: Option<int>,
    capabilities: Capabilities)

  /** A primary key: every field of `SubKeyInfo`, plus whether it is secret, its
      user IDs in order, the primary-level capabilities and its subkeys. */
  datatype KeyInfo = KeyInfo(
    validity: KeyValidity,
    algorithm: int,
    curve: string,
    keyLength: int,
    keyID: string,
    creationDate: int,
    expirationDate: Option<int>,
    capabilities: Capabilities,
    private: bool,
    userIDs: seq<UserID>,
    primaryCapabilities: Capabilities,
    subkeys: seq<SubKeyInfo>)

  /** A `KeyInfo` used where a `SubKeyInfo` is expected (the intersection type
      `SubKeyInfo & {...}`): its primary-key fields, unchanged. */
  function AsSubKeyInfo(k: KeyInfo): (s: SubKeyInfo)
    ensures s.validity == k.validity && s.algorithm == k.algorithm && s.curve == k.curve
    ensures s.keyLength == k.keyLength && s.keyID == k.keyID && s.creationDate == k.creationDate
    ensures s.expirationDate == k.expirationDate && s.capabilities == k.capabilities
  {
    SubKeyInfo(k.validity, k.algorithm, k.curve, k.keyLength, k.keyID, k.creationDate,
               k.expirationDate, k.capabilities)
  }

  /** The `KeyInfo` made of a `SubKeyInfo` and the four fields only a primary
      key has. */
  function WithPrimaryFields(s: SubKeyInfo, private: bool, userIDs: seq<UserID>,
                             primaryCapabilities: Capabilities, subkeys: seq<SubKeyInfo>): KeyInfo
  {
    KeyInfo(s.validity, s.algorithm, s.curve, s.keyLength, s.keyID, s.creationDate,
            s.expirationDate, s.capabilities, private, userIDs, primaryCapabilities, subkeys)
  }

  /** A `KeyInfo` is its `SubKeyInfo` part plus its four own fields: nothing
      else is lost when it is seen as a `SubKeyInfo`. */
  lemma KeyInfoSplit(k: KeyInfo)
    ensures WithPrimaryFields(AsSubKeyInfo(k), k.private, k.userIDs, k.primaryCapabilities, k.subkeys) == k
  {
  }

  /** Seeing a `KeyInfo` built from `s` as a `SubKeyInfo` gives `s` back. */
  lemma SubKeyInfoKept(s: SubKeyInfo, private: bool, userIDs: seq<UserID>,
                       primaryCapabilities: Capabilities, subkeys: seq<SubKeyInfo>)
    ensures AsSubKeyInfo(WithPrimaryFields(s, private, userIDs, primaryCapabilities, subkeys)) == s
  {
  }

  const NoCapabilities := Capabilities(false, false, false, false)

  type PublicKeyInfo = k: KeyInfo | !k.private
    witness KeyInfo(Unknown, 0, "", 0, "", 0, None, NoCapabilities, false, [], NoCapabilities, [])

  type PrivateKeyInfo = k: KeyInfo | k.private
    witness KeyInfo(Unknown, 0, "", 0, "", 0, None, NoCapabilities, true, [], NoCapabilities, [])
}
