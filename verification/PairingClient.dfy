/**
 The peer of the pairing server, written after RFC 5054, RFC 2945 and the message formats. It shares
 byte strings, powers and TLV records with the server, and none of its formulas; the last section
 shows that both sides compute the same values.
 */
module PairingClient {
  import opened Bytes
  import opened Modular
  import opened Srp
  import opened TlvFormat
  import opened Pairing

  datatype Client = Client(
    pin: seq<byte>, a: nat, leadingZeros: nat, padded: bool,
    identifier: seq<byte>, longTermPk: Key, signature: Signature)
  {
    function A(G: Group): (A: nat)
      ensures A < G.N
    {
      Pow(G.g, a) % G.N
    }

    /** A may be sent with any number of leading zeros; these are all the byte strings that denote it. */
    function BytesA(G: Group): seq<byte> {
      Zeros(leadingZeros) + ToBytes(A(G))
    }

    lemma EncodedA(G: Group)
      ensures FromBytes(BytesA(G)) == A(G)
    {
      FromBytesLeadingZeros(leadingZeros, ToBytes(A(G)));
      FromToBytes(A(G));
    }
  }

  // ----- SRP -----

  /** The last len bytes of n, most significant first. */
  function Pad(n: nat, len: nat): (s: seq<byte>)
    ensures |s| == len
  {
    if len == 0 then [] else Pad(n / 256, len - 1) + [n % 256]
  }

  /** x = H(salt | H(I ":" P)) over the salt as received. */
  function ClientX(H: Hash, salt: seq<byte>, password: seq<byte>): nat {
    FromBytes(H(salt + H(Ascii("Pair-Setup:") + password)))
  }

  /** k = H(N | PAD(g)) */
  function ClientK(H: Hash, G: Group): nat {
    FromBytes(H(ToBytes(G.N) + Pad(G.g, G.Len())))
  }

  /** u = H(PAD(A) | PAD(B)) */
  function ClientU(H: Hash, G: Group, A: nat, B: nat): nat {
    FromBytes(H(Pad(A, G.Len()) + Pad(B, G.Len())))
  }

  /** What the client knows once it has M2. */
  function ClientExchange(H: Hash, G: Group, c: Client, salt: seq<byte>, B: nat): Exchange {
    var A := c.A(G);
    Exchange(A, B, ClientSecret(G, B, ClientK(H, G), ClientX(H, salt, c.pin), c.a, ClientU(H, G, A, B)))
  }

  /** It gives up when it cannot compute k, and for the values of B and u that RFC 5054 forbids. */
  predicate ClientGivesUp(H: Hash, G: Group, c: Client, B: nat) {
    !G.GeneratorFits() || |ToBytes(B)| > G.Len() || B % G.N == 0 || ClientU(H, G, c.A(G), B) == 0
  }

  /** Key and proofs from the secret as a string: K = H(S), M and H_AMK over the padded public values. */
  function ProofsOf(H: Hash, G: Group, salt: seq<byte>, e: Exchange, padded: bool): Proofs {
    var K := H(if padded then Pad(e.S, G.Len()) else ToBytes(e.S));
    var M := H(XorBytes(H(ToBytes(G.N)), H(ToBytes(G.g))) + H(Ascii("Pair-Setup")) + salt
               + Pad(e.A, G.Len()) + Pad(e.B, G.Len()) + K);
    Proofs(K, M, H(Pad(e.A, G.Len()) + M + K))
  }

  // ----- pair-setup -----

  function M1Body(): seq<byte> {
    Build([Item(6, [1]), Item(0, [0])])
  }

  function M3Body(G: Group, c: Client, proof: Digest): seq<byte> {
    Build([Item(6, [3]), Item(3, c.BytesA(G)), Item(4, proof)])
  }

  function SetupKey(P: Crypto, sessionKey: Digest): Key {
    P.hkdf(sessionKey, Ascii("Pair-Setup-Encrypt-Salt"), Ascii("Pair-Setup-Encrypt-Info"))
  }

  function M5Text(c: Client): seq<byte> {
    Build([Item(1, c.identifier), Item(3, c.longTermPk), Item(10, c.signature)])
  }

  /** A sealed value: the ciphertext and behind it the 16-byte tag. */
  function Seal(P: Crypto, key: Key, nonce: seq<byte>, text: seq<byte>): seq<byte> {
    var e := P.encrypt(key, nonce, text);
    e.ciphertext + e.tag
  }

  /** What the EncryptedData of a message says under a key. */
  function Unseal(P: Crypto, key: Key, nonce: seq<byte>, body: seq<byte>): Option<seq<byte>> {
    match Value(body, 5)
    case None => None
    case Some(d) => if |d| < 16 then None else P.decrypt(key, nonce, Encrypted(d[..|d| - 16], d[|d| - 16..]))
  }

  function M5Body(P: Crypto, c: Client, key: Digest): seq<byte> {
    Build([Item(6, [5]), Item(5, Seal(P, SetupKey(P, key), Ascii("PS-Msg05"), M5Text(c)))])
  }

  /** What the client reads out of M6. */
  function OpenM6(P: Crypto, key: Digest, reply: Option<seq<byte>>): Option<seq<Item>> {
    match reply
    case None => None
    case Some(body) =>
      match Unseal(P, SetupKey(P, key), Ascii("PS-Msg06"), body)
      case None => None
      case Some(text) => Some(Parse(text))
  }

  /**
   How the accessory presents itself in M6: its identifier, its long-term key, and its signature over
   both under the session key; zeros in place of a signature that cannot be made.
   */
  function Accessory(P: Crypto, sessionKey: Digest, sk: Key, pk: Key): seq<Item> {
    var id := Ascii("90:B9:31:AC:86:A0");
    var x := P.hkdf(sessionKey, Ascii("Pair-Setup-Accessory-Sign-Salt"), Ascii("Pair-Setup-Accessory-Sign-Info"));
    var signature := P.sign(sk, x + id + pk);
    [Item(1, id), Item(3, pk), Item(10, if signature.Some? then signature.value else Zeros(64))]
  }

  // ----- pair-verify -----

  function VerifyKey(P: Crypto, shared: Key): Key {
    P.hkdf(shared, Ascii("Pair-Verify-Encrypt-Salt"), Ascii("Pair-Verify-Encrypt-Info"))
  }

  /** What the accessory signs in pair-verify M2: its ephemeral key, its identifier, the peer's ephemeral key. */
  function VerifyMessage(ours: Key, theirs: Key): seq<byte> {
    ours + Ascii("90:B9:31:AC:86:A0") + theirs
  }

  function VerifyText(signature: Signature): seq<Item> {
    [Item(1, Ascii("90:B9:31:AC:86:A0")), Item(10, signature)]
  }

  // ----- both sides compute the same values -----

  lemma {:induction false} PadDenotes(n: nat, len: nat)
    requires n < Pow256(len)
    ensures FromBytes(Pad(n, len)) == n
  {
    if len > 0 {
      PadDenotes(n / 256, len - 1);
      FromBytesSnoc(Pad(n / 256, len - 1), n % 256);
    }
  }

  lemma PadMeets(n: nat, len: nat)
    requires |ToBytes(n)| <= len
    ensures Pad(n, len) == PadTo(n, len)
  {
    ToBytesLength(n, len);
    PadDenotes(n, len);
    FromPadTo(n, len);
    SameNumber(Pad(n, len), PadTo(n, len));
  }

  lemma UsernamePrefix()
    ensures SRP_USERNAME + [58] == Ascii("Pair-Setup:")
  {
    var s := "Pair-Setup:";
    assert s[..10] == "Pair-Setup" && s[10] == ':';
    forall i | 0 <= i < 11 ensures (SRP_USERNAME + [58])[i] == Ascii(s)[i] {
      assert i < 10 ==> s[i] == "Pair-Setup"[i];
    }
  }

  lemma KMeets(H: Hash, G: Group)
    ensures HnnPad(H, G.N, G.N, G.g) == if G.GeneratorFits() then Some(ClientK(H, G)) else None
  {
    if G.GeneratorFits() {
      PadMeets(G.g, G.Len());
      assert PadTo(G.N, G.Len()) == ToBytes(G.N);
    }
  }

  lemma UMeets(H: Hash, G: Group, A: nat, B: nat)
    requires |ToBytes(B)| <= G.Len()
    ensures HnnPad(H, G.N, A, B) == if |ToBytes(A)| <= G.Len() then Some(ClientU(H, G, A, B)) else None
  {
    if |ToBytes(A)| <= G.Len() {
      PadMeets(A, G.Len());
      PadMeets(B, G.Len());
    }
  }

  lemma ProofsMeet(H: Hash, G: Group, salt: seq<byte>, e: Exchange)
    requires |ToBytes(e.A)| <= G.Len() && |ToBytes(e.B)| <= G.Len() && |ToBytes(e.S)| <= G.Len()
    ensures ProofsFor(H, G, SRP_USERNAME, salt, e.A, e.B, ToBytes(e.S)) == ProofsOf(H, G, salt, e, false)
    ensures ProofsFor(H, G, SRP_USERNAME, salt, e.A, e.B, PadTo(e.S, G.Len())) == ProofsOf(H, G, salt, e, true)
  {
    hide Pad, PadTo, ToBytes, XorBytes, Ascii;
    PadMeets(e.A, G.Len());
    PadMeets(e.B, G.Len());
    PadMeets(e.S, G.Len());
  }
}
