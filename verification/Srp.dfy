/** The SRP-6a server arithmetic, with big numbers as naturals and the hash as a parameter. */
module Srp {
  import opened Arithmetic
  import opened Bytes
  import opened Modular

  const SRP_HASH_LEN := 64

  type Digest = s: seq<byte> | |s| == SRP_HASH_LEN witness Zeros(SRP_HASH_LEN)

  type Hash = seq<byte> -> Digest

  type Modulus = N: nat | N > 1 witness 2

  datatype Group = Group(N: Modulus, g: nat)
  {
    /** The generator can be padded to the length of the modulus. */
    predicate GeneratorFits() {
      |ToBytes(g)| <= Len()
    }

    /** BN_num_bytes of the modulus. */
    function Len(): nat {
      |ToBytes(N)|
    }
  }

  /** The 3072-bit group of RFC 5054. */
  const GROUP_3072 := Group(
    0xFFFFFFFFFFFFFFFFC90FDAA22168C234C4C6628B80DC1CD129024E088A67CC74020BBEA63B139B22514A08798E3404DDEF9519B3CD3A431B302B0A6DF25F14374FE1356D6D51C245E485B576625E7EC6F44C42E9A637ED6B0BFF5CB6F406B7EDEE386BFB5A899FA5AE9F24117C4B1FE649286651ECE45B3DC2007CB8A163BF0598DA48361C55D39A69163FA8FD24CF5F83655D23DCA3AD961C62F356208552BB9ED529077096966D670C354E4ABC9804F1746C08CA18217C32905E462E36CE3BE39E772C180E86039B2783A2EC07A28FB5C55DF06F4C52C9DE2BCBF6955817183995497CEA956AE515D2261898FA051015728E5A8AAAC42DAD33170D04507A33A85521ABDF1CBA64ECFB850458DBEF0A8AEA71575D060C7DB3970F85A6E1E4C7ABF5AE8CDB0933D71E8C94E04A25619DCEE3D2261AD2EE6BF12FFA06D98A0864D87602733EC86A64521F2B18177B200CBBE117577A615D6C770988C0BAD946E208E24FA074E5AB3143DB5BFCE0FD108E4B82D120A93AD2CAFFFFFFFFFFFFFFFF,
    5)

  // ----- hash helpers -----

  /** H(n1 | n2), both left-padded to the length of N; refused when one is longer. */
  function HnnPad(H: Hash, N: nat, n1: nat, n2: nat): Option<nat> {
    var len := |ToBytes(N)|;
    if |ToBytes(n1)| > len || |ToBytes(n2)| > len then None
    else Some(FromBytes(H(PadTo(n1, len) + PadTo(n2, len))))
  }

  /** H(n | bytes), n without leading zeros. */
  function Hns(H: Hash, n: nat, bytes: seq<byte>): nat {
    FromBytes(H(ToBytes(n) + bytes))
  }

  /** x = H(salt | H(username : password)) */
  function CalculateX(H: Hash, salt: nat, username: seq<byte>, password: seq<byte>): nat {
    Hns(H, salt, H(username + [58] + password))
  }

  function HashSessionKey(H: Hash, S: nat): Digest {
    H(ToBytes(S))
  }

  function HashSessionKeyPadded(H: Hash, S: nat, paddedLen: nat): Option<Digest> {
    if |ToBytes(S)| > paddedLen then None else Some(H(PadTo(S, paddedLen)))
  }

  /** M = H(H(N) xor H(g) | H(I) | salt | PAD(A) | PAD(B) | K) */
  function CalculateM(H: Hash, G: Group, username: seq<byte>, salt: seq<byte>, A: nat, B: nat, K: Digest): Digest
    requires |ToBytes(A)| <= G.Len() && |ToBytes(B)| <= G.Len()
  {
    H(XorBytes(H(ToBytes(G.N)), H(ToBytes(G.g))) + H(username) + salt + PadTo(A, G.Len()) + PadTo(B, G.Len()) + K)
  }

  /** H_AMK = H(PAD(A) | M | K) */
  function CalculateHAmk(H: Hash, A: nat, M: Digest, K: Digest, len: nat): Digest
    requires |ToBytes(A)| <= len
  {
    H(PadTo(A, len) + M + K)
  }

  // ----- the server -----

  const SRP_SALT_BYTES := 16

  /** What fits the salt. */
  type SaltNumber = s: nat | s < Pow256(SRP_SALT_BYTES)

  datatype SaltVerifier = SaltVerifier(salt: seq<byte>, verifier: seq<byte>)

  /** s is the random salt number; the salt sent is padded to 16 bytes, the verifier is not padded. */
  function CreateSaltVerifier(H: Hash, G: Group, username: seq<byte>, password: seq<byte>, s: SaltNumber): (r: SaltVerifier)
    ensures |r.salt| == SRP_SALT_BYTES
  {
    ToBytesLength(s, SRP_SALT_BYTES);
    SaltVerifier(PadTo(s, SRP_SALT_BYTES), ToBytes(ModExp(G.g, CalculateX(H, s, username, password), G.N)))
  }

  /** B = k v + g^b (mod N), each step reduced as the BIGNUM calls reduce it. */
  function ServerB(G: Group, k: nat, v: nat, b: nat): (B: nat)
    ensures B < G.N
  {
    (k * v % G.N + ModExp(G.g, b, G.N)) % G.N
  }

  function CreateB(H: Hash, G: Group, verifier: seq<byte>, b: seq<byte>): Option<seq<byte>> {
    match HnnPad(H, G.N, G.N, G.g)
    case None => None
    case Some(k) => Some(ToBytes(ServerB(G, k, FromBytes(verifier), FromBytes(b))))
  }

  /** S = (A v^u)^b (mod N) */
  function ServerSecret(G: Group, A: nat, v: nat, u: nat, b: nat): (S: nat)
    ensures S < G.N
  {
    ModExp(A * ModExp(v, u, G.N), b, G.N)
  }

  datatype ProofMode = Undecided | Minimal | Padded

  /** The fields of srp_verifier_t that verification reads and writes. */
  datatype Verifier = Verifier(
    bytesB: seq<byte>, authenticated: bool, sMinimalLen: nat, nLen: nat, proofMode: ProofMode,
    M: Digest, hAmk: Digest, sessionKey: Digest,
    mPadded: Digest, hAmkPadded: Digest, sessionKeyPadded: Digest)

  /** What both sides derive from one encoding of the secret. */
  datatype Proofs = Proofs(sessionKey: Digest, M: Digest, hAmk: Digest)

  function ProofsFor(H: Hash, G: Group, username: seq<byte>, salt: seq<byte>, A: nat, B: nat, encodedS: seq<byte>): Proofs
    requires |ToBytes(A)| <= G.Len() && |ToBytes(B)| <= G.Len()
  {
    var K := H(encodedS);
    var M := CalculateM(H, G, username, salt, A, B, K);
    Proofs(K, M, CalculateHAmk(H, A, M, K, G.Len()))
  }

  /** Everything VerifierNew computes before the proofs; None when a check fails. */
  datatype Exchange = Exchange(A: nat, B: nat, S: nat)

  function ServerExchange(H: Hash, G: Group, verifier: seq<byte>, bytesA: seq<byte>, b: seq<byte>): (r: Option<Exchange>)
    ensures r.Some? ==> |ToBytes(r.value.A)| <= G.Len() && |ToBytes(r.value.B)| <= G.Len() && |ToBytes(r.value.S)| <= G.Len()
  {
    var v, A := FromBytes(verifier), FromBytes(bytesA);
    if A % G.N == 0 then None
    else
      match HnnPad(H, G.N, G.N, G.g)
      case None => None
      case Some(k) =>
        var B := ServerB(G, k, v, FromBytes(b));
        match HnnPad(H, G.N, A, B)
        case None => None
        case Some(u) =>
          var S := ServerSecret(G, A, v, u, FromBytes(b));
          ToBytesMonotone(S, G.N);
          Some(Exchange(A, B, S))
  }

  function VerifierNew(
    H: Hash, G: Group, username: seq<byte>, salt: seq<byte>, verifier: seq<byte>, bytesA: seq<byte>, b: seq<byte>): Option<Verifier>
  {
    match ServerExchange(H, G, verifier, bytesA, b)
    case None => None
    case Some(e) =>
      var K := HashSessionKey(H, e.S);
      match HashSessionKeyPadded(H, e.S, G.Len())
      case None => None
      case Some(KP) =>
        var M := CalculateM(H, G, username, salt, e.A, e.B, K);
        var MP := CalculateM(H, G, username, salt, e.A, e.B, KP);
        Some(Verifier(
          ToBytes(e.B), false, |ToBytes(e.S)|, G.Len(), Undecided,
          M, CalculateHAmk(H, e.A, M, K, G.Len()), K,
          MP, CalculateHAmk(H, e.A, MP, KP, G.Len()), KP))
  }

  datatype Verdict = Verdict(ver: Verifier, serverM2: Option<Digest>)

  function Verify(ver: Verifier, clientM: Digest): Verdict {
    if ver.M == clientM then Verdict(ver.(authenticated := true, proofMode := Minimal), Some(ver.hAmk))
    else if ver.mPadded == clientM then
      Verdict(ver.(authenticated := true, proofMode := Padded, sessionKey := ver.sessionKeyPadded,
                   M := ver.mPadded, hAmk := ver.hAmkPadded), Some(ver.hAmkPadded))
    else Verdict(ver, None)
  }

  /** The verifier object, whose fields verification overwrites. */
  class SrpVerifier {
    var bytesB: seq<byte>
    var authenticated: bool
    var sMinimalLen: nat
    var nLen: nat
    var proofMode: ProofMode
    var M: Digest
    var hAmk: Digest
    var sessionKey: Digest
    var mPadded: Digest
    var hAmkPadded: Digest
    var sessionKeyPadded: Digest

    function Abs(): Verifier
      reads this
    {
      Verifier(bytesB, authenticated, sMinimalLen, nLen, proofMode, M, hAmk, sessionKey, mPadded, hAmkPadded, sessionKeyPadded)
    }

    constructor (v: Verifier)
      ensures Abs() == v
    {
      bytesB, authenticated, sMinimalLen, nLen, proofMode := v.bytesB, v.authenticated, v.sMinimalLen, v.nLen, v.proofMode;
      M, hAmk, sessionKey := v.M, v.hAmk, v.sessionKey;
      mPadded, hAmkPadded, sessionKeyPadded := v.mPadded, v.hAmkPadded, v.sessionKeyPadded;
    }

    /** srp_verifier_verify; the server's proof, or nothing on a mismatch */
    method CheckProof(clientM: Digest) returns (serverM2: Option<Digest>)
      modifies this
      ensures Verdict(Abs(), serverM2) == Verify(old(Abs()), clientM)
    {
      if M == clientM {
        authenticated := true;
        proofMode := Minimal;
        return Some(hAmk);
      }
      if mPadded == clientM {
        authenticated := true;
        proofMode := Padded;
        sessionKey := sessionKeyPadded;
        M := mPadded;
        hAmk := hAmkPadded;
        return Some(hAmk);
      }
      return None;
    }
  }

  /** B exists exactly when the generator can be padded to the length of N, as k needs it. */
  lemma CreateBSucceeds(H: Hash, G: Group, verifier: seq<byte>, b: seq<byte>)
    ensures CreateB(H, G, verifier, b).Some? <==> G.GeneratorFits()
  {
  }

  /** Salt and verifier, read back as numbers: the salt drawn, and g^x for the x of the password. */
  lemma SaltVerifierMeans(H: Hash, G: Group, username: seq<byte>, password: seq<byte>, s: SaltNumber)
    ensures var sv := CreateSaltVerifier(H, G, username, password, s);
            && FromBytes(sv.salt) == s
            && FromBytes(sv.verifier) == ModExp(G.g, CalculateX(H, s, username, password), G.N)
            && (sv.verifier != [] ==> sv.verifier[0] != 0)
  {
    ToBytesLength(s, SRP_SALT_BYTES);
    FromPadTo(s, SRP_SALT_BYTES);
    FromToBytes(ModExp(G.g, CalculateX(H, s, username, password), G.N));
  }

  /** The 3072-bit group of the server meets the conditions above, and its generator is never reduced to zero. */
  lemma Group3072(e: nat)
    ensures GROUP_3072.GeneratorFits() && ModExp(GROUP_3072.g, e, GROUP_3072.N) != 0
  {
    ToBytesMonotone(GROUP_3072.g, GROUP_3072.N);
    PowerOfFive(e, GROUP_3072.N);
  }

  /** A number that 5 does not divide divides no power of 5, unless it is 1. */
  lemma {:induction false} PowerOfFive(e: nat, N: Modulus)
    requires N % 5 != 0
    ensures Pow(5, e) % N != 0
  {
    if e > 0 {
      PowerOfFive(e - 1, N);
      var q, r := Pow(5, e) / N, Pow(5, e) % N;
      if r == 0 {
        assert Prime(5);
        assert q * N == 5 * Pow(5, e - 1);
        MultipleMod(Pow(5, e - 1), 5);
        if q % 5 != 0 {
          Euclid(5, q, N);
        } else {
          assert q == 5 * (q / 5);
          assert 5 * (q / 5 * N) == 5 * Pow(5, e - 1);
          MultipleMod(q / 5, N);
        }
      }
    } else {
      SmallMod(1, N);
    }
  }

  // ----- the secrets agree -----

  /** S = (B - k g^x)^(a + u x) (mod N), as RFC 5054 section 2.6 has the client compute it. */
  function ClientSecret(G: Group, B: nat, k: nat, x: nat, a: nat, u: nat): (S: nat)
    ensures S < G.N
  {
    ModExp((B - k * ModExp(G.g, x, G.N)) % G.N, a + u * x, G.N)
  }

  /** The client's base is g^b: removing k g^x from B leaves the server's ephemeral. */
  lemma ClientBase(G: Group, k: nat, x: nat, b: nat)
    ensures var v := ModExp(G.g, x, G.N);
            Congruent((ServerB(G, k, v, b) - k * v) % G.N, Pow(G.g, b), G.N)
  {
    var N, v, gb := G.N, ModExp(G.g, x, G.N), Pow(G.g, b);
    var sum := k * v % N + gb % N;
    var B := ServerB(G, k, v, b);
    CongruentMod(sum, N);
    CongruentMod(k * v, N);
    CongruentMod(gb, N);
    CongruentSum(k * v % N, k * v, gb % N, gb, N);
    CongruentTransitive(B, sum, k * v + gb, N);
    assert k * v - k * v == 0 * (N as int);
    CongruentSum(B, k * v + gb, k * v, k * v, N);
    CongruentMod(B - k * v, N);
    CongruentTransitive((B - k * v) % N, B - k * v, gb, N);
  }

  /** The server's base is g^(a + u x). */
  lemma ServerBase(G: Group, x: nat, a: nat, u: nat)
    ensures var v, A := ModExp(G.g, x, G.N), ModExp(G.g, a, G.N);
            Congruent(A * ModExp(v, u, G.N), Pow(G.g, a + u * x), G.N)
  {
    var N, g := G.N, G.g;
    var v, A := ModExp(g, x, N), ModExp(g, a, N);
    CongruentMod(Pow(g, x), N);
    CongruentPow(v, Pow(g, x), u, N);
    CongruentMod(Pow(v, u), N);
    CongruentTransitive(ModExp(v, u, N), Pow(v, u), Pow(Pow(g, x), u), N);
    PowPow(g, x, u);
    CongruentMod(Pow(g, a), N);
    CongruentProduct(A, Pow(g, a), ModExp(v, u, N), Pow(g, x * u), N);
    assert x * u == u * x;
    PowAdd(g, a, u * x);
  }

  /**
   The premaster secrets agree, for every modulus above 1, every base and all exponents: the server's
   (A v^u)^b is the client's (B - k g^x)^(a + u x).
   */
  lemma SecretsAgree(G: Group, k: nat, x: nat, a: nat, b: nat, u: nat)
    ensures var v := ModExp(G.g, x, G.N);
            ServerSecret(G, ModExp(G.g, a, G.N), v, u, b) == ClientSecret(G, ServerB(G, k, v, b), k, x, a, u)
  {
    var N, g := G.N, G.g;
    var v, A, n := ModExp(g, x, N), ModExp(g, a, N), a + u * x;
    ServerBase(G, x, a, u);
    CongruentPow(A * ModExp(v, u, N), Pow(g, n), b, N);
    CongruentRemainders(Pow(A * ModExp(v, u, N), b), Pow(Pow(g, n), b), N);
    var base := (ServerB(G, k, v, b) - k * v) % N;
    ClientBase(G, k, x, b);
    CongruentPow(base, Pow(g, b), n, N);
    CongruentRemainders(Pow(base, n), Pow(Pow(g, b), n), N);
    PowPow(g, n, b);
    PowPow(g, b, n);
    assert n * b == b * n;
  }

  /** The B recomputed when the proof arrives is the B that was sent. */
  lemma RecomputedB(
    H: Hash, G: Group, username: seq<byte>, salt: seq<byte>, verifier: seq<byte>, bytesA: seq<byte>, b: seq<byte>)
    ensures var ver := VerifierNew(H, G, username, salt, verifier, bytesA, b);
            ver.Some? ==> CreateB(H, G, verifier, b) == Some(ver.value.bytesB)
  {
  }

  /**
   With a prime modulus that does not divide g, a verifier created from any password, and any A the
   server accepts, the secret is never zero: the minimal-length key derivation never hashes nothing.
   */
  lemma SecretNotZero(H: Hash, G: Group, username: seq<byte>, password: seq<byte>, s: SaltNumber, bytesA: seq<byte>, b: seq<byte>)
    requires Prime(G.N) && G.g % G.N != 0
    ensures var sv := CreateSaltVerifier(H, G, username, password, s);
            var e := ServerExchange(H, G, sv.verifier, bytesA, b);
            e.Some? ==> e.value.S != 0 && ToBytes(e.value.S) != []
  {
    hide ModExp, HnnPad, CalculateX, ServerSecret, ServerB, Prime;
    var sv := CreateSaltVerifier(H, G, username, password, s);
    var e := ServerExchange(H, G, sv.verifier, bytesA, b);
    if e.Some? {
      var x := CalculateX(H, s, username, password);
      var v := ModExp(G.g, x, G.N);
      FromToBytes(v);
      ModExpNotZero(G.g, x, G.N);
      var u := HnnPad(H, G.N, e.value.A, e.value.B).value;
      SecretFactors(G, e.value.A, v, u, FromBytes(b));
    }
  }

  lemma SecretFactors(G: Group, A: nat, v: nat, u: nat, b: nat)
    requires Prime(G.N) && A % G.N != 0 && 0 < v < G.N
    ensures ServerSecret(G, A, v, u, b) != 0
  {
    hide ModExp, Pow;
    SmallMod(v, G.N);
    ModExpNotZero(v, u, G.N);
    var w := ModExp(v, u, G.N);
    Euclid(G.N, A, w);
    ModExpNotZero(A * w, b, G.N);
  }

  // ----- proof modes -----

  /** The keys and proofs a verifier currently stands for. */
  function Current(ver: Verifier): Proofs {
    Proofs(ver.sessionKey, ver.M, ver.hAmk)
  }

  /**
   On acceptance the stored key, both proofs and the client's proof all come from one encoding of the
   same secret; on rejection keys and proofs are untouched.
   */
  lemma ProofModeConsistency(
    H: Hash, G: Group, username: seq<byte>, salt: seq<byte>, verifier: seq<byte>, bytesA: seq<byte>, b: seq<byte>, clientM: Digest)
    ensures VerifierNew(H, G, username, salt, verifier, bytesA, b).Some? == ServerExchange(H, G, verifier, bytesA, b).Some?
    ensures var made := VerifierNew(H, G, username, salt, verifier, bytesA, b);
            made.Some? ==>
              var r := Verify(made.value, clientM);
              var e := ServerExchange(H, G, verifier, bytesA, b).value;
              var minimal := ProofsFor(H, G, username, salt, e.A, e.B, ToBytes(e.S));
              var padded := ProofsFor(H, G, username, salt, e.A, e.B, PadTo(e.S, G.Len()));
              && (r.serverM2.Some? <==> clientM == minimal.M || clientM == padded.M)
              && r.ver.authenticated == r.serverM2.Some?
              && (match r.ver.proofMode
                  case Undecided => r.ver == made.value && r.serverM2.None?
                  case Minimal => Current(r.ver) == minimal && clientM == minimal.M && r.serverM2 == Some(minimal.hAmk)
                  case Padded => Current(r.ver) == padded && clientM == padded.M && r.serverM2 == Some(padded.hAmk)
                                 && |ToBytes(e.S)| < G.Len())
              && (|ToBytes(e.S)| == G.Len() ==> minimal == padded)
  {
    hide CalculateM, CalculateHAmk;
    var e := ServerExchange(H, G, verifier, bytesA, b);
    if e.Some? && |ToBytes(e.value.S)| == G.Len() {
      assert PadTo(e.value.S, G.Len()) == ToBytes(e.value.S);
    }
  }
}
