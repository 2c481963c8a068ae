/** Schnorr proofs of knowledge of a discrete logarithm, as schnorr.c makes and checks them. */
module Schnorr {
  import opened Arith
  import opened Bytes
  import opened Wire
  import opened ModGroup

  datatype Signature = Signature(e: nat, r: nat)

  /** h = H(g || p || q || g^v || g^x || id) */
  function Challenge(hash: seq<byte> -> seq<byte>, grp: Group, g: nat, gv: nat, gx: nat, id: seq<byte>): nat {
    Big(hash(EncodeAll([Mpint(g), Mpint(grp.p), Mpint(grp.q), Mpint(gv), Mpint(gx), String(id)])))
  }

  /** Both roles refuse public values outside (1, p). */
  predicate InRange(grp: Group, gx: nat) {
    1 < gx < grp.p
  }

  function SignSchnorr(hash: seq<byte> -> seq<byte>, grp: Group, g: nat, x: nat, gx: nat, id: seq<byte>,
                       v: nat): Signature
    requires grp.p > 1 && grp.q > 0
  {
    var gv := ModExp(g, v, grp.p);
    var h := Challenge(hash, grp, g, gv, gx, id);
    Signature(gv, ModSub(v, ModMul(x, h, grp.q), grp.q))
  }

  predicate VerifySchnorr(hash: seq<byte> -> seq<byte>, grp: Group, g: nat, gx: nat, id: seq<byte>, sig: Signature)
    requires grp.p > 1 && grp.q > 0
  {
    && InRange(grp, gx)
    && ModExp(gx, grp.q, grp.p) == 1
    && var h := Challenge(hash, grp, g, sig.e, gx, id);
       ModMul(ModExp(g, sig.r, grp.p), ModExp(gx, h, grp.p), grp.p) == sig.e
  }

  function SignatureBlob(sig: Signature): seq<byte> {
    EncodeAll([Mpint(sig.e), Mpint(sig.r)])
  }

  /** `schnorr_verify_buf` returned 1: two numbers, nothing behind them, and a matching signature. */
  predicate VerifyBlob(hash: seq<byte> -> seq<byte>, grp: Group, g: nat, gx: nat, id: seq<byte>, blob: seq<byte>)
    requires grp.p > 1 && grp.q > 0
  {
    match DecodeAll([KMpint, KMpint], blob)
    case Bad => false
    case Got(v, rest) =>
      && |v| == 2 && v[0].Mpint? && v[1].Mpint? && rest == []
      && VerifySchnorr(hash, grp, g, gx, id, Signature(v[0].n, v[1].n))
  }

  /** Numbers modulo p and q fit the mpint limit of the reader. */
  ghost predicate Storable(grp: Group) {
    grp.p <= Pow256(MAX_BIGNUM - 1) && grp.q <= Pow256(MAX_BIGNUM - 1)
  }

  lemma BlobRoundTrip(grp: Group, sig: Signature)
    requires Storable(grp) && sig.e < grp.p && sig.r < grp.q
    ensures DecodeAll([KMpint, KMpint], SignatureBlob(sig)) == Got([Mpint(sig.e), Mpint(sig.r)], [])
  {
    var items := [Mpint(sig.e), Mpint(sig.r)];
    MinimalBound(sig.e, MAX_BIGNUM - 1);
    MinimalBound(sig.r, MAX_BIGNUM - 1);
    ListRoundTrip(items, []);
    assert EncodeAll(items) + [] == EncodeAll(items);
    assert items[1..] == [Mpint(sig.r)];
    assert Kinds(items) == [KMpint, KMpint];
  }

  /** v - (xh mod q) mod q differs from v - xh by a multiple of q. */
  lemma SubQuotient(v: nat, x: nat, h: nat, q: nat) returns (m: int)
    requires q > 0
    ensures ModSub(v, ModMul(x, h, q), q) == v - x * h + m * q
  {
    var d := v - ModMul(x, h, q);
    DivDef(x * h, q);
    DivDef(d, q);
    m := (x * h) / q - d / q;
    MulSub((x * h) / q, d / q, q);
  }

  lemma ExponentIdentity(t: int, y: int, v: int, r: int, m: int, q: int)
    requires r == v - y + m * q
    ensures t * r + t * y == t * v + (t * m) * q
  {
    assert t * (r + y) == t * r + t * y;
    assert t * (v + m * q) == t * v + t * (m * q);
  }

  /** The equation the verifier checks, in exponents of the group generator. */
  lemma ExponentEquation(grp: Group, t: int, x: nat, h: nat, v: nat, r: nat, m: int)
    requires grp.Valid() && r == v - x * h + m * grp.q
    ensures ModMul(grp.G(t * r), grp.G(t * x * h), grp.p) == grp.G(t * v)
  {
    MulAddsExponents(grp, t * r, t * x * h);
    ExponentIdentity(t, x * h, v, r, m, grp.q);
    assert t * x * h == t * (x * h);
    CongruentExponents(grp, t * r + t * x * h, t * v, t * m);
  }

  /** Every power of the generator has order dividing q. */
  lemma PowersHaveOrder(grp: Group, t: int)
    requires grp.Valid()
    ensures ModExp(grp.G(t), grp.q, grp.p) == 1
  {
    ExpMultipliesExponents(grp, t, grp.q);
    CongruentExponents(grp, t * grp.q, 0, t);
    UnitExponent(grp);
  }

  /** Completeness: an honest proof is accepted, for any base that is a power of the group generator. */
  lemma HonestProofVerifies(hash: seq<byte> -> seq<byte>, grp: Group, t: int, x: nat, id: seq<byte>, v: nat)
    requires grp.Valid() && Storable(grp)
    requires InRange(grp, ModExp(grp.G(t), x, grp.p))
    ensures var gx := ModExp(grp.G(t), x, grp.p);
            VerifyBlob(hash, grp, grp.G(t), gx, id, SignatureBlob(SignSchnorr(hash, grp, grp.G(t), x, gx, id, v)))
  {
    var g := grp.G(t);
    var gx := ModExp(g, x, grp.p);
    var sig := SignSchnorr(hash, grp, g, x, gx, id, v);
    BlobRoundTrip(grp, sig);
    var h := Challenge(hash, grp, g, sig.e, gx, id);
    ExpMultipliesExponents(grp, t, x);
    PowersHaveOrder(grp, t * x);
    ExpMultipliesExponents(grp, t, v);
    ExpMultipliesExponents(grp, t, sig.r);
    ExpMultipliesExponents(grp, t * x, h);
    var m := SubQuotient(v, x, h, grp.q);
    ExponentEquation(grp, t, x, h, v, sig.r, m);
  }

  // ----- What an accepted proof shows -----

  /** The pair (e, r) proves knowledge of the logarithm of `gx`: the equation g^r * gx^h = e, with everything hashed. */
  ghost predicate Proves(hash: seq<byte> -> seq<byte>, grp: Group, g: nat, gx: nat, id: seq<byte>, e: nat, r: nat)
    requires grp.p > 1
  {
    var h := Big(hash(EncodeAll([Mpint(g), Mpint(grp.p), Mpint(grp.q), Mpint(e), Mpint(gx), String(id)])));
    1 < gx < grp.p && Pow(gx, grp.q) % grp.p == 1 && (Pow(g, r) * Pow(gx, h)) % grp.p == e
  }

  /** The bytes hold two numbers, nothing behind them, and they are a proof. */
  ghost predicate ProvenBy(hash: seq<byte> -> seq<byte>, grp: Group, g: nat, gx: nat, id: seq<byte>, blob: seq<byte>)
    requires grp.p > 1
  {
    exists e: nat, r: nat ::
      DecodeAll([KMpint, KMpint], blob) == Got([Mpint(e), Mpint(r)], []) && Proves(hash, grp, g, gx, id, e, r)
  }

  lemma VerifiesIff(hash: seq<byte> -> seq<byte>, grp: Group, g: nat, gx: nat, id: seq<byte>, sig: Signature)
    requires grp.p > 1 && grp.q > 0
    ensures VerifySchnorr(hash, grp, g, gx, id, sig) <==> Proves(hash, grp, g, gx, id, sig.e, sig.r)
  {
    MulMod(Pow(g, sig.r), Pow(gx, Challenge(hash, grp, g, sig.e, gx, id)), grp.p);
  }

  /** A blob is accepted if and only if it holds a proof. */
  lemma AcceptedIffProof(hash: seq<byte> -> seq<byte>, grp: Group, g: nat, gx: nat, id: seq<byte>, blob: seq<byte>)
    requires grp.p > 1 && grp.q > 0
    ensures VerifyBlob(hash, grp, g, gx, id, blob) <==> ProvenBy(hash, grp, g, gx, id, blob)
  {
    var got := DecodeAll([KMpint, KMpint], blob);
    if VerifyBlob(hash, grp, g, gx, id, blob) {
      var e, r := got.value[0].n, got.value[1].n;
      VerifiesIff(hash, grp, g, gx, id, Signature(e, r));
      assert got.value == [Mpint(e), Mpint(r)];
    }
    if ProvenBy(hash, grp, g, gx, id, blob) {
      var e: nat, r: nat :| got == Got([Mpint(e), Mpint(r)], []) && Proves(hash, grp, g, gx, id, e, r);
      VerifiesIff(hash, grp, g, gx, id, Signature(e, r));
    }
  }

  lemma CancelUnit(x: nat, y: nat, a: nat, b: nat, p: nat)
    requires p > 1 && (x * a) % p == (y * a) % p && (a * b) % p == 1
    ensures x % p == y % p
  {
    MulCongruent(x * a, y * a, b, b, p);
    assert x * a * b == x * (a * b) && y * a * b == y * (a * b);
    MulMod(x, a * b, p);
    MulMod(y, a * b, p);
    ModMod(x, p);
    ModMod(y, p);
  }

  /** Every power of a number of order dividing q has an inverse. */
  lemma PowerHasInverse(b: nat, k: nat, q: nat, p: nat)
    requires p > 1 && q > 0 && Pow(b, q) % p == 1
    ensures (Pow(b, k) * Pow(b, k * (q - 1))) % p == 1
  {
    assert k + k * (q - 1) == q * k;
    PowAdd(b, k, k * (q - 1));
    PowPow(b, q, k);
    UnitPow(Pow(b, q), k, p);
  }

  /**
   * Two accepted responses to one commitment, for the challenges `h` >= `h'`, differ by that power of `gx`; so for one
   * challenge the responses have equal powers of the generator.
   */
  lemma TwoResponses(hash: seq<byte> -> seq<byte>, hash': seq<byte> -> seq<byte>, grp: Group, g: nat, gx: nat,
                     id: seq<byte>, e: nat, r: nat, r': nat, h: nat, h': nat)
    requires grp.p > 1 && grp.q > 0 && h >= h'
    requires VerifySchnorr(hash, grp, g, gx, id, Signature(e, r)) && h == Challenge(hash, grp, g, e, gx, id)
    requires VerifySchnorr(hash', grp, g, gx, id, Signature(e, r')) && h' == Challenge(hash', grp, g, e, gx, id)
    ensures (Pow(g, r) * Pow(gx, h - h')) % grp.p == Pow(g, r') % grp.p
    ensures h == h' ==> Pow(g, r) % grp.p == Pow(g, r') % grp.p
  {
    VerifiesIff(hash, grp, g, gx, id, Signature(e, r));
    VerifiesIff(hash', grp, g, gx, id, Signature(e, r'));
    SamePowers(Pow(g, r), Pow(g, r'), gx, h, h', grp.q, grp.p);
  }

  lemma SamePowers(x: nat, y: nat, b: nat, h: nat, h': nat, q: nat, p: nat)
    requires p > 1 && q > 0 && Pow(b, q) % p == 1 && h >= h' && (x * Pow(b, h)) % p == (y * Pow(b, h')) % p
    ensures (x * Pow(b, h - h')) % p == y % p
    ensures h == h' ==> x % p == y % p
  {
    PowAdd(b, h - h', h');
    MulAssoc(x, Pow(b, h - h'), Pow(b, h'));
    PowerHasInverse(b, h', q, p);
    CancelUnit(x * Pow(b, h - h'), y, Pow(b, h'), Pow(b, h' * (q - 1)), p);
    if h == h' { assert Pow(b, h - h') == 1; }
  }

  lemma MulAssoc(x: nat, y: nat, z: nat)
    ensures x * (y * z) == x * y * z
  {
  }

  /** A factor that is invertible modulo the order can be taken out of an exponent. */
  lemma RootOfPower(b: nat, k: nat, w: nat, j: nat, q: nat, p: nat)
    requires p > 1 && Pow(b, q) % p == 1 && k * w == 1 + q * j
    ensures Pow(Pow(b, k), w) % p == b % p
  {
    PowPow(b, k, w);
    PowPow(b, q, j);
    UnitPow(Pow(b, q), j, p);
    DropUnitFactor(b, q * j, 1, p);
    assert Pow(b, 1) == b * Pow(b, 0) == b;
  }

  /**
   * Special soundness: whoever can answer two challenges whose difference has an inverse `w` modulo the order knows
   * the exponent of the public value.
   */
  lemma ExponentIsExtracted(hash: seq<byte> -> seq<byte>, hash': seq<byte> -> seq<byte>, grp: Group, g: nat, gx: nat,
                            id: seq<byte>, e: nat, r: nat, r': nat, h: nat, h': nat, w: nat, j: nat)
    requires grp.p > 1 && grp.q > 0 && h >= h' && (h - h') * w == 1 + grp.q * j && Pow(g, grp.q) % grp.p == 1
    requires VerifySchnorr(hash, grp, g, gx, id, Signature(e, r)) && h == Challenge(hash, grp, g, e, gx, id)
    requires VerifySchnorr(hash', grp, g, gx, id, Signature(e, r')) && h' == Challenge(hash', grp, g, e, gx, id)
    ensures var x := (r' + r * (grp.q - 1)) * w; x >= 0 && ModExp(g, x, grp.p) == gx
  {
    var p, d, inv := grp.p, Pow(gx, h - h'), r * (grp.q - 1);
    TwoResponses(hash, hash', grp, g, gx, id, e, r, r', h, h');
    PowerHasInverse(g, r, grp.q, p);
    QuotientIs(Pow(g, r), d, Pow(g, r'), Pow(g, inv), p);
    PowAdd(g, r', inv);
    PowCongruent(d, Pow(g, r' + inv), w, p);
    PowPow(g, r' + inv, w);
    RootOfPower(gx, h - h', w, j, grp.q, p);
    RemainderIs(gx, p, 0, gx);
  }

  lemma QuotientIs(a: nat, d: nat, c: nat, b: nat, p: nat)
    requires p > 1 && (a * d) % p == c % p && (a * b) % p == 1
    ensures d % p == (c * b) % p
  {
    MulCongruent(a * d, c, b, b, p);
    assert a * d * b == d * (a * b);
    MulMod(d, a * b, p);
    ModMod(d, p);
  }
}

/** Password-authenticated key exchange by juggling: jpake.c run by the client and by the server. */
module Jpake {
  import opened Arith
  import opened Bytes
  import opened Wire
  import opened ModGroup
  import opened Options
  import opened Schnorr

  datatype Step1 = Step1(id: seq<byte>, pub1: nat, pub2: nat, proof1: seq<byte>, proof2: seq<byte>)

  datatype Step2 = Step2(pub: nat, proof: seq<byte>)

  datatype Confirm = Confirm(k: nat, hash: seq<byte>)

  /** The random values one party draws. */
  datatype Coins = Coins(id: seq<byte>, priv1: nat, priv2: nat, v1: nat, v2: nat, v3: nat)

  // ----- jpake.c as values; None stands for `fatal` -----

  function MakeStep1(hash: seq<byte> -> seq<byte>, grp: Group, c: Coins): Option<Step1>
    requires grp.p > 1 && grp.q > 0
  {
    var pub1, pub2 := ModExp(grp.g, c.priv1, grp.p), ModExp(grp.g, c.priv2, grp.p);
    if !InRange(grp, pub1) || !InRange(grp, pub2) then None
    else Some(Step1(c.id, pub1, pub2,
                    SignatureBlob(SignSchnorr(hash, grp, grp.g, c.priv1, pub1, c.id, c.v1)),
                    SignatureBlob(SignSchnorr(hash, grp, grp.g, c.priv2, pub2, c.id, c.v2))))
  }

  /** The generator of the second proof: the product of the three public values the prover did not raise. */
  function Step2Generator(grp: Group, pub1: nat, pub2: nat, pub3: nat): nat
    requires grp.p > 1
  {
    ModMul(ModMul(pub1, pub2, grp.p), pub3, grp.p)
  }

  predicate Step1Acceptable(hash: seq<byte> -> seq<byte>, grp: Group, m: Step1)
    requires grp.p > 1 && grp.q > 0
  {
    && InRange(grp, m.pub1) && InRange(grp, m.pub2)
    && VerifyBlob(hash, grp, grp.g, m.pub1, m.id, m.proof1)
    && VerifyBlob(hash, grp, grp.g, m.pub2, m.id, m.proof2)
  }

  /** A power of `g` with a proof of its exponent; degenerate powers are refused by the signer. */
  function ProvenPower(hash: seq<byte> -> seq<byte>, grp: Group, g: nat, exponent: nat, myid: seq<byte>,
                       v: nat): Option<Step2>
    requires grp.p > 1 && grp.q > 0
  {
    var newpub := ModExp(g, exponent, grp.p);
    if !InRange(grp, newpub) then None
    else Some(Step2(newpub, SignatureBlob(SignSchnorr(hash, grp, g, exponent, newpub, myid, v))))
  }

  function MakeStep2(hash: seq<byte> -> seq<byte>, grp: Group, s: nat, mypub1: nat, their: Step1, mypriv2: nat,
                     myid: seq<byte>, v: nat): Option<Step2>
    requires grp.p > 1 && grp.q > 0
  {
    if !Step1Acceptable(hash, grp, their) then None
    else
      ProvenPower(hash, grp, Step2Generator(grp, mypub1, their.pub1, their.pub2), ModMul(mypriv2, s, grp.q), myid, v)
  }

  function ConfirmInput(k: nat, id: seq<byte>, session: seq<byte>): seq<byte> {
    EncodeAll([Mpint(k), String(id), String(session)])
  }

  /** k = (theirpub2^(q - mypriv2 * s) * step2)^mypriv2 */
  function SharedKey(grp: Group, s: nat, step2: nat, mypriv2: nat, theirpub2: nat): nat
    requires grp.p > 1 && grp.q > 0
  {
    var e := ModSub(grp.q, mypriv2 * s, grp.q);
    ModExp(ModMul(ModExp(theirpub2, e, grp.p), step2, grp.p), mypriv2, grp.p)
  }

  function KeyConfirm(hash: seq<byte> -> seq<byte>, grp: Group, s: nat, step2: Step2, mypriv2: nat, mypub1: nat,
                      mypub2: nat, their: Step1, myid: seq<byte>, session: seq<byte>): Option<Confirm>
    requires grp.p > 1 && grp.q > 0
  {
    var g := Step2Generator(grp, mypub1, mypub2, their.pub1);
    if !InRange(grp, step2.pub) || !VerifyBlob(hash, grp, g, step2.pub, their.id, step2.proof) then None
    else
      var k := SharedKey(grp, s, step2.pub, mypriv2, their.pub2);
      Some(Confirm(k, hash(ConfirmInput(k, myid, session))))
  }

  predicate CheckConfirm(hash: seq<byte> -> seq<byte>, k: nat, peerId: seq<byte>, session: seq<byte>,
                         received: seq<byte>) {
    received == hash(ConfirmInput(k, peerId, session))
  }

  /** Each step is taken only if the peer's proofs check; the second one against the product the peer had to raise. */
  lemma StepsNeedProofs(hash: seq<byte> -> seq<byte>, grp: Group, s: nat, mypub1: nat, mypub2: nat, mypriv2: nat,
                        their: Step1, step2: Step2, myid: seq<byte>, session: seq<byte>, v: nat)
    requires grp.p > 1 && grp.q > 0
    ensures MakeStep2(hash, grp, s, mypub1, their, mypriv2, myid, v).Some? ==>
              && ProvenBy(hash, grp, grp.g, their.pub1, their.id, their.proof1)
              && ProvenBy(hash, grp, grp.g, their.pub2, their.id, their.proof2)
    ensures KeyConfirm(hash, grp, s, step2, mypriv2, mypub1, mypub2, their, myid, session).Some? <==>
            1 < step2.pub < grp.p
            && ProvenBy(hash, grp, (mypub1 * mypub2 * their.pub1) % grp.p, step2.pub, their.id, step2.proof)
  {
    AcceptedIffProof(hash, grp, grp.g, their.pub1, their.id, their.proof1);
    AcceptedIffProof(hash, grp, grp.g, their.pub2, their.id, their.proof2);
    MulModLeft(mypub1 * mypub2, their.pub1, grp.p);
    AcceptedIffProof(hash, grp, Step2Generator(grp, mypub1, mypub2, their.pub1), step2.pub, their.id, step2.proof);
  }

  // ----- The same steps with their overwritten temporaries -----

  /** `jpake_step2` with its BIGNUM temporaries. */
  method RunStep2(hash: seq<byte> -> seq<byte>, grp: Group, s: nat, mypub1: nat, their: Step1, mypriv2: nat,
                  myid: seq<byte>, v: nat) returns (r: Option<Step2>)
    requires grp.p > 1 && grp.q > 0
    ensures r == MakeStep2(hash, grp, s, mypub1, their, mypriv2, myid, v)
  {
    if their.pub1 <= 1 { return None; }
    if their.pub1 >= grp.p { return None; }
    if their.pub2 <= 1 { return None; }
    if their.pub2 >= grp.p { return None; }
    if !VerifyBlob(hash, grp, grp.g, their.pub1, their.id, their.proof1) { return None; }
    if !VerifyBlob(hash, grp, grp.g, their.pub2, their.id, their.proof2) { return None; }
    var exponent := ModMul(mypriv2, s, grp.q);
    var tmp := ModMul(mypub1, their.pub1, grp.p);
    tmp := ModMul(tmp, their.pub2, grp.p);
    var newpub := ModExp(tmp, exponent, grp.p);
    if !InRange(grp, newpub) { return None; }
    var sig := SignSchnorr(hash, grp, tmp, exponent, newpub, myid, v);
    r := Some(Step2(newpub, SignatureBlob(sig)));
  }

  /** `jpake_key_confirm` with its BIGNUM temporaries. */
  method RunKeyConfirm(hash: seq<byte> -> seq<byte>, grp: Group, s: nat, step2: Step2, mypriv2: nat, mypub1: nat,
                       mypub2: nat, their: Step1, myid: seq<byte>, session: seq<byte>) returns (r: Option<Confirm>)
    requires grp.p > 1 && grp.q > 0
    ensures r == KeyConfirm(hash, grp, s, step2, mypriv2, mypub1, mypub2, their, myid, session)
  {
    if step2.pub <= 1 { return None; }
    if step2.pub >= grp.p { return None; }
    var tmp := ModMul(mypub1, mypub2, grp.p);
    tmp := ModMul(tmp, their.pub1, grp.p);
    if !VerifyBlob(hash, grp, tmp, step2.pub, their.id, step2.proof) { return None; }
    var product: nat := mypriv2 * s;
    tmp := ModSub(grp.q, product, grp.q);
    tmp := ModExp(their.pub2, tmp, grp.p);
    tmp := ModMul(tmp, step2.pub, grp.p);
    var k := ModExp(tmp, mypriv2, grp.p);
    r := Some(Confirm(k, hash(ConfirmInput(k, myid, session))));
  }

  // ----- A whole dialogue between the client and the server handlers -----

  datatype Outcome =
    | Aborted
    | Finished(clientKey: nat, serverKey: nat, clientAccepts: bool, serverAccepts: bool)

  /**
   * Both sides follow the protocol: the client (x1, x2) holds secret `cs`, the server (x3, x4) secret `ss`.
   * The argument orders are those of the handlers in sshconnect2.c and auth2-jpake.c.
   */
  function Dialogue(hash: seq<byte> -> seq<byte>, grp: Group, c: Coins, s: Coins, cs: nat, ss: nat,
                    session: seq<byte>): Outcome
    requires grp.p > 1 && grp.q > 0
  {
    var client1, server1 := MakeStep1(hash, grp, c), MakeStep1(hash, grp, s);
    if client1.None? || server1.None? then Aborted
    else
      var c1, s1 := client1.value, server1.value;
      var server2 := MakeStep2(hash, grp, ss, s1.pub1, c1, s.priv2, s.id, s.v3);
      var client2 := MakeStep2(hash, grp, cs, c1.pub1, s1, c.priv2, c.id, c.v3);
      if client2.None? || server2.None? then Aborted
      else
        var server3 := KeyConfirm(hash, grp, ss, client2.value, s.priv2, s1.pub1, s1.pub2, c1, s.id, session);
        var client3 := KeyConfirm(hash, grp, cs, server2.value, c.priv2, c1.pub1, c1.pub2, s1, c.id, session);
        if client3.None? || server3.None? then Aborted
        else
          Finished(client3.value.k, server3.value.k,
                   CheckConfirm(hash, client3.value.k, s.id, session, server3.value.hash),
                   CheckConfirm(hash, server3.value.k, c.id, session, client3.value.hash))
  }

  // ----- Exponents -----

  lemma GeneratorExponent(grp: Group, a: int, b: int, c: int)
    requires grp.Valid()
    ensures Step2Generator(grp, grp.G(a), grp.G(b), grp.G(c)) == grp.G(a + b + c)
  {
    MulAddsExponents(grp, a, b);
    MulAddsExponents(grp, a + b, c);
  }

  /** The verifier multiplies the same three values in another order and finds the signer's generator. */
  lemma VerifierRebuildsGenerator(grp: Group, x1: int, x3: int, x4: int)
    requires grp.Valid()
    ensures Step2Generator(grp, grp.G(x1), grp.G(x3), grp.G(x4)) == Step2Generator(grp, grp.G(x3), grp.G(x4), grp.G(x1))
  {
    GeneratorExponent(grp, x1, x3, x4);
    GeneratorExponent(grp, x3, x4, x1);
    assert x1 + x3 + x4 == x3 + x4 + x1;
  }

  lemma GeneratorIsPower(grp: Group)
    requires grp.Valid()
    ensures grp.G(1) == grp.g
  {
    PowReduces(grp, 1);
    PowOne(grp.g);
    RemainderIs(grp.g, grp.p, 0, grp.g);
  }

  lemma PowOne(b: nat)
    ensures Pow(b, 1) == b
  {
    assert Pow(b, 1) == b * Pow(b, 0);
  }

  /** Step 1 of an honest party is sent unless a public value is degenerate, and is then accepted. */
  lemma HonestStep1(hash: seq<byte> -> seq<byte>, grp: Group, c: Coins)
    requires grp.Valid() && Storable(grp)
    ensures var m := MakeStep1(hash, grp, c);
            && (m.Some? <==> InRange(grp, grp.G(c.priv1)) && InRange(grp, grp.G(c.priv2)))
            && (m.Some? ==> m.value.pub1 == grp.G(c.priv1) && m.value.pub2 == grp.G(c.priv2) && m.value.id == c.id)
            && (m.Some? ==> Step1Acceptable(hash, grp, m.value))
  {
    PowReduces(grp, c.priv1);
    PowReduces(grp, c.priv2);
    GeneratorIsPower(grp);
    if MakeStep1(hash, grp, c).Some? {
      HonestProofVerifies(hash, grp, 1, c.priv1, c.id, c.v1);
      HonestProofVerifies(hash, grp, 1, c.priv2, c.id, c.v2);
    }
  }

  /** The exponent of the step 2 value of a party with private values (p1, p2), talking to (t1, t2), with secret s. */
  ghost function Step2Exponent(p1: nat, p2: nat, t1: nat, t2: nat, s: nat): nat {
    (p1 + t1 + t2) * (p2 * s)
  }

  /** Step 2 of an honest party is sent unless its value is degenerate, and the peer then accepts its proof. */
  lemma HonestStep2(hash: seq<byte> -> seq<byte>, grp: Group, p1: nat, p2: nat, t1: nat, t2: nat, s: nat,
                    their: Step1, myid: seq<byte>, v: nat, value: nat)
    requires grp.Valid() && Storable(grp)
    requires Step1Acceptable(hash, grp, their) && their.pub1 == grp.G(t1) && their.pub2 == grp.G(t2)
    requires value == grp.G(Step2Exponent(p1, p2, t1, t2, s))
    ensures var m := MakeStep2(hash, grp, s, grp.G(p1), their, p2, myid, v);
            && (m.Some? <==> InRange(grp, value))
            && (m.Some? ==> m.value.pub == value)
            && (m.Some? ==> VerifyBlob(hash, grp, Step2Generator(grp, grp.G(t1), grp.G(t2), grp.G(p1)), value, myid,
                                       m.value.proof))
  {
    Step2Value(grp, p1 + t1 + t2, p2, s);
    GeneratorExponent(grp, p1, t1, t2);
    VerifierRebuildsGenerator(grp, p1, t1, t2);
    Step2From(hash, grp, p1 + t1 + t2, ModMul(p2, s, grp.q), Step2Generator(grp, grp.G(p1), grp.G(t1), grp.G(t2)),
              myid, v, value);
  }

  lemma Step2From(hash: seq<byte> -> seq<byte>, grp: Group, t: int, e: nat, g: nat, id: seq<byte>, v: nat, value: nat)
    requires grp.Valid() && Storable(grp) && g == grp.G(t) && value == ModExp(g, e, grp.p)
    ensures var m := ProvenPower(hash, grp, g, e, id, v);
            && (m.Some? <==> InRange(grp, value))
            && (m.Some? ==> m.value.pub == value && VerifyBlob(hash, grp, g, value, id, m.value.proof))
  {
    if InRange(grp, value) {
      HonestProofVerifies(hash, grp, t, e, id, v);
    }
  }

  lemma Step2Value(grp: Group, t: nat, p2: nat, s: nat)
    requires grp.Valid()
    ensures ModExp(grp.G(t), ModMul(p2, s, grp.q), grp.p) == grp.G(t * (p2 * s))
  {
    ExpMultipliesExponents(grp, t, ModMul(p2, s, grp.q));
    Step2Reduced(grp, t, p2 * s);
  }

  lemma Step2Reduced(grp: Group, t: int, x: nat)
    requires grp.Valid()
    ensures grp.G(t * (x % grp.q)) == grp.G(t * x)
  {
    DivDef(x, grp.q);
    var k := x / grp.q;
    assert t * x == t * (x % grp.q) + (t * k) * grp.q;
    CongruentExponents(grp, t * x, t * (x % grp.q), t * k);
  }

  /** The exponent of the key computed by (p1, p2) with secret s from the step 2 value of (t1, t2) with secret s'. */
  ghost function KeyExponent(p1: nat, p2: nat, t1: nat, t2: nat, s: nat, s': nat): int {
    p2 * t2 * ((t1 + p1 + p2) * s' - p2 * s)
  }

  lemma NegatedExponent(grp: Group, y: int, x: nat)
    requires grp.Valid()
    ensures grp.G(y * ModSub(grp.q, x, grp.q)) == grp.G(-(y * x))
  {
    var q := grp.q;
    var d := q - x;
    DivDef(d, q);
    var k := d / q;
    assert ModSub(q, x, q) == q - x - k * q;
    assert y * (q - x - k * q) == -(y * x) + (y * (1 - k)) * q;
    CongruentExponents(grp, y * ModSub(q, x, q), -(y * x), y * (1 - k));
  }

  /** What `jpake_key_confirm` derives, despite the reductions modulo q. */
  lemma SharedKeyExponent(grp: Group, p1: nat, p2: nat, t1: nat, t2: nat, s: nat, s': nat)
    requires grp.Valid()
    ensures SharedKey(grp, s, grp.G(Step2Exponent(t1, t2, p1, p2, s')), p2, grp.G(t2))
            == grp.G(KeyExponent(p1, p2, t1, t2, s, s'))
  {
    var e := ModSub(grp.q, p2 * s, grp.q);
    var b := Step2Exponent(t1, t2, p1, p2, s');
    ExpMultipliesExponents(grp, t2, e);
    NegatedExponent(grp, t2, p2 * s);
    MulAddsExponents(grp, -(t2 * (p2 * s)), b);
    ExpMultipliesExponents(grp, -(t2 * (p2 * s)) + b, p2);
    KeyExponentIdentity(p1, p2, t1, t2, s, s');
  }

  lemma KeyExponentIdentity(p1: nat, p2: nat, t1: nat, t2: nat, s: nat, s': nat)
    ensures (-(t2 * (p2 * s)) + Step2Exponent(t1, t2, p1, p2, s')) * p2 == KeyExponent(p1, p2, t1, t2, s, s')
  {
    var a := t1 + p1 + p2;
    assert a * (t2 * s') == t2 * (a * s');
    assert -(t2 * (p2 * s)) + t2 * (a * s') == t2 * (a * s' - p2 * s);
  }

  /** By how much the exponents of the two keys differ when the secrets differ. */
  ghost function Mismatch(x1: nat, x2: nat, x3: nat, x4: nat, cs: nat, ss: nat): int {
    x2 * x4 * ((x1 + x2 + x3 + x4) * (cs - ss))
  }

  /** The two keys differ by a power whose exponent vanishes when the secrets are the same. */
  lemma KeyExponentDifference(x1: nat, x2: nat, x3: nat, x4: nat, cs: nat, ss: nat)
    ensures KeyExponent(x3, x4, x1, x2, ss, cs) - KeyExponent(x1, x2, x3, x4, cs, ss)
            == Mismatch(x1, x2, x3, x4, cs, ss)
    ensures cs == ss ==> KeyExponent(x1, x2, x3, x4, cs, ss) == (x1 + x3) * x2 * x4 * cs
  {
    var a, b := (x1 + x3 + x4) * cs - x4 * ss, (x3 + x1 + x2) * ss - x2 * cs;
    assert a - b == (x1 + x2 + x3 + x4) * (cs - ss);
    assert KeyExponent(x3, x4, x1, x2, ss, cs) == x4 * x2 * a == x2 * x4 * a;
    MulSub(a, b, x2 * x4);
    if cs == ss {
      assert b == (x1 + x3) * cs;
    }
  }

  // ----- Main results -----

  /** The six public values of a dialogue, as exponents. */
  ghost predicate NonDegenerate(grp: Group, x1: nat, x2: nat, x3: nat, x4: nat, cs: nat, ss: nat)
    requires grp.Valid()
  {
    && InRange(grp, grp.G(x1)) && InRange(grp, grp.G(x2)) && InRange(grp, grp.G(x3)) && InRange(grp, grp.G(x4))
    && InRange(grp, grp.G(Step2Exponent(x1, x2, x3, x4, cs)))
    && InRange(grp, grp.G(Step2Exponent(x3, x4, x1, x2, ss)))
  }

  /**
   * A dialogue of honest parties stops early exactly when a public value is degenerate, and else derives these keys.
   */
  lemma DialogueKeys(hash: seq<byte> -> seq<byte>, grp: Group, c: Coins, s: Coins, cs: nat, ss: nat, session: seq<byte>)
    requires grp.Valid() && Storable(grp)
    ensures var d := Dialogue(hash, grp, c, s, cs, ss, session);
            && (d.Finished? <==> NonDegenerate(grp, c.priv1, c.priv2, s.priv1, s.priv2, cs, ss))
            && (d.Finished? ==>
                  && d.clientKey == grp.G(KeyExponent(c.priv1, c.priv2, s.priv1, s.priv2, cs, ss))
                  && d.serverKey == grp.G(KeyExponent(s.priv1, s.priv2, c.priv1, c.priv2, ss, cs))
                  && (d.clientAccepts <==> SameHash(hash, d.clientKey, d.serverKey, s.id, session))
                  && (d.serverAccepts <==> SameHash(hash, d.clientKey, d.serverKey, c.id, session)))
  {
    HonestStep1(hash, grp, c);
    HonestStep1(hash, grp, s);
    var client1, server1 := MakeStep1(hash, grp, c), MakeStep1(hash, grp, s);
    if client1.Some? && server1.Some? {
      var c1, s1 := client1.value, server1.value;
      HonestStep2(hash, grp, c.priv1, c.priv2, s.priv1, s.priv2, cs, s1, c.id, c.v3,
                  grp.G(Step2Exponent(c.priv1, c.priv2, s.priv1, s.priv2, cs)));
      HonestStep2(hash, grp, s.priv1, s.priv2, c.priv1, c.priv2, ss, c1, s.id, s.v3,
                  grp.G(Step2Exponent(s.priv1, s.priv2, c.priv1, c.priv2, ss)));
      SharedKeyExponent(grp, c.priv1, c.priv2, s.priv1, s.priv2, cs, ss);
      SharedKeyExponent(grp, s.priv1, s.priv2, c.priv1, c.priv2, ss, cs);
    }
  }

  /** Agreement: with one secret, both sides derive g^((x1+x3)*x2*x4*s) and accept each other's confirmation. */
  lemma SameSecretAgrees(hash: seq<byte> -> seq<byte>, grp: Group, c: Coins, s: Coins, secret: nat, session: seq<byte>)
    requires grp.Valid() && Storable(grp)
    ensures var d := Dialogue(hash, grp, c, s, secret, secret, session);
            d.Finished? ==>
              && d.clientKey == d.serverKey == grp.G((c.priv1 + s.priv1) * c.priv2 * s.priv2 * secret)
              && d.clientAccepts && d.serverAccepts
  {
    var d := Dialogue(hash, grp, c, s, secret, secret, session);
    var x := KeyExponent(s.priv1, s.priv2, c.priv1, c.priv2, secret, secret);
    var y := KeyExponent(c.priv1, c.priv2, s.priv1, s.priv2, secret, secret);
    assert x == y == (c.priv1 + s.priv1) * c.priv2 * s.priv2 * secret by {
      KeyExponentDifference(c.priv1, c.priv2, s.priv1, s.priv2, secret, secret);
    }
    assert d.Finished? ==> d.clientKey == grp.G(y) && d.serverKey == grp.G(x) && d.clientAccepts && d.serverAccepts by {
      DialogueKeys(hash, grp, c, s, secret, secret, session);
    }
  }

  /** The confirmation input determines the key, the identity and the session. */
  lemma ConfirmInputInjective(k: nat, k': nat, id: seq<byte>, id': seq<byte>, session: seq<byte>, session': seq<byte>)
    requires |MpintBody(k)| < U32 && |MpintBody(k')| < U32
    requires |id| < U32 && |id'| < U32 && |session| < U32 && |session'| < U32
    requires ConfirmInput(k, id, session) == ConfirmInput(k', id', session')
    ensures k == k' && id == id' && session == session'
  {
    var a, b := [Mpint(k), String(id), String(session)], [Mpint(k'), String(id'), String(session')];
    ConfirmKinds(k, id, session);
    ConfirmKinds(k', id', session');
    ListInjective(a, b, [], []);
    assert a[0] == b[0] && a[1] == b[1] && a[2] == b[2];
  }

  lemma ConfirmKinds(k: nat, id: seq<byte>, session: seq<byte>)
    ensures Kinds([Mpint(k), String(id), String(session)]) == [KMpint, KString, KString]
  {
    var a := [Mpint(k), String(id), String(session)];
    assert a[1..] == [String(id), String(session)];
    assert a[1..][1..] == [String(session)];
    assert Kinds([String(session)]) == [KString];
    assert Kinds(a[1..]) == [KString, KString];
  }

  /** The hash does not tell the confirmation inputs of two keys apart, although they differ. */
  predicate Collide(hash: seq<byte> -> seq<byte>, k: nat, k': nat, id: seq<byte>, session: seq<byte>) {
    var a, b := ConfirmInput(k, id, session), ConfirmInput(k', id, session);
    a != b && hash(a) == hash(b)
  }

  /** Whether a confirmation of one key is accepted under another. */
  lemma ConfirmationsAgree(hash: seq<byte> -> seq<byte>, grp: Group, x: int, y: int, z: int,
                           id: seq<byte>, session: seq<byte>)
    requires grp.Valid() && Storable(grp) && |id| < U32 && |session| < U32 && z == y - x
    ensures hash(ConfirmInput(grp.G(x), id, session)) == hash(ConfirmInput(grp.G(y), id, session)) <==>
            grp.G(z) == 1 || Collide(hash, grp.G(x), grp.G(y), id, session)
  {
    var a, b := grp.G(x), grp.G(y);
    EqualIffDifferenceIsUnit(grp, y, x);
    MinimalBound(a, MAX_BIGNUM - 1);
    MinimalBound(b, MAX_BIGNUM - 1);
    if ConfirmInput(a, id, session) == ConfirmInput(b, id, session) {
      ConfirmInputInjective(a, b, id, id, session, session);
    }
  }

  /**
   * Different secrets, for any hash: either side accepts exactly when the power of x2*x4*(x1+x2+x3+x4)*(cs-ss) is one
   * (the secrets agree modulo the order or the exponents are degenerate), or when the hash happens to collide on the
   * two confirmation inputs of this dialogue.
   */
  lemma WrongSecretIsRejected(hash: seq<byte> -> seq<byte>, grp: Group, c: Coins, s: Coins, cs: nat, ss: nat,
                              session: seq<byte>)
    requires grp.Valid() && Storable(grp) && |c.id| < U32 && |s.id| < U32 && |session| < U32
    ensures var d := Dialogue(hash, grp, c, s, cs, ss, session);
            var equal := grp.G(Mismatch(c.priv1, c.priv2, s.priv1, s.priv2, cs, ss)) == 1;
            d.Finished? ==>
              && (d.serverAccepts <==> equal || Collide(hash, d.clientKey, d.serverKey, c.id, session))
              && (d.clientAccepts <==> equal || Collide(hash, d.clientKey, d.serverKey, s.id, session))
  {
    var d := Dialogue(hash, grp, c, s, cs, ss, session);
    var x := KeyExponent(c.priv1, c.priv2, s.priv1, s.priv2, cs, ss);
    var y := KeyExponent(s.priv1, s.priv2, c.priv1, c.priv2, ss, cs);
    var z := Mismatch(c.priv1, c.priv2, s.priv1, s.priv2, cs, ss);
    assert y - x == z by {
      KeyExponentDifference(c.priv1, c.priv2, s.priv1, s.priv2, cs, ss);
    }
    assert d.Finished? ==>
           && d.clientKey == grp.G(x) && d.serverKey == grp.G(y)
           && (d.serverAccepts <==> SameHash(hash, grp.G(x), grp.G(y), c.id, session))
           && (d.clientAccepts <==> SameHash(hash, grp.G(x), grp.G(y), s.id, session)) by {
      DialogueKeys(hash, grp, c, s, cs, ss, session);
    }
    ConfirmationsAgree(hash, grp, x, y, z, c.id, session);
    ConfirmationsAgree(hash, grp, x, y, z, s.id, session);
  }

  predicate SameHash(hash: seq<byte> -> seq<byte>, k: nat, k': nat, id: seq<byte>, session: seq<byte>) {
    hash(ConfirmInput(k, id, session)) == hash(ConfirmInput(k', id, session))
  }
}
