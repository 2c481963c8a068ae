/** The RSA1 private key file of authfile.c, as bytes. */
module Rsa1 {
  import opened Bytes
  import opened Options
  import opened Wire

  /** The identification line and its terminating NUL: SSH PRIVATE KEY FILE FORMAT 1.1 */
  const ID: seq<byte> := [
    83, 83, 72, 32, 80, 82, 73, 86, 65, 84, 69, 32, 75, 69, 89, 32, 70, 73, 76, 69,
    32, 70, 79, 82, 77, 65, 84, 32, 49, 46, 49, 10, 0]

  const SSH_CIPHER_NONE: byte := 0
  const SSH_AUTHFILE_CIPHER: byte := 3
  const CIPHER_BLOCK := 8

  datatype PrivateKey = PrivateKey(n: nat, e: nat, d: nat, iqmp: nat, q: nat, p: nat)

  /** The ciphers by number, keyed with a passphrase. */
  datatype Ciphers = Ciphers(known: byte -> bool, enc: (byte, seq<byte>, seq<byte>) -> seq<byte>,
                             dec: (byte, seq<byte>, seq<byte>) -> seq<byte>)

  /** Both cipher numbers that are written are known, lengths are kept, and decryption undoes encryption. */
  ghost predicate Sound(c: Ciphers) {
    && c.known(0) && c.known(3)
    && (forall num: byte, pass: seq<byte>, s: seq<byte> :: |s| % CIPHER_BLOCK == 0 ==> |c.enc(num, pass, s)| == |s|)
    && (forall num: byte, pass: seq<byte>, s: seq<byte> :: |s| % CIPHER_BLOCK == 0 ==> |c.dec(num, pass, s)| == |s|)
    && (forall num: byte, pass: seq<byte>, s: seq<byte> :: |s| % CIPHER_BLOCK == 0 ==>
        c.dec(num, pass, c.enc(num, pass, s)) == s)
  }

  /** An empty passphrase means no encryption. */
  function CipherFor(pass: seq<byte>): byte {
    if pass == [] then SSH_CIPHER_NONE else SSH_AUTHFILE_CIPHER
  }

  // ----- Writing -----

  /** SSH1 numbers one after the other. */
  function Numbers(ns: seq<nat>): seq<byte> {
    if ns == [] then [] else Numbers(ns[..|ns| - 1]) + Encode(Bignum1(ns[|ns| - 1]))
  }

  function Secrets(key: PrivateKey): seq<nat> { [key.d, key.iqmp, key.q, key.p] }

  /** How many bytes are missing to a whole number of cipher blocks. */
  function Missing(n: nat): (k: nat)
    ensures k < CIPHER_BLOCK && (n + k) % CIPHER_BLOCK == 0
  {
    (CIPHER_BLOCK - n % CIPHER_BLOCK) % CIPHER_BLOCK
  }

  /** Zero bytes up to a whole number of cipher blocks. */
  function Padded(s: seq<byte>): (r: seq<byte>)
    ensures |r| % CIPHER_BLOCK == 0 && s <= r && |r| < |s| + CIPHER_BLOCK
  {
    s + Zeros(Missing(|s|))
  }

  function Secret(key: PrivateKey, b0: byte, b1: byte): seq<byte> {
    Padded([b0, b1, b0, b1] + Numbers(Secrets(key)))
  }

  /** What follows the identification line: cipher, reserved word, size, and the public part. */
  function Header(num: byte, key: PrivateKey, comment: seq<byte>): seq<byte> {
    [num] + Fixed(0, 4) + Fixed(NumBits(key.n), 4) + (Numbers([key.n, key.e]) + StringBytes(comment))
  }

  /** The writer of numbers dies on zero. */
  predicate Nonzero(key: PrivateKey) {
    key.n > 0 && key.e > 0 && NonzeroSecrets(key)
  }

  predicate NonzeroSecrets(key: PrivateKey) {
    key.d > 0 && key.iqmp > 0 && key.q > 0 && key.p > 0
  }

  /** `key_private_rsa1_to_blob`; the two bytes are the random check bytes, and None is a fatal error. */
  function ToBlob(c: Ciphers, key: PrivateKey, pass: seq<byte>, comment: seq<byte>, b0: byte, b1: byte)
    : Option<seq<byte>>
  {
    if Nonzero(key) then Some(BlobBytes(c, key, pass, comment, b0, b1)) else None
  }

  function BlobBytes(c: Ciphers, key: PrivateKey, pass: seq<byte>, comment: seq<byte>, b0: byte, b1: byte): seq<byte> {
    var num := CipherFor(pass);
    ID + Header(num, key, comment) + c.enc(num, pass, Secret(key, b0, b1))
  }

  // ----- Reading -----

  /** A fatal error, the refusal to return a key, or a result. */
  datatype Outcome<+T> = Fatal | NoKey | Ok(value: T)

  datatype Public = Public(num: byte, n: nat, e: nat, comment: seq<byte>, rest: seq<byte>)

  /** A key with its comment and the two exponents that are computed when it is read. */
  datatype Loaded = Loaded(key: PrivateKey, comment: seq<byte>, dmp1: nat, dmq1: nat)

  /** Reads one more number. */
  function More(g: Got<seq<nat>>): (r: Got<seq<nat>>)
    ensures r.Got? ==> g.Got? && |r.value| == |g.value| + 1
  {
    match g
    case Bad => Bad
    case Got(ns, s) =>
      match GetBignum1(s)
      case Bad => Bad
      case Got(n, rest) => Got(ns + [n], rest)
  }

  function GetNumbers(k: nat, s: seq<byte>): (r: Got<seq<nat>>)
    ensures r.Got? ==> |r.value| == k
  {
    if k == 0 then Got([], s) else More(GetNumbers(k - 1, s))
  }

  /** `key_parse_public_rsa1`, and the first half of `key_parse_private_rsa1`. */
  function ParsePublic(blob: seq<byte>): Outcome<Public> {
    if |blob| < |ID| || blob[..|ID|] != ID then NoKey else ParseFields(blob[|ID|..])
  }

  /** Cipher number, reserved word and size, then the public part. */
  function ParseFields(s: seq<byte>): Outcome<Public> {
    if |s| < 9 then Fatal else ParseComment(s[0], GetNumbers(2, s[9..]))
  }

  /** The comment, behind the public numbers. */
  function ParseComment(num: byte, g: Got<seq<nat>>): Outcome<Public>
    requires g.Got? ==> |g.value| == 2
  {
    match g
    case Bad => Fatal
    case Got(ns, s) =>
      match GetString(s)
      case Bad => Fatal
      case Got(comment, rest) => Ok(Public(num, ns[0], ns[1], comment, rest))
  }

  /** The decrypted part: check bytes, then the secret numbers. */
  function ParseSecret(s: seq<byte>): (r: Outcome<seq<nat>>)
    ensures r.Ok? ==> |r.value| == 4
  {
    if |s| < 4 then Fatal
    else if s[0] != s[2] || s[1] != s[3] then NoKey
    else NumbersOf(GetNumbers(4, s[4..]))
  }

  function NumbersOf(g: Got<seq<nat>>): Outcome<seq<nat>> {
    match g
    case Bad => Fatal
    case Got(ns, _) => Ok(ns)
  }

  /** The private exponent modulo one less than a prime; None stands for the error of `BN_mod` on a zero divisor. */
  function Reduced(d: nat, prime: nat): Option<nat> {
    if prime == 1 then None else if prime == 0 then Some(0) else Some(d % (prime - 1))
  }

  /**
   * `rsa_generate_additional_parameters`, which dies where a remainder has no value, and the switching on of blinding.
   */
  function Prepare(key: PrivateKey, comment: seq<byte>, blinds: PrivateKey -> bool): Outcome<Loaded> {
    var dmq1, dmp1 := Reduced(key.d, key.q), Reduced(key.d, key.p);
    if dmq1.None? || dmp1.None? then Fatal
    else if !blinds(key) then NoKey
    else Ok(Loaded(key, comment, dmp1.value, dmq1.value))
  }

  function Assemble(pub: Public, secret: Outcome<seq<nat>>, blinds: PrivateKey -> bool): Outcome<Loaded>
    requires secret.Ok? ==> |secret.value| == 4
  {
    match secret
    case Fatal => Fatal
    case NoKey => NoKey
    case Ok(v) => Prepare(PrivateKey(pub.n, pub.e, v[0], v[1], v[2], v[3]), pub.comment, blinds)
  }

  /** `key_parse_private_rsa1`; `blinds` says for which keys `RSA_blinding_on` succeeds. */
  function Parse(c: Ciphers, blob: seq<byte>, pass: seq<byte>, blinds: PrivateKey -> bool): Outcome<Loaded> {
    match ParsePublic(blob)
    case Fatal => Fatal
    case NoKey => NoKey
    case Ok(pub) =>
      if !c.known(pub.num) then NoKey
      else if |pub.rest| % CIPHER_BLOCK != 0 then Fatal
      else Assemble(pub, ParseSecret(c.dec(pub.num, pass, pub.rest)), blinds)
  }

  // ----- The round trip -----

  /** The bits can be counted in 16 bits. */
  predicate Small(n: nat) { NumBits(n) < 0x1_0000 }

  /** What the number format can store: small, and not zero. */
  predicate Fits(n: nat) { 0 < n && Small(n) }

  ghost predicate AllSmall(ns: seq<nat>) {
    forall i :: 0 <= i < |ns| ==> Small(ns[i])
  }

  /** The public part is what the format can express. */
  predicate StorablePublic(key: PrivateKey, comment: seq<byte>) {
    Fits(key.n) && Fits(key.e) && |comment| <= MAX_STRING
  }

  predicate StorableSecret(key: PrivateKey) {
    Fits(key.d) && Fits(key.iqmp) && Fits(key.q) && Fits(key.p)
  }

  lemma {:induction false} PrefixIsSmaller(m: seq<byte>, k: nat)
    requires k <= |m|
    ensures Big(m[..k]) <= Big(m)
    ensures k < |m| && Big(m) > 0 ==> Big(m[..k]) < Big(m)
    decreases |m|
  {
    if k == |m| {
      assert m[..k] == m;
    } else {
      var front := m[..|m| - 1];
      PrefixIsSmaller(front, k);
      assert front[..k] == m[..k];
    }
  }

  lemma ShortRead(m: seq<byte>, tail: seq<byte>, k: nat)
    requires k < |m| && Big(m) > 0
    ensures GetNumber(m + tail, k).Got? && GetNumber(m + tail, k).value != Big(m)
  {
    assert (m + tail)[..k] == m[..k];
    PrefixIsSmaller(m, k);
  }

  /** A number that is too large is never read back by accident. */
  lemma NumberShows(n: nat, tail: seq<byte>)
    ensures var g := GetBignum1(Encode(Bignum1(n)) + tail);
            && (g.Got? && g.value == n <==> Small(n))
            && (Small(n) ==> g == Got(n, tail))
  {
    Bignum1Front(n, tail);
    if !Small(n) {
      var bits, m := NumBits(n), Minimal(n);
      MinimalLength(n);
      BigMinimal(n);
      CountBytes(bits);
      Assoc(Fixed(bits, 2), m, tail);
      CountFront(bits, m + tail);
      ShortRead(m, tail, (bits % 0x1_0000 + 7) / 8);
    }
  }

  /** What reading some numbers gave, when `ns` were written in front of `tail`. */
  ghost predicate ReadsBack(g: Got<seq<nat>>, ns: seq<nat>, tail: seq<byte>) {
    && (g.Got? && g.value == ns <==> AllSmall(ns))
    && (AllSmall(ns) ==> g == Got(ns, tail))
  }

  lemma MoreReadsBack(g: Got<seq<nat>>, front: seq<nat>, last: nat, tail: seq<byte>)
    requires ReadsBack(g, front, Encode(Bignum1(last)) + tail) && (g.Got? ==> |g.value| == |front|)
    ensures ReadsBack(More(g), front + [last], tail)
  {
    NumberShows(last, tail);
    var ns := front + [last];
    assert AllSmall(ns) <==> AllSmall(front) && Small(last) by {
      assert forall i :: 0 <= i < |front| ==> ns[i] == front[i];
      assert ns[|front|] == last;
    }
    if g.Got? {
      Extended(front, last, g.value, GetBignum1(g.rest));
    }
  }

  /** Reading one more number gives the list exactly if both reads give their parts. */
  lemma Extended(front: seq<nat>, last: nat, read: seq<nat>, h: Got<nat>)
    requires |read| == |front|
    ensures h.Got? ==> (read + [h.value] == front + [last] <==> read == front && h.value == last)
  {
    if h.Got? {
      assert (read + [h.value])[..|front|] == read && (front + [last])[..|front|] == front;
      assert (read + [h.value])[|front|] == h.value && (front + [last])[|front|] == last;
    }
  }

  /** Numbers read back if and only if none is too large. */
  lemma {:induction false} NumbersShow(ns: seq<nat>, tail: seq<byte>)
    ensures ReadsBack(GetNumbers(|ns|, Numbers(ns) + tail), ns, tail)
    decreases |ns|
  {
    if ns == [] {
      assert [] + tail == tail;
    } else {
      var front, last := ns[..|ns| - 1], ns[|ns| - 1];
      assert ns == front + [last];
      Assoc(Numbers(front), Encode(Bignum1(last)), tail);
      NumbersShow(front, Encode(Bignum1(last)) + tail);
      MoreReadsBack(GetNumbers(|front|, Numbers(ns) + tail), front, last, tail);
    }
  }

  lemma Layout(num: byte, key: PrivateKey, comment: seq<byte>, data: seq<byte>)
    ensures var s := Header(num, key, comment) + data;
            && |s| >= 9 && s[0] == num
            && s[9..] == Numbers([key.n, key.e]) + (StringBytes(comment) + data)
  {
    var x, y := [num] + Fixed(0, 4) + Fixed(NumBits(key.n), 4), Numbers([key.n, key.e]) + StringBytes(comment);
    assert |x| == 9 && x[0] == num && Header(num, key, comment) == x + y;
    Layered(x, y, data);
    Assoc(Numbers([key.n, key.e]), StringBytes(comment), data);
  }

  lemma Layered(x: seq<byte>, y: seq<byte>, data: seq<byte>)
    requires x != []
    ensures var s := x + y + data; s[0] == x[0] && s[|x|..] == y + data
  {
  }

  /** What reading the public part gave is what was written. */
  predicate PublicIs(r: Outcome<Public>, key: PrivateKey, comment: seq<byte>) {
    r.Ok? && r.value.n == key.n && r.value.e == key.e && r.value.comment == comment
  }

  lemma FieldsRoundTrip(num: byte, key: PrivateKey, comment: seq<byte>, data: seq<byte>)
    requires |comment| < U32
    ensures var r := ParseFields(Header(num, key, comment) + data);
            && (PublicIs(r, key, comment) <==> Small(key.n) && Small(key.e) && |comment| <= MAX_STRING)
            && (PublicIs(r, key, comment) ==> r == Ok(Public(num, key.n, key.e, comment, data)))
  {
    Layout(num, key, comment, data);
    NumbersShow([key.n, key.e], StringBytes(comment) + data);
    StringFront(comment, data);
    TwoSmall(key.n, key.e);
  }

  lemma PublicBytes(num: byte, key: PrivateKey, comment: seq<byte>, data: seq<byte>)
    requires |comment| < U32
    ensures var r := ParsePublic(ID + Header(num, key, comment) + data);
            && (PublicIs(r, key, comment) <==> Small(key.n) && Small(key.e) && |comment| <= MAX_STRING)
            && (PublicIs(r, key, comment) ==> r == Ok(Public(num, key.n, key.e, comment, data)))
  {
    Assoc(ID, Header(num, key, comment), data);
    TakeFront(ID, Header(num, key, comment) + data);
    FieldsRoundTrip(num, key, comment, data);
  }

  /**
   * The file is written and its public part reads back, without a passphrase, if and only if that part is storable and
   * no secret is zero.
   */
  lemma PublicRoundTrip(c: Ciphers, key: PrivateKey, pass: seq<byte>, comment: seq<byte>, b0: byte, b1: byte)
    requires |comment| < U32
    ensures var blob := ToBlob(c, key, pass, comment, b0, b1);
            blob.Some? && PublicIs(ParsePublic(blob.value), key, comment) <==>
            StorablePublic(key, comment) && NonzeroSecrets(key)
  {
    PublicBytes(CipherFor(pass), key, comment, c.enc(CipherFor(pass), pass, Secret(key, b0, b1)));
  }

  lemma TwoSmall(a: nat, b: nat)
    ensures AllSmall([a, b]) <==> Small(a) && Small(b)
  {
    assert [a, b][0] == a && [a, b][1] == b;
  }

  predicate SmallSecrets(key: PrivateKey) {
    Small(key.d) && Small(key.iqmp) && Small(key.q) && Small(key.p)
  }

  lemma FourSmall(key: PrivateKey)
    ensures AllSmall(Secrets(key)) <==> SmallSecrets(key)
  {
    var s := Secrets(key);
    assert s[0] == key.d && s[1] == key.iqmp && s[2] == key.q && s[3] == key.p;
  }

  lemma SecretRoundTrip(key: PrivateKey, b0: byte, b1: byte)
    ensures var r := ParseSecret(Secret(key, b0, b1));
            r == Ok(Secrets(key)) <==> SmallSecrets(key)
  {
    var ns := Secrets(key);
    var pad := Zeros(Missing(|[b0, b1, b0, b1] + Numbers(ns)|));
    NumbersShow(ns, pad);
    FourSmall(key);
    ParseChecked([b0, b1, b0, b1], Numbers(ns), pad, |ns|);
  }

  /** Matching check bytes in front of the numbers. */
  lemma ParseChecked(check: seq<byte>, body: seq<byte>, pad: seq<byte>, k: nat)
    requires |check| == 4 && check[0] == check[2] && check[1] == check[3] && k == 4
    ensures ParseSecret(check + body + pad) == NumbersOf(GetNumbers(k, body + pad))
  {
    var s := check + body + pad;
    assert s[0] == check[0] && s[1] == check[1] && s[2] == check[2] && s[3] == check[3];
    Layered(check, body, pad);
  }

  /** The key and the comment came back. */
  predicate LoadedIs(r: Outcome<Loaded>, key: PrivateKey, comment: seq<byte>) {
    r.Ok? && r.value.key == key && r.value.comment == comment
  }

  /** What reading needs beyond the format: both primes leave a modulus, and the library can blind the key. */
  predicate Usable(key: PrivateKey, blinds: PrivateKey -> bool) {
    key.q != 1 && key.p != 1 && blinds(key)
  }

  /**
   * The whole file: it is written and, with the same passphrase, reading gives back the key and the comment if and
   * only if every number is positive and fits the 16-bit count, the comment is within the reader's limit, neither
   * prime is one, and the library can blind the key.
   */
  lemma FileRoundTrip(c: Ciphers, key: PrivateKey, pass: seq<byte>, comment: seq<byte>, b0: byte, b1: byte,
                      blinds: PrivateKey -> bool)
    requires Sound(c) && |comment| < U32
    ensures var blob := ToBlob(c, key, pass, comment, b0, b1);
            blob.Some? && LoadedIs(Parse(c, blob.value, pass, blinds), key, comment) <==>
            StorablePublic(key, comment) && StorableSecret(key) && Usable(key, blinds)
  {
    FileBytes(c, key, pass, comment, b0, b1, blinds);
  }

  lemma FileBytes(c: Ciphers, key: PrivateKey, pass: seq<byte>, comment: seq<byte>, b0: byte, b1: byte,
                  blinds: PrivateKey -> bool)
    requires Sound(c) && |comment| < U32
    ensures LoadedIs(Parse(c, BlobBytes(c, key, pass, comment, b0, b1), pass, blinds), key, comment) <==>
            Small(key.n) && Small(key.e) && |comment| <= MAX_STRING && SmallSecrets(key) && Usable(key, blinds)
  {
    var num, secret := CipherFor(pass), Secret(key, b0, b1);
    PublicBytes(num, key, comment, c.enc(num, pass, secret));
    SecretRoundTrip(key, b0, b1);
    SecretsDetermine(key, ParseSecret(secret));
  }

  /** What becomes of every storable key: a fatal error, no key, or the key with its reduced exponents. */
  lemma StorableOutcome(c: Ciphers, key: PrivateKey, pass: seq<byte>, comment: seq<byte>, b0: byte, b1: byte,
                        blinds: PrivateKey -> bool)
    requires Sound(c) && StorablePublic(key, comment) && StorableSecret(key)
    ensures var r := Parse(c, ToBlob(c, key, pass, comment, b0, b1).value, pass, blinds);
            r == if key.q == 1 || key.p == 1 then Fatal
                 else if !blinds(key) then NoKey
                 else Ok(Loaded(key, comment, key.d % (key.p - 1), key.d % (key.q - 1)))
  {
    var num, secret := CipherFor(pass), Secret(key, b0, b1);
    PublicBytes(num, key, comment, c.enc(num, pass, secret));
    SecretRoundTrip(key, b0, b1);
  }

  /** A key with a prime of one is written and kills the reader. */
  lemma UnitPrimeIsNotRead(c: Ciphers, pass: seq<byte>, b0: byte, b1: byte, blinds: PrivateKey -> bool)
    requires Sound(c)
    ensures var key := PrivateKey(15, 3, 3, 1, 1, 15);
            var blob := ToBlob(c, key, pass, [], b0, b1);
            StorableSecret(key) && blob.Some? && Parse(c, blob.value, pass, blinds) == Fatal
  {
    assert NumBits(1) == 1 && NumBits(3) == 2 && NumBits(7) == 3 && NumBits(15) == 4;
    StorableOutcome(c, PrivateKey(15, 3, 3, 1, 1, 15), pass, [], b0, b1, blinds);
  }

  lemma SecretsDetermine(key: PrivateKey, r: Outcome<seq<nat>>)
    requires r.Ok? ==> |r.value| == 4
    ensures r == Ok(Secrets(key)) <==>
            r.Ok? && r.value[0] == key.d && r.value[1] == key.iqmp && r.value[2] == key.q && r.value[3] == key.p
  {
    if r.Ok? && r.value[0] == key.d && r.value[1] == key.iqmp && r.value[2] == key.q && r.value[3] == key.p {
      assert r.value == Secrets(key);
    }
  }

  /** A key without its private exponent: small enough for the format, and yet the writer dies. */
  lemma ZeroFieldIsNotWritten(c: Ciphers, pass: seq<byte>, comment: seq<byte>, b0: byte, b1: byte)
    ensures var key := PrivateKey(15, 3, 0, 0, 3, 5);
            SmallSecrets(key) && !StorableSecret(key) && ToBlob(c, key, pass, comment, b0, b1) == None
  {
    assert NumBits(1) == 1 && NumBits(2) == 2 && NumBits(5) == 3 && NumBits(3) == 2;
  }

  /** A wrong passphrase never changes the public half of what is returned. */
  lemma AnyPassphraseKeepsPublicPart(c: Ciphers, key: PrivateKey, pass: seq<byte>, other: seq<byte>,
                                     comment: seq<byte>, b0: byte, b1: byte, blinds: PrivateKey -> bool)
    requires StorablePublic(key, comment) && NonzeroSecrets(key)
    ensures var r := Parse(c, ToBlob(c, key, pass, comment, b0, b1).value, other, blinds);
            r.Ok? ==> r.value.key.n == key.n && r.value.key.e == key.e && r.value.comment == comment
  {
    PublicBytes(CipherFor(pass), key, comment, c.enc(CipherFor(pass), pass, Secret(key, b0, b1)));
  }

  // ----- The file itself -----

  lemma IdIsText()
    ensures var text := "SSH PRIVATE KEY FILE FORMAT 1.1\n";
            && |ID| == |text| + 1 && ID[|text|] == 0
            && forall i :: 0 <= i < |text| ==> ID[i] == text[i] as int
  {
  }

  /** The secret part before encryption: check bytes twice, the four numbers, and zeros up to a multiple of eight. */
  ghost predicate SecretIs(key: PrivateKey, b0: byte, b1: byte, secret: seq<byte>) {
    var text := [b0, b1, b0, b1] + Encode(Bignum1(key.d)) + Encode(Bignum1(key.iqmp)) + Encode(Bignum1(key.q))
                + Encode(Bignum1(key.p));
    && text <= secret && |secret| % 8 == 0 && |secret| < |text| + 8
    && forall i :: |text| <= i < |secret| ==> secret[i] == 0
  }

  /** The whole file, with cipher 3 if there is a passphrase and none otherwise. */
  ghost predicate FileIs(c: Ciphers, key: PrivateKey, pass: seq<byte>, comment: seq<byte>, secret: seq<byte>,
                         blob: seq<byte>) {
    blob == ID + ([if pass == [] then 0 else 3] + [0, 0, 0, 0] + Fixed(NumBits(key.n), 4)
                  + (Encode(Bignum1(key.n)) + Encode(Bignum1(key.e)) + Encode(String(comment))))
            + c.enc(if pass == [] then 0 else 3, pass, secret)
  }

  lemma {:induction false} ZerosAreZero(k: nat)
    ensures forall i :: 0 <= i < k ==> Zeros(k)[i] == 0
  {
    if k > 0 { ZerosAreZero(k - 1); }
  }

  lemma NumbersExtend(ns: seq<nat>, n: nat)
    ensures Numbers(ns + [n]) == Numbers(ns) + Encode(Bignum1(n))
  {
    assert (ns + [n])[..|ns|] == ns;
  }

  lemma TwoNumbers(a: nat, b: nat)
    ensures Numbers([a, b]) == Encode(Bignum1(a)) + Encode(Bignum1(b))
  {
    NumbersExtend([], a);
    NumbersExtend([a], b);
    assert [] + [a] == [a] && [a] + [b] == [a, b] && [] + Encode(Bignum1(a)) == Encode(Bignum1(a));
  }

  lemma FourNumbers(x: seq<byte>, a: nat, b: nat, c: nat, d: nat)
    ensures x + Numbers([a, b, c, d])
            == x + Encode(Bignum1(a)) + Encode(Bignum1(b)) + Encode(Bignum1(c)) + Encode(Bignum1(d))
  {
    TwoNumbers(a, b);
    NumbersExtend([a, b], c);
    NumbersExtend([a, b, c], d);
    assert [a, b] + [c] == [a, b, c] && [a, b, c] + [d] == [a, b, c, d];
    Assoc(x, Numbers([a, b, c]), Encode(Bignum1(d)));
    Assoc(x, Numbers([a, b]), Encode(Bignum1(c)));
    Assoc(x, Encode(Bignum1(a)), Encode(Bignum1(b)));
  }

  lemma SecretLayout(key: PrivateKey, b0: byte, b1: byte)
    ensures SecretIs(key, b0, b1, Secret(key, b0, b1))
  {
    var text := [b0, b1, b0, b1] + Numbers(Secrets(key));
    FourNumbers([b0, b1, b0, b1], key.d, key.iqmp, key.q, key.p);
    ZerosAreZero(Missing(|text|));
  }

  /**
   * The bytes of the file. Its cipher byte, behind the identification line, is 0 without a passphrase and 3 with one,
   * and the same number encrypts the secret part.
   */
  lemma FileLayout(c: Ciphers, key: PrivateKey, pass: seq<byte>, comment: seq<byte>, b0: byte, b1: byte)
    returns (secret: seq<byte>)
    requires Nonzero(key)
    ensures SecretIs(key, b0, b1, secret)
    ensures ToBlob(c, key, pass, comment, b0, b1).Some?
    ensures var blob := ToBlob(c, key, pass, comment, b0, b1).value;
            && FileIs(c, key, pass, comment, secret, blob)
            && |blob| > 33 && (pass == [] <==> blob[33] == 0) && (pass != [] <==> blob[33] == 3)
  {
    secret := Secret(key, b0, b1);
    SecretLayout(key, b0, b1);
    TwoNumbers(key.n, key.e);
    FourZeros();
    var num := if pass == [] then 0 else 3;
    var header := Header(num, key, comment);
    assert header[0] == num && (ID + header)[33] == num;
  }

  lemma FourZeros()
    ensures Fixed(0, 4) == [0, 0, 0, 0]
  {
    assert Fixed(0, 1) == [0] && Fixed(0, 2) == [0, 0] && Fixed(0, 3) == [0, 0, 0];
  }

  /**
   * With a passphrase under which the check bytes do not match, the reader returns no key; if the library can blind
   * every key, it does so under no other.
   */
  lemma WrongPassphrase(c: Ciphers, key: PrivateKey, pass: seq<byte>, other: seq<byte>, comment: seq<byte>, b0: byte,
                        b1: byte, blinds: PrivateKey -> bool, secret: seq<byte>)
    requires Sound(c) && StorablePublic(key, comment) && NonzeroSecrets(key) && SecretIs(key, b0, b1, secret)
    ensures var blob := ToBlob(c, key, pass, comment, b0, b1).value;
            var num: byte := if pass == [] then 0 else 3;
            var plain := c.dec(num, other, c.enc(num, pass, secret));
            && |plain| >= 4
            && (plain[0] != plain[2] || plain[1] != plain[3] ==> Parse(c, blob, other, blinds) == NoKey)
            && (plain[0] == plain[2] && plain[1] == plain[3] && (forall k :: blinds(k)) ==>
                  Parse(c, blob, other, blinds) != NoKey)
  {
    SecretLayout(key, b0, b1);
    SecretIsUnique(key, b0, b1, secret, Secret(key, b0, b1));
    PublicBytes(CipherFor(pass), key, comment, c.enc(CipherFor(pass), pass, secret));
  }

  /** Only a file with the identification line and a known cipher is read; without the line no key is returned. */
  lemma OnlyKeyFilesAreRead(c: Ciphers, blob: seq<byte>, pass: seq<byte>, blinds: PrivateKey -> bool)
    ensures !(ID <= blob) ==> Parse(c, blob, pass, blinds) == NoKey
    ensures Parse(c, blob, pass, blinds).Ok? ==> ID <= blob && |blob| >= 42 && c.known(blob[33])
  {
    assert |ID| == 33;
    if ID <= blob { assert blob[..|ID|] == ID; }
  }

  lemma SecretIsUnique(key: PrivateKey, b0: byte, b1: byte, s: seq<byte>, t: seq<byte>)
    requires SecretIs(key, b0, b1, s) && SecretIs(key, b0, b1, t)
    ensures s == t
  {
    assert |s| == |t|;
    assert forall i :: 0 <= i < |s| ==> s[i] == t[i];
  }
}

/** The same file through buffers, step by step. */
module Rsa1Files {
  import opened Bytes
  import opened Options
  import opened Wire
  import opened Buffers
  import opened BufferCodec
  import opened Rsa1

  /** Room that suffices for every storable key. */
  const ENOUGH := 0x5_0000

  /** The machine's length fields can express the numbers at all. */
  predicate Sane(key: PrivateKey, comment: seq<byte>) {
    && |Minimal(key.n)| < U32 && |Minimal(key.e)| < U32 && |comment| < U32
    && |Minimal(key.d)| < U32 && |Minimal(key.iqmp)| < U32 && |Minimal(key.q)| < U32 && |Minimal(key.p)| < U32
  }

  lemma FittingSize(n: nat)
    ensures Fits(n) ==> |Encode(Bignum1(n))| <= 0x2002
  {
    MinimalLength(n);
  }

  /** Writes one more number of a list. */
  method PutNumber(b: Buffer, n: nat, ghost start: seq<byte>, ghost ns: seq<nat>) returns (ok: bool)
    requires b.Valid() && |Minimal(n)| < U32 && b.Contents() == start + Numbers(ns)
    modifies b, b.buf
    ensures b.Valid() && (b.buf == old(b.buf) || fresh(b.buf))
    ensures ok ==> n > 0 && b.Contents() == start + Numbers(ns + [n])
    ensures ok && old(b.Geometry()).Slim() ==> b.Geometry().Slim()
    ensures Fits(n) && old(Roomy(b, 0x2002)) ==> ok && |b.Contents()| <= |old(b.Contents())| + 0x2002
  {
    FittingSize(n);
    ok := PutBignum(b, n);
    assert (ns + [n])[..|ns|] == ns;
    Assoc(start, Numbers(ns), Encode(Bignum1(n)));
  }

  method PutTwo(b: Buffer, x: nat, y: nat, ghost start: seq<byte>, ghost ns: seq<nat>) returns (ok: bool)
    requires b.Valid() && |Minimal(x)| < U32 && |Minimal(y)| < U32 && b.Contents() == start + Numbers(ns)
    modifies b, b.buf
    ensures b.Valid() && (b.buf == old(b.buf) || fresh(b.buf))
    ensures ok ==> x > 0 && y > 0 && b.Contents() == start + Numbers(ns + [x, y])
    ensures ok && old(b.Geometry()).Slim() ==> b.Geometry().Slim()
    ensures Fits(x) && Fits(y) && old(Roomy(b, 0x4004)) ==> ok && |b.Contents()| <= |old(b.Contents())| + 0x4004
  {
    ok := PutNumber(b, x, start, ns);
    if ok {
      ok := PutNumber(b, y, start, ns + [x]);
      assert ns + [x] + [y] == ns + [x, y];
    }
  }

  /** The secret part before encryption, with the padding loop. */
  method WriteSecret(b: Buffer, key: PrivateKey, comment: seq<byte>, b0: byte, b1: byte) returns (ok: bool)
    requires Sane(key, comment) && b.Valid() && b.Contents() == [] && b.Geometry().Slim()
    modifies b, b.buf
    ensures b.Valid() && (b.buf == old(b.buf) || fresh(b.buf))
    ensures ok ==> NonzeroSecrets(key) && b.Contents() == Secret(key, b0, b1)
    ensures StorableSecret(key) ==> ok && |b.Contents()| <= 0x8020
  {
    ghost var check := [b0, b1, b0, b1];
    ok := Add(b, [b0, b1, b0, b1]);
    assert check + Numbers([]) == check;
    if ok { ok := PutTwo(b, key.d, key.iqmp, check, []); }
    assert [] + [key.d, key.iqmp] == [key.d, key.iqmp];
    if ok { ok := PutTwo(b, key.q, key.p, check, [key.d, key.iqmp]); }
    assert [key.d, key.iqmp] + [key.q, key.p] == Secrets(key);
    if ok { ok := Pad(b); }
  }

  method Pad(b: Buffer) returns (ok: bool)
    requires b.Valid()
    modifies b, b.buf
    ensures b.Valid() && (b.buf == old(b.buf) || fresh(b.buf))
    ensures ok ==> b.Contents() == Padded(old(b.Contents()))
    ensures old(Roomy(b, CIPHER_BLOCK)) ==> ok
  {
    ok := true;
    ghost var start := b.Contents();
    assert start + Zeros(0) == start;
    var n := b.Len();
    while n % CIPHER_BLOCK != 0
      invariant b.Valid() && (b.buf == old(b.buf) || fresh(b.buf)) && n == |b.Contents()|
      invariant |start| <= n <= |start| + Missing(|start|) && b.Contents() == start + Zeros(n - |start|)
      invariant old(b.Geometry()).Slim() ==> b.Geometry().Slim()
      decreases |start| + CIPHER_BLOCK - n
    {
      NotYetPadded(|start|, n);
      ok := PutChar(b, 0);
      if !ok {
        return;
      }
      Assoc(start, Zeros(n - |start|), [0]);
      n := b.Len();
    }
    NotYetPadded(|start|, n);
  }

  /** The first multiple of the block size is where the padding ends. */
  lemma NotYetPadded(start: nat, n: nat)
    requires start <= n <= start + Missing(start)
    ensures n % CIPHER_BLOCK == 0 <==> n == start + Missing(start)
  {
  }

  /** A C string. */
  predicate Terminated(s: seq<byte>) {
    s != [] && s[|s| - 1] == 0 && forall k :: 0 <= k < |s| - 1 ==> s[k] != 0
  }

  /** The loop that writes the identification line, byte by byte up to its NUL. */
  method PutLine(b: Buffer, line: seq<byte>) returns (ok: bool)
    requires b.Valid() && b.Contents() == [] && b.Geometry().Slim() && Terminated(line) && |line| <= 100
    modifies b, b.buf
    ensures b.Valid() && (b.buf == old(b.buf) || fresh(b.buf))
    ensures ok && b.Contents() == line && b.Geometry().Slim()
  {
    ok := true;
    var i := 0;
    while line[i] != 0
      invariant 0 <= i < |line| && b.Valid() && (b.buf == old(b.buf) || fresh(b.buf))
      invariant b.Contents() == line[..i] && b.Geometry().Slim()
      decreases |line| - i
    {
      ok := PutChar(b, line[i]);
      i := i + 1;
    }
    ok := PutChar(b, 0);
  }

  lemma IdIsTerminated()
    ensures Terminated(ID) && |ID| == 33
  {
  }

  /** Cipher, reserved word, size and public part. */
  method PutHeader(b: Buffer, num: byte, key: PrivateKey, comment: seq<byte>) returns (ok: bool)
    requires Sane(key, comment) && b.Valid()
    modifies b, b.buf
    ensures b.Valid() && (b.buf == old(b.buf) || fresh(b.buf))
    ensures ok ==> key.n > 0 && key.e > 0 && b.Contents() == old(b.Contents()) + Header(num, key, comment)
    ensures ok && old(b.Geometry()).Slim() ==> b.Geometry().Slim()
    ensures StorablePublic(key, comment) && old(Roomy(b, 0x4_4020)) ==>
              ok && |b.Contents()| <= |old(b.Contents())| + 0x4_4020
  {
    ghost var s0 := b.Contents();
    ok := PutIntro(b, num, key.n);
    if !ok {
      return;
    }
    ghost var s1 := b.Contents();
    assert s1 + Numbers([]) == s1;
    ok := PutTwo(b, key.n, key.e, s1, []);
    if !ok {
      return;
    }
    assert [] + [key.n, key.e] == [key.n, key.e];
    ok := PutString(b, comment);
    HeaderParts(s0, num, key, comment);
  }

  function IntroBytes(num: byte, n: nat): (r: seq<byte>)
    ensures |r| == 9
  {
    [num] + Fixed(0, 4) + Fixed(NumBits(n), 4)
  }

  lemma HeaderParts(s: seq<byte>, num: byte, key: PrivateKey, comment: seq<byte>)
    ensures s + IntroBytes(num, key.n) + Numbers([key.n, key.e]) + StringBytes(comment) == s + Header(num, key, comment)
  {
    Assoc(s + IntroBytes(num, key.n), Numbers([key.n, key.e]), StringBytes(comment));
    Assoc(s, IntroBytes(num, key.n), Numbers([key.n, key.e]) + StringBytes(comment));
  }

  method PutIntro(b: Buffer, num: byte, n: nat) returns (ok: bool)
    requires b.Valid()
    modifies b, b.buf
    ensures b.Valid() && (b.buf == old(b.buf) || fresh(b.buf))
    ensures ok ==> b.Contents() == old(b.Contents()) + IntroBytes(num, n)
    ensures ok && old(b.Geometry()).Slim() ==> b.Geometry().Slim()
    ensures old(Roomy(b, 9)) ==> ok
  {
    ok := PutChar(b, num);
    if ok { ok := PutInt(b, 0); }
    if ok { ok := PutInt(b, NumBits(n) % U32); }
    assert ok ==> b.Contents() == old(b.Contents()) + [num] + Fixed(0, 4) + Fixed(NumBits(n) % U32, 4);
    SameWord(NumBits(n));
    ThreeParts(old(b.Contents()), [num], Fixed(0, 4), Fixed(NumBits(n), 4));
  }

  lemma ThreeParts(s: seq<byte>, x: seq<byte>, y: seq<byte>, z: seq<byte>)
    ensures s + x + y + z == s + (x + y + z)
  {
  }

  lemma SameWord(v: nat)
    ensures Fixed(v % U32, 4) == Fixed(v, 4)
  {
    Widths();
    BigFixed(v, 4);
    FixedBig(Fixed(v, 4));
  }

  /** `key_private_rsa1_to_blob`: storable keys always succeed, and success means exactly the file's bytes. */
  method WriteBlob(blob: Buffer, c: Ciphers, key: PrivateKey, pass: seq<byte>, comment: seq<byte>, b0: byte, b1: byte)
    returns (ok: bool)
    requires Sound(c) && Sane(key, comment) && blob.Valid()
    modifies blob, blob.buf
    ensures blob.Valid() && (blob.buf == old(blob.buf) || fresh(blob.buf))
    ensures var bytes := ToBlob(c, key, pass, comment, b0, b1);
            ok ==> bytes.Some? && blob.Contents() == old(blob.Contents()) + bytes.value
    ensures StorablePublic(key, comment) && StorableSecret(key) && old(Roomy(blob, ENOUGH)) ==> ok
  {
    var num := CipherFor(pass);
    var buffer := new Buffer();
    ok := WriteSecret(buffer, key, comment, b0, b1);
    if !ok {
      return;
    }
    var coded := c.enc(num, pass, buffer.buf[buffer.offset..buffer.end]);
    var encrypted := new Buffer();
    ok := WriteFile(encrypted, num, key, comment, coded);
    if !ok {
      return;
    }
    ok := Add(blob, encrypted.buf[encrypted.offset..encrypted.end]);
  }

  /** The file's contents in a buffer of its own. */
  method WriteFile(b: Buffer, num: byte, key: PrivateKey, comment: seq<byte>, coded: seq<byte>) returns (ok: bool)
    requires Sane(key, comment) && b.Valid() && b.Contents() == [] && b.Geometry().Slim() && |coded| < U32
    modifies b, b.buf
    ensures b.Valid() && (b.buf == old(b.buf) || fresh(b.buf))
    ensures ok ==> key.n > 0 && key.e > 0 && b.Contents() == ID + Header(num, key, comment) + coded
    ensures StorablePublic(key, comment) && |coded| <= 0x8020 ==> ok && |b.Contents()| <= ENOUGH
  {
    IdIsTerminated();
    ok := PutLine(b, ID);
    ok := PutHeader(b, num, key, comment);
    if ok {
      ok := Add(b, coded);
    }
  }

  /** What reading 0, 1, 2, ... numbers gives, as a function of their count. */
  ghost predicate ReadsOn(g: nat -> Got<seq<nat>>) {
    forall k: nat {:trigger More(g(k))} :: g(k + 1) == More(g(k))
  }

  lemma NumbersReadOn(start: seq<byte>, k: nat) returns (g: nat -> Got<seq<nat>>)
    ensures ReadsOn(g) && g(0) == Got([], start) && g(k) == GetNumbers(k, start)
  {
    g := j => GetNumbers(j, start);
  }

  lemma BadStays(g: nat -> Got<seq<nat>>, k: nat)
    requires ReadsOn(g) && g(k) == Bad
    ensures g(k + 1) == Bad
  {
    assert More(g(k)) == Bad;
  }

  lemma BadStaysTwice(g: nat -> Got<seq<nat>>, k: nat)
    requires ReadsOn(g) && g(k) == Bad
    ensures g(k + 2) == Bad
  {
    BadStays(g, k);
    BadStays(g, k + 1);
  }

  lemma FourInAll(ns: seq<nat>, x: (nat, nat), y: (nat, nat))
    requires ns == []
    ensures ns + [x.0, x.1] + [y.0, y.1] == [x.0, x.1, y.0, y.1] && |ns + [x.0, x.1]| + 2 == |ns| + 4
  {
  }

  /** Reads one more number of a list. */
  method TakeNumber(b: Buffer, ghost g: nat -> Got<seq<nat>>, ghost ns: seq<nat>) returns (r: Read<nat>)
    requires b.Valid() && ReadsOn(g) && g(|ns|) == Got(ns, b.Contents())
    modifies b`offset
    ensures b.Valid()
    ensures r.Fail? ==> g(|ns| + 1) == Bad
    ensures r.Read? ==> g(|ns| + 1) == Got(ns + [r.value], b.Contents())
  {
    assert g(|ns| + 1) == More(g(|ns|));
    r := GetBignum(b);
  }

  method TakeTwo(b: Buffer, ghost g: nat -> Got<seq<nat>>, ghost ns: seq<nat>) returns (r: Read<(nat, nat)>)
    requires b.Valid() && ReadsOn(g) && g(|ns|) == Got(ns, b.Contents())
    modifies b`offset
    ensures b.Valid()
    ensures r.Fail? ==> g(|ns| + 2) == Bad
    ensures r.Read? ==> g(|ns| + 2) == Got(ns + [r.value.0, r.value.1], b.Contents())
  {
    var x := TakeNumber(b, g, ns);
    if x.Fail? {
      BadStays(g, |ns| + 1);
      return Fail;
    }
    var y := TakeNumber(b, g, ns + [x.value]);
    if y.Fail? {
      return Fail;
    }
    assert ns + [x.value] + [y.value] == ns + [x.value, y.value];
    r := Read((x.value, y.value));
  }

  /** The numbers behind the check bytes. */
  method TakeSecrets(b: Buffer, ghost g: nat -> Got<seq<nat>>, ghost ns: seq<nat>) returns (r: Outcome<seq<nat>>)
    requires b.Valid() && ReadsOn(g) && ns == [] && g(|ns|) == Got(ns, b.Contents())
    modifies b`offset
    ensures b.Valid()
    ensures r == NumbersOf(g(|ns| + 4))
  {
    var x := TakeTwo(b, g, ns);
    if x.Fail? {
      BadStaysTwice(g, |ns| + 2);
      return Fatal;
    }
    ghost var two := ns + [x.value.0, x.value.1];
    var y := TakeTwo(b, g, two);
    if y.Fail? {
      return Fatal;
    }
    FourInAll(ns, x.value, y.value);
    r := Ok([x.value.0, x.value.1, y.value.0, y.value.1]);
  }

  /** The check bytes; a buffer that is not empty holds at least a cipher block. */
  method ReadCheck(b: Buffer) returns (r: Outcome<()>)
    requires b.Valid() && |b.Contents()| % CIPHER_BLOCK == 0
    modifies b`offset
    ensures b.Valid()
    ensures r.Fatal? <==> |old(b.Contents())| < 4
    ensures var s := old(b.Contents()); r.Ok? ==> s[0] == s[2] && s[1] == s[3] && b.Contents() == s[4..]
    ensures var s := old(b.Contents()); r.NoKey? ==> s[0] != s[2] || s[1] != s[3]
  {
    var check1 := GetChar(b);
    if check1.Fail? {
      return Fatal;
    }
    var check2 := GetChar(b);
    var again1 := GetChar(b);
    if check1 != again1 {
      return NoKey;
    }
    var again2 := GetChar(b);
    if check2 != again2 {
      return NoKey;
    }
    r := Ok(());
  }

  /** The check bytes and the secret numbers, from the decrypted buffer. */
  method ReadSecret(b: Buffer) returns (r: Outcome<seq<nat>>)
    requires b.Valid() && |b.Contents()| % CIPHER_BLOCK == 0
    modifies b`offset
    ensures b.Valid() && r == ParseSecret(old(b.Contents()))
  {
    var check := ReadCheck(b);
    if check.Fatal? {
      return Fatal;
    }
    if check.NoKey? {
      return NoKey;
    }
    r := ReadFour(b, 4);
  }

  method ReadFour(b: Buffer, ghost k: nat) returns (r: Outcome<seq<nat>>)
    requires b.Valid() && k == 4
    modifies b`offset
    ensures b.Valid() && r == NumbersOf(GetNumbers(k, old(b.Contents())))
  {
    ghost var g := NumbersReadOn(b.Contents(), k);
    ghost var ns: seq<nat> := [];
    r := TakeSecrets(b, g, ns);
  }

  /** The public part; the bytes that remain in the buffer are the encrypted part. */
  method ReadPublic(b: Buffer) returns (r: Outcome<Public>)
    requires b.Valid()
    modifies b`offset
    ensures b.Valid() && r == ParsePublic(old(b.Contents()))
    ensures r.Ok? ==> r.value.rest == b.Contents()
  {
    var id := Fetch(b, |ID|);
    if id.Fail? || id.value != ID {
      return NoKey;
    }
    r := ReadFields(b);
  }

  /** What follows the identification line. */
  method ReadFields(b: Buffer) returns (r: Outcome<Public>)
    requires b.Valid()
    modifies b`offset
    ensures b.Valid() && r == ParseFields(old(b.Contents()))
    ensures r.Ok? ==> r.value.rest == b.Contents()
  {
    var num := TakeIntro(b);
    if num.Fail? {
      return Fatal;
    }
    ghost var g := NumbersReadOn(b.Contents(), 2);
    r := ReadNumbers(b, num.value, g, []);
  }

  method ReadNumbers(b: Buffer, num: byte, ghost g: nat -> Got<seq<nat>>, ghost ns: seq<nat>)
    returns (r: Outcome<Public>)
    requires b.Valid() && ReadsOn(g) && ns == [] && g(|ns|) == Got(ns, b.Contents())
             && (g(|ns| + 2).Got? ==> |g(|ns| + 2).value| == 2)
    modifies b`offset
    ensures b.Valid() && r == ParseComment(num, g(|ns| + 2))
    ensures r.Ok? ==> r.value.rest == b.Contents()
  {
    var ne := TakeTwo(b, g, ns);
    if ne.Fail? {
      return Fatal;
    }
    assert ns + [ne.value.0, ne.value.1] == [ne.value.0, ne.value.1];
    r := ReadComment(b, num, ne.value.0, ne.value.1);
  }

  method ReadComment(b: Buffer, num: byte, n: nat, e: nat) returns (r: Outcome<Public>)
    requires b.Valid()
    modifies b`offset
    ensures b.Valid() && r == ParseComment(num, Got([n, e], old(b.Contents())))
    ensures r.Ok? ==> r.value.rest == b.Contents()
  {
    var comment := BufferCodec.GetString(b);
    if comment.Fail? {
      return Fatal;
    }
    r := Ok(Public(num, n, e, comment.value, b.buf[b.offset..b.end]));
  }

  /** Cipher number, reserved word and size. */
  method TakeIntro(b: Buffer) returns (r: Read<byte>)
    requires b.Valid()
    modifies b`offset
    ensures b.Valid()
    ensures r.Fail? <==> |old(b.Contents())| < 9
    ensures r.Read? ==> r.value == old(b.Contents())[0] && b.Contents() == old(b.Contents())[9..]
  {
    var num := GetChar(b);
    if num.Fail? {
      return Fail;
    }
    var reserved := GetInt(b);
    if reserved.Fail? {
      return Fail;
    }
    var bits := GetInt(b);
    if bits.Fail? {
      return Fail;
    }
    r := num;
  }

  /** `key_parse_private_rsa1` on a buffer, which it leaves alone. Larger files than a chunk are not loaded. */
  method ParseBlob(blob: Buffer, c: Ciphers, pass: seq<byte>, blinds: PrivateKey -> bool) returns (r: Outcome<Loaded>)
    requires Sound(c) && blob.Valid() && |blob.Contents()| <= BUFFER_MAX_CHUNK
    ensures r == Parse(c, blob.Contents(), pass, blinds)
  {
    var bytes := blob.buf[blob.offset..blob.end];
    var copy := new Buffer();
    var ok := Add(copy, bytes);
    assert [] + bytes == bytes;
    var pub := ReadPublic(copy);
    if pub.NoKey? {
      return NoKey;
    }
    if pub.Fatal? {
      return Fatal;
    }
    if !c.known(pub.value.num) {
      return NoKey;
    }
    if |pub.value.rest| % CIPHER_BLOCK != 0 {
      return Fatal;
    }
    var decrypted := new Buffer();
    ok := Add(decrypted, c.dec(pub.value.num, pass, pub.value.rest));
    var secret := ReadSecret(decrypted);
    r := FinishKey(pub.value, secret, blinds);
  }

  /** The computed exponents and the blinding of the key that was read. */
  method FinishKey(pub: Public, secret: Outcome<seq<nat>>, blinds: PrivateKey -> bool) returns (r: Outcome<Loaded>)
    requires secret.Ok? ==> |secret.value| == 4
    ensures r == Assemble(pub, secret, blinds)
  {
    if secret.NoKey? {
      return NoKey;
    }
    if secret.Fatal? {
      return Fatal;
    }
    var v := secret.value;
    var key := PrivateKey(pub.n, pub.e, v[0], v[1], v[2], v[3]);
    if key.q == 1 || key.p == 1 {
      return Fatal;
    }
    if !blinds(key) {
      return NoKey;
    }
    r := Ok(Loaded(key, pub.comment, Reduced(key.d, key.p).value, Reduced(key.d, key.q).value));
  }
}
