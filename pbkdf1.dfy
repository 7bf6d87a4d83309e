/** PBKDF1, the password-based key derivation function of section 5.1 of
    RFC 8018 (PKCS #5 v2.1), as `PKCS5.PBKDF1` implements it: a validating
    initializer that caches the first hash round T1 = H(password || salt), and
    `calculate`, which hashes T1 another `iterations - 1` times (for
    `iterations >= 2`; with 1 the Swift loop range traps) and keeps the first
    `keyLength` bytes. */
module PKCS5 {
  import opened Wrappers

  type byte = bv8

  /** The hash algorithm the key is derived with. */
  datatype Variant = MD5 | SHA1

  /** HashFn length in bytes of each variant (MD5.size and SHA1.size). */
  function Size(v: Variant): nat {
    match v
    case MD5 => 16
    case SHA1 => 20
  }

  /** The errors the initializer throws. */
  datatype ErrorProblem = InvalidInput | DerivedKeyTooLong

  /** The digest implementations `Variant.calculateHash` dispatches to
      (`Hash.md5` and `Hash.sha1`), which this model does not define: any
      function that, whenever it yields a digest, yields `Size(v)` bytes. */
  type HashFn = h: (Variant, seq<byte>) -> Option<seq<byte>> | Sized(h)
    witness (v: Variant, x: seq<byte>) => None

  ghost predicate Sized(h: (Variant, seq<byte>) -> Option<seq<byte>>) {
    forall v: Variant, x: seq<byte> :: h(v, x).Some? ==> |h(v, x).value| == Size(v)
  }

  /** A hash that never fails, as the force unwrap in `calculate` takes for granted. */
  ghost predicate Total(h: HashFn) {
    forall v: Variant, x: seq<byte> :: h(v, x).Some?
  }

  /** The round chain of the standard: Chain(t, 0) = t and
      Chain(t, n) = H(Chain(t, n - 1)); `None` once some round yields no digest.
      With t = password || salt, Chain(t, i) is T_i. */
  function Chain(h: HashFn, v: Variant, t: seq<byte>, n: nat): Option<seq<byte>>
    decreases n
  {
    if n == 0 then Some(t)
    else match Chain(h, v, t, n - 1)
      case None => None
      case Some(u) => h(v, u)
  }

  /** Once at least one round has been taken, a chain value is a digest. */
  lemma ChainLength(h: HashFn, v: Variant, t: seq<byte>, n: nat)
    requires n > 0 || |t| == Size(v)
    requires Chain(h, v, t, n).Some?
    ensures |Chain(h, v, t, n).value| == Size(v)
  {
  }

  /** A chain that is defined for n rounds is defined for every shorter run. */
  lemma {:induction false} ChainPrefix(h: HashFn, v: Variant, t: seq<byte>, m: nat, n: nat)
    requires m <= n
    requires Chain(h, v, t, n).Some?
    ensures Chain(h, v, t, m).Some?
    decreases n
  {
    if m < n {
      ChainPrefix(h, v, t, m, n - 1);
    }
  }

  /** Taking n + 1 rounds from t is taking the first round and then n rounds
      from its digest: the cached T1 followed by `iterations - 1` rounds is T_iterations. */
  lemma {:induction false} ChainShift(h: HashFn, v: Variant, t: seq<byte>, n: nat)
    ensures Chain(h, v, t, n + 1) ==
      match h(v, t)
      case None => None
      case Some(u) => Chain(h, v, u, n)
    decreases n
  {
    if n > 0 {
      ChainShift(h, v, t, n - 1);
    }
  }

  /** With a hash that never fails, every chain is defined. */
  lemma {:induction false} ChainTotal(h: HashFn, v: Variant, t: seq<byte>, n: nat)
    requires Total(h)
    ensures Chain(h, v, t, n).Some?
    decreases n
  {
    if n > 0 {
      ChainTotal(h, v, t, n - 1);
      var u := Chain(h, v, t, n - 1).value;
      assert h(v, u).Some?;
    }
  }

  /** The key length the initializer uses: the one given, or the digest size. */
  function EffectiveKeyLength(v: Variant, keyLength: Option<nat>): nat {
    match keyLength
    case Some(n) => n
    case None => Size(v)
  }

  /** PBKDF1 as section 5.1 of RFC 8018 defines it, as one function of its
      inputs: "derived key too long" when dkLen exceeds the digest size, else
      the first dkLen bytes of T_c; `InvalidInput` when the hash yields nothing. */
  function Pbkdf1(h: HashFn, v: Variant, password: seq<byte>, salt: seq<byte>, c: nat, dkLen: nat)
    : (r: Result<seq<byte>, ErrorProblem>)
    requires c > 0
    ensures r.Success? ==> |r.value| == dkLen
  {
    if dkLen > Size(v) then Failure(DerivedKeyTooLong)
    else match Chain(h, v, password + salt, c)
      case None => Failure(InvalidInput)
      case Some(t) =>
        ChainLength(h, v, password + salt, c);
        Success(t[..dkLen])
  }

  /** A derivation: the state `PKCS5.PBKDF1` keeps after a successful init.
      All of its fields are `let`, so the value never changes. */
  datatype PBKDF1 = PBKDF1(
    iterations: nat,   // c
    variant: Variant,
    keyLength: nat,    // dkLen
    t1: seq<byte>,     // T1 = H(password || salt)
    hash: HashFn)
  {
    /** What a successful init establishes. */
    ghost predicate Valid() {
      iterations > 0 && keyLength <= Size(variant) && |t1| == Size(variant)
    }

    /** The hash yields a digest in each of the `iterations - 1` rounds after
        T1, so the force unwrap in `calculate` does not trap. */
    ghost predicate Derivable()
      requires Valid()
    {
      Chain(hash, variant, t1, iterations - 1).Some?
    }

    /** T_iterations: T1 hashed `iterations - 1` more times. */
    ghost function Last(): (t: seq<byte>)
      requires Valid() && Derivable()
      ensures |t| == Size(variant)
    {
      ChainLength(hash, variant, t1, iterations - 1);
      Chain(hash, variant, t1, iterations - 1).value
    }

    /** The derived key: `keyLength` bytes, a prefix of T_iterations. */
    ghost function DerivedKey(): (dk: seq<byte>)
      requires Valid() && Derivable()
      ensures |dk| == keyLength
      ensures dk <= Last()
    {
      Last()[..keyLength]
    }

    /** The throwing initializer. The salt length and a positive iteration
        count are Swift preconditions (a trap, not an error). The key-length
        check comes before any hashing, so its error does not depend on the
        hash; a hash that yields nothing for password || salt throws
        `invalidInput`; otherwise the fields are stored as given. */
    static function Init(password: seq<byte>, salt: seq<byte>, variant: Variant,
                         iterations: nat, keyLength: Option<nat>, hash: HashFn)
      : (r: Result<PBKDF1, ErrorProblem>)
      requires iterations > 0
      requires |salt| == 8
      ensures EffectiveKeyLength(variant, keyLength) > Size(variant) ==>
        r.Failure? && r.error == DerivedKeyTooLong
      ensures (EffectiveKeyLength(variant, keyLength) <= Size(variant) &&
               hash(variant, password + salt).None?) ==>
        r.Failure? && r.error == InvalidInput
      ensures r.Success? <==>
        EffectiveKeyLength(variant, keyLength) <= Size(variant) &&
        hash(variant, password + salt).Some?
      ensures r.Success? ==>
        && r.value.Valid()
        && r.value.iterations == iterations
        && r.value.variant == variant
        && r.value.keyLength == EffectiveKeyLength(variant, keyLength)
        && r.value.t1 == hash(variant, password + salt).value
        && r.value.hash == hash
    {
      var keyLength := EffectiveKeyLength(variant, keyLength);
      if keyLength > Size(variant) then Failure(DerivedKeyTooLong)
      else match hash(variant, password + salt)
        case None => Failure(InvalidInput)
        case Some(t1) => Success(PBKDF1(iterations, variant, keyLength, t1, hash))
    }

    /** The initializer called with its default arguments: SHA-1, 4096
        iterations and the full 20-byte digest as key. */
    static function InitDefaults(password: seq<byte>, salt: seq<byte>, hash: HashFn)
      : (r: Result<PBKDF1, ErrorProblem>)
      requires |salt| == 8
      ensures r.Success? <==> hash(SHA1, password + salt).Some?
      ensures r.Failure? ==> r.error == InvalidInput
      ensures r.Success? ==>
        && r.value.variant == SHA1
        && r.value.iterations == 4096
        && r.value.keyLength == 20
        && r.value.t1 == hash(SHA1, password + salt).value
    {
      Init(password, salt, SHA1, 4096, None, hash)
    }

    /** `calculate`, with the iteration count the standard prescribes:
        `iterations - 1` rounds after T1, none when `iterations` is 1. It
        changes nothing, and its result is a function of the stored fields. */
    method Calculate() returns (key: seq<byte>)
      requires Valid() && Derivable()
      ensures |key| == keyLength
      ensures key == DerivedKey()
    {
      var t := t1;
      var i := 2;
      while i <= iterations
        invariant 2 <= i <= iterations + 1
        invariant Chain(hash, variant, t1, i - 2) == Some(t)
      {
        ChainPrefix(hash, variant, t1, i - 1, iterations - 1);
        t := hash(variant, t).value;
        i := i + 1;
      }
      ChainLength(hash, variant, t1, iterations - 1);
      key := t[..keyLength];
    }

    /** `calculate` as written: the loop runs over the Swift closed range
        `2...iterations`, which traps (`None` here) unless 2 <= iterations. */
    method CalculateAsWritten() returns (r: Option<seq<byte>>)
      requires Valid() && Derivable()
      ensures r.None? <==> iterations == 1
      ensures r.Some? ==> r.value == DerivedKey()
    {
      if iterations < 2 {
        return None;
      }
      var key := Calculate();
      return Some(key);
    }
  }

  /** With no key length given, the key is the whole digest: 16 bytes for
      MD5, 20 for SHA-1, and `derivedKeyTooLong` is never thrown. */
  lemma DefaultKeyLength(password: seq<byte>, salt: seq<byte>, variant: Variant,
                         iterations: nat, hash: HashFn)
    requires iterations > 0
    requires |salt| == 8
    ensures var r := PBKDF1.Init(password, salt, variant, iterations, None, hash);
      && (r.Failure? ==> r.error == InvalidInput)
      && (r.Success? ==> r.value.keyLength == if variant == MD5 then 16 else 20)
  {
  }

  /** Init followed by the derivation computes PBKDF1 of RFC 8018: the two
      fail together with the same error, and otherwise give the same key. */
  lemma InitDeriveIsPbkdf1(password: seq<byte>, salt: seq<byte>, variant: Variant,
                           iterations: nat, keyLength: Option<nat>, hash: HashFn)
    requires iterations > 0
    requires |salt| == 8
    ensures var r := PBKDF1.Init(password, salt, variant, iterations, keyLength, hash);
      var dk := Pbkdf1(hash, variant, password, salt, iterations,
                       EffectiveKeyLength(variant, keyLength));
      && (r.Failure? ==> dk == Failure(r.error))
      && (r.Success? ==> (r.value.Derivable() <==> dk.Success?))
      && (r.Success? && r.value.Derivable() ==> dk == Success(r.value.DerivedKey()))
  {
    ChainShift(hash, variant, password + salt, iterations - 1);
  }

  /** With a hash that never fails, a successful init can always derive. */
  lemma TotalHashDerives(p: PBKDF1)
    requires p.Valid()
    requires Total(p.hash)
    ensures p.Derivable()
  {
    ChainTotal(p.hash, p.variant, p.t1, p.iterations - 1);
  }

  /** A single iteration is accepted by init, and the key it should give is
      the truncated first round H(password || salt). */
  lemma OneIteration(password: seq<byte>, salt: seq<byte>, variant: Variant,
                     keyLength: Option<nat>, hash: HashFn)
    requires |salt| == 8
    requires EffectiveKeyLength(variant, keyLength) <= Size(variant)
    requires hash(variant, password + salt).Some?
    ensures var r := PBKDF1.Init(password, salt, variant, 1, keyLength, hash);
      && r.Success?
      && r.value.Derivable()
      && r.value.DerivedKey() ==
           hash(variant, password + salt).value[..EffectiveKeyLength(variant, keyLength)]
  {
  }
}
