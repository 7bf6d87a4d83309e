# PBKDF1 (CryptoSwift `PKCS5.PBKDF1`) in Dafny

This project models CryptoSwift's PBKDF1 key derivation and proves properties of the model.
PBKDF1 is the password-based key derivation function of section 5.1 of RFC 8018 (PKCS #5 v2.1).
`PKCS5.PBKDF1` is a Swift struct. Its initializer checks its arguments and caches the first hash
round T1 = H(password ‖ salt). Its `calculate` hashes T1 `iterations − 1` more times (for
`iterations ≥ 2`; see Findings) and returns the first `keyLength` bytes.

How the Swift maps to Dafny:

- The struct's fields are all `let`, so it is a value. It becomes the datatype `PKCS5.PBKDF1`.
- The throwing `init` becomes the function `PBKDF1.Init`. It returns `Result<PBKDF1, ErrorProblem>`.
  `Failure(e)` stands for `throw e`.
- `calculate` keeps its loop. It is the method `PBKDF1.Calculate`, with a `while` loop whose
  invariant is `Chain(t1, i − 2) == Some(t)`.
- `Variant.calculateHash` is not defined in this model. It becomes the field `hash`, whose type
  `HashFn` is any function `(Variant, bytes) -> Option<bytes>` that, whenever it yields a
  digest, yields `Size(variant)` bytes (16 for MD5, 20 for SHA-1). `None` is Swift's `nil`.
- The traps in the source become `requires` clauses:
  - `precondition(iterations > 0)` and `precondition(salt.count == 8)` on `Init`;
  - the force unwrap on line 79 on `Calculate`, as `Derivable()`: the hash yields a digest in
    every round of the chain.
- `Pbkdf1` is an independent reference: the RFC's definition written as one function of
  password, salt, c and dkLen. `InitDeriveIsPbkdf1` proves that `Init` followed by the derived
  key agrees with it, error for error and byte for byte.

Two edge cases deserve a note:

- A salt that is not 8 bytes long fails a Swift `precondition` (line 57). The code traps, so
  `Init` requires `|salt| == 8`.
- For `iterations == 1` the loop on line 78 traps (see Findings). Section 5.1 of RFC 8018 gives
  zero extra rounds for c = 1. `Calculate` follows the RFC: it does zero rounds and returns the
  truncated T1. `CalculateAsWritten` follows the code: it returns `None`, the trap.

## Model

| member | source | states |
|---|---|---|
| `PKCS5.Size` | Sources/CryptoSwift/PKCS5/PBKDF1.swift:26-33 | `Variant.size`: the digest length in bytes, 16 for MD5 and 20 for SHA-1 (a constant table; what it bounds is stated by `Init` and `DefaultKeyLength`). |
| `PKCS5.Chain` | Sources/CryptoSwift/PKCS5/PBKDF1.swift:77-80 | The round recursion of the loop: zero rounds give t, and round n hashes the value after round n − 1; `None` once a round yields nil. Its properties are `ChainLength`, `ChainPrefix`, `ChainShift` and `ChainTotal`. |
| `PKCS5.PBKDF1.Init` | Sources/CryptoSwift/PKCS5/PBKDF1.swift:55-73 | Requires iterations > 0 and an 8-byte salt (Swift preconditions). An effective key length above the digest size gives `DerivedKeyTooLong` whatever the hash does, since it is checked before any hashing. Otherwise, if the hash yields nothing for password ‖ salt, it gives `InvalidInput`. It succeeds exactly when neither happens. On success it stores iterations, variant, the effective key length (the given one, else the digest size) and t1 = H(password ‖ salt), and the result satisfies `Valid()`. |
| `PKCS5.PBKDF1.InitDefaults` | Sources/CryptoSwift/PKCS5/PBKDF1.swift:55 | With the default arguments (SHA-1, 4096 iterations, no key length), init fails only with `InvalidInput`, exactly when the hash of password ‖ salt is nil. On success the key length is 20 and the iteration count is 4096. |
| `PKCS5.DefaultKeyLength` | Sources/CryptoSwift/PKCS5/PBKDF1.swift:59 | With no key length given, init never throws `derivedKeyTooLong`. The key length it stores is the digest size: 16 for MD5, 20 for SHA-1 (lines 26-33). |
| `PKCS5.PBKDF1.DerivedKey` | Sources/CryptoSwift/PKCS5/PBKDF1.swift:81 | The derived key has exactly `keyLength` bytes and is a prefix of T_iterations. |
| `PKCS5.PBKDF1.Last` | Sources/CryptoSwift/PKCS5/PBKDF1.swift:77-80 | T_iterations, that is t1 hashed `iterations − 1` more times, is a full digest of `Size(variant)` bytes. |
| `PKCS5.PBKDF1.Calculate` | Sources/CryptoSwift/PKCS5/PBKDF1.swift:76-82 | Returns exactly `keyLength` bytes, equal to `DerivedKey()`. It does `iterations − 1` rounds after t1, and none when iterations is 1. It has no `modifies` clause and its result is a function of the stored fields, so repeated calls return identical bytes. |
| `PKCS5.PBKDF1.CalculateAsWritten` | Sources/CryptoSwift/PKCS5/PBKDF1.swift:78 | The Swift loop over `2...iterations` traps (`None`) exactly when iterations is 1. Otherwise it returns `DerivedKey()`. |
| `PKCS5.ChainLength` | Sources/CryptoSwift/PKCS5/PBKDF1.swift:79 | After at least one round, a chain value is a digest of `Size(variant)` bytes. So slicing `keyLength ≤ Size(variant)` bytes from it is always in range. |
| `PKCS5.ChainPrefix` | Sources/CryptoSwift/PKCS5/PBKDF1.swift:78-79 | If the hash chain is defined for n rounds, it is defined for every m ≤ n. So no earlier round of the loop hits the force unwrap. |
| `PKCS5.ChainShift` | Sources/CryptoSwift/PKCS5/PBKDF1.swift:65-80 | n + 1 rounds from t are the first round followed by n rounds from its digest, and `None` if the first round yields nothing. So the cached t1 followed by `iterations − 1` rounds is T_iterations computed from password ‖ salt. |
| `PKCS5.ChainTotal` | Sources/CryptoSwift/PKCS5/PBKDF1.swift:79 | If the hash never yields nil, every chain is defined. |
| `PKCS5.TotalHashDerives` | Sources/CryptoSwift/PKCS5/PBKDF1.swift:76-82 | With a hash that never fails, every valid value satisfies `Derivable()`: the force unwrap on line 79 cannot trap, so `Calculate` needs nothing more than `Valid()`. |
| `PKCS5.Pbkdf1` | Sources/CryptoSwift/PKCS5/PBKDF1.swift:61-81 | Reference PBKDF1 as section 5.1 of RFC 8018 defines it: "derived key too long" when dkLen exceeds the digest size; otherwise the first dkLen bytes of T_c. Any key it returns is dkLen bytes long. |
| `PKCS5.InitDeriveIsPbkdf1` | Sources/CryptoSwift/PKCS5/PBKDF1.swift:55-82 | `Init` followed by the derived key is the reference PBKDF1. They fail together with the same error. A successful init can derive exactly when the reference succeeds, and then the keys are equal. |
| `PKCS5.OneIteration` | Sources/CryptoSwift/PKCS5/PBKDF1.swift:56 | Init accepts iterations = 1 (when the key length fits and the hash yields a digest). The key the standard prescribes for it is H(password ‖ salt) truncated to the key length. |

## Left out

- The MD5 and SHA-1 implementations (`Hash.md5`, `Hash.sha1`, `MD5.size`, `SHA1.size`) are not part of this model. The hash is the stored field `hash` of type `HashFn`. The digest sizes 16 and 20 are constants in `Size`.
- The trap on line 79 when the hash yields nil inside the loop is not modelled as a behaviour. `Calculate` requires it not to happen (`Derivable()`).
- A negative `keyLength` is excluded by its type (`nat`). The source does not check it, and slicing would trap.
- Cryptographic-strength claims are not modelled. For example, that N and N + 1 iterations give different keys is a probabilistic fact about the hash, not a property of this code.
- Concurrent calls to `calculate` are not modelled. The value is immutable and `Calculate` modifies nothing, so there is no shared state to reason about.
- The cost of derivation (the number of hash calls) is not counted. The model states only which chain value is returned.

## Findings

| source | as written | input that shows it | evidently intended | confidence | as-written member | corrected member |
|---|---|---|---|---|---|---|
| Sources/CryptoSwift/PKCS5/PBKDF1.swift:78 | `for _ in 2...self.iterations` builds a closed range from 2 to `iterations`. Swift traps when the lower bound exceeds the upper bound, while `init` accepts `iterations == 1` | iterations = 1, for example SHA-1, password "password", salt "12345678", no key length | zero rounds after T1: the key is H(password ‖ salt) truncated to keyLength, as section 5.1 of RFC 8018 gives for c = 1 | high; not executed | `PKCS5.PBKDF1.CalculateAsWritten` (returns `None`, the trap, exactly when iterations is 1) | `PKCS5.PBKDF1.Calculate` with `PKCS5.OneIteration` (zero rounds; the key is the truncated first round) |
