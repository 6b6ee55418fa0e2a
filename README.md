# crypt_string: salt generation, hashing and verification

A Dafny model of `src/crypt_utils.c` from crypt_string, a small C utility that hashes a
password with `crypt()` under a random salt and later checks a password against a stored
hash and salt. The file has three routines:

- `generate_salt(salt, salt_size)` fills a caller's buffer with `salt_size - 1` characters
  drawn from the 64-symbol alphabet `./0-9A-Za-z` (`charset[rand() % 64]`), then a NUL.
- `encrypt_string(plainText, salt, hashed)` calls `crypt()`. On success it copies the digest
  into `hashed` and returns true. On failure (NULL) it returns false and writes nothing.
- `verify_hash(plainText, crypt_hash, salt)` recomputes the digest into a local buffer and
  returns true exactly when that worked and the result equals `crypt_hash`. A failed
  recomputation counts as a mismatch, so verification is a total predicate.

The model is split into two files:

- `c_strings.dfy` has module `Wrappers`, which defines `Option`, where `None` is a NULL
  pointer. It also has module `CStrings`, which gives the C string convention the routines
  rely on. `CString` is a string without NUL. `CStringOf` is what a buffer holds up to its
  first NUL, which is how `strcmp` reads it. `Terminated` is what `strcpy` writes.
- `crypt_utils.dfy` has module `CryptUtils`, with the three routines. `GenerateSalt` and
  `EncryptString` are methods that write into caller-supplied arrays, as the C code does.
  `VerifyHash` is a method: it allocates its own buffer, calls `EncryptString` and compares.
  The alphabet facts and the salt contents are stated through the functions `SaltChar`,
  `SaltChars` and `SaltOf`, and through lemmas about them.

The foreign calls are parameters of the model:

- `crypt()` is a `Digest`, a total function value `(CString, CString) -> Option<CString>`.
  Because it is a function value, it is deterministic by construction: the same plaintext
  and salt always give the same result.
- The values `rand()` returns are a sequence `draws` of naturals. `rand()` never returns a
  negative value, so C's truncating `%` agrees with Dafny's `%` on them.

## Model

| member | source | states |
|---|---|---|
| CryptUtils.CharsetCodes | src/crypt_utils.c:25-26 | `charset_size` is 64, and the alphabet is four runs of consecutive code points: `./0-9`, `A-Z`, `a-z` |
| CryptUtils.CharsetAscending | src/crypt_utils.c:25 | the alphabet is strictly ascending, so no character appears twice |
| CryptUtils.CharsetIsSaltAlphabet | src/crypt_utils.c:25 | a character is in the literal if and only if it matches `[./0-9A-Za-z]` |
| CryptUtils.SaltChar | src/crypt_utils.c:26-32 | the index `rand() % charset_size` is in `[0, 64)`, and the character it selects is in the alphabet and is not NUL |
| CryptUtils.SaltChars | src/crypt_utils.c:30-33 | the loop writes one character per draw: the character at position i is `charset[r_i % 64]`, which depends on the i-th draw alone |
| CryptUtils.SaltOf | src/crypt_utils.c:30-34 | the salt buffer has `salt_size` cells, the last one is NUL, every earlier one is an alphabet character, and the C string it holds has length exactly `salt_size - 1` |
| CryptUtils.SaltDeterminedByDraws | src/crypt_utils.c:28-33 | the same draws give the same salt; in both directions, two sequences of draws give equal salts exactly when they agree modulo 64 at every filled position |
| CryptUtils.GenerateSalt | src/crypt_utils.c:23-35 | for `salt_size >= 1`, the first `salt_size` cells become `SaltOf(draws, salt_size)`, and no cell from `salt_size` on is written |
| CStrings.CStringOf | src/crypt_utils.c:83 | the C string a buffer holds, as `strcmp` reads it, is the prefix before its first NUL, and it contains no NUL |
| CStrings.Terminated | src/crypt_utils.c:55 | what `strcpy` writes is the string followed by NUL, and reading it back as a C string gives the string |
| CStrings.TerminatedReadsBack | src/crypt_utils.c:55 | reading back a NUL-terminated copy gives the original string, whatever follows the terminator |
| CryptUtils.EncryptString | src/crypt_utils.c:48-63 | returns true if and only if `crypt` is non-NULL; on success the buffer holds exactly the digest with its terminator, and cells past the terminator are unchanged; on failure the buffer is unchanged |
| CryptUtils.VerifyHash | src/crypt_utils.c:76-89 | true if and only if recomputing the digest of `(plainText, salt)` succeeds and equals `crypt_hash`; false whenever recomputation fails, whatever `crypt_hash` is |
| CryptUtils.EncryptedHashVerifies | src/crypt_utils.c:48-56 | round trip: the hash `encrypt_string` leaves in its buffer is exactly what `verify_hash` recomputes for the same plaintext and salt, so it is accepted; any other hash is rejected |

## Left out

- `srand(time(NULL))` (line 28) and how good `rand()` is: the draws are a parameter, and the model makes no claim about uniformity or unpredictability. Reseeding from the clock on every call makes two calls in the same second produce the same salt. That weakness is not modelled.
- The internals of `crypt()` (traditional DES crypt, with a 2-character salt and plaintext truncated to 8 characters): it is a foreign library call, kept as an uninterpreted deterministic `Digest` that may fail.
- `perror` (line 60): diagnostic output only.
- `MAX_STRING_LENGTH` is defined in `include/crypt_utils.h`, which is not part of this model. `VerifyHash` takes it as the parameter `maxStringLength`. The unchecked `strcpy` (line 55) is stated as a precondition of `EncryptString` and `VerifyHash`: the digest and its terminator must fit the buffer. Overflow behaviour is not modelled.
- `generate_salt` with `salt_size == 0`: `salt_size - 1` wraps around on a `size_t`, and the loop would write outside the buffer. `GenerateSalt` requires `salt_size >= 1`, and the only caller passes `sizeof` of a non-empty array.
- `src/crypt_string.c` (the menu loop, `getpass`, the prompts and `read_input`): terminal input and output around the core.
