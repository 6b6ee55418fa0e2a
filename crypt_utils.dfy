/**
 * Salt generation, hashing and verification of crypt_utils.c.
 *
 * The libc calls the routines make are parameters of the model:
 * - `crypt(key, salt)` is a `Digest`, a total function value, so it is
 *   deterministic by construction; `None` is its NULL result;
 * - the values `rand()` returns are a sequence of naturals `draws`
 *   (`rand()` is never negative, so C's `%` and Dafny's `%` agree on them).
 */
module CryptUtils {
  import opened Wrappers
  import opened CStrings

  // ---------------------------------------------------------------------------
  // The salt alphabet
  // ---------------------------------------------------------------------------

  /**
   * `charset` of generate_salt: '.', '/', the digits, the upper-case and the
   * lower-case letters, in that order (one literal in C, written here as the
   * concatenation of its four character classes).
   */
  const Charset: string := "./" + "0123456789" + "ABCDEFGHIJKLMNOPQRSTUVWXYZ" + "abcdefghijklmnopqrstuvwxyz"

  /** `charset_size`: the length of the literal without its terminator. */
  const CharsetSize: nat := |Charset|

  /** Membership in the salt alphabet `[./0-9A-Za-z]`, stated by character class. */
  predicate IsSaltChar(c: char) {
    c == '.' || c == '/' || '0' <= c <= '9' || 'A' <= c <= 'Z' || 'a' <= c <= 'z'
  }

  /** The code point at every position of the alphabet: four runs of consecutive characters. */
  lemma CharsetCodes()
    ensures CharsetSize == 64
    ensures forall i :: 0 <= i < 12 ==> Charset[i] == (46 + i) as char
    ensures forall i :: 12 <= i < 38 ==> Charset[i] == (53 + i) as char
    ensures forall i :: 38 <= i < 64 ==> Charset[i] == (59 + i) as char
  {
  }

  /** The alphabet is strictly ascending, hence free of repeats. */
  lemma {:induction false} CharsetAscending(i: nat, j: nat)
    requires i < j < CharsetSize
    ensures Charset[i] < Charset[j]
    decreases j - i
  {
    CharsetCodes();
    if i + 1 < j {
      CharsetAscending(i + 1, j);
    }
  }

  /** The literal holds exactly the characters of `[./0-9A-Za-z]`. */
  lemma CharsetIsSaltAlphabet(c: char)
    ensures c in Charset <==> IsSaltChar(c)
  {
    CharsetCodes();
    if IsSaltChar(c) {
      var i := if c <= '9' then c as int - 46 else if c <= 'Z' then c as int - 53 else c as int - 59;
      assert Charset[i] == c;
    }
  }

  // ---------------------------------------------------------------------------
  // generate_salt
  // ---------------------------------------------------------------------------

  /** `charset[r % charset_size]`: the salt character one draw of `rand()` selects. */
  function SaltChar(r: nat): (c: char)
    ensures 0 <= r % CharsetSize < 64
    ensures IsSaltChar(c) && c != NUL
  {
    CharsetCodes();
    CharsetIsSaltAlphabet(Charset[r % CharsetSize]);
    Charset[r % CharsetSize]
  }

  /** The characters the loop of generate_salt writes, one per draw. */
  function SaltChars(draws: seq<nat>): (s: string)
    ensures |s| == |draws|
    ensures forall i :: 0 <= i < |draws| ==> s[i] == Charset[draws[i] % CharsetSize]
  {
    if draws == [] then [] else [SaltChar(draws[0])] + SaltChars(draws[1..])
  }

  /**
   * The `salt_size` cells generate_salt fills from the first `salt_size - 1`
   * draws: a C string of exactly `salt_size - 1` alphabet characters, then NUL.
   */
  function SaltOf(draws: seq<nat>, saltSize: nat): (buf: seq<char>)
    requires 1 <= saltSize && saltSize - 1 <= |draws|
    ensures |buf| == saltSize && buf[saltSize - 1] == NUL
    ensures forall i :: 0 <= i < saltSize - 1 ==> IsSaltChar(buf[i])
    ensures |CStringOf(buf)| == saltSize - 1
  {
    var s := SaltChars(draws[..saltSize - 1]);
    assert forall i :: 0 <= i < |s| ==> s[i] == SaltChar(draws[i]);
    assert NUL !in s;
    Terminated(s)
  }

  /**
   * The salt depends on nothing but the draws, position by position: two
   * sequences of draws give the same salt exactly when they agree modulo 64
   * at every filled position.
   */
  lemma SaltDeterminedByDraws(d1: seq<nat>, d2: seq<nat>, saltSize: nat)
    requires 1 <= saltSize && saltSize - 1 <= |d1| && saltSize - 1 <= |d2|
    ensures SaltOf(d1, saltSize) == SaltOf(d2, saltSize)
        <==> forall i :: 0 <= i < saltSize - 1 ==> d1[i] % 64 == d2[i] % 64
  {
    CharsetCodes();
    var s1, s2 := SaltOf(d1, saltSize), SaltOf(d2, saltSize);
    if s1 == s2 {
      forall i | 0 <= i < saltSize - 1
        ensures d1[i] % 64 == d2[i] % 64
      {
        assert s1[i] == Charset[d1[i] % 64] && s2[i] == Charset[d2[i] % 64];
        var a, b := d1[i] % 64, d2[i] % 64;
        if a < b {
          CharsetAscending(a, b);
        } else if b < a {
          CharsetAscending(b, a);
        }
      }
    } else {
      var k :| 0 <= k < saltSize && s1[k] != s2[k];
      assert k < saltSize - 1;
      assert d1[k] % 64 != d2[k] % 64;
    }
  }

  /**
   * generate_salt: fills `salt[0 .. saltSize - 2]` from successive draws and
   * stores the terminator at `salt[saltSize - 1]`; cells from `saltSize` on
   * are not written.
   */
  method GenerateSalt(salt: array<char>, saltSize: nat, draws: seq<nat>)
    requires 1 <= saltSize <= salt.Length
    requires saltSize - 1 <= |draws|
    modifies salt
    ensures salt[..saltSize] == SaltOf(draws, saltSize)
    ensures salt[saltSize..] == old(salt[saltSize..])
  {
    for i := 0 to saltSize - 1
      invariant forall k :: 0 <= k < i ==> salt[k] == Charset[draws[k] % CharsetSize]
      invariant forall k :: saltSize - 1 <= k < salt.Length ==> salt[k] == old(salt[k])
    {
      salt[i] := Charset[draws[i] % CharsetSize];
    }
    salt[saltSize - 1] := NUL;
  }

  // ---------------------------------------------------------------------------
  // encrypt_string and verify_hash
  // ---------------------------------------------------------------------------

  /** `crypt(key, salt)`: a deterministic digest that may fail (NULL). */
  type Digest = (CString, CString) -> Option<CString>

  /**
   * encrypt_string: on success of `crypt` copies the digest, terminated, into
   * `hashed` and returns true; on failure returns false and leaves `hashed`
   * as it was. `strcpy` does not check the capacity, so the digest must fit.
   */
  method EncryptString(crypt: Digest, plainText: CString, salt: CString, hashed: array<char>)
    returns (ok: bool)
    requires crypt(plainText, salt).Some? ==> |crypt(plainText, salt).value| < hashed.Length
    modifies hashed
    ensures ok <==> crypt(plainText, salt).Some?
    ensures ok ==> CStringOf(hashed[..]) == crypt(plainText, salt).value
    ensures ok ==> hashed[..|crypt(plainText, salt).value| + 1] == Terminated(crypt(plainText, salt).value)
    ensures ok ==> hashed[|crypt(plainText, salt).value| + 1..] == old(hashed[|crypt(plainText, salt).value| + 1..])
    ensures !ok ==> hashed[..] == old(hashed[..])
  {
    var result := crypt(plainText, salt);
    if result.Some? {
      var digest := result.value;
      forall i | 0 <= i < |digest| {
        hashed[i] := digest[i];
      }
      hashed[|digest|] := NUL;
      assert hashed[..] == Terminated(digest) + hashed[|digest| + 1..];
      TerminatedReadsBack(digest, hashed[|digest| + 1..]);
      ok := true;
    } else {
      ok := false;
    }
  }

  /**
   * verify_hash: recomputes the digest into a local buffer of
   * `maxStringLength` cells and compares it with `cryptHash` (`strcmp == 0`).
   * True exactly when `crypt` succeeds and yields `cryptHash`; a failing
   * `crypt` gives false whatever `cryptHash` is.
   */
  method VerifyHash(crypt: Digest, plainText: CString, cryptHash: CString, salt: CString, maxStringLength: nat)
    returns (matches: bool)
    requires crypt(plainText, salt).Some? ==> |crypt(plainText, salt).value| < maxStringLength
    ensures matches <==> crypt(plainText, salt) == Some(cryptHash)
    ensures crypt(plainText, salt).None? ==> !matches
  {
    var expectedHash := new char[maxStringLength];
    var ok := EncryptString(crypt, plainText, salt, expectedHash);
    if ok {
      matches := CStringOf(expectedHash[..]) == cryptHash;
    } else {
      matches := false;
    }
  }

  /**
   * Round trip: the hash encrypt_string leaves in its buffer, read back as a
   * C string, is the one verify_hash recomputes for the same plaintext and
   * salt, so verify_hash accepts it; any other hash it rejects.
   */
  lemma EncryptedHashVerifies(crypt: Digest, plainText: CString, salt: CString, hashed: seq<char>, other: CString)
    requires crypt(plainText, salt).Some?
    requires |crypt(plainText, salt).value| < |hashed|
    requires hashed[..|crypt(plainText, salt).value| + 1] == Terminated(crypt(plainText, salt).value)
    ensures crypt(plainText, salt) == Some(CStringOf(hashed))
    ensures other != CStringOf(hashed) ==> crypt(plainText, salt) != Some(other)
  {
    var digest := crypt(plainText, salt).value;
    assert hashed == digest + [NUL] + hashed[|digest| + 1..];
    TerminatedReadsBack(digest, hashed[|digest| + 1..]);
  }
}
