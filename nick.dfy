/**
 * The nickname filter of the turfwar server (`IsValidNick`): the only
 * authentication the game has is a whitelist of nickname bytes.
 */
module Nick {
  import opened Bytes

  /** Longest nickname, in bytes (`NICK_MAX`). */
  const NICK_MAX: nat := 40

  /** The punctuation a nickname may contain besides letters and digits. */
  const NICK_PUNCTUATION: seq<uint8> := Ascii("@/:.^+!-_*")

  /** `isalnum` in the C locale: ASCII letters and digits only. */
  predicate IsAlnum(c: uint8) {
    IsDigit(c) || (0x41 <= c <= 0x5A) || (0x61 <= c <= 0x7A)
  }

  predicate IsNickByte(c: uint8) {
    IsAlnum(c) || c in NICK_PUNCTUATION
  }

  /** One to `NICK_MAX` bytes, every one of them whitelisted. */
  predicate ValidNick(s: seq<uint8>) {
    1 <= |s| <= NICK_MAX && forall i | 0 <= i < |s| :: IsNickByte(s[i])
  }

  /**
   * `IsValidNick(s, n)`: the empty and the over-long input are rejected before
   * any byte is looked at; otherwise the bytes are scanned in order and the
   * first one outside the whitelist rejects.
   */
  method IsValidNick(s: seq<uint8>) returns (ok: bool)
    ensures ok <==> 1 <= |s| <= NICK_MAX && forall i | 0 <= i < |s| :: IsNickByte(s[i])
    ensures ok == ValidNick(s)
  {
    var n := |s|;
    if n == 0 {
      return false;
    }
    if n > NICK_MAX {
      return false;
    }
    var i := 0;
    while i < n
      invariant 0 <= i <= n
      invariant forall k | 0 <= k < i :: IsNickByte(s[k])
    {
      if !(IsAlnum(s[i]) || s[i] in NICK_PUNCTUATION) {
        return false;
      }
      i := i + 1;
    }
    return true;
  }

  /**
   * A valid nickname carries none of the bytes that are special in the HTML
   * of the claim page, which pastes it unescaped: no NUL, space, quote,
   * apostrophe, backslash, `<`, `>` or `&`. (The JSON documents escape it.)
   */
  lemma ValidNickIsInert(s: seq<uint8>, i: nat)
    requires ValidNick(s) && i < |s|
    ensures s[i] !in {0x00, 0x20, 0x22, 0x27, 0x5C, 0x3C, 0x3E, 0x26}
  {
    assert IsNickByte(s[i]);
  }

  /** Sample names: `Alice` passes; `bad name!!` fails on its space; the empty name fails on length. */
  lemma NickExamples()
    ensures ValidNick(Ascii("Alice"))
    ensures !ValidNick(Ascii("bad name!!"))
    ensures !ValidNick([])
  {
    var bad := Ascii("bad name!!");
    assert bad[3] == 0x20 && !IsNickByte(bad[3]);
  }
}
