/**
 * Invite codes: `makeRandomCode`, the `VIP-` format every stored code has, and the test
 * `ensureInviteCode` applies to an insert error to decide whether to retry.
 */
module InviteCodes {
  import opened JsText

  /** The code alphabet: upper-case letters and digits without the look-alikes of `O 0 I 1 L`. */
  const Alphabet: string := "ABCDEFGHJKMNPQRSTUVWXYZ23456789"
  const Prefix: string := "VIP-"
  /** The number of random characters after the prefix (`makeRandomCode(8)`). */
  const CodeLength: nat := 8

  /** A code character: an upper-case letter other than I, L and O, or a digit from 2 to 9. */
  predicate IsCodeChar(c: char) {
    ('A' <= c <= 'Z' && c != 'I' && c != 'L' && c != 'O') || ('2' <= c <= '9')
  }

  /** The 31 symbols are code characters, so nothing easily misread (O, 0, I, 1, L) appears in a code. */
  lemma AlphabetUnambiguous()
    ensures |Alphabet| == 31
    ensures forall c :: c in Alphabet ==> IsCodeChar(c)
    ensures 'O' !in Alphabet && '0' !in Alphabet && 'I' !in Alphabet && '1' !in Alphabet && 'L' !in Alphabet
  {
  }

  /** A value of `Math.random()`. */
  predicate IsDraw(d: real) {
    0.0 <= d < 1.0
  }

  predicate AreDraws(ds: seq<real>) {
    forall i :: 0 <= i < |ds| ==> IsDraw(ds[i])
  }

  /** `alphabet[Math.floor(d * alphabet.length)]`. */
  function Pick(d: real): (c: char)
    requires IsDraw(d)
    ensures c in Alphabet && IsCodeChar(c)
  {
    AlphabetUnambiguous();
    Alphabet[(d * (|Alphabet| as real)).Floor]
  }

  /** The code the characters picked by the draws spell, one character per draw. */
  function CodeFromDraws(ds: seq<real>): (code: string)
    requires AreDraws(ds)
    ensures |code| == |ds|
    ensures forall i :: 0 <= i < |code| ==> code[i] in Alphabet
  {
    if ds == [] then [] else CodeFromDraws(ds[..|ds| - 1]) + [Pick(ds[|ds| - 1])]
  }

  /** The i-th character of the code is the one the i-th draw picks. */
  lemma {:induction false} PerDraw(ds: seq<real>, i: nat)
    requires AreDraws(ds) && i < |ds|
    ensures CodeFromDraws(ds)[i] == Pick(ds[i])
  {
    var init := ds[..|ds| - 1];
    if i < |init| {
      PerDraw(init, i);
    }
  }

  /**
   * `makeRandomCode(len)`: appends `len` characters, each picked by the next value of
   * `Math.random()` (here the first `len` draws).
   */
  method MakeRandomCode(len: nat, draws: seq<real>) returns (out: string)
    requires len <= |draws| && AreDraws(draws)
    ensures out == CodeFromDraws(draws[..len])
    ensures |out| == len
    ensures forall i :: 0 <= i < |out| ==> out[i] in Alphabet && IsCodeChar(out[i])
  {
    AlphabetUnambiguous();
    out := "";
    for i := 0 to len
      invariant out == CodeFromDraws(draws[..i])
    {
      assert draws[..i + 1][..i] == draws[..i];
      out := out + [Pick(draws[i])];
    }
  }

  /** The shape of every code `ensureInviteCode` stores: `VIP-` and eight alphabet characters. */
  predicate IsInviteCode(s: string) {
    && |s| == |Prefix| + CodeLength
    && s[..|Prefix|] == Prefix
    && forall i :: |Prefix| <= i < |s| ==> s[i] in Alphabet
  }

  /** `VIP-` followed by any eight alphabet characters is a well-formed code. */
  lemma PrefixedIsInviteCode(suffix: string)
    requires |suffix| == CodeLength
    requires forall i :: 0 <= i < |suffix| ==> suffix[i] in Alphabet
    ensures IsInviteCode(Prefix + suffix)
  {
    var s := Prefix + suffix;
    assert s[..|Prefix|] == Prefix;
    forall i | |Prefix| <= i < |s| ensures s[i] in Alphabet {
      assert s[i] == suffix[i - |Prefix|];
    }
  }

  /** Upper-casing a well-formed code leaves it as it is, so a typed code is found in either case. */
  lemma UpperOfInviteCode(s: string)
    requires IsInviteCode(s)
    ensures ToUpper(s) == s
  {
    AlphabetUnambiguous();
    forall i | 0 <= i < |s| ensures UpperChar(s[i]) == s[i] {
      if i < |Prefix| {
        assert s[i] == Prefix[i];
      } else {
        assert s[i] in Alphabet;
      }
    }
  }

  /**
   * The insert error `ensureInviteCode` retries on: its message, lower-cased, mentions
   * `duplicate` or `unique`. Every other error is rethrown.
   */
  predicate IsCollision(message: string) {
    Contains(ToLower(message), "duplicate") || Contains(ToLower(message), "unique")
  }

  /** The message of a unique-constraint violation the store reports. */
  const DuplicateKeyMessage: string := "duplicate key value violates unique constraint"

  /** A unique-constraint violation reported by the store is always retried. */
  lemma DuplicateKeyIsCollision()
    ensures IsCollision(DuplicateKeyMessage)
  {
    var m, word := DuplicateKeyMessage, "duplicate";
    assert m == word + m[9..];
    assert forall c :: c in word ==> !('A' <= c <= 'Z');
    forall i | 0 <= i < 9 ensures ToLower(m)[i] == word[i] {
      assert m[i] == word[i] && word[i] in word;
    }
    assert ToLower(m)[..9] == word;
  }
}
