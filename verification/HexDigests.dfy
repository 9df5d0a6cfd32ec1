/** Hexadecimal text, as digests and Git object names are written. */
module HexDigests {

  predicate IsHex(text: string, length: nat) {
    |text| == length && forall i :: 0 <= i < |text| ==> '0' <= text[i] <= '9' || 'a' <= text[i] <= 'f'
  }

  const DIGITS := "0123456789abcdef"

  ghost predicate Nibbles(ns: seq<nat>) {
    forall i :: 0 <= i < |ns| ==> ns[i] < 16
  }

  /** The numbers below 16 written as digits. */
  function Written(ns: seq<nat>): (text: string)
    requires Nibbles(ns)
    ensures |text| == |ns| && forall i :: 0 <= i < |ns| ==> text[i] == DIGITS[ns[i]]
  {
    seq(|ns|, i requires 0 <= i < |ns| => DIGITS[ns[i]])
  }

  function NibbleOf(c: char): nat
    requires '0' <= c <= '9' || 'a' <= c <= 'f'
  {
    if c <= '9' then c as int - '0' as int else c as int - 'a' as int + 10
  }

  lemma DigitOf(c: char)
    requires '0' <= c <= '9' || 'a' <= c <= 'f'
    ensures NibbleOf(c) < 16 && DIGITS[NibbleOf(c)] == c
  {
  }

  lemma DigitIsHex(n: nat)
    requires n < 16
    ensures '0' <= DIGITS[n] <= '9' || 'a' <= DIGITS[n] <= 'f'
  {
  }

  /** A text is hexadecimal exactly when it writes that many numbers below 16. */
  lemma HexIff(text: string, length: nat)
    ensures IsHex(text, length) <==> exists ns :: Nibbles(ns) && |ns| == length && text == Written(ns)
  {
    if IsHex(text, length) {
      var ns := seq(|text|, i requires 0 <= i < |text| => NibbleOf(text[i]));
      forall i | 0 <= i < |text| ensures ns[i] < 16 && DIGITS[ns[i]] == text[i] {
        DigitOf(text[i]);
      }
      assert Nibbles(ns) && text == Written(ns);
    }
    if ns :| Nibbles(ns) && |ns| == length && text == Written(ns) {
      forall i | 0 <= i < |text| ensures '0' <= text[i] <= '9' || 'a' <= text[i] <= 'f' {
        DigitIsHex(ns[i]);
      }
    }
  }
}
