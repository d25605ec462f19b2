/** Option, Result and content hashes, shared by every module. */
module Prelude {

  datatype Option<+T> = None | Some(value: T)

  datatype Result<+T, +E> = Ok(value: T) | Err(error: E)

  predicate HexDigit(c: char) {
    '0' <= c <= '9' || 'a' <= c <= 'f'
  }

  /** A content hash as the contracts write it: the algorithm and 64 lower-case hexadecimal digits. */
  predicate Sha256Ref(hash: string) {
    |hash| == 71 && hash[..7] == "sha256:" && forall i :: 7 <= i < 71 ==> HexDigit(hash[i])
  }

  /** Exactly the name of the algorithm followed by 64 of these characters. */
  lemma Sha256RefExactly(hash: string)
    ensures Sha256Ref(hash) <==>
            exists digits :: hash == "sha256:" + digits && |digits| == 64
                             && forall digit <- digits :: digit in "0123456789abcdef"
  {
    if Sha256Ref(hash) {
      var digits := hash[7..];
      assert hash == "sha256:" + digits;
      forall digit <- digits ensures digit in "0123456789abcdef" {
        var i :| 0 <= i < |digits| && digits[i] == digit;
        assert HexDigit(hash[i + 7]);
        HexDigits(digit);
      }
    }
    forall digits
      | hash == "sha256:" + digits && |digits| == 64 && forall digit <- digits :: digit in "0123456789abcdef"
      ensures Sha256Ref(hash)
    {
      assert hash[..7] == "sha256:";
      forall i | 7 <= i < 71 ensures HexDigit(hash[i]) {
        assert hash[i] == digits[i - 7] && digits[i - 7] in digits;
        HexDigits(hash[i]);
      }
    }
  }

  lemma HexDigits(c: char)
    ensures HexDigit(c) <==> c in "0123456789abcdef"
  {
    var all := "0123456789abcdef";
    if HexDigit(c) {
      var i := if c <= '9' then (c - '0') as int else 10 + (c - 'a') as int;
      assert all[i] == c;
    }
  }
}
