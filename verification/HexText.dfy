/** lab/auxpow/stratum_codec.py: which texts `bytes.fromhex` reads, and as which bytes. */
module HexText {
  import opened Common
  import opened Results
  import opened StratumCodec

  const LOWER_DIGITS := "0123456789abcdef"
  const UPPER_DIGITS := "0123456789ABCDEF"

  /** A digit's value is its place among the sixteen digits, in either case. */
  lemma DigitsExactly(c: char, d: nat)
    requires d < 16
    ensures IsDigit(c) && Digit(c) == d <==> c == LOWER_DIGITS[d] || c == UPPER_DIGITS[d]
    ensures HexChar(d) == LOWER_DIGITS[d]
  {
  }

  /** The six characters that are white space to `bytes.fromhex`. */
  lemma SpacesExactly(c: char)
    ensures IsSpace(c) <==> c == ' ' || c == '\t' || c == '\n' || c == '\U{0B}' || c == '\U{0C}' || c == '\r'
  {
  }

  predicate AllSpaces(s: string) {
    forall i :: 0 <= i < |s| ==> IsSpace(s[i])
  }

  /** White space, and then the two digits of the first byte. */
  predicate FirstByteAt(s: string, n: nat, b: Byte) {
    && n + 2 <= |s| && AllSpaces(s[..n]) && IsDigit(s[n]) && IsDigit(s[n + 1])
    && b == 16 * Digit(s[n]) + Digit(s[n + 1])
  }

  /** The bytes, two digits each, with white space only before, between and after them. */
  ghost predicate Writes(s: string, b: Bytes)
    decreases |b|, 1
  {
    if b == [] then AllSpaces(s) else exists n: nat :: WritesFirst(s, b, n)
  }

  ghost predicate WritesFirst(s: string, b: Bytes, n: nat)
    requires b != []
    decreases |b|, 0
  {
    FirstByteAt(s, n, b[0]) && Writes(s[n + 2..], b[1..])
  }

  lemma SpaceFirst(s: string, n: nat, b: Byte)
    requires s != "" && IsSpace(s[0])
    ensures !FirstByteAt(s, 0, b) && (FirstByteAt(s, n + 1, b) <==> FirstByteAt(s[1..], n, b))
    ensures n + 3 <= |s| ==> s[n + 3..] == s[1..][n + 2..]
  {
    if n + 3 <= |s| {
      assert s[..n + 1] == [s[0]] + s[1..][..n];
    }
  }

  lemma SpacesFirst(s: string)
    requires s != "" && IsSpace(s[0])
    ensures AllSpaces(s) <==> AllSpaces(s[1..])
  {
    assert s == [s[0]] + s[1..];
  }

  lemma WritesAfterSpace(s: string, b: Bytes)
    requires s != "" && IsSpace(s[0])
    ensures Writes(s, b) <==> Writes(s[1..], b)
  {
    SpacesFirst(s);
    if b != [] {
      forall n: nat
        ensures WritesFirst(s[1..], b, n) <==> WritesFirst(s, b, n + 1)
        ensures !WritesFirst(s, b, 0)
      {
        SpaceFirst(s, n, b[0]);
      }
      if n: nat :| WritesFirst(s, b, n) {
        assert n > 0;
        assert WritesFirst(s[1..], b, n - 1);
      }
    }
  }

  lemma DigitFirst(s: string, n: nat, b: Byte)
    requires s != "" && !IsSpace(s[0]) && FirstByteAt(s, n, b)
    ensures n == 0
  {
  }

  lemma WritesDigits(s: string, b: Bytes)
    requires s != "" && !IsSpace(s[0])
    ensures Writes(s, b) <==> b != [] && WritesFirst(s, b, 0)
  {
    if b != [] {
      if n: nat :| WritesFirst(s, b, n) {
        DigitFirst(s, n, b[0]);
      }
    }
  }

  /** Text is read as bytes exactly when it writes them. */
  lemma {:induction false} FromHexExactly(s: string, b: Bytes)
    ensures FromHex(s) == Some(b) <==> Writes(s, b)
    decreases |s|
  {
    if s == "" {
    } else if IsSpace(s[0]) {
      FromHexExactly(s[1..], b);
      WritesAfterSpace(s, b);
    } else {
      WritesDigits(s, b);
      if |s| >= 2 && b != [] {
        FromHexExactly(s[2..], b[1..]);
        FirstRead(s, b);
      }
    }
  }

  lemma FirstRead(s: string, b: Bytes)
    requires |s| >= 2 && !IsSpace(s[0]) && b != []
    ensures FromHex(s) == Some(b) <==> FirstByteAt(s, 0, b[0]) && FromHex(s[2..]) == Some(b[1..])
  {
    assert s[..0] == "";
    assert b == [b[0]] + b[1..];
  }
}
