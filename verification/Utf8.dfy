/** UTF-8 (section 3 of RFC 3629): the decoder that scripts/prism-recovery-evidence.py reads files with
    accepts exactly the encodings of texts, and the incremental one exactly what can become one. */
module Utf8 {
  import opened Common
  import opened Results
  import opened TextLines

  function EncodeChar(c: char): (b: Bytes)
    ensures 1 <= |b| <= 4
  {
    var code := c as int;
    if code < 0x80 then [code]
    else if code < 0x800 then [0xC0 + code / 0x40, 0x80 + code % 0x40]
    else if code < 0x10000 then [0xE0 + code / 0x1000, 0x80 + code / 0x40 % 0x40, 0x80 + code % 0x40]
    else [0xF0 + code / 0x40000, 0x80 + code / 0x1000 % 0x40, 0x80 + code / 0x40 % 0x40, 0x80 + code % 0x40]
  }

  function Encode(t: string): Bytes {
    if t == "" then [] else EncodeChar(t[0]) + Encode(t[1..])
  }

  /** `n` is four digits of base 64. */
  predicate Spells(n: int, a: int, b: int, c: int, d: int) {
    n == a * 0x40000 + b * 0x1000 + c * 0x40 + d
  }

  lemma LastDigit(n: int, rest: int, digit: int)
    requires n == rest * 0x40 + digit && 0 <= digit < 0x40
    ensures n / 0x40 == rest && n % 0x40 == digit
  {
  }

  lemma LastDigits(n: int, rest: int, two: int)
    requires n == rest * 0x1000 + two && 0 <= two < 0x1000
    ensures n / 0x1000 == rest
  {
  }

  lemma LastThree(n: int, rest: int, three: int)
    requires n == rest * 0x40000 + three && 0 <= three < 0x40000
    ensures n / 0x40000 == rest
  {
  }

  lemma DigitsOf(n: int, a: int, b: int, c: int, d: int)
    requires Spells(n, a, b, c, d) && 0 <= b < 0x40 && 0 <= c < 0x40 && 0 <= d < 0x40
    ensures n / 0x40000 == a && n / 0x1000 % 0x40 == b && n / 0x40 % 0x40 == c && n % 0x40 == d
    ensures n / 0x1000 == a * 0x40 + b && n / 0x40 == a * 0x1000 + b * 0x40 + c
  {
    LastThree(n, a, b * 0x1000 + c * 0x40 + d);
    LastDigits(n, a * 0x40 + b, c * 0x40 + d);
    LastDigit(n, a * 0x1000 + b * 0x40 + c, d);
    LastDigit(n / 0x40, a * 0x40 + b, c);
    LastDigit(n / 0x1000, a, b);
  }

  lemma DigitsSpell(n: int)
    requires n >= 0
    ensures Spells(n, n / 0x40000, n / 0x1000 % 0x40, n / 0x40 % 0x40, n % 0x40)
    ensures n / 0x1000 == n / 0x40000 * 0x40 + n / 0x1000 % 0x40
    ensures n / 0x40 == n / 0x1000 * 0x40 + n / 0x40 % 0x40
  {
    var rest := n / 0x40;
    var start := rest / 0x40;
    LastDigits(n, start, rest % 0x40 * 0x40 + n % 0x40);
    LastThree(n, start / 0x40, start % 0x40 * 0x1000 + rest % 0x40 * 0x40 + n % 0x40);
  }

  /** The first character that is decoded is the one whose encoding the bytes start with. */
  lemma FirstEncodes(b: Bytes)
    requires b != [] && DecodeFirst(b).Some?
    ensures EncodeChar(DecodeFirst(b).value.0) == b[..DecodeFirst(b).value.1]
  {
    var lead := b[0] as int;
    if lead < 0x80 {
    } else if lead < 0xE0 {
      DigitsOf(DecodeFirst(b).value.0 as int, 0, 0, lead - 0xC0, Payload(b, 1));
    } else if lead < 0xF0 {
      DigitsOf(DecodeFirst(b).value.0 as int, 0, lead - 0xE0, Payload(b, 1), Payload(b, 2));
    } else {
      DigitsOf(DecodeFirst(b).value.0 as int, lead - 0xF0, Payload(b, 1), Payload(b, 2), Payload(b, 3));
    }
  }

  lemma FirstDecodes(c: char, rest: Bytes)
    ensures DecodeFirst(EncodeChar(c) + rest) == Some((c, |EncodeChar(c)|))
  {
    DigitsSpell(c as int);
  }

  /** Bytes decode exactly to the text they are the encoding of. */
  lemma {:induction false} DecodeExactly(b: Bytes, t: string)
    ensures Decode(b) == Some(t) <==> b == Encode(t)
    decreases |b| + |t|
  {
    if b != [] && DecodeFirst(b).Some? {
      var (c, n) := DecodeFirst(b).value;
      FirstEncodes(b);
      assert b == EncodeChar(c) + b[n..];
      if t != "" {
        DecodeExactly(b[n..], t[1..]);
        assert t == [t[0]] + t[1..];
      }
    }
    if t != "" && b == Encode(t) {
      FirstDecodes(t[0], Encode(t[1..]));
    }
  }

  /** More bytes that make a character of one that is broken off. */
  function Missing(b: Bytes): (more: Bytes)
    requires b != []
    ensures forall i :: 0 <= i < |more| ==> 0x80 <= more[i] < 0xC0
  {
    var lead := b[0];
    var second := if lead == 0xE0 then 0xA0 else if lead == 0xF0 then 0x90 else 0x80;
    var length := if lead < 0xE0 then 2 else if lead < 0xF0 then 3 else 4;
    if |b| >= length then []
    else if |b| == 1 then [second] + seq(length - 2, _ => 0x80)
    else seq(length - |b|, _ => 0x80)
  }

  lemma MissingDecodes(b: Bytes)
    requires b != [] && StopsInside(b)
    ensures DecodeFirst(b + Missing(b)).Some? && DecodeFirst(b + Missing(b)).value.1 == |b + Missing(b)|
  {
    var all := b + Missing(b);
    assert forall i :: 0 <= i < |b| ==> all[i] == b[i];
    assert forall i :: |b| <= i < |all| ==> all[i] == Missing(b)[i - |b|];
    forall i | 1 <= i < |all|
      ensures Tail(all, i)
    {
      assert i < |b| ==> Tail(b, i);
    }
  }

  /** What bytes start with is decoded whatever follows, and what is broken off is so until more follow. */
  lemma FirstWithMore(b: Bytes, more: Bytes)
    requires b != []
    ensures DecodeFirst(b).Some? ==> DecodeFirst(b + more) == DecodeFirst(b)
    ensures DecodeFirst(b).None? && DecodeFirst(b + more).Some? ==> StopsInside(b)
  {
    assert forall i :: 0 <= i < |b| ==> (b + more)[i] == b[i];
    assert forall i :: 0 <= i < |b| ==> Tail(b + more, i) == Tail(b, i);
  }

  ghost predicate IsText(b: Bytes) {
    exists t :: IsEncoding(b, t)
  }

  predicate IsEncoding(b: Bytes, t: string) {
    b == Encode(t)
  }

  /** Some more bytes make it the encoding of a text. */
  ghost predicate StartsText(b: Bytes) {
    exists more :: IsTextWith(b, more)
  }

  ghost predicate IsTextWith(b: Bytes, more: Bytes) {
    IsText(b + more)
  }

  lemma TextExactly(b: Bytes)
    ensures Decode(b).Some? <==> IsText(b)
  {
    if Decode(b).Some? {
      DecodeExactly(b, Decode(b).value);
      assert IsEncoding(b, Decode(b).value);
    }
    if t :| IsEncoding(b, t) {
      DecodeExactly(b, t);
    }
  }

  predicate DecodesWith(b: Bytes, more: Bytes) {
    Decode(b + more).Some?
  }

  /** An incremental decoder accepts exactly what some text's encoding starts with. */
  lemma StartsExactly(b: Bytes)
    ensures DecodesSoFar(b) <==> StartsText(b)
  {
    SomeMoreDecodes(b);
    forall more
      ensures DecodesWith(b, more) <==> IsTextWith(b, more)
    {
      TextExactly(b + more);
    }
  }

  lemma {:induction false} SomeMoreDecodes(b: Bytes)
    ensures DecodesSoFar(b) <==> exists more :: DecodesWith(b, more)
  {
    if b == [] {
      assert DecodesWith(b, []);
    } else if DecodeFirst(b).Some? {
      var n := DecodeFirst(b).value.1;
      SomeMoreDecodes(b[n..]);
      forall more: Bytes
        ensures DecodesWith(b, more) <==> DecodesWith(b[n..], more)
      {
        FirstWithMore(b, more);
        assert (b + more)[n..] == b[n..] + more;
      }
    } else {
      if StopsInside(b) {
        MissingDecodes(b);
        assert (b + Missing(b))[|b + Missing(b)|..] == [];
        assert DecodesWith(b, Missing(b));
      }
      if more :| DecodesWith(b, more) {
        FirstWithMore(b, more);
      }
    }
  }

  // ----- line ends

  /** A line's end, in any of the three ways, is read as a newline. */
  lemma {:induction false} UniversalLine(line: string, end: string, rest: string)
    requires '\n' !in line && '\r' !in line
    requires end == "\n" || end == "\r\n" || (end == "\r" && (rest == "" || rest[0] != '\n'))
    ensures Universal(line + end + rest) == line + "\n" + Universal(rest)
  {
    if line == "" {
      assert line + end + rest == end + rest;
      assert (end + rest)[|end|..] == rest;
    } else {
      UniversalLine(line[1..], end, rest);
      var all := line + end + rest;
      assert all[0] == line[0] && all[1..] == line[1..] + end + rest;
      assert [line[0]] + (line[1..] + "\n" + Universal(rest)) == line + "\n" + Universal(rest);
    }
  }
}
