/** lab/auxpow/stratum_codec.py: the version a miner may roll (the `version-rolling` extension of
    BIP 310). A 32-bit number is its eight hexadecimal digits, each four bits. */
module VersionRolling {
  import opened Results
  import opened StratumCodec

  type Word = w: seq<bv4> | |w| == 8 witness [0, 0, 0, 0, 0, 0, 0, 0]

  /** `str.strip`, of white space `bytes.fromhex` also skips. */
  function Strip(s: string): (r: string)
    ensures r != "" ==> !IsSpace(r[0]) && !IsSpace(r[|r| - 1])
    ensures Plain(s) ==> r == s
  {
    if s == "" then ""
    else if IsSpace(s[0]) then Strip(s[1..])
    else if IsSpace(s[|s| - 1]) then Strip(s[..|s| - 1])
    else s
  }

  function Nibbles(s: string): (r: seq<bv4>)
    requires Plain(s)
    ensures |r| == |s|
    ensures forall i :: 0 <= i < |s| ==> r[i] == Digit(s[i]) as bv4
  {
    seq(|s|, i requires 0 <= i < |s| => Digit(s[i]) as bv4)
  }

  /** `int(s, 16)` of eight characters that `validate_hex` accepts: white space around the digits is
      dropped, and inside them it is an error. */
  function IntWord(s: string): Option<Word>
    requires |s| == 8
  {
    var digits := Strip(s);
    if digits == "" || !Plain(digits) || |digits| > 8 then None
    else Some(seq(8 - |digits|, _ => 0) + Nibbles(digits))
  }

  predicate Blank(s: string) {
    forall i :: 0 <= i < |s| ==> IsSpace(s[i])
  }

  /** The digits of `s` are those from `a` to `b`, and there is only white space around them. */
  predicate DigitsAre(s: string, a: nat, b: nat) {
    a < b <= |s| && Plain(s[a..b]) && Blank(s[..a]) && Blank(s[b..])
  }

  lemma {:induction false} StripAround(s: string, a: nat, b: nat)
    requires DigitsAre(s, a, b)
    ensures Strip(s) == s[a..b]
  {
    assert s[a..b][0] == s[a] && s[a..b][b - a - 1] == s[b - 1];
    if a > 0 {
      assert s[..a][0] == s[0];
      var rest := s[1..];
      assert rest[a - 1..b - 1] == s[a..b] && rest[..a - 1] == s[..a][1..] && rest[b - 1..] == s[b..];
      StripAround(rest, a - 1, b - 1);
    } else if b < |s| {
      var n := |s| - 1;
      assert s[b..][n - b] == s[n];
      assert s[..n][a..b] == s[a..b] && s[..n][..a] == s[..a] && s[..n][b..] == s[b..][..n - b];
      StripAround(s[..n], a, b);
    }
  }

  lemma SpaceBefore(s: string, a: nat, b: nat)
    requires s != "" && IsSpace(s[0]) && a <= b < |s| && Blank(s[1..][..a]) && Blank(s[1..][b..])
    ensures Blank(s[..a + 1]) && Blank(s[b + 1..]) && s[a + 1..b + 1] == s[1..][a..b]
  {
    var rest := s[1..];
    assert s[..a + 1] == [s[0]] + rest[..a];
    assert s[b + 1..] == rest[b..];
    assert s[a + 1..b + 1] == rest[a..b];
  }

  lemma SpaceAfter(s: string, n: nat, a: nat, b: nat)
    requires n + 1 == |s| && IsSpace(s[n]) && a <= b <= n && Blank(s[..n][..a]) && Blank(s[..n][b..])
    ensures Blank(s[..a]) && Blank(s[b..]) && s[a..b] == s[..n][a..b]
  {
    assert s[..a] == s[..n][..a];
    assert s[b..] == s[..n][b..] + [s[n]];
  }

  lemma {:induction false} StripFrom(s: string) returns (a: nat, b: nat)
    ensures a <= b <= |s| && Strip(s) == s[a..b] && Blank(s[..a]) && Blank(s[b..])
  {
    if s == "" {
      a, b := 0, 0;
    } else if IsSpace(s[0]) {
      var x, y := StripFrom(s[1..]);
      SpaceBefore(s, x, y);
      a, b := x + 1, y + 1;
    } else if IsSpace(s[|s| - 1]) {
      a, b := StripFrom(s[..|s| - 1]);
      SpaceAfter(s, |s| - 1, a, b);
    } else {
      a, b := 0, |s|;
    }
  }

  /** The word's last digits are those of the text, and zeros before them. */
  predicate WordOf(w: Word, s: string, a: nat, b: nat)
    requires DigitsAre(s, a, b) && |s| == 8
  {
    forall i :: 0 <= i < 8 ==> WordDigit(w, s, a, b, i)
  }

  predicate WordDigit(w: Word, s: string, a: nat, b: nat, i: nat)
    requires DigitsAre(s, a, b) && |s| == 8 && i < 8
  {
    var zeros := 8 - (b - a);
    w[i] == if i < zeros then 0 else Digit(s[a..b][i - zeros]) as bv4
  }

  /** Text is a number exactly when it is digits with only white space around them, and then its last
      digits are those. */
  lemma IntWordExactly(s: string)
    requires |s| == 8
    ensures IntWord(s).Some? <==> exists a: nat, b: nat :: DigitsAre(s, a, b)
    ensures forall a: nat, b: nat :: DigitsAre(s, a, b) ==> WordOf(IntWord(s).value, s, a, b)
  {
    forall a: nat, b: nat | DigitsAre(s, a, b)
      ensures IntWord(s).Some? && WordOf(IntWord(s).value, s, a, b)
    {
      StripAround(s, a, b);
    }
    if IntWord(s).Some? {
      var a, b := StripFrom(s);
      assert DigitsAre(s, a, b);
    }
  }

  function Format(w: Word): (s: string)
    ensures |s| == 8 && Plain(s)
    ensures forall i :: 0 <= i < 8 ==> Digit(s[i]) == w[i] as nat && !('A' <= s[i] <= 'F')
  {
    seq(8, i requires 0 <= i < 8 => HexChar(w[i] as nat))
  }

  lemma Formatted(w: Word)
    ensures IntWord(Format(w)) == Some(w)
  {
    var s := Format(w);
    forall i | 0 <= i < 8
      ensures Nibbles(s)[i] == w[i]
    {
      assert (w[i] as nat) as bv4 == w[i];
    }
    assert seq(0, _ => 0 as bv4) + Nibbles(s) == w;
  }

  function Roll(job: Word, chosen: Word, mask: Word): Word {
    seq(8, i requires 0 <= i < 8 => (job[i] & !mask[i]) | (chosen[i] & mask[i]))
  }

  predicate Inside(chosen: Word, mask: Word) {
    forall i :: 0 <= i < 8 ==> chosen[i] & !mask[i] == 0
  }

  /** `apply_version_bits` */
  function ApplyVersionBits(version: string, bits: Option<string>, mask: Word): Result<string, Error> {
    var v :- Validate(version, 8);
    if bits.None? then Ok(v)
    else
      var b :- Validate(bits.value, 8);
      var chosen, job := IntWord(bits.value), IntWord(v);
      if chosen.None? then Err(BadInteger)
      else if !Inside(chosen.value, mask) then Err(OutsideMask)
      else if job.None? then Err(BadInteger)
      else Ok(Format(Roll(job.value, chosen.value, mask)))
  }

  /** `rolled` is `job` outside the mask and `chosen` inside it. */
  predicate OnlyMaskedBits(rolled: Word, job: Word, chosen: Word, mask: Word) {
    forall i :: 0 <= i < 8 ==> rolled[i] & !mask[i] == job[i] & !mask[i] && rolled[i] & mask[i] == chosen[i]
  }

  lemma RolledDigit(job: bv4, chosen: bv4, mask: bv4)
    requires chosen & !mask == 0
    ensures var r := (job & !mask) | (chosen & mask); r & !mask == job & !mask && r & mask == chosen
  {
  }

  lemma Rolled(job: Word, chosen: Word, mask: Word)
    requires Inside(chosen, mask)
    ensures OnlyMaskedBits(Roll(job, chosen, mask), job, chosen, mask)
  {
    forall i | 0 <= i < 8
      ensures var r := Roll(job, chosen, mask)[i]; r & !mask[i] == job[i] & !mask[i] && r & mask[i] == chosen[i]
    {
      RolledDigit(job[i], chosen[i], mask[i]);
    }
  }

  /** Without version bits the version is the job's, in lower case. */
  lemma NotRolled(version: string, mask: Word)
    ensures var r := ApplyVersionBits(version, None, mask);
            && (r.Ok? <==> |version| == 8 && FromHex(version).Some?)
            && (r.Ok? ==> |r.value| == 8 && forall i :: 0 <= i < 8 ==> r.value[i] == LowerChar(version[i]))
  {
  }

  /** A rolled version differs from the job's only inside the mask, where it is the miner's bits, and
      it is the eight digits of its value whatever the job's text was; bits outside the mask are
      refused. */
  lemma VersionRolled(version: string, bits: string, mask: Word)
    ensures var r := ApplyVersionBits(version, Some(bits), mask);
            r.Ok? <==>
              && |version| == 8 && |bits| == 8 && Validate(version, 8).Ok? && Validate(bits, 8).Ok?
              && IntWord(bits).Some? && Inside(IntWord(bits).value, mask) && IntWord(Lower(version)).Some?
    ensures var r := ApplyVersionBits(version, Some(bits), mask);
            r.Ok? ==>
              && |version| == 8 && |bits| == 8 && |r.value| == 8 && Plain(r.value) && IntWord(r.value).Some?
              && OnlyMaskedBits(IntWord(r.value).value, IntWord(Lower(version)).value, IntWord(bits).value, mask)
  {
    if ApplyVersionBits(version, Some(bits), mask).Ok? {
      var chosen, job := IntWord(bits).value, IntWord(Lower(version)).value;
      Formatted(Roll(job, chosen, mask));
      Rolled(job, chosen, mask);
    }
  }
}
